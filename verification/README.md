# Verified model of the attestation suite

The attestation suite watches several blockchains and votes, round after round, on which
attestation requests are true.  This project models its five stateful cores and proves what they
promise to each other.

1. **A round** (`Subsets`, `TextOrder`, `VoteChoice`, `VoteAgreement`, `VoteLengths`, `Bitmask`, `Merkle`,
   `RoundState`, `RoundInvariant`, `CommitReveal`, `Submissions`, `AgreedLeaves`, `Majority`, `RoundCompletion`,
   `RoundCallbacks`, `AttestationRound`, `EpochSettings`, `VotingWindow`, `AttestationRoundManager`): bit votes come in, a mask is agreed on, the
   hashes of the agreed requests become a Merkle tree, its root is committed by one submission and
   revealed by the next.
2. **The indexer** (`Storage`, `Interlacing`, `TableRecovery`, `Continuity`, `IndexerState`, `IndexerRuns`,
   `ConfirmedSaves`, `Indexer`, `IndexedQueries`, `NonExistence`, `BelowBottom`, `LostPayments`): blocks complete in any order and are saved strictly one after
   the other into two tables that take turns, and a verifier concludes from these tables that a
   payment was never made.
3. **The scheduler of a source** (`PriorityQueue`, `SourceManager`): every request moves between a queue, a
   heap of delayed retries and the set in flight, under calls that re-enter each other.  `RoundScheduling` puts
   rounds and schedulers together.
4. **The request codec** (`Hex`, `HexMeaning`, `Codec`, `CodecLaws`, `CodecOutcomes`): fixed-width hex encoding driven by any scheme.
5. **Small structures** (`UnconfirmedBlocks`, `Queue`, `CachedClient`, `TicketLock`): confirmation counts over
   a tree of blocks, a cache with first-in-first-out eviction, a ticket lock.

An object the source updates in place is a class here, with the same fields.  Where runs matter, the
class is proved to compute functions on a value of its state (`RoundState`, `IndexerState`, the lock),
and the theorems about runs - any sequence of callbacks from the start - are proved about those functions.
Hashes are natural numbers in the order of their texts, and the hash functions are parameters:
injectivity on unordered pairs is a premise only where a lemma says so.  The digits of a vote are a
sequence of digit values, prefix and letter case being normalised away.  Random numbers, the clock, the
answers of verifiers and clients are parameters, or any values at all.

## What is proved of whole runs

* Every submission that reveals a round which did not abstain when it was committed shows exactly the root
  and random committed for it, and they hash to the committed mask (`CommitRevealBinding`); no callback in
  between changes any of the committed data (`CommittedDataFixed`).  The leaves of a
  committed tree are exactly the hashes of valid requests that the votes of at least half of the assigners agreed on
  when the round became chosen (`RunsCommitAgreedLeaves`); with all requests valid something is chosen exactly when half of them
  agree on anything (`RunsChooseIffHalf`), and no round is ever rejected (`NeverRejected`).  A submission is left out exactly when this round
  and both its neighbours are empty (`SubmitSkipsIff`), so that nothing that was prepared goes uncommitted (`PreparedIsCommitted`).
* Once a block has closed the voting of a round no later event changes its votes, which are the last
  ones cast in the window (`VotesFinalAfterEnd`, `VotesAreLast`).
* In every run of the indexer, through all orders of completion, changes of the expected hash and restarts,
  blocks are saved one by one (`SavesInOrder`), each exactly when it is confirmed and processed with the expected hash
  (`LoopSavesIff`, `SyncSavesIff`, `SavesAreConfirmed`), no processed block is lost (`ProcessedIsKept`), the tables are contiguous (`TablesAreContiguous`), what has been saved
  since the last clean start and is within the number range or the time range is still there (`RunsRetain`), and the continuity
  check never resets the database (`StopsOnlyAtRestart`).  So the answer that a payment does not exist is right for every block
  of the range that was ever saved, and the range covers the deadlines, if only the minimal block is not below the stored bottom
  (`NonExistenceSound`, `RangeCoversDeadlines`).  Every answer is told by the request and the blocks ever saved (`Answers`).
* Every request handed to the scheduler is in exactly one place at any time, is sent at most one time
  more than retries are allowed, never before it is due nor after its deadline, and is reported once
  (`Conservation`).  Between callbacks none is in hand, so that each one waits or has a call outstanding (`RestConserves`).  So rounds beside such schedulers, though nothing in a round guards against a second verdict,
  never get one (`ScheduledRunsAreRuns`), take a request for valid only if its verifier did (`ValidOnlyIfVerified`), and never count more processed requests than they have (`VerdictsNeverExceed`).

## What turned out not to hold as documented

In each case the code is kept as it is, the exact condition is proved, and a lemma shows the difference at an input.

* `chooseCandidate` sorts its candidates as texts, so nine common ones beat ten (`NineBeatsTen`).  The chosen mask
  has the most ones exactly when no group's count overtakes the greatest one in decimal text order
  (`OptimumIff`), as when all counts have equally many digits (`OptimumForCountsOfOneWidth`).
* With votes of different lengths the mask may have bits that too few voters set, counted from the left as indices are
  (`UnequalLengthsMislead`).  For votes of given byte lengths, whatever they are, agreed indices are supported exactly when groups
  are single votes or all lengths agree (`SupportedForLengthsIff`); counted from the right they always are
  (`AgreedBitsSupportedFromRight`).
* A round whose voting is closed before its commit phase begins calculates no result at that point, and the start of the commit
  phase does not make up for it: it gets one only when another request is processed, and abstains otherwise (`ClosedWaitsForRequest`).
* Before the first epoch starts, division rounds towards zero, and the epoch is off by one except at
  exact multiples (`EpochOfTime`, `BeforeFirstEpoch`).
* `getOffsetInBufferWindow` adds the time of the epochs passed where it should subtract it, and is right exactly in epoch 0
  (`OffsetRightOnlyInFirstEpoch`, `OffsetOfFifthEpoch`).
* The documentation of the configuration (`docs/config/config-attester-client.md`, line 19) gives the commit time as a positive number that
  is subtracted.  The code adds it, and the submission is where it is due exactly for negative values that
  reach back no further than the commit phase (`SubmissionTiming`, `PositiveOffsetIsLate`).
* The request an encoded request is parsed to is accepted as equal exactly when its byte values have the full
  length of their fields (`RoundTripEqual`).  Different requests may be encoded alike, exactly when they are of one type
  and differ in leading zeros of byte values only (`EncodedAlikeIff`, `ShorterCodeComesBackLonger`).
* A block without transactions has a row with time zero.  As the first row of a table it can make a restart go on with
  the wrong table (`EmptyFirstBlockMisleadsRestart`), or with the right one but turn it too early
  (`EmptyFirstBlockRotatesEarly`); either way rows are dropped that are in range.  Whatever blocks are saved next, a restart loses nothing
  in range and leaves no gap exactly when only one table has rows, or the first rows name the active one as the later and - with times in
  order - the last block of the other one is no later than that row claims, or out of the time range already
  (`RestartSafeIff`).  The theorems about runs ask just that of a restart.
* The verifier does not compare the minimal block with the bottom of the transaction tables.  In every run its answer that there
  is no payment is wrong exactly when a block of the range that was saved, with a number below the stored bottom, had one (`ConfirmedWrongIff`); the
  database does not show it (`SameAnswerAlthoughPaid`).  So the missing comparison is the exact guard: the answer is right of every history that
  leaves a database exactly when the minimal block is not below its bottom (`GuardIsExact`).  There are runs in which it is wrong after rotations
  (`BelowBottomUnsound`), and after a reset, which leaves the headers of the blocks it drops (`ResetUnsound`).
* Confirmation counts stay right exactly when no child of the new block came before it (`CountsKeptIff`, `ChildBeforeParent`).
* A waiter that times out moves the display on, and lets a call in beside another one exactly when some call is at work and the next
  ticket is still waiting and is not its own (`TimeoutLetsInASecondIff`).  In a run two calls are at work only after such a timeout (`SecondNeedsTimeout`, `SecondEnters`), and a
  call whose number has been passed over never enters (`PassedNeverEnters`).
* Without a chunk size, or without a block cache size, the cache is never cut and holds all that was ever inserted (`CacheGrows`); otherwise
  timely cleanups bound it (`CachesBounded`).

## Model

| member | source | states |
|---|---|---|
| Subsets.HexStringAndMeaning | src/choose-subsets-lib/subsets-lib.ts:57-72 | The conjunction of two votes is as long as the longer one and has a bit, counted from the right, exactly where both have it. |
| Subsets.HexStringAndOfAny | src/choose-subsets-lib/subsets-lib.ts:57-72 | Of any two texts: every digit of the conjunction, a last one that makes no byte being dropped, and a single zero if there is none. |
| Subsets.CountOnes | src/choose-subsets-lib/subsets-lib.ts:79-92 | The loops over bytes and bits count the ones of the whole bytes of the text. |
| Subsets.GetSubsetsOfSize | src/choose-subsets-lib/subsets-lib.ts:132-159 | Fails exactly when too many elements are asked for; otherwise gives the elements at the increasing selections of positions, one by one in the reference order, in spite of its pruning. |
| Subsets.SelectionsComplete | src/choose-subsets-lib/subsets-lib.ts:122-131 | The reference enumeration misses no increasing selection. |
| Subsets.SelectionsDistinct | src/choose-subsets-lib/subsets-lib.ts:122-131 | It gives none twice. |
| Subsets.SelectionsCount | src/choose-subsets-lib/subsets-lib.ts:122-131 | It has as many members as there are subsets of that size: the factorial formula. |
| VoteChoice.ChooseCandidate | src/choose-subsets-lib/subsets-lib.ts:103-120 | Fails exactly on a group size of zero or above the number of votes; otherwise returns the mask of the last candidate in text order. |
| VoteChoice.IntersectAllMeaning | src/choose-subsets-lib/subsets-lib.ts:110-114 | The candidate of a group has exactly the bits all its votes have. |
| VoteChoice.ChosenUnique | src/choose-subsets-lib/subsets-lib.ts:118-119 | No two masks can be last in the order. |
| VoteAgreement.AgreedVoteIgnoresOrder | src/choose-subsets-lib/subsets-lib.ts:94-120 | Any order of the same votes gives the same mask. |
| VoteAgreement.AgreedBitsSupportedFromRight | src/choose-subsets-lib/subsets-lib.ts:94-120 | Every bit of the chosen mask, counted from the right, is set in at least group-size many votes, of whatever lengths. |
| VoteAgreement.AgreedBitsSupported | src/choose-subsets-lib/subsets-lib.ts:94-120 | For votes of one length or without any bit the same holds of bits by index, and the mask has that length. |
| VoteLengths.SupportedForLengthsIff | src/choose-subsets-lib/subsets-lib.ts:57-119 | For any byte lengths and group size: the agreed indices of all votes of these lengths have group-size many votes behind them exactly when the group size is one or all lengths are equal. |
| VoteLengths.UnequalLengthsMislead | src/choose-subsets-lib/subsets-lib.ts:62-66 | With three assigners, two votes of different lengths and none from the third agree on an index that fewer than the required two of them have set. |
| VoteAgreement.OptimumIff | src/choose-subsets-lib/subsets-lib.ts:97-119 | The chosen mask has the most ones of all groups exactly when no count overtakes the greatest one as a text. |
| VoteAgreement.OptimumForCountsOfOneWidth | src/choose-subsets-lib/subsets-lib.ts:97-119 | So it has when all counts have the same number of decimal digits. |
| VoteAgreement.TiesBrokenByText | src/choose-subsets-lib/subsets-lib.ts:97-99 | Among groups with as many ones the greatest text wins. |
| VoteAgreement.NineBeatsTen | src/choose-subsets-lib/subsets-lib.ts:118 | Nine ones are chosen over ten. |
| TextOrder.TextOrderMeans | src/choose-subsets-lib/subsets-lib.ts:118 | Of two texts that one sorts first which is smaller at the first difference, or which the other goes on from. |
| TextOrder.CountOrder | src/choose-subsets-lib/subsets-lib.ts:118 | How the sort orders candidates with different counts: by number unless the smaller count overtakes the larger one as a text. |
| Majority.AgreedIffShared | src/choose-subsets-lib/subsets-lib.ts:94-120 | The chosen mask has a bit at all exactly when some bit, counted from the right, is set in group-size many votes. |
| Bitmask.BitmaskAccumulator.AddBit | src/choose-subsets-lib/BitmaskAccumulator.ts:66-80 | Appends one bit, or fails once the mask is full; the byte it adds to cannot overflow. |
| Bitmask.BitmaskAccumulator.FromHex | src/choose-subsets-lib/BitmaskAccumulator.ts:87-106 | Reads the bytes of a text, an odd last digit being completed by zero; fails exactly on what is no hex text. |
| Bitmask.BytesFromHexMeans | src/choose-subsets-lib/BitmaskAccumulator.ts:87-106 | What is read from any text: each byte from its two characters in either case, a last one on its own being the high half, and an error for no characters or any that is not hex. |
| Bitmask.BitmaskAccumulator.FromBitString | src/choose-subsets-lib/BitmaskAccumulator.ts:113-129 | Reads exactly the texts of 0 and 1, as their flags. |
| Bitmask.BitmaskAccumulator.ToBitString | src/choose-subsets-lib/BitmaskAccumulator.ts:135-142 | Prints each bit at its index. |
| Bitmask.BitmaskAccumulator.ToIndices | src/choose-subsets-lib/BitmaskAccumulator.ts:156-167 | Lists exactly the set bits below the length, in increasing order. |
| Bitmask.BitmaskAccumulator.HasActiveBitsBeyond | src/choose-subsets-lib/BitmaskAccumulator.ts:173-182 | Answers true exactly when some set bit has that index or a greater one. |
| Bitmask.NextWeight | src/choose-subsets-lib/BitmaskAccumulator.ts:66-80 | Adding the weight of the next bit fits a byte, sets that bit and no other. |
| Bitmask.HexRoundTrip | src/choose-subsets-lib/BitmaskAccumulator.ts:87-107 | Printing the bytes of a mask and reading them back gives the same bytes. |
| Bitmask.RoundHexIsLastByte | src/attester/BitVoteData.ts:27-33 | The round check byte is read back as the round modulo 256. |
| Bitmask.ReadsIff | src/attester/BitVoteData.ts:12-20 | A vote event is read exactly when there are two characters behind the prefix. |
| Bitmask.MaskRoundTrip | src/attester/BitVoteData.ts:27-42 | For any flags, printing the mask behind the round byte and reading the vote passes the round check and gives exactly the indices of the true flags. |
| AttestationRounds.AttestationRound.OnSubmitBitVote | src/attester/AttestationRound.ts:864-900 | A vote is sent exactly in the choose phase and with some request valid, and every reader finds in it the requests found valid. |
| AttestationRounds.AttestationRound.RecordBitVote | src/attester/AttestationRound.ts:195-222 | The recorded mask reads as the validity flags, and consists of zeros exactly when no request is valid. |
| AttestationRounds.AttestationRound.CalculateBitVotingResult | src/attester/AttestationRound.ts:254-298 | Computes the voting result for groups of half the assigners, rounded up: an empty mask when too few voted or nothing is agreed, none when a bit is beyond the known requests, the agreed mask otherwise. |
| Majority.ResultIff | src/attester/AttestationRound.ts:254-298 | The result is the mask without bits exactly when no bit is shared by half of the assigners; otherwise it has bits and none beyond the requests, or there is none. |
| Majority.IndicesIff | src/attester/AttestationRound.ts:254-317 | With votes of one length and no bit beyond the requests, an index is chosen exactly when half of the assigners set the bit of one index. |
| Majority.RunsChooseIffHalf | src/attester/AttestationRound.ts:254-357 | In every run the result of a round whose requests are all valid has an index exactly when the registered votes of half of the assigners share one, and every index of it is shared like that. |
| Majority.RunsNeedHalf | src/attester/AttestationRound.ts:268-278 | In every run nothing is chosen when fewer than half of the assigners cast a vote for anything. |
| AttestationRounds.AttestationRound.TryCalculateBitVotingResults | src/attester/AttestationRound.ts:303-357 | Updates the round as the function of the same name in `RoundState` does. |
| AttestationRounds.AttestationRound.CheckRequired | src/attester/AttestationRound.ts:318-345 | The loop finds whether a required request cannot be obtained, and whether all are valid. |
| AttestationRounds.AttestationRound.AddAttestation | src/attester/AttestationRound.ts:381-415 | A duplicate is only counted; an unsupported or refused request is added and processed at once; any other is added and handed over. |
| AttestationRounds.AttestationRound.RegisterBitVote | src/attester/AttestationRound.ts:424-429 | Only members of the default set vote, and their last vote counts. |
| AttestationRounds.AttestationRound.CloseBitVoting | src/attester/AttestationRound.ts:240-249 | Closes the voting once, then calculates the result and prepares the commit data. |
| AttestationRounds.AttestationRound.TryPrepareCommitData | src/attester/AttestationRound.ts:491-604 | The loop over the chosen requests waits, rejects, abstains or builds the tree and masks its root, as the function on the value says. |
| AttestationRounds.AttestationRound.AbstainVoteRound | src/attester/AttestationRound.ts:610-625 | Commits a masked zero root and reveals zeros. |
| AttestationRounds.AttestationRound.RejectVoteRound | src/attester/AttestationRound.ts:630-648 | Only a rejected round; otherwise the process ends. |
| AttestationRounds.AttestationRound.OnAttestationProcessed | src/attester/AttestationRound.ts:699-718 | Counts the verdict; more verdicts than requests end the process. |
| AttestationRounds.AttestationRound.OnFirstCommit | src/attester/AttestationRound.ts:724-757 | Commits a round without predecessor, with the saved reveal or zeros. |
| AttestationRounds.AttestationRound.OnSubmitAttestation | src/attester/AttestationRound.ts:763-859 | Updates this round and the next one, and submits, as the function on their values does; what that means is stated by the rows of `Submissions`. |
| Submissions.SubmitSkipsIff | src/attester/AttestationRound.ts:763-859 | In every run a revealing round makes no submission exactly when it has neighbours on both sides and, with the next one made ready, all three are empty; and how both rounds are left, with a receipt and without. |
| Submissions.NoSubmitBeforeReveal | src/attester/AttestationRound.ts:784-788 | Outside the reveal phase nothing is submitted or changed. |
| Submissions.SubmissionSends | src/attester/AttestationRound.ts:801-843 | In every run a submission goes to the second buffer after the round, commits the next round as it is left or zeros, and reveals this one as it was prepared or committed, or zeros. |
| Submissions.PreparedIsCommitted | src/attester/AttestationRound.ts:801-859 | In every run a next round that is prepared and does not abstain is committed with its root, random and mask, and the root is that of its tree. |
| Submissions.FirstCommitSends | src/attester/AttestationRound.ts:724-757 | In every run a first commit sends the round as it is left to the buffer after it, and the saved root and random of the round before, each or zero; a round that cannot be committed abstains. |
| AttestationRounds.SourceLimiter.CanProceedWithValidation | src/attester/source/SourceLimiter.ts:33-50 | Refuses exactly when the weight let through so far has reached the limit, or the type is not configured. |
| AttestationRounds.RoundWeightBounded | src/attester/source/SourceLimiter.ts:33-50 | What is let through exceeds the limit by less than its last weight. |
| RoundInvariant.ChosenPrepares | src/attester/AttestationRound.ts:491-604 | From a chosen result in the commit phase data is prepared: the branches that wait or reject are unreachable. |
| RoundInvariant.OnlyAgreedLeaves | src/attester/AttestationRound.ts:254-357 | The leaves are exactly the hashes at the chosen indices, all of them valid, each set in the counted votes of at least half of the assigners. |
| RoundCallbacks.CallbackFollows | src/attester/AttestationRound.ts:240-718 | In every run: the phase, the requests, their count, the votes and the links of a round after each callback. |
| RoundCallbacks.ResultWhen | src/attester/AttestationRound.ts:303-357 | In every run a round gets its result, and prepares with the random drawn then, exactly when its voting is being closed or a request has been processed since, in its commit phase, and the requests wanted are all valid or one cannot be had; the process ends exactly when the votes point beyond the requests. |
| RoundCallbacks.ClosedWaitsForRequest | src/attester/AttestationRound.ts:240-249 | In every run a round whose voting was closed without a result gets none as long as no request of it is processed. |
| RoundCallbacks.CommitStartPrepares | src/attester/AttestationRound.ts:669-677 | The start of the commit phase prepares a round that is chosen already, and changes nothing else of one that is not. |
| RoundCallbacks.WaitsWhen | src/attester/AttestationRound.ts:491-512 | In any state data is prepared of a chosen round only, in its commit phase, and unless it is rejected. |
| RoundCallbacks.RejectMeans | src/attester/AttestationRound.ts:630-648 | In any state: what a rejected round commits to, with its random to be revealed; any other round ends the process. |
| RoundCallbacks.RejectsIff | src/attester/AttestationRound.ts:515-533 | In any state a chosen round is rejected exactly when the first request it wants that is not valid is invalid or over the limit, and otherwise waits. |
| CommitReveal.RunKeeps | src/attester/AttestationRound.ts:724-859 | Every state of every run of linked rounds satisfies the round invariant and still holds what was committed. |
| CommitReveal.CommitRevealBinding | src/attester/AttestationRound.ts:784-859 | In every run a round that did not abstain when it was committed reveals the root and random committed for it, and they hash to the committed mask. |
| CommitReveal.RevealedIsCommittedOrZero | src/attester/AttestationRound.ts:784-829 | In any state of a run, what is shown hashes to the last commit, or is the pair of zeros of a round that abstained or has nothing prepared. |
| CommitReveal.NeverRejected | src/attester/AttestationRound.ts:515-545 | No round of any run is ever rejected. |
| CommitReveal.CommittedDataFixed | src/attester/AttestationRound.ts:784-859 | In every run, no callback changes root, random, mask, tree or indices of a committed round, nor whether it abstains. |
| CommitReveal.IndicesFixed | src/attester/AttestationRound.ts:303-357 | No callback changes the indices once they are calculated. |
| AgreedLeaves.CountedAreRegistered | src/attester/AttestationRound.ts:303-357 | In every run the votes a round has counted are those registered in the state in which a callback made it chosen. |
| AgreedLeaves.RunsCommitAgreedLeaves | src/attester/AttestationRound.ts:254-604 | In every run a tree holds exactly the validated requests whose bits the votes registered at that moment by at least half of the assigners had set, and its root is the root of the round. |
| RoundCompletion.RunsCountProcessed | src/attester/AttestationRound.ts:699-718 | In every run the counter of a round is the number of its requests with a final verdict. |
| RoundCompletion.ProcessedNeverExceeds | src/attester/AttestationRound.ts:701-706 | Where a verdict is final, the exit for too many verdicts is unreachable. |
| RoundScheduling.ReportsAtMostOnce | src/attester/source/SourceManager.ts:320-341 | Of the requests of a round a scheduler reports at most as many as there are, and fewer while one of them is not done. |
| RoundScheduling.ScheduledRunsAreRuns | src/attester/AttestationRound.ts:699-718 | Rounds that take any number of verdicts, beside the schedulers of their requests, only ever get a first one. |
| RoundScheduling.VerdictsNeverExceed | src/attester/AttestationRound.ts:701-706 | So beside schedulers the exit for too many verdicts is unreachable. |
| RoundScheduling.ValidOnlyIfVerified | src/attester/source/SourceManager.ts:258-280 | In every scheduled run a request of a round is valid only if it was handed to its scheduler and the verifier said so, with the message intact. |
| Merkle.MerkleTree.Build | src/utils/data-structures/MerkleTree.ts:135-153 | Sorting, dropping repetitions and filling in the inner nodes gives the tree over the distinct values; every inner node hashes its two children, the smaller one first. |
| Merkle.TreeOfMeaning | src/utils/data-structures/MerkleTree.ts:135-153 | That tree has every inner node hash its children, and as leaves the distinct values in ascending order. |
| Merkle.CanonicalTree | src/utils/data-structures/MerkleTree.ts:135-153 | Inputs with the same set of values build the same tree, of twice the number of distinct values minus one nodes. |
| Merkle.MerkleTree.GetHash | src/utils/data-structures/MerkleTree.ts:160-166 | The leaf at the index, nothing outside. |
| Merkle.MerkleTree.GetProof | src/utils/data-structures/MerkleTree.ts:173-187 | For any number of leaves the proof of a leaf folds to the root and has at most the logarithm, rounded up, of entries. |
| Merkle.ProofLength | src/utils/data-structures/MerkleTree.ts:173-187 | A proof is also not shorter than that by more than one. |
| Merkle.VerifyWithMerkleProof | src/utils/data-structures/MerkleTree.ts:196-203 | Accepts exactly when all parts are there and there is a path of hashes from the leaf to the root, each made of the one before and the next entry, the smaller one first; for one entry that hash is written out. |
| Merkle.FoldSound | src/utils/data-structures/MerkleTree.ts:196-203 | With an injective pair hash, a value that is no pair hash and folds to a node is a leaf. |
| Merkle.ProofsAreExact | src/utils/data-structures/MerkleTree.ts:173-203 | Such a value has some proof exactly when it is a leaf. |
| EpochSettings.EpochUnique | src/utils/data-structures/EpochSettings.ts:122-131 | A time is in one epoch only. |
| EpochSettings.EpochOfTime | src/utils/data-structures/EpochSettings.ts:74-78 | The calculated epoch contains the time exactly from the first epoch on, or a whole number of epochs before it; otherwise it is one too high. |
| EpochSettings.EpochIdOfStart | src/utils/data-structures/EpochSettings.ts:74-124 | The epoch of the start of an epoch is that epoch. |
| EpochSettings.EpochMonotone | src/utils/data-structures/EpochSettings.ts:74-78 | Later times are in no earlier epoch. |
| EpochSettings.BitVoteWindow | src/utils/data-structures/EpochSettings.ts:96-105 | From the first epoch on a time is a voting time exactly when it is within the window at the start of its epoch. |
| EpochSettings.DeadlinePasses | src/utils/data-structures/EpochSettings.ts:96-105 | After a time outside the window no later time is in the window of that epoch. |
| EpochSettings.OffsetRightOnlyInFirstEpoch | src/utils/data-structures/EpochSettings.ts:107-110 | The offset is the time since the start of the epoch exactly in epoch 0. |
| VotingWindow.VotesAreLast | src/attester/AttestationRoundManager.ts:185-196 | In every run the vote map holds for each default member its last vote cast in the window with the right round check. |
| VotingWindow.LastVoteMeans | src/attester/AttestationRoundManager.ts:185-196 | What a last vote is, from the first epoch on: the last message of the member - the address in lower case - with a time within the window of the next epoch, whose first two characters begin with the last byte of the round, and the digits behind them. |
| VotingWindow.CountedVotesAreLast | src/attester/AttestationRound.ts:254-266 | The votes that are counted are these, or the empty vote. |
| VotingWindow.NoVoteAfterEnd | src/attester/AttestationRoundManager.ts:164-196 | With times in order no vote counts for a round after the block that ended it. |
| VotingWindow.EndsMeans | src/attester/AttestationRoundManager.ts:164-179 | From the first epoch on, a time ends the voting for a round exactly when it is past the window in the next epoch, and within that epoch. |
| VotingWindow.VotesFinalAfterEnd | src/attester/AttestationRoundManager.ts:164-196 | Once a block ends the voting, it is closed and no later event of the run changes the votes. |
| VotingWindow.OtherCallbacksLeaveVotes | src/attester/AttestationRound.ts:657-718 | No other callback of a round touches its votes. |
| AttestationRoundManagers.AttestationRoundManager.OnBitVoteEvent | src/attester/AttestationRoundManager.ts:185-196 | The vote reaches the one round it counts for, and no other. |
| AttestationRoundManagers.AttestationRoundManager.OnLastFlareNetworkTimestamp | src/attester/AttestationRoundManager.ts:164-179 | A block time closes the one round it ends, and no other. |
| AttestationRoundManagers.AttestationRoundManager.GetRoundOrCreateIt | src/attester/AttestationRoundManager.ts:243-333 | A new round is linked both ways to its predecessor, or makes its first commit itself; the round ten epochs back is forgotten, the others are untouched. |
| AttestationRoundManagers.SubmissionTiming | src/attester/AttestationRoundManager.ts:305-313 | The submission of a round falls into its reveal phase and the commit phase of the next one exactly when the configured offset is negative and no longer than the commit phase. |
| AttestationRoundManagers.ChooseIsNextEpoch | src/attester/AttestationRoundManager.ts:287-303 | In the choose phase of a round votes are for it, and a time after the window ends its voting. |
| PriorityQueues.PriorityQueue.Push | src/utils/data-structures/PriorityQueue.ts:67-78 | Sifting up keeps the heap and adds one node. |
| PriorityQueues.PriorityQueue.Pop | src/utils/data-structures/PriorityQueue.ts:84-102 | Sifting down keeps the heap and takes out one node of the least key. |
| PriorityQueues.StepUp | src/utils/data-structures/PriorityQueue.ts:70-77 | A swap with the parent moves the only place out of order up. |
| PriorityQueues.StepDown | src/utils/data-structures/PriorityQueue.ts:91-99 | A swap with the smaller child moves it down. |
| PriorityQueues.RootIsLeast | src/utils/data-structures/PriorityQueue.ts:32-41 | No key is less than that of the root. |
| SourceManagers.SourceManager.CanProcessNextAttestation | src/attester/source/SourceManager.ts:118-147 | Answers whether both limits leave room at this moment. |
| SourceManagers.SourceManager.IncreaseRequestCount | src/attester/source/SourceManager.ts:129-138 | Counts within a second, and starts a new second at zero. |
| SourceManagers.SourceManager.VerifyAttestationRequest | src/attester/source/SourceManager.ts:348-358 | The request is queued last when there is no room, and otherwise sent in time or finished at once. |
| SourceManagers.SourceManager.Process | src/attester/source/SourceManager.ts:220-256 | Without a verifier it fails, after the deadline it is too late, and otherwise it is in flight, sent once more. |
| SourceManagers.SourceManager.OnVerified | src/attester/source/SourceManager.ts:258-292 | The request becomes valid exactly when the verifier said so and the message is intact, invalid exactly when it is not or was refuted, and otherwise an error. |
| SourceManagers.SourceManager.OnFailed | src/attester/source/SourceManager.ts:294-311 | A call that failed, or whose answer could not be hashed, counts one more retry and makes the request due the delay after it, or ends in an error when no retries are left. |
| SourceManagers.SourceManager.OnProcessed | src/attester/source/SourceManager.ts:320-341 | Reports the verdict and looks for more work, unless the request came too late. |
| SourceManagers.SourceManager.EnQueueDelayed | src/attester/source/SourceManager.ts:165-177 | The request is due at the time given, and no retry is counted. |
| SourceManagers.SourceManager.UpdateDelayQueueTimer | src/attester/source/SourceManager.ts:184-213 | Unless the first delayed request is overdue, the timer is set for it or earlier. |
| SourceManagers.SourceManager.StartNext | src/attester/source/SourceManager.ts:364-402 | Terminates in spite of re-entering itself; if there is room afterwards nothing is left in the queue. |
| SourceManagers.SourceManager.StartDelayed | src/attester/source/SourceManager.ts:379-391 | If there is room afterwards no delayed request is due. |
| SourceManagers.Conservation | src/attester/source/SourceManager.ts:153-402 | Every request is in exactly one place, sent at most one time more than retries are allowed, not before it is due nor after its deadline, and reported exactly when it has a final status. |
| SourceManagers.RestConserves | src/attester/source/SourceManager.ts:153-402 | Between callbacks every request is queued, delayed or reported, or its verifier has been called: none is left with a failure to be dealt with. |
| Storage.StoredRows | src/indexer/indexer.ts:299-334 | The two tables hold the rows of the saved blocks from the bottom on, and no others. |
| Storage.Retained | src/indexer/interlacing.ts:134-175 | A block within the number range, or within the time range when times never decrease, is in one of the tables. |
| Interlacing.InterlacingManager.Initialize | src/indexer/interlacing.ts:53-95 | Takes up the table that has rows, or of two the one whose first row is later, the first one if they tie, with the ends counted from that row. |
| Interlacing.InterlacingManager.Update | src/indexer/interlacing.ts:134-175 | Turns the tables exactly when both ends are set and passed, dropping the other one and setting new ends from this block; sets the ends when there are none; otherwise changes nothing. |
| Interlacing.InterlacingManager.ResetAll | src/indexer/interlacing.ts:180-211 | Empties both tables and starts afresh. |
| Interlacing.SavedIsStored | src/indexer/indexer.ts:299-334 | Saving the next block keeps the tables one contiguous stretch of the chain. |
| Interlacing.UpdateKeepsStored | src/indexer/interlacing.ts:134-175 | A rotation drops only blocks out of both ranges. |
| TableRecovery.RestartSafeIff | src/indexer/interlacing.ts:53-95 | After a restart nothing in range is lost and no table has a gap, whatever is saved next, exactly when of two tables with rows the active one has the later first row and, with times in order, the last block of the other is no later than that row claims, or out of the time range already. |
| TableRecovery.WrongTableGapes | src/indexer/interlacing.ts:78-90 | Going on with the older table leaves a gap there with the first block saved. |
| TableRecovery.EarlyLimitLoses | src/indexer/interlacing.ts:92-95 | A limit that is too early can be reached while the last block of the older table is in the time range, which is then dropped. |
| TableRecovery.TrueTimesTell | src/indexer/interlacing.ts:53-95 | It is safe when the newer table begins with a block that has transactions and is later than the first row of the older one. |
| TableRecovery.EmptyFirstBlockMisleadsRestart | src/indexer/interlacing.ts:80-95 | A first block without transactions leads to the wrong table and to rows being dropped that are within the number range. |
| TableRecovery.EmptyFirstBlockRotatesEarly | src/indexer/interlacing.ts:92-94 | It can also lead to the right table with a limit long past, and to rows being dropped that are within the time range. |
| Continuity.MissingFindsGaps | src/indexer/indexer.ts:583-640 | The maximum minus the minimum plus one minus the distinct numbers is zero exactly when there is no gap, and never negative. |
| Continuity.QueryFindsGaps | src/indexer/indexer.ts:583-640 | Whatever a table holds, the query on it finds nothing missing exactly when no number between two of its numbers from the bottom on is absent. |
| Continuity.RowsHaveNoGaps | src/indexer/indexer.ts:583-640 | A stretch of the chain passes the check from any bottom. |
| IndexerRuns.BottomIsFirstStored | src/indexer/indexerToDB.ts:53-69 | The bottom that is calculated is the first block still stored. |
| IndexerRuns.BottomMeans | src/indexer/indexerToDB.ts:53-69 | Whatever the tables hold, the bottom is the smaller of their least numbers, a table with a zero counting as empty. |
| IndexerRuns.SaveBottomMeans | src/indexer/indexerToDB.ts:94-113 | Whatever the tables hold, the bottom is saved with the time of the first block saved under its number, if there are such, and nothing else is changed. |
| IndexerRuns.CheckPasses | src/indexer/indexer.ts:583-640 | The continuity check leaves a database the indexer has written alone. |
| IndexerRuns.ResetsIff | src/indexer/indexer.ts:583-640 | Whatever the tables hold, the check resets the database exactly when a bottom is saved and from it on a table has a gap. |
| IndexerRuns.SaveKeeps | src/indexer/indexer.ts:282-353 | Saving the expected block keeps everything and appends it to the chain. |
| IndexerRuns.StartKeeps | src/indexer/indexerSync.ts:246-262 | So does a restart, with syncing enabled or not, whether it takes up, resets or begins a database. |
| IndexerRuns.RunKeeps | src/indexer/indexer.ts:199-420 | The invariant holds in all states of all runs from a clean start. |
| IndexerRuns.SavesInOrder | src/indexer/indexer.ts:282-300 | Each block is saved as N+1 with the hash expected at that moment; the guard never fails. |
| ConfirmedSaves.LoopSavesIff | src/indexer/indexer.ts:708-751 | In every run a turn of the main loop saves exactly when block N+1 has the confirmations wanted below the height it finds and was processed with the hash it finds, the first such block; it waits exactly when N+1 is confirmed and being processed; otherwise a changed N+1 is processed. |
| ConfirmedSaves.SyncSavesIff | src/indexer/indexerSync.ts:113-202 | So does a turn of the sync loop at the height it goes by; it ends syncing exactly when N+1 is not confirmed, and processes each block asked for once. |
| ConfirmedSaves.TryAgainSavesIff | src/indexer/indexerSync.ts:196-202 | A repeated attempt of the sync loop saves exactly when N+1 was processed with the expected hash. |
| ConfirmedSaves.CompletedSavesIff | src/indexer/indexer.ts:199-229 | In every run a processed block is saved at once exactly when it is the one waited for, and otherwise kept behind those with its number. |
| ConfirmedSaves.WaitsAreConfirmed | src/indexer/indexer.ts:719-747 | In every run what is waited for, or tried again, is confirmed. |
| ConfirmedSaves.SavesAreConfirmed | src/indexer/indexer.ts:719-747 | In every run a step saves at most one block, and that one has the confirmations wanted below the height last seen. |
| ConfirmedSaves.ProcessedIsKept | src/indexer/indexer.ts:199-229 | In every run a processed block is kept until one with its number is saved, or the process ends. |
| ConfirmedSaves.NotTwiceAtATime | src/indexer/blockProcessorManager.ts:92-155 | In every run no two processors work on the same block. |
| ConfirmedSaves.RestartGoesOn | src/indexer/indexerSync.ts:246-275 | In every run a restart goes on after the last block saved, or where a clean database begins, and resets exactly a database that is too far behind. |
| IndexerRuns.StopsOnlyAtRestart | src/indexer/indexer.ts:491-500 | A run is reset only by a restart with syncing enabled that finds its last block before the point where syncing starts. |
| IndexerRuns.TablesAreContiguous | src/indexer/indexer.ts:282-334 | In every run the older table, then the active one, hold the consecutive blocks from the saved bottom to N. |
| IndexerRuns.RunsRetain | src/indexer/interlacing.ts:134-175 | In every run, through restarts, all rows of a block that was saved since the last clean start and is within one of the ranges are in the tables. |
| Indexers.Indexer.BlockCompleted | src/indexer/indexer.ts:199-229 | A completed block is saved, or kept under its number. |
| Indexers.Indexer.BlockSave | src/indexer/indexer.ts:282-353 | Saves block N+1, its bottom and the rotation; fails for any other number. |
| Indexers.Indexer.TrySaveNp1Block | src/indexer/indexer.ts:370-420 | Saves N+1 if it has been processed, waits for it if it is being processed. |
| Indexers.Indexer.CheckDatabaseContinuous | src/indexer/indexer.ts:583-640 | Resets the database when a number is missing. |
| Indexers.Indexer.SaveBottomState | src/indexer/indexerToDB.ts:94-113 | Saves number and time of the first stored block. |
| Indexers.Indexer.MainLoop | src/indexer/indexer.ts:686-751 | Updates the indexer as the function on its value does, one turn down to the attempt to save; what that means is stated by `ConfirmedSaves.LoopSavesIff`. |
| Indexers.Indexer.SyncLoop | src/indexer/indexerSync.ts:113-202 | One turn of the sync loop down to the attempt to save. |
| Indexers.Indexer.Start | src/indexer/indexerSync.ts:246-262 | Takes up the database that is there, or begins one at the point where syncing starts, or at the confirmed height with syncing disabled. |
| Indexers.Indexer.GetSyncStartBlockNumber | src/indexer/indexerSync.ts:38-108 | The bisection ends at a turning point of the block times, or at a boundary block. |
| Indexers.TurningPointCoversPeriod | src/indexer/indexerSync.ts:38-108 | With times in order there is one turning point, and exactly the later blocks are in the period to sync. |
| IndexedQueries.Matching | src/indexed-query-manager/IndexedQueryManager.ts:119-150 | Exactly the rows of a table that pass all given conditions. |
| IndexedQueries.MatchingSplits | src/indexed-query-manager/IndexedQueryManager.ts:119-150 | Rows are let through one by one and in their order. |
| IndexedQueries.MatchingOne | src/indexed-query-manager/IndexedQueryManager.ts:119-150 | A row is let through exactly when it meets each restriction that is given: both block numbers, the reference, the transaction. |
| IndexedQueries.FirstOverflow | src/indexed-query-manager/IndexedQueryManager.ts:351-361 | The least block past both deadlines, if there is one. |
| IndexedQueries.IndexedQueryManager.QueryTransactions | src/indexed-query-manager/IndexedQueryManager.ts:119-165 | The loop over the two tables computes the answer of a transaction query; what that is, the next row says. |
| IndexedQueries.TransactionAnswerGives | src/indexed-query-manager/IndexedQueryManager.ts:119-165 | Whatever the tables hold: the rows of the first one, then of the second, that meet all restrictions given, and the blocks with the boundary numbers; an error exactly on a boundary number of zero. |
| IndexedQueries.IndexedQueryManager.GetReferencedTransactions | src/indexed-query-manager/IndexedQueryManager.ts:261-289 | No block past both deadlines, no minimal block, or the rows with the reference from the minimal block on and before the first block past both. |
| NonExistence.FirstOutputSuffices | src/verification/verification-utils/generic-chain-verifications.ts:325-365 | Looking at the first output to the address is enough when summaries depend on the address alone. |
| NonExistence.NoOutputPays | src/verification/verification-utils/generic-chain-verifications.ts:391-444 | Then the answer that there is no payment holds of every output of every transaction in the blocks of the range that were ever saved. |
| NonExistence.ResponseReferencedPaymentNonExistence | src/verification/verification-utils/generic-chain-verifications.ts:313-383 | The nested loops confirm exactly when no row pays enough, and a payment is reported only when one does. |
| NonExistence.RespondMeans | src/verification/verification-utils/generic-chain-verifications.ts:313-383 | The first row decides that cannot be read, whose first output to the address has no summary, or pays enough without a failure of the sender: the search fails, throws, or reports it; if there is none the answer is confirmed with both boundary blocks. |
| NonExistence.VerifyReferencedPaymentNonExistence | src/verification/verification-utils/generic-chain-verifications.ts:391-444 | Computes the answer of the same name on the tables, error by error; what that means is stated by `NonExistence.Answers`. |
| NonExistence.Answers | src/verification/verification-utils/generic-chain-verifications.ts:391-444 | Every answer of every run in the fields of the request: references of zeros and malformed ones; no data without a block past both deadlines or without the minimal block; not confirmed for an empty range; and else confirmed exactly when all stored transactions with the reference in the range are harmless. |
| NonExistence.ConfirmedRangeEnds | src/indexed-query-manager/IndexedQueryManager.ts:351-361 | In every run the overflow block of a confirmed answer is past the deadline number and the deadline time, and every block ever saved with a lower number is within one of them. |
| NonExistence.BlockTableIsSaves | src/indexer/indexer.ts:299-334 | In every run the block table has number, hash and time of every block ever saved, in their order. |
| NonExistence.NonExistenceSound | src/verification/verification-utils/generic-chain-verifications.ts:391-444 | In every run, through resets: when the answer is that there is no such payment, and the minimal block is not below the stored bottom, no block of the range that was ever saved has one. |
| NonExistence.ExistenceSound | src/verification/verification-utils/generic-chain-verifications.ts:391-444 | When it is that there is one, a saved block from the minimal one on, within the deadline number or the deadline time, has a transaction with the reference whose first output to the address is paid enough. |
| NonExistence.RangeCoversDeadlines | src/indexed-query-manager/IndexedQueryManager.ts:351-361 | With times in order since the last clean start every block ever saved within the deadline number or the deadline time is before the overflow block. |
| BelowBottom.ConfirmedWrongIff | src/verification/verification-utils/generic-chain-verifications.ts:391-444 | In every run the answer that there is no payment is wrong of the blocks ever saved exactly when one of the range with a number below the stored bottom has one. |
| BelowBottom.GuardIsExact | src/verification/verification-utils/generic-chain-verifications.ts:391-444 | That answer is right of every history that leaves a database exactly when this has a bottom and the minimal block is not below it. |
| BelowBottom.DroppedLeavesNoTrace | src/indexer/interlacing.ts:134-175 | Whatever transactions a block below the bottom had, the database is the same, and is as a run leaves it. |
| BelowBottom.SameAnswerAlthoughPaid | src/verification/verification-utils/generic-chain-verifications.ts:391-444 | So below the bottom the same answer is given whether or not the payment was made. |
| LostPayments.BelowBottomUnsound | src/verification/verification-utils/generic-chain-verifications.ts:391-444 | There is a run in which a payment that was made is declared not to exist, after two rotations. |
| LostPayments.ResetUnsound | src/indexer/indexer.ts:490-500 | There is another one in which it is, after a reset, which leaves the headers. |
| Codec.AttestationDefinitionStore.EncodeRequest | src/verification/attestation-types/AttestationDefinitionStore.ts:68-86 | The loop encodes field after field, or fails with the first error. |
| Codec.AttestationDefinitionStore.ParseRequest | src/verification/attestation-types/AttestationDefinitionStore.ts:88-118 | The loop reads field after field from a text of the right length. |
| Codec.AttestationDefinitionStore.EqualsRequest | src/verification/attestation-types/AttestationDefinitionStore.ts:120-137 | The loop compares all fields of the scheme. |
| CodecOutcomes.EncodeOutcome | src/verification/attestation-types/AttestationDefinitionStore.ts:68-86 | Every outcome of encoding: the type is not supported, or the first field that is missing, of a wrong type, negative or too long is the error, or every field is in the text where the sizes put it, filled up with zeros. |
| CodecOutcomes.ParseOutcome | src/verification/attestation-types/AttestationDefinitionStore.ts:88-118 | Every outcome of parsing: no text, a short one, no number in its first six characters, no scheme for that, another length; then the first field that cannot be read is the error, or under each key is what its characters say. |
| CodecOutcomes.EqualOutcome | src/verification/attestation-types/AttestationDefinitionStore.ts:120-137 | Every outcome of comparing: different types, no scheme, or the first field that differs or cannot be compared; numbers are compared as numbers. |
| CodecOutcomes.QuickOutcome | src/verification/attestation-types/attestation-types-utils.ts:107-124 | Every outcome of reading the base fields without a scheme, also from texts that end early. |
| HexMeaning.NumberAtStart | src/verification/attestation-types/AttestationDefinitionStore.ts:95-98 | The number at the start of a text is that of as many hex digits, in either case, as stand behind the prefix, and there has to be one. |
| CodecLaws.EncodableIff | src/verification/attestation-types/attestation-types-utils.ts:131-160 | A value can be encoded exactly when it fits its field. |
| CodecLaws.FieldRoundTrip | src/verification/attestation-types/attestation-types-utils.ts:87-160 | Reading an encoded value gives it back, byte texts being filled up. |
| CodecLaws.EncodedLength | src/verification/attestation-types/AttestationDefinitionStore.ts:68-86 | An encoding has two digits for each byte of the fields. |
| CodecLaws.ParseOfEncoded | src/verification/attestation-types/AttestationDefinitionStore.ts:68-118 | Parsing an encoded request succeeds and gives its fields, for any scheme. |
| CodecLaws.RoundTripEqual | src/verification/attestation-types/AttestationDefinitionStore.ts:68-137 | The parsed request is equal to the original exactly when byte values have the full length. |
| CodecLaws.EncodedAlikeIff | src/verification/attestation-types/AttestationDefinitionStore.ts:68-86 | Two requests are encoded alike exactly when they have the same scheme and the same values up to leading zeros of byte values. |
| CodecLaws.EncodingInjective | src/verification/attestation-types/AttestationDefinitionStore.ts:68-86 | With byte values of full length, requests with the same encoding have the same scheme and fields. |
| CodecLaws.ReencodeParsed | src/verification/attestation-types/AttestationDefinitionStore.ts:68-118 | Encoding what was parsed from a lower-case text gives the text back. |
| CodecLaws.BaseFieldsAgree | src/verification/attestation-types/attestation-types-utils.ts:107-124 | Type and source are read alike by both readers, and the integrity code exactly when it does not look like a prefix itself, which no hex text does. |
| UnconfirmedBlocks.UnconfirmedBlockManager.AddNewBlock | src/indexer/UnconfirmedBlockManager.ts:42-64 | The walk terminates, counts one more for every ancestor, and notes exactly the new block and these as changed; a known block is ignored. |
| UnconfirmedBlocks.AncestorsAreReached | src/indexer/UnconfirmedBlockManager.ts:49-63 | The ancestors of a block are exactly the blocks that known parent links lead up to. |
| UnconfirmedBlocks.CountsKeptIff | src/indexer/UnconfirmedBlockManager.ts:42-64 | Counts remain one plus the number of descendants exactly when no child of the new block is there yet. |
| UnconfirmedBlocks.CountsDetermined | src/indexer/UnconfirmedBlockManager.ts:42-64 | The order of insertion does not matter: the tree determines the counts. |
| UnconfirmedBlocks.RunsCountDescendants | src/indexer/headerCollector.ts:178-206 | So in every run that adds blocks parent first every block counts its descendants. |
| Queues.Queue.Push | src/utils/data-structures/Queue.ts:12-15 | Appends at the tail. |
| Queues.Queue.Prepend | src/utils/data-structures/Queue.ts:20-23 | Puts in front of the head. |
| Queues.Queue.Shift | src/utils/data-structures/Queue.ts:26-45 | Takes the head off, or fails on an empty queue. |
| CachedClients.CachedMccClient.GetTransaction | src/caching/CachedMccClient.ts:103-121 | The client's answer, which is cached from then on. |
| CachedClients.CachedMccClient.GetBlockByNumber | src/caching/CachedMccClient.ts:132-160 | The client's answer, cached under its hash. |
| CachedClients.CachedMccClient.Cleanup | src/caching/CachedMccClient.ts:177-192 | A queue that has grown by a chunk is cut to the newest entries its size allows; without a block cache size nothing is. |
| CachedClients.CacheAgrees | src/caching/CachedMccClient.ts:103-160 | Every cached entry is the client's answer, and the cached transactions are exactly those of the queue, without repeats. |
| CachedClients.RecentSurvive | src/caching/CachedMccClient.ts:165-192 | A transaction survives as many later insertions as the cache size minus one. |
| CachedClients.CachesBounded | src/caching/CachedMccClient.ts:165-192 | With every cleanup run before the next insertion no cache exceeds its size by two chunks. |
| CachedClients.CacheGrows | src/caching/CachedMccClient.ts:165-192 | Without a chunk size or a block cache size every transaction ever inserted is still cached. |
| TicketLock.DisplayCountsFinished | src/utils/helpers/Web3Functions.ts:94-134 | In every run the current index is the number of calls that are over, and never exceeds the next one. |
| TicketLock.RunsSequenced | src/utils/helpers/Web3Functions.ts:94-134 | In runs without timeouts all calls before the current index are finished and all after it wait. |
| TicketLock.OneAtATime | src/utils/helpers/Web3Functions.ts:94-134 | Then at most one call is at work. |
| TicketLock.EntersInOrder | src/utils/helpers/Web3Functions.ts:94-134 | Then calls enter in the order of their tickets, each after its predecessors have finished. |
| TicketLock.TimeoutLetsInASecondIff | src/utils/helpers/Web3Functions.ts:104-113 | In any state, exactly when a timeout lets a call in while another one is at work. |
| TicketLock.SecondNeedsTimeout | src/utils/helpers/Web3Functions.ts:94-134 | In a run a second call is let in exactly by such timeouts, and two are at work only after one. |
| TicketLock.PassedNeverEnters | src/utils/helpers/Web3Functions.ts:101-113 | A call still waiting when the display has passed its ticket never enters. |
| TicketLock.GivesUpWaiting | src/utils/helpers/Web3Functions.ts:101-113 | In every run only a waiting call whose number is not up gives up, and that moves the display on by one. |
| TicketLock.SequencedSigner.Look | src/utils/helpers/Web3Functions.ts:101-113 | A waiter enters exactly when its number is up, and gives up after its deadline. |

## Left out

- Hashing, ABI encoding, the signing of transactions, database access, the network, logging and monitoring: parameters, or nothing.
- The parsing of chain transactions: outputs, references and payment summaries are given, for each transaction and output.
- The `latestBlock` sync mode, the option to set N by hand, manual resets and the sync from tips: they move N on purpose.
- `parseInt` on signs, spaces and fractions, and the treatment of unprefixed texts, addresses and negative hex by web3: only digits with or without a prefix are read.  The prefix helpers of the chain library are taken to be like the ones in the repository.
- What happens inside one callback between its awaits: callbacks are atomic, and the receipt of a submission arrives before the next one.  The default set of a round is there when the round is.
- The `chosen` flag, the row saved for each request and the sampler: bookkeeping that nothing modelled here reads.
- Sharing of request and block objects between components: each holds values, or a map from identity to fields, so a change through another reference is not captured.
- Rows of unconfirmed blocks in the block table, and the short cut for blocks that were processed before: the first do not take part in queries for confirmed blocks, the second only starts more processing.
- A crash inside one step of the indexer, such as between a rotation and saving the bottom: restarts happen between steps.
- The progress of the scheduler and a bound on its requests per second: the timer handle is dropped after the work it started, and the counter of a new second starts at zero.
- SourceManagers.SourceManager.OnVerified: exceptions thrown while the verdict is reported to its round, which the source would turn into a retry of a request that has its verdict, are left out; the callback of the round only counts the verdict and starts asynchronous work, whose failures end the process (`src/attester/AttestationRound.ts:699-718`).  An exception before that is a failed call.
- SourceManagers.SourceManager.CanProcessNextAttestation: the limit on requests in flight is only checked before a request is taken out, so it is not claimed as a bound; a re-entrant call can pass it.
- IndexerRuns.RunsRetain: speaks of blocks saved since the last clean start, as a restart too far behind resets the database and drops all of them.  Restarts are assumed to find tables that tell where to go on, which `RestartSafeIff` shows to be needed, and a start on an empty table set not to go below older headers.
- IndexedQueries.FirstOverflow: of several headers with one number, as after a reset, the query leaves open which it gives; the first saved is taken.
- NonExistence.NonExistenceSound: asks for a minimal block that is not below the stored bottom, which `GuardIsExact` shows to be needed.
- Indexers.Indexer.GetSyncStartBlockNumber: at the boundary blocks it returns the boundary itself, so the coverage of the period is stated for turning points only.
- AgreedLeaves.RunsCommitAgreedLeaves: the number of supporting votes is claimed for votes of one length, which `SupportedForLengthsIff` shows to be needed.
- RoundInvariant.OnlyAgreedLeaves: likewise.
- CachedClients.CachesBounded: claimed for cleanups that run in time, and for positive block cache and chunk sizes, without which `CacheGrows` holds.
