/**
 The round object itself (`AttestationRound.ts`): its callbacks as methods that update its fields,
 each shown to compute the function of the same name on the round's value.
 Also the limiter of a round's weight for one source (`SourceLimiter.ts`).
 */
module AttestationRounds {
  import opened Bitmask
  import opened CommitReveal
  import opened Hex
  import opened Merkle
  import opened RoundState
  import opened Subsets
  import opened VoteAgreement
  import opened VoteChoice
  import opened Wrappers

  // ---------- the limiter ----------

  function Weight(weights: map<string, nat>, types: seq<string>): nat {
    if types == [] then 0
    else Weight(weights, types[..|types| - 1]) + if types[|types| - 1] in weights then weights[types[|types| - 1]] else 0
  }

  class SourceLimiter {
    const maxTotalRoundWeight: nat
    const weights: map<string, nat>
    var currentRoundWeight: nat
    /** The types of the requests let through. */
    ghost var accepted: seq<string>

    ghost predicate Valid()
      reads this
    {
      && currentRoundWeight == Weight(weights, accepted)
      && (forall t :: t in accepted ==> t in weights)
      && forall k :: 0 <= k < |accepted| ==> Weight(weights, accepted[..k]) < maxTotalRoundWeight
    }

    constructor (maxTotalRoundWeight: nat, weights: map<string, nat>)
      ensures Valid() && accepted == []
      ensures this.maxTotalRoundWeight == maxTotalRoundWeight && this.weights == weights
    {
      this.maxTotalRoundWeight := maxTotalRoundWeight;
      this.weights := weights;
      this.currentRoundWeight := 0;
      this.accepted := [];
    }

    /** `None` lets the request proceed; otherwise the status it is given. */
    method CanProceedWithValidation(requestType: string) returns (refused: Option<AttestationStatus>)
      requires Valid()
      modifies this
      ensures Valid()
      ensures refused == if Weight(weights, old(accepted)) >= maxTotalRoundWeight then Some(OverLimit)
                         else if requestType !in weights then Some(NotProcessed) else None
      ensures accepted == if refused.None? then old(accepted) + [requestType] else old(accepted)
    {
      if currentRoundWeight >= maxTotalRoundWeight {
        return Some(OverLimit);
      }
      if requestType !in weights {
        return Some(NotProcessed);
      }
      ghost var before := accepted;
      currentRoundWeight := currentRoundWeight + weights[requestType];
      accepted := accepted + [requestType];
      assert accepted[..|before|] == before;
      assert forall k :: 0 <= k < |before| ==> accepted[..k] == before[..k];
      return None;
    }
  }

  /** What is let through exceeds the limit by less than the weight of its last request. */
  lemma RoundWeightBounded(limiter: SourceLimiter)
    requires limiter.Valid() && limiter.accepted != []
    ensures limiter.currentRoundWeight < limiter.maxTotalRoundWeight + limiter.weights[limiter.accepted[|limiter.accepted| - 1]]
  {}

  // ---------- lemmas about the chosen mask ----------

  lemma ChosenMaskRead(m: Digits)
    requires |m| >= 2
    ensures BytesFromHex("0x" + Text(m)) == Ok(MaskBytes(m))
  {
    ParseText(m);
    var hexString := "0x" + Text(m);
    assert hexString[2..] == Text(m);
    if |m| % 2 == 1 {
      var padded := m + [0];
      ParseText(padded);
      assert Text(padded) == Text(m) + "0";
    }
  }

  lemma {:induction false} CountNonZero(votes: seq<Digits>, i: nat)
    requires i < |votes|
    ensures NonZero(votes[..i + 1]) == NonZero(votes[..i]) + if IsZero(votes[i]) then 0 else 1
  {
    if i > 0 {
      CountNonZero(votes[1..], i - 1);
      assert votes[..i + 1][1..] == votes[1..][..i] && votes[..i][1..] == votes[1..][..i - 1];
    } else {
      assert votes[..1][1..] == [] && votes[..0] == [];
    }
  }

  predicate AllZeros(s: string) {
    forall i :: 0 <= i < |s| ==> s[i] == '0'
  }

  /** The digits of a mask are all zero exactly when it has no bit. */
  lemma ZerosMeanNoBits(bytes: seq<Byte>)
    ensures AllZeros(Text(DigitsOfBytes(bytes))) <==> !SetFrom(bytes, 0)
  {
    var d := DigitsOfBytes(bytes);
    if AllZeros(Text(d)) {
      forall i: nat ensures !IsSet(bytes, i) {
        if i / 8 < |bytes| {
          ByteDigits(bytes, i / 8);
          assert Text(d)[2 * (i / 8)] == '0' && Text(d)[2 * (i / 8) + 1] == '0';
          ZeroBits(7 - i % 8);
        }
      }
    } else {
      var j :| 0 <= j < |d| && Text(d)[j] != '0';
      assert bytes[j / 2] > 0 by { assert d[j] != 0; }
      NonZeroByte(bytes, j / 2);
    }
  }

  method NewMerkleTree(pairHash: PairHash, values: seq<Hash>) returns (tree: MerkleTree)
    ensures fresh(tree) && tree.tree == TreeOf(pairHash, values)
    ensures values != [] ==> tree.tree != []
  {
    tree := new MerkleTree(values, false, pairHash, x => x);
    TreeOfMeaning(pairHash, values);
  }

  // ---------- the round ----------

  class AttestationRound {
    const roundId: nat
    const env: Env
    var phase: Phase
    var attestStatus: RoundStatus
    var attestations: seq<Attestation>
    /** The requests of the round by their identifier. */
    var attestationsMap: map<string, nat>
    var attestationsProcessed: nat
    var duplicateCount: nat
    var roundMerkleRoot: Option<Hash>
    var roundRandom: Option<Hash>
    var roundMaskedMerkleRoot: Option<Hash>
    var merkleTree: MerkleTree?
    var defaultSetAddresses: seq<string>
    var bitVoteMap: map<string, Digits>
    var bitVoteRecord: Option<string>
    var bitVoteResultIndices: seq<nat>
    var isReject: bool
    var rejectIndex: Option<nat>
    var isEmpty: bool
    var terminated: bool
    var prevRound: AttestationRound?
    var nextRound: AttestationRound?
    ghost var countedVotes: seq<Digits>

    /** The value of the round the specifications speak about. */
    ghost function State(): Round
      reads this, merkleTree
    {
      Round(roundId, phase, attestStatus, attestations, attestationsProcessed, defaultSetAddresses, bitVoteMap, countedVotes,
            bitVoteResultIndices, isReject, rejectIndex, isEmpty, if merkleTree == null then [] else merkleTree.tree,
            roundMerkleRoot, roundRandom, roundMaskedMerkleRoot, terminated)
    }

    ghost predicate Valid()
      reads this
    {
      env.assigners > 0 && Within(bitVoteResultIndices, |attestations|)
    }

    constructor (roundId: nat, env: Env, defaultSetAddresses: seq<string>)
      requires env.assigners > 0
      ensures Valid() && State() == NewRound(roundId, defaultSetAddresses)
      ensures this.env == env && prevRound == null && nextRound == null && attestationsMap == map[] && duplicateCount == 0
    {
      this.roundId := roundId;
      this.env := env;
      this.phase := Collect;
      this.attestStatus := Collecting;
      this.attestations := [];
      this.attestationsMap := map[];
      this.attestationsProcessed := 0;
      this.duplicateCount := 0;
      this.roundMerkleRoot := None;
      this.roundRandom := None;
      this.roundMaskedMerkleRoot := None;
      this.merkleTree := null;
      this.defaultSetAddresses := defaultSetAddresses;
      this.bitVoteMap := map[];
      this.bitVoteRecord := None;
      this.bitVoteResultIndices := [];
      this.isReject := false;
      this.rejectIndex := None;
      this.isEmpty := false;
      this.terminated := false;
      this.prevRound := null;
      this.nextRound := null;
      this.countedVotes := [];
    }

    /** The agreed mask: empty when too few voted or nothing is agreed, absent when it points beyond the known requests. */
    method CalculateBitVotingResult() returns (bitmask: BitmaskAccumulator?)
      requires Valid()
      ensures var result := VotingResult(CollectVotes(bitVoteMap, defaultSetAddresses), (env.assigners + 1) / 2, |attestations|);
              && (bitmask == null <==> result.None?)
              && (bitmask != null ==> fresh(bitmask) && bitmask.Valid() && bitmask.buffer[..] == result.value)
    {
      var votes: seq<Digits> := [];
      for i := 0 to |defaultSetAddresses|
        invariant votes == CollectVotes(bitVoteMap, defaultSetAddresses)[..i]
      {
        votes := votes + [VoteOf(bitVoteMap, defaultSetAddresses[i])];
      }
      assert votes == CollectVotes(bitVoteMap, defaultSetAddresses);
      var minVoters := env.MinVoters();
      var nonZeroVotes := CountNonZeroVotes(votes);
      if nonZeroVotes < minVoters {
        bitmask := EmptyMask();
        return;
      }
      var candidate := ChooseCandidate(votes, minVoters);
      var numberOfOnes := CountOnes(candidate.value);
      if numberOfOnes == 0 {
        bitmask := EmptyMask();
        return;
      }
      ChosenMaskRead(candidate.value);
      var read := BitmaskAccumulator.FromHex("0x" + Text(candidate.value));
      bitmask := read.value;
      var beyond := bitmask.HasActiveBitsBeyond(|attestations|);
      if beyond {
        bitmask := null;
      }
    }

    method CountNonZeroVotes(votes: seq<Digits>) returns (count: nat)
      ensures count == NonZero(votes)
    {
      count := 0;
      for i := 0 to |votes|
        invariant count == NonZero(votes[..i])
      {
        CountNonZero(votes, i);
        if !IsZero(votes[i]) {
          count := count + 1;
        }
      }
      assert votes[..|votes|] == votes;
    }

    method EmptyMask() returns (bitmask: BitmaskAccumulator)
      ensures fresh(bitmask) && bitmask.Valid()
      ensures bitmask.buffer[..] == seq((|attestations| + 7) / 8, _ => 0)
    {
      bitmask := new BitmaskAccumulator(|attestations|);
      AllClear(bitmask.buffer[..]);
    }

    method TryCalculateBitVotingResults()
      requires Valid()
      modifies `attestStatus, `bitVoteResultIndices, `countedVotes, `terminated
      ensures Valid() && State() == RoundState.TryCalculateBitVotingResults(old(State()), env)
    {
      if attestStatus.Rank() >= Chosen.Rank() || phase != Commit || attestStatus != BitVotingClosed {
        return;
      }
      var votingResult := CalculateBitVotingResult();
      CalculatesAs(State(), env, CollectVotes(bitVoteMap, defaultSetAddresses), if votingResult == null then None else Some(votingResult.buffer[..]));
      RecordVotingResult(votingResult, CollectVotes(bitVoteMap, defaultSetAddresses));
    }

    method RecordVotingResult(votingResult: BitmaskAccumulator?, ghost votes: seq<Digits>)
      requires Valid() && (votingResult != null ==> votingResult.Valid())
      modifies `attestStatus, `bitVoteResultIndices, `countedVotes, `terminated
      ensures Valid()
      ensures State() == Recorded(old(State()), votes, if votingResult == null then None else Some(votingResult.buffer[..]))
    {
      var votingResultIndices := [];
      if votingResult != null {
        votingResultIndices := votingResult.ToIndices(|attestations|);
      }
      IndicesWithin(if votingResult == null then None else Some(votingResult.buffer[..]), |attestations|);
      var countRequired, isError := CheckRequired(votingResultIndices);
      if isError {
        bitVoteResultIndices := [];
      } else {
        if countRequired != |votingResultIndices| {
          return;
        }
        bitVoteResultIndices := votingResultIndices;
      }
      attestStatus := Chosen;
      countedVotes := votes;
      if votingResult == null {
        // the result is saved next, and there is none to print
        terminated := true;
      }
    }

    /** The loop over the required requests: how many are valid, and whether one cannot be obtained. */
    method CheckRequired(required: seq<nat>) returns (countRequired: nat, isError: bool)
      requires Within(required, |attestations|)
      ensures isError <==> Unobtainable(attestations, required)
      ensures !isError ==> (countRequired == |required| <==> AllValid(attestations, required))
    {
      countRequired, isError := 0, false;
      for j := 0 to |required|
        invariant countRequired <= j
        invariant countRequired == j <==> AllValid(attestations, required[..j])
        invariant !Unobtainable(attestations, required[..j])
      {
        var i := required[j];
        assert required[..j + 1] == required[..j] + [i];
        var status := attestations[i].status;
        if status.Valid? {
          countRequired := countRequired + 1;
        } else if status != Queued && status != Processing {
          isError := true;
          assert i in required;
          return;
        }
      }
      assert required[..|required|] == required;
    }

    method TryPrepareCommitData(random: Hash)
      requires Valid()
      modifies `attestStatus, `isReject, `rejectIndex, `isEmpty, `merkleTree, `roundMerkleRoot, `roundRandom, `roundMaskedMerkleRoot
      ensures Valid() && State() == RoundState.TryPrepareCommitData(old(State()), env, random)
    {
      if attestStatus.Rank() >= CommitDataPrepared.Rank() || phase != Commit || attestStatus != Chosen || isReject {
        return;
      }
      var validatedHashes, unvalidated := CollectValidated();
      if unvalidated.Some? {
        if attestations[unvalidated.value].status.Summary() == SummaryInvalid {
          isReject := true;
          rejectIndex := unvalidated;
        }
        return;
      }
      if |validatedHashes| == 0 {
        AbstainVoteRound(random);
        return;
      }
      assert HashesAt(attestations, bitVoteResultIndices) == validatedHashes;
      var tree := NewMerkleTree(env.pairHash, validatedHashes);
      CommitTo(tree, random);
    }

    /** Masks the root of the tree. */
    method CommitTo(tree: MerkleTree, random: Hash)
      requires tree.tree != []
      modifies `attestStatus, `merkleTree, `roundMerkleRoot, `roundRandom, `roundMaskedMerkleRoot
      ensures State() == RoundState.CommitTo(old(State()), env, tree.tree, random)
    {
      merkleTree := tree;
      roundMerkleRoot := merkleTree.Root();
      roundRandom := Some(random);
      roundMaskedMerkleRoot := Some(env.commitHash(roundMerkleRoot.value, random));
      attestStatus := CommitDataPrepared;
    }

    /** The loop over the required requests: their hashes up to the first that is not valid. */
    method CollectValidated() returns (validatedHashes: seq<Hash>, unvalidated: Option<nat>)
      requires Valid()
      ensures unvalidated == FirstNotValid(attestations, bitVoteResultIndices)
      ensures unvalidated.None? ==> validatedHashes == HashesAt(attestations, bitVoteResultIndices)
    {
      validatedHashes := [];
      for j := 0 to |bitVoteResultIndices|
        invariant validatedHashes == HashesAt(attestations, bitVoteResultIndices)[..j]
        invariant FirstNotValid(attestations, bitVoteResultIndices) == FirstNotValid(attestations, bitVoteResultIndices[j..])
      {
        var i := bitVoteResultIndices[j];
        assert bitVoteResultIndices[j..][1..] == bitVoteResultIndices[j + 1..];
        if attestations[i].status.Summary() != SummaryValid {
          return validatedHashes, Some(i);
        }
        validatedHashes := validatedHashes + [attestations[i].hash];
      }
      unvalidated := None;
    }

    method AbstainVoteRound(random: Hash)
      modifies `attestStatus, `isEmpty, `roundMerkleRoot, `roundRandom, `roundMaskedMerkleRoot
      ensures State() == RoundState.AbstainVoteRound(old(State()), env, random)
    {
      attestStatus := CommitDataPrepared;
      roundMerkleRoot := Some(ZERO_HASH);
      roundRandom := Some(ZERO_HASH);
      roundMaskedMerkleRoot := Some(env.commitHash(roundMerkleRoot.value, random));
      isEmpty := true;
    }

    method RejectVoteRound(random: Hash)
      modifies `attestStatus, `terminated, `roundMerkleRoot, `roundRandom, `roundMaskedMerkleRoot
      ensures State() == RoundState.RejectVoteRound(old(State()), env, random)
    {
      if !isReject {
        terminated := true;
        return;
      }
      attestStatus := CommitDataPrepared;
      roundMerkleRoot := Some(ZERO_HASH);
      roundRandom := Some(random);
      roundMaskedMerkleRoot := Some(env.commitHash(roundMerkleRoot.value, random));
    }

    method CalculateAndPrepare(random: Hash)
      requires Valid()
      modifies `attestStatus, `bitVoteResultIndices, `countedVotes, `terminated
      modifies `isReject, `rejectIndex, `isEmpty, `merkleTree, `roundMerkleRoot, `roundRandom, `roundMaskedMerkleRoot
      ensures Valid() && State() == RoundState.CalculateAndPrepare(old(State()), env, random)
    {
      TryCalculateBitVotingResults();
      TryPrepareCommitData(random);
    }

    method CloseBitVoting(random: Hash)
      requires Valid()
      modifies `attestStatus, `bitVoteResultIndices, `countedVotes, `terminated
      modifies `isReject, `rejectIndex, `isEmpty, `merkleTree, `roundMerkleRoot, `roundRandom, `roundMaskedMerkleRoot
      ensures Valid() && State() == RoundState.CloseBitVoting(old(State()), env, random)
    {
      if attestStatus.Rank() < BitVotingClosed.Rank() {
        attestStatus := BitVotingClosed;
        assert State() == old(State()).(status := BitVotingClosed);
        CalculateAndPrepare(random);
      }
    }

    method RegisterBitVote(sender: string, vote: Digits)
      requires Valid()
      modifies `bitVoteMap
      ensures Valid() && State() == RoundState.RegisterBitVote(old(State()), sender, vote)
    {
      if sender in defaultSetAddresses {
        bitVoteMap := bitVoteMap[sender := vote];
      }
    }

    method Append(requestId: string) returns (index: nat)
      requires Valid()
      modifies `attestations, `attestationsMap
      ensures Valid() && State() == RoundState.AddAttestation(old(State()))
      ensures index == |old(attestations)| && |attestations| == index + 1 && attestationsMap == old(attestationsMap)[requestId := index]
    {
      index := |attestations|;
      attestations := attestations + [Attestation(Initial, 0)];
      attestationsMap := attestationsMap[requestId := index];
    }

    /**
     Adds a request unless it is a duplicate.  One of an unsupported kind, or one the limiter refuses,
     counts as processed at once; every other is handed to the scheduler.
     */
    method AddAttestation(requestId: string, unsupported: bool, refused: Option<AttestationStatus>, random: Hash) returns (handed: bool)
      requires Valid()
      modifies this
      ensures Valid()
      ensures handed <==> requestId !in old(attestationsMap) && !unsupported && refused.None?
      ensures requestId in old(attestationsMap) ==>
                State() == old(State()) && duplicateCount == old(duplicateCount) + 1 && unchanged(`attestationsMap)
      ensures requestId !in old(attestationsMap) ==>
                duplicateCount == old(duplicateCount) && attestationsMap == old(attestationsMap)[requestId := |old(attestations)|]
      ensures handed ==> State() == RoundState.AddAttestation(old(State()))
      ensures requestId !in old(attestationsMap) && !handed ==>
                State() == RoundState.OnAttestationProcessed(
                             RoundState.AddAttestation(old(State())), env, |old(attestations)|, if unsupported then NotProcessed else refused.value, 0, random)
    {
      if requestId in attestationsMap {
        duplicateCount := duplicateCount + 1;
        return false;
      }
      var index := Append(requestId);
      if unsupported {
        OnAttestationProcessed(index, NotProcessed, 0, random);
        return false;
      }
      if refused.None? {
        return true;
      } else {
        OnAttestationProcessed(index, refused.value, 0, random);
        return false;
      }
    }

    /** A request has got its verdict. */
    method OnAttestationProcessed(index: nat, status: AttestationStatus, hash: Hash, random: Hash)
      requires Valid() && index < |attestations|
      modifies `attestations, `attestationsProcessed
      modifies `attestStatus, `bitVoteResultIndices, `countedVotes, `terminated
      modifies `isReject, `rejectIndex, `isEmpty, `merkleTree, `roundMerkleRoot, `roundRandom, `roundMaskedMerkleRoot
      ensures Valid() && State() == RoundState.OnAttestationProcessed(old(State()), env, index, status, hash, random)
    {
      Count(index, status, hash);
      if attestationsProcessed > |attestations| {
        terminated := true;
        return;
      }
      CalculateAndPrepare(random);
    }

    method Count(index: nat, status: AttestationStatus, hash: Hash)
      requires Valid() && index < |attestations|
      modifies `attestations, `attestationsProcessed
      ensures Valid() && State() == Counted(old(State()), index, status, hash)
    {
      attestations := attestations[index := Attestation(status, hash)];
      attestationsProcessed := attestationsProcessed + 1;
    }

    method OnChoosePhaseStart()
      requires Valid()
      modifies this`phase
      ensures Valid() && State() == old(State()).(phase := Choose)
    {
      phase := Choose;
    }

    method OnCommitPhaseStart(random: Hash)
      requires Valid()
      modifies `phase
      modifies `attestStatus, `isReject, `rejectIndex, `isEmpty, `merkleTree, `roundMerkleRoot, `roundRandom, `roundMaskedMerkleRoot
      ensures Valid() && State() == RoundState.OnCommitPhaseStart(old(State()), env, random)
    {
      phase := Commit;
      assert State() == old(State()).(phase := Commit);
      TryPrepareCommitData(random);
    }

    method OnRevealPhaseStart()
      requires Valid()
      modifies this`phase
      ensures Valid() && State() == old(State()).(phase := InReveal)
    {
      phase := InReveal;
    }

    method OnFinalisePhaseStart()
      requires Valid()
      modifies this`phase
      ensures Valid() && State() == old(State()).(phase := Finalise)
    {
      phase := Finalise;
    }

    function CanCommit(): bool
      reads this
    {
      phase == Commit && attestStatus == CommitDataPrepared
    }

    /** Links point to the neighbouring rounds. */
    ghost predicate Linked()
      reads this
    {
      && (nextRound != null ==> nextRound.roundId == roundId + 1 && nextRound.env == env)
      && (prevRound != null ==> prevRound.roundId + 1 == roundId)
    }

    ghost function NextState(): Option<Round>
      reads this, nextRound, if nextRound == null then {} else {nextRound.merkleTree}
    {
      if nextRound == null then None else Some(nextRound.State())
    }

    predicate PreviousIsEmpty()
      reads this, prevRound
    {
      prevRound != null && prevRound.isEmpty
    }

    predicate ShouldSubmitAttestation()
      reads this, prevRound, nextRound
    {
      !(isEmpty && PreviousIsEmpty() && nextRound != null && nextRound.isEmpty)
    }

    method OnFirstCommit(random: Hash, receipt: bool, savedRoot: Option<Hash>, savedRandom: Option<Hash>) returns (made: Submission)
      requires Valid()
      modifies `attestStatus, `isEmpty, `roundMerkleRoot, `roundRandom, `roundMaskedMerkleRoot
      ensures Valid() && (State(), made) == FirstCommitRound(roundId, old(State()), env, random, receipt, savedRoot, savedRandom)
    {
      if !CanCommit() {
        AbstainVoteRound(random);
      }
      made := Submission(roundId + 1, roundMerkleRoot, roundMaskedMerkleRoot, roundRandom, Or(savedRoot, ZERO_HASH), Or(savedRandom, ZERO_HASH), true, isEmpty);
      attestStatus := if receipt then Committed else RoundStatus.Failed;
    }

    /** Prepares zeros if there is nothing else to commit. */
    method MakeReady(random: Hash)
      modifies `attestStatus, `isEmpty, `terminated, `roundMerkleRoot, `roundRandom, `roundMaskedMerkleRoot
      ensures State() == ReadyToCommit(old(State()), env, random)
    {
      if !CanCommit() {
        if isReject {
          RejectVoteRound(random);
        } else {
          AbstainVoteRound(random);
        }
      }
    }

    /** Reveals this round and commits the next one. */
    method OnSubmitAttestation(random: Hash, receipt: bool) returns (made: Option<Submission>)
      requires Valid() && Linked()
      modifies `attestStatus, if nextRound == null then {} else {nextRound}
      ensures State() == SubmitRound(roundId, old(State()), old(PreviousIsEmpty()), old(NextState()), env, random, receipt).round
      ensures NextState() == SubmitRound(roundId, old(State()), old(PreviousIsEmpty()), old(NextState()), env, random, receipt).next
      ensures made == SubmitRound(roundId, old(State()), old(PreviousIsEmpty()), old(NextState()), env, random, receipt).made
    {
      if phase != InReveal {
        return None;
      }
      if nextRound != null {
        nextRound.MakeReady(random);
      }
      if !ShouldSubmitAttestation() {
        attestStatus := Revealed;
        return None;
      }
      var submission := NewSubmission();
      made := Some(submission);
      Settle(receipt);
    }

    /** What is committed for the next round, or zeros if there is none, and what is revealed of this one. */
    method NewSubmission() returns (s: Submission)
      ensures s == SubmissionOf(roundId, NextState(), State())
    {
      var root, masked, nextRandom := Some(ZERO_HASH), Some(ZERO_HASH), Some(ZERO_HASH);
      if nextRound != null {
        root, masked, nextRandom := nextRound.roundMerkleRoot, nextRound.roundMaskedMerkleRoot, nextRound.roundRandom;
      }
      var preparedOrCommitted := attestStatus == CommitDataPrepared || attestStatus == Committed;
      s := Submission(roundId + 2, root, masked, nextRandom,
                      if preparedOrCommitted then roundMerkleRoot else Some(ZERO_HASH),
                      if preparedOrCommitted then roundRandom else Some(ZERO_HASH),
                      nextRound != null, nextRound != null && nextRound.isEmpty);
    }

    /** Both rounds move on when the transaction went through. */
    method Settle(receipt: bool)
      requires Linked()
      modifies `attestStatus, if nextRound == null then {} else {nextRound}
      ensures State() == old(State()).(status := if receipt then Revealed else RoundStatus.Failed)
      ensures NextState() == if receipt && nextRound != null then Some(old(NextState()).value.(status := Committed)) else old(NextState())
    {
      if receipt {
        if nextRound != null {
          nextRound.attestStatus := Committed;
        }
        attestStatus := Revealed;
      } else {
        attestStatus := RoundStatus.Failed;
      }
    }

    /** One flag for each request: whether it was found valid. */
    function ValidityFlags(): (flags: seq<bool>)
      reads this
      ensures |flags| == |attestations|
    {
      seq(|attestations|, i requires 0 <= i < |attestations| reads this => attestations[i].status.Valid?)
    }

    /**
     The bit vote to send, `None` when it is too early, too late or there is nothing to vote for.
     Read back as any client reads it, the vote passes the check of this round and has exactly the
     bits of the requests found valid.
     */
    method OnSubmitBitVote() returns (sent: Option<string>)
      modifies this`bitVoteRecord
      ensures sent.Some? <==> phase == Choose && true in ValidityFlags()
      ensures sent.Some? ==> VoteReads(sent.value, roundId, ValidityFlags())
    {
      if phase != Choose {
        return None;
      }
      var message := RecordBitVote();
      if AllZeros(message[4..]) {
        return None;
      }
      return Some(message);
    }

    /** Takes the snapshot of the valid requests that is voted for, and prints the vote. */
    method RecordBitVote() returns (message: string)
      modifies this`bitVoteRecord
      ensures attestations != [] ==> VoteReads(message, roundId, ValidityFlags())
      ensures |message| >= 4 && (AllZeros(message[4..]) <==> true !in ValidityFlags())
    {
      var flags := ValidityFlags();
      var accumulator := BitVoteAccumulator(flags);
      var record := accumulator.ToHex();
      bitVoteRecord := Some(record);
      message := BitVoteMaskWithRoundCheck(roundId, record);
      VoteMessage(roundId, flags, accumulator.buffer[..]);
      assert ValidityFlags() == flags;
    }
  }

  ghost predicate VoteReads(message: string, roundId: nat, flags: seq<bool>) {
    exists bytes: seq<Byte> :: VoteCarries(message, roundId, flags, bytes)
  }

  ghost predicate VoteCarries(message: string, roundId: nat, flags: seq<bool>, bytes: seq<Byte>) {
    && Holds(bytes, flags)
    && forall sender, timestamp :: VoteIs(BitVoteData(sender, timestamp, message), roundId, bytes)
  }

  predicate VoteIs(vote: BitVoteData, roundId: nat, bytes: seq<Byte>) {
    vote.RoundCheck(roundId) && BytesFromHex(vote.BitVote()) == Ok(bytes)
  }

  lemma VoteMessage(roundId: nat, flags: seq<bool>, bytes: seq<Byte>)
    requires Holds(bytes, flags) && |bytes| == (|flags| + 7) / 8
    ensures var message := BitVoteMaskWithRoundCheck(roundId, HexOfBytes(bytes));
            && |message| >= 4 && (AllZeros(message[4..]) <==> true !in flags)
            && (flags != [] ==> VoteReads(message, roundId, flags))
  {
    var message := BitVoteMaskWithRoundCheck(roundId, HexOfBytes(bytes));
    MessageBody(roundId, bytes);
    ZerosMeanNoBits(bytes);
    if flags != [] {
      forall sender, timestamp ensures VoteIs(BitVoteData(sender, timestamp, message), roundId, bytes) {
        MaskRoundTrip(roundId, flags, bytes, sender, timestamp);
      }
      assert VoteCarries(message, roundId, flags, bytes);
    }
    if i: nat :| IsSet(bytes, i) {
      assert flags[i];
    }
    if true in flags {
      var i :| 0 <= i < |flags| && flags[i];
      assert IsSet(bytes, i);
    }
  }

  /** Behind the prefix and the round byte a message has the digits of the mask. */
  lemma MessageBody(roundId: nat, bytes: seq<Byte>)
    ensures var message := BitVoteMaskWithRoundCheck(roundId, HexOfBytes(bytes));
            |message| >= 4 && message[4..] == Text(DigitsOfBytes(bytes))
  {
    RoundHexIsLastByte(roundId);
    var body := RoundHex(roundId) + Text(DigitsOfBytes(bytes));
    assert UnPrefix0x(HexOfBytes(bytes)) == Text(DigitsOfBytes(bytes));
    assert !HasPrefix(body) by { assert body[1] == RoundHex(roundId)[1]; }
    assert BitVoteMaskWithRoundCheck(roundId, HexOfBytes(bytes)) == "0x" + body;
  }

  /** A fresh accumulator has a buffer of zeros. */
  lemma AllClear(bytes: seq<Byte>)
    requires Holds(bytes, [])
    ensures bytes == seq(|bytes|, _ => 0)
  {
    forall j | 0 <= j < |bytes| ensures bytes[j] == 0 {
      if bytes[j] > 0 { NonZeroByte(bytes, j); }
    }
  }
}
