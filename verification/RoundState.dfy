/**
 One attestation round as a value, and its callbacks as functions on that value
 (`AttestationRound.ts`).  The class in `AttestationRound.dfy` computes these functions.
 */
module RoundState {
  import opened Bitmask
  import opened Hex
  import opened Merkle
  import opened Subsets
  import opened VoteAgreement
  import opened VoteChoice
  import opened Wrappers

  datatype Phase = Collect | Choose | Commit | InReveal | Finalise

  datatype RoundStatus = Collecting | BitVotingClosed | Chosen | CommitDataPrepared | Committed | Revealed | Failed | ProcessingTimeout {
    /** The order of the statuses matters: a round moves on through them. */
    function Rank(): nat {
      match this
      case Collecting => 0
      case BitVotingClosed => 1
      case Chosen => 2
      case CommitDataPrepared => 3
      case Committed => 4
      case Revealed => 5
      case Failed => 6
      case ProcessingTimeout => 7
    }
  }

  datatype AttestationStatus = Initial | Queued | Processing | NotProcessed | Valid | Invalid | TooLate | OverLimit | Errored {
    predicate Final() {
      !Initial? && !Queued? && !Processing?
    }

    function Summary(): SummarizedStatus {
      match this
      case Valid => SummaryValid
      case OverLimit | Invalid => SummaryInvalid
      case _ => SummaryIndeterminate
    }
  }

  datatype SummarizedStatus = SummaryValid | SummaryInvalid | SummaryIndeterminate

  /** A request of the round; the hash is the one its verification returned, meaningful once it is valid. */
  datatype Attestation = Attestation(status: AttestationStatus, hash: Hash)

  /** What stays fixed: the hash functions, the address being part of the second, and the size of the default set. */
  datatype Env = Env(pairHash: PairHash, commitHash: (Hash, Hash) -> Hash, assigners: nat) {
    function MinVoters(): nat {
      (assigners + 1) / 2
    }
  }

  const ZERO_HASH: Hash := 0
  const NO_VOTE: Digits := [0, 0]

  datatype Round = Round(
    roundId: nat,
    phase: Phase,
    status: RoundStatus,
    attestations: seq<Attestation>,
    attestationsProcessed: nat,
    defaultSet: seq<string>,
    bitVotes: map<string, Digits>,
    /** The votes the result was calculated from; a record for the proofs. */
    countedVotes: seq<Digits>,
    indices: seq<nat>,
    isReject: bool,
    rejectIndex: Option<nat>,
    isEmpty: bool,
    tree: seq<Hash>,
    root: Option<Hash>,
    random: Option<Hash>,
    masked: Option<Hash>,
    /** Set where the source ends the process. */
    terminated: bool)

  function NewRound(roundId: nat, defaultSet: seq<string>): Round {
    Round(roundId, Collect, Collecting, [], 0, defaultSet, map[], [], [], false, None, false, [], None, None, None, false)
  }

  // ---------- the voting result ----------

  function VoteOf(bitVotes: map<string, Digits>, address: string): Digits {
    if address in bitVotes then bitVotes[address] else NO_VOTE
  }

  function CollectVotes(bitVotes: map<string, Digits>, defaultSet: seq<string>): (r: seq<Digits>)
    ensures |r| == |defaultSet|
  {
    seq(|defaultSet|, i requires 0 <= i < |defaultSet| => VoteOf(bitVotes, defaultSet[i]))
  }

  function NonZero(votes: seq<Digits>): (r: nat)
    ensures r <= |votes|
  {
    if votes == [] then 0 else (if IsZero(votes[0]) then 0 else 1) + NonZero(votes[1..])
  }

  /** The bytes a chosen mask is read back as. */
  function MaskBytes(m: Digits): seq<Byte> {
    BytesOfDigits(if |m| % 2 == 1 then m + [0] else m)
  }

  /** The mask over `n` requests the votes agree on; `None` if it points beyond the known requests. */
  ghost function VotingResult(votes: seq<Digits>, minVoters: nat, n: nat): Option<seq<Byte>>
    requires minVoters > 0
  {
    var empty := seq((n + 7) / 8, _ => 0);
    if NonZero(votes) < minVoters then Some(empty)
    else
      var m := ChosenMask(votes, minVoters);
      if Ones(m) == 0 then Some(empty)
      else if SetFrom(MaskBytes(m), n) then None
      else Some(MaskBytes(m))
  }

  ghost function ResultIndices(votes: seq<Digits>, minVoters: nat, n: nat): seq<nat>
    requires minVoters > 0
  {
    IndicesFrom(VotingResult(votes, minVoters, n), n)
  }

  /** A required request that is neither valid nor still on its way. */
  ghost predicate Unobtainable(attestations: seq<Attestation>, indices: seq<nat>) {
    exists i :: i in indices && i < |attestations| && !(attestations[i].status in {Valid, Queued, Processing})
  }

  ghost predicate AllValid(attestations: seq<Attestation>, indices: seq<nat>) {
    forall i :: i in indices ==> i < |attestations| && attestations[i].status.Valid?
  }

  function IndicesFrom(result: Option<seq<Byte>>, n: nat): seq<nat> {
    if result.None? then [] else SetIndices(result.value, n)
  }

  /** What the round does with a voting result; having none to save ends the process. */
  ghost function Recorded(r: Round, votes: seq<Digits>, result: Option<seq<Byte>>): Round {
    var indices := IndicesFrom(result, |r.attestations|);
    var ended := r.terminated || result.None?;
    if Unobtainable(r.attestations, indices) then
      r.(indices := [], status := Chosen, countedVotes := votes, terminated := ended)
    else if !AllValid(r.attestations, indices) then r
    else r.(indices := indices, status := Chosen, countedVotes := votes, terminated := ended)
  }

  ghost function TryCalculateBitVotingResults(r: Round, env: Env): Round
    requires env.assigners > 0
  {
    if r.status.Rank() >= Chosen.Rank() || r.phase != Commit || r.status != BitVotingClosed then r
    else
      var votes := CollectVotes(r.bitVotes, r.defaultSet);
      Recorded(r, votes, VotingResult(votes, env.MinVoters(), |r.attestations|))
  }

  lemma CalculatesAs(r: Round, env: Env, votes: seq<Digits>, result: Option<seq<Byte>>)
    requires env.assigners > 0 && r.phase == Commit && r.status == BitVotingClosed
    requires votes == CollectVotes(r.bitVotes, r.defaultSet) && result == VotingResult(votes, env.MinVoters(), |r.attestations|)
    ensures TryCalculateBitVotingResults(r, env) == Recorded(r, votes, result)
  {}

  lemma RecordedChanges(r: Round, votes: seq<Digits>, result: Option<seq<Byte>>)
    ensures var s := Recorded(r, votes, result);
            s == r || s == r.(indices := s.indices, status := Chosen, countedVotes := votes, terminated := s.terminated)
  {}

  /** A calculation that gets somewhere moves a closed round to chosen, and changes nothing but its result. */
  lemma CalculatedChanges(r: Round, env: Env)
    requires env.assigners > 0
    ensures var s, votes := TryCalculateBitVotingResults(r, env), CollectVotes(r.bitVotes, r.defaultSet);
            || s == r
            || (r.status == BitVotingClosed
                && s == r.(indices := s.indices, status := Chosen, countedVotes := votes, terminated := s.terminated))
  {
    var votes := CollectVotes(r.bitVotes, r.defaultSet);
    RecordedChanges(r, votes, VotingResult(votes, env.MinVoters(), |r.attestations|));
  }

  // ---------- commit data ----------

  function AbstainVoteRound(r: Round, env: Env, random: Hash): Round {
    r.(status := CommitDataPrepared, root := Some(ZERO_HASH), random := Some(ZERO_HASH),
       masked := Some(env.commitHash(ZERO_HASH, random)), isEmpty := true)
  }

  function RejectVoteRound(r: Round, env: Env, random: Hash): Round {
    if !r.isReject then r.(terminated := true)
    else r.(status := CommitDataPrepared, root := Some(ZERO_HASH), random := Some(random),
            masked := Some(env.commitHash(ZERO_HASH, random)))
  }

  predicate Within(indices: seq<nat>, n: nat) {
    forall j :: 0 <= j < |indices| ==> indices[j] < n
  }

  function HashesAt(attestations: seq<Attestation>, indices: seq<nat>): (r: seq<Hash>)
    requires Within(indices, |attestations|)
    ensures |r| == |indices|
  {
    seq(|indices|, j requires 0 <= j < |indices| && indices[j] < |attestations| => attestations[indices[j]].hash)
  }

  /** The first required request whose summary is not valid. */
  function FirstNotValid(attestations: seq<Attestation>, indices: seq<nat>): (r: Option<nat>)
    requires Within(indices, |attestations|)
    ensures r.None? <==> forall i :: i in indices ==> i < |attestations| && attestations[i].status.Valid?
    ensures r.Some? ==> r.value in indices && r.value < |attestations| && !attestations[r.value].status.Valid?
  {
    if indices == [] then None
    else if !attestations[indices[0]].status.Valid? then Some(indices[0])
    else
      assert indices == [indices[0]] + indices[1..];
      FirstNotValid(attestations, indices[1..])
  }

  function TryPrepareCommitData(r: Round, env: Env, random: Hash): Round
    requires Within(r.indices, |r.attestations|)
  {
    if r.status.Rank() >= CommitDataPrepared.Rank() || r.phase != Commit || r.status != Chosen || r.isReject then r
    else
      match FirstNotValid(r.attestations, r.indices)
      case Some(i) =>
        if r.attestations[i].status.Summary() == SummaryInvalid then r.(isReject := true, rejectIndex := Some(i)) else r
      case None =>
        if r.indices == [] then AbstainVoteRound(r, env, random)
        else
          var tree := TreeOf(env.pairHash, HashesAt(r.attestations, r.indices));
          TreeOfMeaning(env.pairHash, HashesAt(r.attestations, r.indices));
          CommitTo(r, env, tree, random)
  }

  function CommitTo(r: Round, env: Env, tree: seq<Hash>, random: Hash): Round
    requires tree != []
  {
    r.(tree := tree, root := Some(tree[0]), random := Some(random),
       masked := Some(env.commitHash(tree[0], random)), status := CommitDataPrepared)
  }

  predicate CanCommit(r: Round) {
    r.phase == Commit && r.status == CommitDataPrepared
  }

  // ---------- callbacks of a single round ----------

  ghost predicate InRange(r: Round) {
    Within(r.indices, |r.attestations|)
  }

  lemma CalculatedInRange(r: Round, env: Env)
    requires env.assigners > 0 && InRange(r)
    ensures InRange(TryCalculateBitVotingResults(r, env))
  {
    ResultWithin(CollectVotes(r.bitVotes, r.defaultSet), env.MinVoters(), |r.attestations|);
  }

  lemma ResultWithin(votes: seq<Digits>, minVoters: nat, n: nat)
    requires minVoters > 0
    ensures Within(ResultIndices(votes, minVoters, n), n)
  {
    IndicesWithin(VotingResult(votes, minVoters, n), n);
  }

  lemma IndicesWithin(result: Option<seq<Byte>>, n: nat)
    ensures Within(IndicesFrom(result, n), n)
  {
    if result.Some? {
      var indices := SetIndices(result.value, n);
      SetIndicesMeaning(result.value, n);
      forall j | 0 <= j < |indices| ensures indices[j] < n {
        assert indices[j] in indices;
      }
    }
  }

  function AddAttestation(r: Round): Round {
    r.(attestations := r.attestations + [Attestation(Initial, 0)])
  }

  function RegisterBitVote(r: Round, sender: string, vote: Digits): Round {
    if sender in r.defaultSet then r.(bitVotes := r.bitVotes[sender := vote]) else r
  }

  ghost function CalculateAndPrepare(r: Round, env: Env, random: Hash): Round
    requires env.assigners > 0 && InRange(r)
  {
    CalculatedInRange(r, env);
    TryPrepareCommitData(TryCalculateBitVotingResults(r, env), env, random)
  }

  ghost function CloseBitVoting(r: Round, env: Env, random: Hash): Round
    requires env.assigners > 0 && InRange(r)
  {
    if r.status.Rank() >= BitVotingClosed.Rank() then r
    else CalculateAndPrepare(r.(status := BitVotingClosed), env, random)
  }

  function Counted(r: Round, i: nat, status: AttestationStatus, hash: Hash): Round
    requires i < |r.attestations|
  {
    r.(attestations := r.attestations[i := Attestation(status, hash)], attestationsProcessed := r.attestationsProcessed + 1)
  }

  /** The scheduler's verdict on request `i`, and what the round does about it. */
  ghost function OnAttestationProcessed(r: Round, env: Env, i: nat, status: AttestationStatus, hash: Hash, random: Hash): Round
    requires env.assigners > 0 && InRange(r) && i < |r.attestations|
  {
    var counted := Counted(r, i, status, hash);
    if counted.attestationsProcessed > |counted.attestations| then counted.(terminated := true)
    else CalculateAndPrepare(counted, env, random)
  }

  function OnCommitPhaseStart(r: Round, env: Env, random: Hash): Round
    requires InRange(r)
  {
    TryPrepareCommitData(r.(phase := Commit), env, random)
  }
}
