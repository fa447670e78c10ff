/**
 Linked rounds and the submissions they make: `onSubmitAttestation` of a round reveals that round
 and commits the next one, `onFirstCommit` commits a round that has no predecessor.
 A run is any sequence of callbacks; what restricts it is only that a submission is scheduled once
 per round and that a verdict on a request is final.
 */
module CommitReveal {
  import opened Hex
  import opened Merkle
  import opened RoundInvariant
  import opened RoundState
  import opened Wrappers

  /** The arguments of `submitAttestation`. */
  datatype Submission = Submission(
    bufferNumber: nat,
    root: Option<Hash>, masked: Option<Hash>, random: Option<Hash>,
    revealRoot: Option<Hash>, revealRandom: Option<Hash>,
    /** Whether there was a round to commit, or only zeros for want of one, and whether it abstained; records for the proofs. */
    hasRound: bool, abstains: bool)

  datatype Chain = Chain(
    rounds: map<nat, Round>,
    /** The rounds that know their predecessor, and are known to it. */
    linked: set<nat>,
    /** The rounds that had the first commit, or the submission, that is scheduled for them. */
    firstCommitted: set<nat>,
    submitted: set<nat>,
    log: seq<Submission>)

  datatype Event =
    | Create(id: nat, defaultSet: seq<string>)
    | Add(id: nat)
    | Enqueue(id: nat, index: nat)
    | Start(id: nat, index: nat)
    | Processed(id: nat, index: nat, status: AttestationStatus, hash: Hash, random: Hash)
    | Vote(id: nat, sender: string, mask: Digits)
    | ChoosePhaseStart(id: nat)
    | CloseVoting(id: nat, random: Hash)
    | CommitPhaseStart(id: nat, random: Hash)
    | RevealPhaseStart(id: nat)
    | FinalisePhaseStart(id: nat)
    | FirstCommit(id: nat, random: Hash, receipt: bool, savedRoot: Option<Hash>, savedRandom: Option<Hash>)
    | Submit(id: nat, random: Hash, receipt: bool)

  const START := Chain(map[], {}, {}, {}, [])

  // ---------- the callbacks that submit ----------

  predicate HasNext(c: Chain, id: nat) {
    id + 1 in c.rounds && id + 1 in c.linked
  }

  predicate PreviousIsEmpty(c: Chain, id: nat) {
    id in c.linked && id > 0 && id - 1 in c.rounds && c.rounds[id - 1].isEmpty
  }

  /** The next round as it is committed: what cannot be committed is rejected or abstained from. */
  function ReadyToCommit(r: Round, env: Env, random: Hash): Round {
    if CanCommit(r) then r
    else if r.isReject then RejectVoteRound(r, env, random)
    else AbstainVoteRound(r, env, random)
  }

  predicate PreparedOrCommitted(r: Round) {
    r.status == CommitDataPrepared || r.status == Committed
  }

  function Or(x: Option<Hash>, default: Hash): Option<Hash> {
    if x.Some? then x else Some(default)
  }

  /** What a submission does to the round, to the next one if there is one, and what it sends. */
  datatype Submitted = Submitted(round: Round, next: Option<Round>, made: Option<Submission>)

  function SubmitRound(id: nat, r: Round, previousIsEmpty: bool, next: Option<Round>, env: Env, random: Hash, receipt: bool): Submitted {
    if r.phase != InReveal then Submitted(r, next, None)
    else if next.None? then
      Submitted(r.(status := if receipt then Revealed else RoundStatus.Failed), None, Some(SubmissionOf(id, None, r)))
    else
      var ready := ReadyToCommit(next.value, env, random);
      if r.isEmpty && previousIsEmpty && ready.isEmpty then
        Submitted(r.(status := Revealed), Some(ready), None)
      else if receipt then
        Submitted(r.(status := Revealed), Some(ready.(status := Committed)), Some(SubmissionOf(id, Some(ready), r)))
      else
        Submitted(r.(status := RoundStatus.Failed), Some(ready), Some(SubmissionOf(id, Some(ready), r)))
  }

  function OnSubmit(c: Chain, env: Env, id: nat, random: Hash, receipt: bool): Chain
    requires id in c.rounds
  {
    var s := SubmitRound(id, c.rounds[id], PreviousIsEmpty(c, id), if HasNext(c, id) then Some(c.rounds[id + 1]) else None, env, random, receipt);
    var rounds := c.rounds[id := s.round];
    c.(rounds := if s.next.Some? then rounds[id + 1 := s.next.value] else rounds,
       submitted := c.submitted + {id},
       log := if s.made.Some? then c.log + [s.made.value] else c.log)
  }

  function SubmissionOf(id: nat, next: Option<Round>, r: Round): Submission {
    Submission(id + 2,
               if next.Some? then next.value.root else Some(ZERO_HASH),
               if next.Some? then next.value.masked else Some(ZERO_HASH),
               if next.Some? then next.value.random else Some(ZERO_HASH),
               if PreparedOrCommitted(r) then r.root else Some(ZERO_HASH),
               if PreparedOrCommitted(r) then r.random else Some(ZERO_HASH),
               next.Some?, next.Some? && next.value.isEmpty)
  }

  function FirstCommitRound(id: nat, r: Round, env: Env, random: Hash, receipt: bool, savedRoot: Option<Hash>, savedRandom: Option<Hash>): (Round, Submission) {
    var ready := if CanCommit(r) then r else AbstainVoteRound(r, env, random);
    (ready.(status := if receipt then Committed else RoundStatus.Failed),
     Submission(id + 1, ready.root, ready.masked, ready.random, Or(savedRoot, ZERO_HASH), Or(savedRandom, ZERO_HASH), true, ready.isEmpty))
  }

  function OnFirstCommit(c: Chain, env: Env, id: nat, random: Hash, receipt: bool, savedRoot: Option<Hash>, savedRandom: Option<Hash>): Chain
    requires id in c.rounds
  {
    var (r, s) := FirstCommitRound(id, c.rounds[id], env, random, receipt, savedRoot, savedRandom);
    c.(rounds := c.rounds[id := r], firstCommitted := c.firstCommitted + {id}, log := c.log + [s])
  }

  // ---------- runs ----------

  predicate Pending(r: Round, i: nat) {
    i < |r.attestations| && !r.attestations[i].status.Final()
  }

  ghost predicate AllInRange(c: Chain) {
    forall id :: id in c.rounds ==> InRange(c.rounds[id])
  }

  predicate OnRequest(e: Event) {
    e.Enqueue? || e.Start? || e.Processed?
  }

  /** A round is created once, commits first and submits once as scheduled, and only its own requests are verified. */
  ghost predicate Possible(c: Chain, e: Event) {
    match e
    case Create(id, _) => id !in c.rounds
    case _ =>
      && e.id in c.rounds
      && (OnRequest(e) ==> e.index < |c.rounds[e.id].attestations|)
      && (e.Processed? ==> e.status.Final())
      && (e.FirstCommit? ==> e.id !in c.linked && e.id !in c.firstCommitted)
      && (e.Submit? ==> e.id !in c.submitted)
  }

  /** Besides, a verdict is final; that is what the scheduler sees to, see `RoundScheduling`. */
  ghost predicate Enabled(c: Chain, e: Event) {
    Possible(c, e) && (OnRequest(e) ==> Pending(c.rounds[e.id], e.index))
  }

  function WithStatus(r: Round, i: nat, status: AttestationStatus): Round
    requires i < |r.attestations|
  {
    r.(attestations := r.attestations[i := r.attestations[i].(status := status)])
  }

  /** The callbacks that concern their round only. */
  ghost function Local(r: Round, env: Env, e: Event): Round
    requires env.assigners > 0 && InRange(r) && (OnRequest(e) ==> e.index < |r.attestations|)
  {
    match e
    case Add(_) => AddAttestation(r)
    case Enqueue(_, i) => WithStatus(r, i, Queued)
    case Start(_, i) => WithStatus(r, i, Processing)
    case Processed(_, i, status, hash, random) => OnAttestationProcessed(r, env, i, status, hash, random)
    case Vote(_, sender, mask) => RegisterBitVote(r, sender, mask)
    case ChoosePhaseStart(_) => r.(phase := Choose)
    case CloseVoting(_, random) => CloseBitVoting(r, env, random)
    case CommitPhaseStart(_, random) => OnCommitPhaseStart(r, env, random)
    case RevealPhaseStart(_) => r.(phase := InReveal)
    case FinalisePhaseStart(_) => r.(phase := Finalise)
    case _ => r
  }

  ghost function Apply(c: Chain, env: Env, e: Event): Chain
    requires env.assigners > 0 && AllInRange(c) && Possible(c, e)
  {
    match e
    case Create(id, defaultSet) =>
      c.(rounds := c.rounds[id := NewRound(id, defaultSet)],
         linked := if id > 0 && id - 1 in c.rounds then c.linked + {id} else c.linked)
    case FirstCommit(id, random, receipt, savedRoot, savedRandom) => OnFirstCommit(c, env, id, random, receipt, savedRoot, savedRandom)
    case Submit(id, random, receipt) => OnSubmit(c, env, id, random, receipt)
    case _ => c.(rounds := c.rounds[e.id := Local(c.rounds[e.id], env, e)])
  }

  /** States passed through when the events happen one after the other from the start, where the indices are in range. */
  ghost predicate Run(env: Env, events: seq<Event>, states: seq<Chain>) {
    && env.assigners > 0
    && |states| == |events| + 1 && states[0] == START
    && forall k :: 0 <= k < |events| ==> StepOf(env, states[k], events[k], states[k + 1])
  }

  ghost predicate StepOf(env: Env, c: Chain, e: Event, d: Chain)
    requires env.assigners > 0
  {
    AllInRange(c) ==> Enabled(c, e) && d == Apply(c, env, e)
  }

  // ---------- the invariant ----------

  function LastCommit(log: seq<Submission>, id: nat): Option<Submission> {
    if log == [] then None
    else if log[|log| - 1].bufferNumber == id + 1 && log[|log| - 1].hasRound then Some(log[|log| - 1])
    else LastCommit(log[..|log| - 1], id)
  }

  /** The round still holds what was committed for it. */
  ghost predicate HoldsCommit(r: Round, commit: Option<Submission>) {
    commit.Some? ==>
      && r.status.Rank() >= CommitDataPrepared.Rank() && r.root.Some?
      && commit.value.root == r.root && commit.value.masked == r.masked && commit.value.random == r.random
      && commit.value.abstains == r.isEmpty
  }

  /** What commits a round has happened if it is committed: it cannot be committed again. */
  ghost predicate CommittedOnce(c: Chain, id: nat) {
    LastCommit(c.log, id).Some? ==> if id in c.linked then id > 0 && id - 1 in c.submitted else id in c.firstCommitted
  }

  ghost predicate Before(c: Chain, id: nat) {
    id in c.linked && id !in c.submitted ==> id in c.rounds ==> c.rounds[id].status.Rank() <= Committed.Rank()
  }

  ghost predicate RoundOk(c: Chain, env: Env, id: nat)
    requires id in c.rounds
  {
    RoundInv(c.rounds[id], env) && HoldsCommit(c.rounds[id], LastCommit(c.log, id)) && Before(c, id) && CommittedOnce(c, id)
  }

  ghost predicate ChainInv(c: Chain, env: Env) {
    && (forall id :: id in c.rounds ==> RoundOk(c, env, id))
    && (forall id :: id in c.linked ==> id in c.rounds)
    && (forall id :: id in c.submitted ==> id in c.rounds)
    && forall id: nat :: id !in c.rounds ==> LastCommit(c.log, id) == None
  }

  lemma LastCommitAppend(log: seq<Submission>, s: Submission, id: nat)
    ensures LastCommit(log + [s], id) == if s.bufferNumber == id + 1 && s.hasRound then Some(s) else LastCommit(log, id)
  {
    assert (log + [s])[..|log|] == log;
  }

  predicate PastCommit(status: RoundStatus) {
    status.Committed? || status.Revealed? || status.Failed?
  }

  lemma RankPastCommit(status: RoundStatus)
    requires PastCommit(status)
    ensures status.Rank() >= Committed.Rank() && Committed.Rank() == 4 && CommitDataPrepared.Rank() == 3 && Chosen.Rank() == 2
  {}

  lemma MovedOnKeeps(r: Round, s: Round, env: Env)
    requires RoundInv(r, env) && s == r.(status := s.status)
    requires PastCommit(s.status) && (s.status.Committed? ==> r.root.Some?)
    ensures RoundInv(s, env)
  {
    RankPastCommit(s.status);
    AgreedFrame(r, s, env);
  }

  lemma LocalKeeps(r: Round, env: Env, e: Event)
    requires env.assigners > 0 && RoundInv(r, env)
    requires OnRequest(e) ==> Pending(r, e.index)
    ensures RoundInv(Local(r, env, e), env)
  {
    match e
    case Add(_) => AddAttestationKeeps(r, env);
    case Enqueue(_, i) => StatusChangeKeeps(r, env, i, r.attestations[i].(status := Queued));
    case Start(_, i) => StatusChangeKeeps(r, env, i, r.attestations[i].(status := Processing));
    case Processed(_, i, status, hash, random) => ProcessedKeeps(r, env, i, status, hash, random);
    case CloseVoting(_, random) => CloseBitVotingKeeps(r, env, random);
    case CommitPhaseStart(_, random) => TryPrepareKeeps(r.(phase := Commit), env, random);
    case _ =>
  }

  /**
   `s` is `r` moved on by a callback of its own: the status is kept or raised, to prepared at most;
   prepared data and calculated indices are final.
   */
  ghost predicate Forward(r: Round, s: Round) {
    && (s.status == r.status || r.status.Rank() < s.status.Rank() <= CommitDataPrepared.Rank())
    && (r.status.Rank() >= CommitDataPrepared.Rank() ==>
          s.root == r.root && s.random == r.random && s.masked == r.masked && s.isEmpty == r.isEmpty && s.tree == r.tree)
    && (r.status.Rank() >= Chosen.Rank() ==> s.indices == r.indices && s.countedVotes == r.countedVotes)
  }

  lemma CalculateMovesForward(r: Round, env: Env)
    requires env.assigners > 0
    ensures Forward(r, TryCalculateBitVotingResults(r, env))
  {
    CalculatedChanges(r, env);
  }

  lemma PrepareMovesForward(r: Round, env: Env, random: Hash)
    requires InRange(r)
    ensures Forward(r, TryPrepareCommitData(r, env, random))
  {}

  lemma LocalMovesForward(r: Round, env: Env, e: Event)
    requires env.assigners > 0 && InRange(r)
    requires OnRequest(e) ==> Pending(r, e.index)
    ensures Forward(r, Local(r, env, e))
  {
    match e
    case Processed(_, i, status, hash, random) =>
      BothMoveForward(Counted(r, i, status, hash), env, random);
    case CloseVoting(_, random) =>
      if r.status.Rank() < BitVotingClosed.Rank() {
        BothMoveForward(r.(status := BitVotingClosed), env, random);
      }
    case CommitPhaseStart(_, random) => PrepareMovesForward(r.(phase := Commit), env, random);
    case _ =>
  }

  lemma BothMoveForward(r: Round, env: Env, random: Hash)
    requires env.assigners > 0 && InRange(r)
    ensures Forward(r, CalculateAndPrepare(r, env, random))
  {
    CalculatedInRange(r, env);
    CalculateMovesForward(r, env);
    PrepareMovesForward(TryCalculateBitVotingResults(r, env), env, random);
  }

  // ---------- the invariant over runs ----------

  lemma RoundOkFrame(c: Chain, d: Chain, env: Env, id: nat)
    requires id in c.rounds && id in d.rounds && d.rounds[id] == c.rounds[id]
    requires LastCommit(d.log, id) == LastCommit(c.log, id)
    requires (id in d.linked <==> id in c.linked) && c.submitted <= d.submitted && c.firstCommitted <= d.firstCommitted
    requires RoundOk(c, env, id)
    ensures RoundOk(d, env, id)
  {}

  lemma LocalStepKeepsOwn(c: Chain, env: Env, e: Event)
    requires env.assigners > 0 && ChainInv(c, env) && AllInRange(c) && Enabled(c, e)
    requires !e.Create? && !e.FirstCommit? && !e.Submit?
    ensures RoundOk(Apply(c, env, e), env, e.id)
  {
    var r := c.rounds[e.id];
    assert RoundOk(c, env, e.id);
    LocalKeeps(r, env, e);
    LocalMovesForward(r, env, e);
    ForwardKeeps(r, Local(r, env, e), LastCommit(c.log, e.id));
    assert Apply(c, env, e).rounds[e.id] == Local(r, env, e);
  }

  lemma ForwardKeeps(r: Round, s: Round, commit: Option<Submission>)
    requires Forward(r, s) && HoldsCommit(r, commit)
    ensures HoldsCommit(s, commit)
    ensures r.status.Rank() <= Committed.Rank() ==> s.status.Rank() <= Committed.Rank()
  {}

  lemma LocalStepKeeps(c: Chain, env: Env, e: Event)
    requires env.assigners > 0 && ChainInv(c, env) && AllInRange(c) && Enabled(c, e)
    requires !e.Create? && !e.FirstCommit? && !e.Submit?
    ensures ChainInv(Apply(c, env, e), env)
  {
    var d := Apply(c, env, e);
    LocalStepKeepsOwn(c, env, e);
    forall id | id in d.rounds ensures RoundOk(d, env, id) {
      if id != e.id { RoundOkFrame(c, d, env, id); }
    }
  }

  lemma CreateKeeps(c: Chain, env: Env, e: Event)
    requires env.assigners > 0 && ChainInv(c, env) && AllInRange(c) && Enabled(c, e) && e.Create?
    ensures ChainInv(Apply(c, env, e), env)
  {
    var d := Apply(c, env, e);
    forall id | id in d.rounds ensures RoundOk(d, env, id) {
      if id != e.id { assert RoundOk(c, env, id); }
    }
  }

  lemma FirstCommitRoundKeeps(id: nat, r: Round, env: Env, random: Hash, receipt: bool, savedRoot: Option<Hash>, savedRandom: Option<Hash>)
    requires RoundInv(r, env)
    ensures var (s, made) := FirstCommitRound(id, r, env, random, receipt, savedRoot, savedRandom);
            RoundInv(s, env) && HoldsCommit(s, Some(made)) && made.bufferNumber == id + 1 && made.hasRound
  {
    var ready := if CanCommit(r) then r else AbstainVoteRound(r, env, random);
    AbstainKeeps(r, env, random);
    MovedOnKeeps(ready, ready.(status := if receipt then Committed else RoundStatus.Failed), env);
  }

  lemma FirstCommitKeepsOwn(c: Chain, env: Env, e: Event)
    requires env.assigners > 0 && AllInRange(c) && Enabled(c, e) && e.FirstCommit? && RoundOk(c, env, e.id)
    ensures RoundOk(Apply(c, env, e), env, e.id)
  {
    FirstCommitRoundKeeps(e.id, c.rounds[e.id], env, e.random, e.receipt, e.savedRoot, e.savedRandom);
    FirstCommitLogs(c, env, e, e.id);
  }

  lemma FirstCommitLogs(c: Chain, env: Env, e: Event, id: nat)
    requires env.assigners > 0 && AllInRange(c) && Enabled(c, e) && e.FirstCommit?
    ensures var made := FirstCommitRound(e.id, c.rounds[e.id], env, e.random, e.receipt, e.savedRoot, e.savedRandom).1;
            LastCommit(Apply(c, env, e).log, id) == if id == e.id then Some(made) else LastCommit(c.log, id)
  {
    LastCommitAppend(c.log, FirstCommitRound(e.id, c.rounds[e.id], env, e.random, e.receipt, e.savedRoot, e.savedRandom).1, id);
  }

  lemma FirstCommitKeeps(c: Chain, env: Env, e: Event)
    requires env.assigners > 0 && ChainInv(c, env) && AllInRange(c) && Enabled(c, e) && e.FirstCommit?
    ensures ChainInv(Apply(c, env, e), env)
  {
    var d := Apply(c, env, e);
    forall id | id in d.rounds ensures RoundOk(d, env, id) {
      assert RoundOk(c, env, id);
      if id == e.id {
        FirstCommitKeepsOwn(c, env, e);
      } else {
        FirstCommitLogs(c, env, e, id);
        RoundOkFrame(c, d, env, id);
      }
    }
    forall id: nat | id !in d.rounds ensures LastCommit(d.log, id) == None {
      FirstCommitLogs(c, env, e, id);
    }
    ChainInvFrom(d, env);
  }

  lemma ReadyKeeps(r: Round, env: Env, random: Hash)
    requires RoundInv(r, env)
    ensures RoundInv(ReadyToCommit(r, env, random), env)
    ensures ReadyToCommit(r, env, random).root.Some? && ReadyToCommit(r, env, random).status == CommitDataPrepared
    ensures ReadyToCommit(r, env, random) == r || ReadyToCommit(r, env, random).isEmpty
  {
    AbstainKeeps(r, env, random);
  }

  lemma SubmitLogs(c: Chain, env: Env, id0: nat, random: Hash, receipt: bool, id: nat)
    requires id0 in c.rounds
    ensures var d := OnSubmit(c, env, id0, random, receipt);
            LastCommit(d.log, id) ==
              if |d.log| > |c.log| && HasNext(c, id0) && id == id0 + 1 then Some(d.log[|c.log|]) else LastCommit(c.log, id)
  {
    var d := OnSubmit(c, env, id0, random, receipt);
    if |d.log| > |c.log| { LastCommitAppend(c.log, d.log[|c.log|], id); }
  }

  lemma SubmitRoundKeepsOwn(id: nat, r: Round, previousIsEmpty: bool, next: Option<Round>, env: Env, random: Hash, receipt: bool)
    requires RoundInv(r, env)
    ensures var s := SubmitRound(id, r, previousIsEmpty, next, env, random, receipt).round;
            && RoundInv(s, env) && s == r.(status := s.status)
            && (s.status == r.status || s.status.Rank() > Committed.Rank())
  {
    MovedOnKeeps(r, r.(status := Revealed), env);
    MovedOnKeeps(r, r.(status := RoundStatus.Failed), env);
  }

  lemma SubmitRoundKeepsNext(id: nat, r: Round, previousIsEmpty: bool, next: Round, env: Env, random: Hash, receipt: bool)
    requires RoundInv(next, env)
    ensures var s := SubmitRound(id, r, previousIsEmpty, Some(next), env, random, receipt);
            && s.next.Some? && RoundInv(s.next.value, env)
            && (s.next.value != next ==> s.next.value.status in {CommitDataPrepared, Committed})
            && (s.made.Some? ==> HoldsCommit(s.next.value, s.made) && s.made.value.bufferNumber == id + 2 && s.made.value.hasRound)
  {
    ReadyKeeps(next, env, random);
    MovedOnKeeps(ReadyToCommit(next, env, random), ReadyToCommit(next, env, random).(status := Committed), env);
  }

  lemma StatusKeepsCommit(r: Round, s: Round, commit: Option<Submission>)
    requires HoldsCommit(r, commit) && s == r.(status := s.status)
    requires s.status == r.status || s.status.Rank() > Committed.Rank()
    ensures HoldsCommit(s, commit)
  {}

  lemma SubmitKeepsOwn(c: Chain, env: Env, id0: nat, random: Hash, receipt: bool)
    requires id0 in c.rounds && RoundOk(c, env, id0)
    ensures id0 in OnSubmit(c, env, id0, random, receipt).rounds && RoundOk(OnSubmit(c, env, id0, random, receipt), env, id0)
  {
    var d := OnSubmit(c, env, id0, random, receipt);
    var next := if HasNext(c, id0) then Some(c.rounds[id0 + 1]) else None;
    var s := SubmitRound(id0, c.rounds[id0], PreviousIsEmpty(c, id0), next, env, random, receipt);
    SubmitRoundKeepsOwn(id0, c.rounds[id0], PreviousIsEmpty(c, id0), next, env, random, receipt);
    assert d.rounds[id0] == s.round;
    assert LastCommit(d.log, id0) == LastCommit(c.log, id0) by { SubmitLogs(c, env, id0, random, receipt, id0); }
    StatusKeepsCommit(c.rounds[id0], s.round, LastCommit(c.log, id0));
  }

  lemma SubmitKeepsNext(c: Chain, env: Env, id0: nat, random: Hash, receipt: bool)
    requires id0 in c.rounds && id0 !in c.submitted && HasNext(c, id0) && RoundOk(c, env, id0 + 1)
    ensures id0 + 1 in OnSubmit(c, env, id0, random, receipt).rounds && RoundOk(OnSubmit(c, env, id0, random, receipt), env, id0 + 1)
  {
    var d := OnSubmit(c, env, id0, random, receipt);
    var r, next := c.rounds[id0], c.rounds[id0 + 1];
    var s := SubmitRound(id0, r, PreviousIsEmpty(c, id0), Some(next), env, random, receipt);
    SubmitRoundKeepsNext(id0, r, PreviousIsEmpty(c, id0), next, env, random, receipt);
    assert d.rounds[id0 + 1] == s.next.value && d.submitted == c.submitted + {id0} && d.linked == c.linked;
    assert LastCommit(d.log, id0 + 1) == if s.made.Some? then s.made else LastCommit(c.log, id0 + 1) by {
      if s.made.Some? { LastCommitAppend(c.log, s.made.value, id0 + 1); }
    }
  }

  lemma SubmitKeepsOthers(c: Chain, env: Env, id0: nat, random: Hash, receipt: bool, id: nat)
    requires env.assigners > 0 && id0 in c.rounds && id in c.rounds && RoundOk(c, env, id)
    requires id != id0 && !(HasNext(c, id0) && id == id0 + 1)
    ensures id in OnSubmit(c, env, id0, random, receipt).rounds && RoundOk(OnSubmit(c, env, id0, random, receipt), env, id)
  {
    var d := OnSubmit(c, env, id0, random, receipt);
    assert LastCommit(d.log, id) == LastCommit(c.log, id) by { SubmitLogs(c, env, id0, random, receipt, id); }
    assert d.rounds.Keys == c.rounds.Keys && d.linked == c.linked && d.submitted == c.submitted + {id0} && d.rounds[id] == c.rounds[id] by {
      SubmitTouches(c, env, id0, random, receipt);
    }
    RoundOkFrame(c, d, env, id);
  }

  lemma SubmitKeepsRound(c: Chain, env: Env, e: Event, id: nat)
    requires env.assigners > 0 && ChainInv(c, env) && AllInRange(c) && Enabled(c, e) && e.Submit? && id in c.rounds
    ensures id in Apply(c, env, e).rounds && RoundOk(Apply(c, env, e), env, id)
  {
    if id == e.id {
      SubmitKeepsOwn(c, env, e.id, e.random, e.receipt);
    } else if HasNext(c, e.id) && id == e.id + 1 {
      SubmitKeepsNext(c, env, e.id, e.random, e.receipt);
    } else {
      SubmitKeepsOthers(c, env, e.id, e.random, e.receipt, id);
    }
  }

  lemma SubmitKeepsAbsent(c: Chain, env: Env, id0: nat, random: Hash, receipt: bool, id: nat)
    requires id0 in c.rounds && id !in c.rounds && LastCommit(c.log, id) == None
    ensures LastCommit(OnSubmit(c, env, id0, random, receipt).log, id) == None
  {
    SubmitLogs(c, env, id0, random, receipt, id);
  }

  lemma ChainInvFrom(d: Chain, env: Env)
    requires forall id :: id in d.rounds ==> RoundOk(d, env, id)
    requires d.linked <= d.rounds.Keys && d.submitted <= d.rounds.Keys
    requires forall id: nat :: id !in d.rounds ==> LastCommit(d.log, id) == None
    ensures ChainInv(d, env)
  {}

  lemma SubmitKeeps(c: Chain, env: Env, e: Event)
    requires env.assigners > 0 && ChainInv(c, env) && AllInRange(c) && Enabled(c, e) && e.Submit?
    ensures ChainInv(Apply(c, env, e), env)
  {
    var d := Apply(c, env, e);
    var rounds := c.rounds.Keys;
    assert d.rounds.Keys == rounds && d.linked == c.linked && d.submitted == c.submitted + {e.id} by {
      SubmitTouches(c, env, e.id, e.random, e.receipt);
    }
    forall id | id in d.rounds ensures RoundOk(d, env, id) {
      SubmitKeepsRound(c, env, e, id);
    }
    forall id: nat | id !in d.rounds ensures LastCommit(d.log, id) == None {
      SubmitKeepsAbsent(c, env, e.id, e.random, e.receipt, id);
    }
    assert c.linked <= rounds && c.submitted <= rounds && e.id in rounds;
    ChainInvFrom(d, env);
  }

  lemma SubmitTouches(c: Chain, env: Env, id0: nat, random: Hash, receipt: bool)
    requires id0 in c.rounds
    ensures var d := OnSubmit(c, env, id0, random, receipt);
            && d.rounds.Keys == c.rounds.Keys && d.linked == c.linked && d.submitted == c.submitted + {id0}
            && forall id :: id in c.rounds && id != id0 && !(HasNext(c, id0) && id == id0 + 1) ==> d.rounds[id] == c.rounds[id]
  {}

  lemma StepKeeps(c: Chain, env: Env, e: Event)
    requires env.assigners > 0 && ChainInv(c, env) && AllInRange(c) && Enabled(c, e)
    ensures ChainInv(Apply(c, env, e), env)
  {
    match e
    case Create(_, _) => CreateKeeps(c, env, e);
    case FirstCommit(_, _, _, _, _) => FirstCommitKeeps(c, env, e);
    case Submit(_, _, _) => SubmitKeeps(c, env, e);
    case _ => LocalStepKeeps(c, env, e);
  }

  /** Every state of every run satisfies the invariant. */
  lemma {:induction false} RunKeeps(env: Env, events: seq<Event>, states: seq<Chain>, k: nat)
    requires Run(env, events, states) && k < |states|
    ensures ChainInv(states[k], env)
    decreases k
  {
    if k > 0 {
      RunKeeps(env, events, states, k - 1);
      InvInRange(states[k - 1], env);
      assert StepOf(env, states[k - 1], events[k - 1], states[k]);
      StepKeeps(states[k - 1], env, events[k - 1]);
    }
  }

  lemma InvInRange(c: Chain, env: Env)
    requires ChainInv(c, env)
    ensures AllInRange(c)
  {
    forall id | id in c.rounds ensures InRange(c.rounds[id]) {
      assert RoundOk(c, env, id);
    }
  }

  /** So every step of a run is one of the steps there are. */
  lemma RunStep(env: Env, events: seq<Event>, states: seq<Chain>, k: nat)
    requires Run(env, events, states) && k < |events|
    ensures ChainInv(states[k], env) && AllInRange(states[k]) && Enabled(states[k], events[k])
    ensures states[k + 1] == Apply(states[k], env, events[k])
  {
    RunKeeps(env, events, states, k);
    InvInRange(states[k], env);
    assert StepOf(env, states[k], events[k], states[k + 1]);
  }

  // ---------- the promises ----------

  /** The submission a callback made, if any. */
  function Made(c: Chain, d: Chain): Option<Submission> {
    if |d.log| > |c.log| then Some(d.log[|d.log| - 1]) else None
  }

  /**
   Commit-reveal binding, in every run: when a round that its predecessor has committed submits, and it
   did not abstain then, it reveals exactly the root and random that were committed for it, and these
   hash to the masked root that was.
   */
  lemma CommitRevealBinding(env: Env, events: seq<Event>, states: seq<Chain>, k: nat, commit: Submission)
    requires Run(env, events, states) && k < |events|
    requires var c, e := states[k], events[k];
             && e.Submit? && e.id in c.rounds && e.id in c.linked
             && c.rounds[e.id].phase == InReveal
             && LastCommit(c.log, e.id) == Some(commit) && !commit.abstains
    ensures var shown := Made(states[k], states[k + 1]);
            && shown.Some? && shown.value.bufferNumber == events[k].id + 2
            && shown.value.revealRoot.Some? && shown.value.revealRandom.Some? && commit.masked.Some?
            && shown.value.revealRoot == commit.root && shown.value.revealRandom == commit.random
            && env.commitHash(shown.value.revealRoot.value, shown.value.revealRandom.value) == commit.masked.value
  {
    RunStep(env, events, states, k);
    var c, e := states[k], events[k];
    assert RoundOk(c, env, e.id);
    CommittedIsReady(c, env, e.id, commit);
    SubmitReveals(c, env, e.id, e.random, e.receipt, commit);
  }

  lemma SubmissionMade(c: Chain, env: Env, id: nat, random: Hash, receipt: bool) returns (next: Option<Round>)
    requires id in c.rounds && Made(c, OnSubmit(c, env, id, random, receipt)).Some?
    ensures Made(c, OnSubmit(c, env, id, random, receipt)).value == SubmissionOf(id, next, c.rounds[id])
  {
    next := if HasNext(c, id) then Some(ReadyToCommit(c.rounds[id + 1], env, random)) else None;
  }

  /** What a submission reveals of a round that still holds its last commit. */
  ghost predicate Shows(r: Round, shown: Submission, env: Env, commit: Submission) {
    && shown.revealRoot.Some? && shown.revealRandom.Some?
    && (PreparedOrCommitted(r) ==> shown.revealRoot == commit.root && shown.revealRandom == commit.random)
    && (PreparedOrCommitted(r) && !commit.abstains ==>
          commit.masked == Some(env.commitHash(shown.revealRoot.value, shown.revealRandom.value)))
    && (!PreparedOrCommitted(r) || commit.abstains ==> shown.revealRoot == Some(ZERO_HASH) && shown.revealRandom == Some(ZERO_HASH))
  }

  lemma SubmissionShows(id: nat, next: Option<Round>, r: Round, env: Env, commit: Submission)
    requires Prepared(r, env) && HoldsCommit(r, Some(commit))
    ensures Shows(r, SubmissionOf(id, next, r), env, commit)
  {}

  lemma PresentSubmits(c: Chain, env: Env, id: nat, random: Hash, receipt: bool)
    requires id in c.rounds && c.rounds[id].phase == InReveal && !c.rounds[id].isEmpty
    ensures Made(c, OnSubmit(c, env, id, random, receipt)).Some?
  {}

  lemma CommittedIsReady(c: Chain, env: Env, id: nat, commit: Submission)
    requires id in c.rounds && RoundOk(c, env, id) && id in c.linked && id !in c.submitted && LastCommit(c.log, id) == Some(commit)
    ensures Prepared(c.rounds[id], env) && HoldsCommit(c.rounds[id], Some(commit)) && PreparedOrCommitted(c.rounds[id])
  {
    RankBetween(c.rounds[id].status);
  }

  lemma RankBetween(status: RoundStatus)
    ensures CommitDataPrepared.Rank() <= status.Rank() <= Committed.Rank() ==> status == CommitDataPrepared || status == Committed
  {}

  lemma SubmitReveals(c: Chain, env: Env, id: nat, random: Hash, receipt: bool, commit: Submission)
    requires id in c.rounds && c.rounds[id].phase == InReveal && !commit.abstains
    requires Prepared(c.rounds[id], env) && HoldsCommit(c.rounds[id], Some(commit)) && PreparedOrCommitted(c.rounds[id])
    ensures var shown := Made(c, OnSubmit(c, env, id, random, receipt));
            && shown.Some? && shown.value.bufferNumber == id + 2
            && shown.value.revealRoot.Some? && shown.value.revealRandom.Some? && commit.masked.Some?
            && shown.value.revealRoot == commit.root && shown.value.revealRandom == commit.random
            && env.commitHash(shown.value.revealRoot.value, shown.value.revealRandom.value) == commit.masked.value
  {
    PresentSubmits(c, env, id, random, receipt);
    var next := SubmissionMade(c, env, id, random, receipt);
    SubmissionShows(id, next, c.rounds[id], env, commit);
  }

  /**
   Without the schedule, for any round: what a submission reveals either hashes to the last commit of
   the round, or the round abstained, or it is the pair of zeros shown when nothing is prepared.
   */
  lemma RevealedIsCommittedOrZero(env: Env, events: seq<Event>, states: seq<Chain>, k: nat, commit: Submission)
    requires Run(env, events, states) && k < |events|
    requires var c, e := states[k], events[k];
             e.Submit? && e.id in c.rounds && LastCommit(c.log, e.id) == Some(commit)
    requires Made(states[k], states[k + 1]).Some?
    ensures Shows(states[k].rounds[events[k].id], Made(states[k], states[k + 1]).value, env, commit)
  {
    var c, e := states[k], events[k];
    RunStep(env, events, states, k);
    assert RoundOk(c, env, e.id);
    var next := SubmissionMade(c, env, e.id, e.random, e.receipt);
    SubmissionShows(e.id, next, c.rounds[e.id], env, commit);
  }

  /** A round is never rejected: once the result is calculated all the requests it needs are valid for good. */
  lemma NeverRejected(env: Env, events: seq<Event>, states: seq<Chain>, k: nat, id: nat)
    requires Run(env, events, states) && k < |states| && id in states[k].rounds
    ensures !states[k].rounds[id].isReject
  {
    RunKeeps(env, events, states, k);
    assert RoundOk(states[k], env, id);
  }

  /** The data a round has prepared is unchanged. */
  ghost predicate Kept(r: Round, s: Round) {
    && s.root == r.root && s.random == r.random && s.masked == r.masked
    && s.tree == r.tree && s.indices == r.indices && s.isEmpty == r.isEmpty
  }

  lemma LocalStepKeepsData(c: Chain, env: Env, e: Event, id: nat)
    requires env.assigners > 0 && AllInRange(c) && Enabled(c, e) && id in c.rounds && c.rounds[id].status.Rank() >= CommitDataPrepared.Rank()
    requires !e.Create? && !e.FirstCommit? && !e.Submit?
    ensures Kept(c.rounds[id], Apply(c, env, e).rounds[id])
  {
    if id == e.id { LocalMovesForward(c.rounds[e.id], env, e); }
  }

  lemma SubmitStepKeepsData(c: Chain, env: Env, id0: nat, random: Hash, receipt: bool, id: nat)
    requires id0 in c.rounds && id in c.rounds && id0 !in c.submitted
    requires LastCommit(c.log, id).Some? && CommittedOnce(c, id)
    ensures id in OnSubmit(c, env, id0, random, receipt).rounds
    ensures Kept(c.rounds[id], OnSubmit(c, env, id0, random, receipt).rounds[id])
  {
    SubmitTouches(c, env, id0, random, receipt);
  }

  lemma CommittedStepKeepsData(c: Chain, env: Env, e: Event, id: nat)
    requires env.assigners > 0 && AllInRange(c) && Enabled(c, e)
    requires id in c.rounds && LastCommit(c.log, id).Some? && CommittedOnce(c, id)
    requires c.rounds[id].status.Rank() >= CommitDataPrepared.Rank()
    ensures id in Apply(c, env, e).rounds && Kept(c.rounds[id], Apply(c, env, e).rounds[id])
  {
    match e
    case Create(_, _) =>
    case FirstCommit(_, _, _, _, _) =>
    case Submit(id0, random, receipt) => SubmitStepKeepsData(c, env, id0, random, receipt, id);
    case _ => LocalStepKeepsData(c, env, e, id);
  }

  /**
   In every run, once a submission has committed a round, no later callback changes its root, random,
   mask, tree or indices, nor whether it abstains.
   */
  lemma CommittedDataFixed(env: Env, events: seq<Event>, states: seq<Chain>, k: nat, id: nat)
    requires Run(env, events, states) && k < |events|
    requires id in states[k].rounds && LastCommit(states[k].log, id).Some?
    ensures id in states[k + 1].rounds && Kept(states[k].rounds[id], states[k + 1].rounds[id])
  {
    RunStep(env, events, states, k);
    assert RoundOk(states[k], env, id);
    CommittedStepKeepsData(states[k], env, events[k], id);
  }

  lemma SubmitKeepsResult(c: Chain, env: Env, id0: nat, random: Hash, receipt: bool, id: nat)
    requires id0 in c.rounds && id in c.rounds
    ensures id in OnSubmit(c, env, id0, random, receipt).rounds
    ensures var r, s := c.rounds[id], OnSubmit(c, env, id0, random, receipt).rounds[id];
            s.indices == r.indices && s.countedVotes == r.countedVotes
  {
    SubmitTouches(c, env, id0, random, receipt);
  }

  /** The indices and the votes behind them are final from the calculation on, whatever the callback. */
  lemma IndicesFixed(env: Env, c: Chain, e: Event, id: nat)
    requires env.assigners > 0 && AllInRange(c) && Enabled(c, e)
    requires id in c.rounds && c.rounds[id].status.Rank() >= Chosen.Rank()
    ensures var r, s := c.rounds[id], Apply(c, env, e).rounds[id];
            s.indices == r.indices && s.countedVotes == r.countedVotes
  {
    match e
    case Create(_, _) =>
    case FirstCommit(_, _, _, _, _) =>
    case Submit(id0, random, receipt) => SubmitKeepsResult(c, env, id0, random, receipt, id);
    case _ => LocalMovesForward(c.rounds[e.id], env, e);
  }
}
