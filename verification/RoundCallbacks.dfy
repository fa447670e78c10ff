/** What each callback does to a round in a run: its phase, its requests, its votes, when it gets its result, and with what random it prepares. */
module RoundCallbacks {
  import opened CommitReveal
  import opened Merkle
  import opened RoundCompletion
  import opened RoundInvariant
  import opened RoundState
  import opened Submissions
  import opened Wrappers

  // ---------- what is left alone ----------

  ghost predicate SameInput(r: Round, s: Round) {
    && s.phase == r.phase && s.attestations == r.attestations && s.attestationsProcessed == r.attestationsProcessed
    && s.bitVotes == r.bitVotes && s.defaultSet == r.defaultSet
  }

  lemma CalculateSame(r: Round, env: Env)
    requires env.assigners > 0
    ensures SameInput(r, TryCalculateBitVotingResults(r, env))
  {
    CalculatedChanges(r, env);
  }

  lemma PrepareSame(r: Round, env: Env, random: Hash)
    requires InRange(r)
    ensures SameInput(r, TryPrepareCommitData(r, env, random))
  {}

  lemma BothSame(r: Round, env: Env, random: Hash)
    requires env.assigners > 0 && InRange(r)
    ensures SameInput(r, CalculateAndPrepare(r, env, random))
  {
    CalculatedInRange(r, env);
    CalculateSame(r, env);
    PrepareSame(TryCalculateBitVotingResults(r, env), env, random);
  }

  // ---------- phases, requests, votes ----------

  function PhaseAfter(phase: Phase, e: Event): Phase {
    match e
    case ChoosePhaseStart(_) => Choose
    case CommitPhaseStart(_, _) => Commit
    case RevealPhaseStart(_) => InReveal
    case FinalisePhaseStart(_) => Finalise
    case _ => phase
  }

  function RequestsAfter(attestations: seq<Attestation>, e: Event): seq<Attestation>
    requires OnRequest(e) ==> e.index < |attestations|
  {
    match e
    case Add(_) => attestations + [Attestation(Initial, 0)]
    case Enqueue(_, i) => attestations[i := Attestation(Queued, attestations[i].hash)]
    case Start(_, i) => attestations[i := Attestation(Processing, attestations[i].hash)]
    case Processed(_, i, status, hash, _) => attestations[i := Attestation(status, hash)]
    case _ => attestations
  }

  /** What the callback `e` of a round makes of its phase, requests and votes. */
  ghost predicate InputFollows(r: Round, e: Event, s: Round)
    requires OnRequest(e) ==> e.index < |r.attestations|
  {
    && s.phase == PhaseAfter(r.phase, e)
    && s.attestations == RequestsAfter(r.attestations, e)
    && s.attestationsProcessed == r.attestationsProcessed + (if e.Processed? then 1 else 0)
    && s.defaultSet == r.defaultSet
    && s.bitVotes == if e.Vote? && e.sender in r.defaultSet then r.bitVotes[e.sender := e.mask] else r.bitVotes
  }

  lemma LocalFollows(r: Round, env: Env, e: Event)
    requires env.assigners > 0 && InRange(r) && (OnRequest(e) ==> Pending(r, e.index)) && !e.Create? && !e.FirstCommit? && !e.Submit?
    ensures InputFollows(r, e, Local(r, env, e))
  {
    match e
    case Processed(_, i, status, hash, random) => BothSame(Counted(r, i, status, hash), env, random);
    case CloseVoting(_, random) => if r.status.Rank() < BitVotingClosed.Rank() { BothSame(r.(status := BitVotingClosed), env, random); }
    case CommitPhaseStart(_, random) => PrepareSame(r.(phase := Commit), env, random);
    case _ =>
  }

  /** A round as it is created. */
  ghost predicate IsNew(r: Round, id: nat, defaultSet: seq<string>) {
    && r.roundId == id && r.phase == Collect && r.status == Collecting && r.attestations == [] && r.attestationsProcessed == 0
    && r.defaultSet == defaultSet && r.bitVotes == map[] && r.countedVotes == [] && r.indices == [] && r.tree == []
    && !r.isReject && r.rejectIndex == None && !r.isEmpty && r.root == r.random == r.masked == None && !r.terminated
  }

  /** Created linked to its predecessor if that is there; first commits and submissions are recorded, and nothing else is sent. */
  ghost predicate ChainFollows(c: Chain, e: Event, d: Chain) {
    && d.rounds.Keys == (if e.Create? then c.rounds.Keys + {e.id} else c.rounds.Keys)
    && d.linked == (if e.Create? && e.id > 0 && e.id - 1 in c.rounds then c.linked + {e.id} else c.linked)
    && d.firstCommitted == (if e.FirstCommit? then c.firstCommitted + {e.id} else c.firstCommitted)
    && d.submitted == (if e.Submit? then c.submitted + {e.id} else c.submitted)
    && (!e.FirstCommit? && !e.Submit? ==> d.log == c.log && forall id :: id in c.rounds && id != e.id ==> d.rounds[id] == c.rounds[id])
  }

  /** In every run callbacks do to the chain of rounds, and to phase, requests and votes of the round they concern, what they are for. */
  lemma CallbackFollows(env: Env, events: seq<Event>, states: seq<Chain>, k: nat)
    requires Run(env, events, states) && k < |events|
    ensures var c, e, d := states[k], events[k], states[k + 1];
            && ChainFollows(c, e, d) && e.id in d.rounds
            && (e.Create? ==> IsNew(d.rounds[e.id], e.id, e.defaultSet))
            && (!e.Create? && !e.FirstCommit? && !e.Submit? ==>
                  e.id in c.rounds && (OnRequest(e) ==> e.index < |c.rounds[e.id].attestations|) && InputFollows(c.rounds[e.id], e, d.rounds[e.id]))
  {
    RunStep(env, events, states, k);
    var c, e := states[k], events[k];
    if e.Submit? {
      SubmitTouches(c, env, e.id, e.random, e.receipt);
    } else if !e.Create? && !e.FirstCommit? {
      LocalFollows(c.rounds[e.id], env, e);
    }
  }

  // ---------- when a round gets its result ----------

  /** The requests the votes want, `n` being how many there are. */
  ghost function Wanted(r: Round, env: Env, n: nat): seq<nat>
    requires env.assigners > 0
  {
    ResultIndices(CollectVotes(r.bitVotes, r.defaultSet), (env.assigners + 1) / 2, n)
  }

  /** All requests wanted are valid, or one is neither valid nor on its way. */
  ghost predicate Decidable(attestations: seq<Attestation>, wanted: seq<nat>) {
    || (forall i :: i in wanted ==> i < |attestations| && attestations[i].status == AttestationStatus.Valid)
    || (exists i :: i in wanted && i < |attestations| && attestations[i].status !in {AttestationStatus.Valid, Queued, Processing})
  }

  /** The votes agree on a mask that points beyond the requests. */
  ghost predicate PointsBeyond(r: Round, env: Env, n: nat)
    requires env.assigners > 0
  {
    VotingResult(CollectVotes(r.bitVotes, r.defaultSet), (env.assigners + 1) / 2, n) == None
  }

  /** The round abstains, or commits to the tree of its chosen requests, with the random given. */
  ghost predicate PreparedWith(s: Round, env: Env, random: Hash) {
    if s.indices == [] then Abstained(s, env, random)
    else
      && s.tree != [] && s.root == Some(s.tree[0]) && s.random == Some(random) && s.masked == Some(env.commitHash(s.tree[0], random))
  }

  lemma CalculatesWhen(r: Round, env: Env)
    requires env.assigners > 0 && r.status.Rank() < Chosen.Rank()
    ensures var s, n := TryCalculateBitVotingResults(r, env), |r.attestations|;
            if r.status == BitVotingClosed && r.phase == Commit && Decidable(r.attestations, Wanted(r, env, n)) then
              s == r.(indices := s.indices, status := Chosen, countedVotes := s.countedVotes, terminated := r.terminated || PointsBeyond(r, env, n))
            else s == r
  {}

  ghost predicate HasPrepared(r: Round, s: Round, env: Env, random: Hash) {
    s.status == CommitDataPrepared && s.indices == r.indices && PreparedWith(s, env, random) && s.terminated == r.terminated
  }

  lemma PreparesWhen(r: Round, env: Env, random: Hash)
    requires Agreed(r, env) && !r.isReject && r.phase == Commit && r.status == Chosen && !r.isEmpty
    ensures HasPrepared(r, TryPrepareCommitData(r, env, random), env, random)
  {
    var tree := TreeOf(env.pairHash, HashesAt(r.attestations, r.indices));
    TreeOfMeaning(env.pairHash, HashesAt(r.attestations, r.indices));
    if r.indices == [] { AbstainsWith(r, env, random); } else { CommitsWith(r, env, tree, random); }
    NoneNotValid(r, env);
    PreparesTo(r, env, random, tree);
  }

  lemma NoneNotValid(r: Round, env: Env)
    requires Agreed(r, env)
    ensures FirstNotValid(r.attestations, r.indices).None?
  {}

  lemma PreparesTo(r: Round, env: Env, random: Hash, tree: seq<Hash>)
    requires InRange(r) && !r.isReject && r.phase == Commit && r.status == Chosen && FirstNotValid(r.attestations, r.indices).None?
    requires tree == TreeOf(env.pairHash, HashesAt(r.attestations, r.indices)) && (r.indices != [] ==> tree != [])
    ensures TryPrepareCommitData(r, env, random) == if r.indices == [] then AbstainVoteRound(r, env, random) else CommitTo(r, env, tree, random)
  {}

  lemma AbstainsWith(r: Round, env: Env, random: Hash)
    requires r.indices == []
    ensures HasPrepared(r, AbstainVoteRound(r, env, random), env, random)
  {}

  lemma CommitsWith(r: Round, env: Env, tree: seq<Hash>, random: Hash)
    requires r.indices != [] && tree != []
    ensures HasPrepared(r, CommitTo(r, env, tree, random), env, random)
  {}

  /** In whatever state, data is prepared of a chosen round only, in its commit phase, and unless it is rejected. */
  lemma WaitsWhen(r: Round, env: Env, random: Hash)
    requires InRange(r) && (r.status != Chosen || r.phase != Commit || r.isReject)
    ensures TryPrepareCommitData(r, env, random) == r
  {}

  /** The round gets its result and prepares, or goes on waiting. */
  ghost predicate GetsResult(r: Round, env: Env, closed: bool, tries: bool, attestations: seq<Attestation>, random: Hash, s: Round)
    requires env.assigners > 0
  {
    if closed && tries && r.phase == Commit && Decidable(attestations, Wanted(r, env, |attestations|)) then
      && s.status == CommitDataPrepared && PreparedWith(s, env, random)
      && (s.terminated <==> r.terminated || PointsBeyond(r, env, |attestations|))
    else s.status == (if closed then BitVotingClosed else r.status) && s.terminated == r.terminated && s.root == r.root && s.indices == r.indices
  }

  lemma BothWhen(r: Round, env: Env, random: Hash)
    requires env.assigners > 0 && RoundInv(r, env) && !r.isEmpty && r.status.Rank() < Chosen.Rank()
    ensures GetsResult(r, env, r.status == BitVotingClosed, true, r.attestations, random, CalculateAndPrepare(r, env, random))
  {
    CalculatedInRange(r, env);
    CalculatesWhen(r, env);
    TryCalculateKeeps(r, env);
    var s := TryCalculateBitVotingResults(r, env);
    if s.status == Chosen { PreparesWhen(s, env, random); } else { WaitsWhen(s, env, random); }
  }

  lemma NotEmptyBefore(r: Round, env: Env)
    requires RoundInv(r, env) && r.status.Rank() < Chosen.Rank()
    ensures !r.isEmpty
  {}

  /**
   In every run a round gets its result - and prepares, with the random of the callback - exactly when its
   voting is being closed, or was and a request has been processed, while it is in its commit phase, and all
   requests the votes want are valid or one of them cannot be had any more.  The process ends exactly if
   the votes point beyond the requests.
   */
  lemma ResultWhen(env: Env, events: seq<Event>, states: seq<Chain>, k: nat)
    requires Run(env, events, states) && k < |events| && (events[k].CloseVoting? || events[k].Processed?)
    requires events[k].id in states[k].rounds && states[k].rounds[events[k].id].status.Rank() < Chosen.Rank()
    ensures events[k].id in states[k + 1].rounds
    ensures var e, r, s := events[k], states[k].rounds[events[k].id], states[k + 1].rounds[events[k].id];
            GetsResult(r, env, e.CloseVoting? || r.status == BitVotingClosed, e.Processed? || r.status == Collecting, s.attestations, e.random, s)
  {
    RunStep(env, events, states, k);
    var c, e := states[k], events[k];
    var r := c.rounds[e.id];
    assert RoundOk(c, env, e.id);
    NotEmptyBefore(r, env);
    LocalFollows(r, env, e);
    if e.Processed? { ProcessedNeverExceeds(env, events, states, k); }
    LocalGetsResult(r, env, e);
  }

  lemma LocalGetsResult(r: Round, env: Env, e: Event)
    requires env.assigners > 0 && RoundInv(r, env) && !r.isEmpty && r.status.Rank() < Chosen.Rank() && (e.CloseVoting? || e.Processed?)
    requires e.Processed? ==> Pending(r, e.index) && r.attestationsProcessed < |r.attestations|
    ensures var s := Local(r, env, e);
            GetsResult(r, env, e.CloseVoting? || r.status == BitVotingClosed, e.Processed? || r.status == Collecting,
                       RequestsAfter(r.attestations, e), e.random, s)
  {
    match e
    case Processed(_, i, status, hash, random) =>
      CountedKeeps(r, env, i, status, hash);
      BothWhen(Counted(r, i, status, hash), env, random);
    case CloseVoting(_, random) =>
      if r.status.Rank() < BitVotingClosed.Rank() { BothWhen(r.(status := BitVotingClosed), env, random); }
  }

  /** The callbacks that may end the wait of round `id` for its result. */
  predicate EndsWait(e: Event, id: nat) {
    (e.id == id && (e.Processed? || e.FirstCommit? || e.Submit?)) || (e.Submit? && e.id + 1 == id)
  }

  /**
   So in every run a round whose voting was closed without a result - which it always is if that was before
   its commit phase - gets none as long as no request of it is processed; the start of its commit phase
   does not help.  In the end it abstains, whatever was voted for.
   */
  lemma {:induction false} ClosedWaitsForRequest(env: Env, events: seq<Event>, states: seq<Chain>, k: nat, j: nat, id: nat)
    requires Run(env, events, states) && k <= j < |states| && id in states[k].rounds && states[k].rounds[id].status == BitVotingClosed
    requires forall i :: k <= i < j ==> !EndsWait(events[i], id)
    ensures id in states[j].rounds && states[j].rounds[id].status == BitVotingClosed && states[j].rounds[id].indices == []
    decreases j
  {
    RunKeeps(env, events, states, j);
    if j == k {
      assert RoundOk(states[k], env, id);
    } else {
      ClosedWaitsForRequest(env, events, states, k, j - 1, id);
      RunStep(env, events, states, j - 1);
      ClosedStays(states[j - 1], env, events[j - 1], id);
      assert RoundOk(states[j], env, id);
    }
  }

  lemma ClosedStays(c: Chain, env: Env, e: Event, id: nat)
    requires env.assigners > 0 && AllInRange(c) && Enabled(c, e) && id in c.rounds && c.rounds[id].status == BitVotingClosed && !EndsWait(e, id)
    ensures id in Apply(c, env, e).rounds && Apply(c, env, e).rounds[id].status == BitVotingClosed
  {
    if e.Submit? {
      SubmitTouches(c, env, e.id, e.random, e.receipt);
    } else if e.CommitPhaseStart? && e.id == id {
      WaitsWhen(c.rounds[id].(phase := Commit), env, e.random);
    }
  }

  /** A round that is already chosen when its commit phase begins prepares then, and only such a one does. */
  lemma CommitStartPrepares(env: Env, events: seq<Event>, states: seq<Chain>, k: nat)
    requires Run(env, events, states) && k < |events| && events[k].CommitPhaseStart?
    ensures var e, c, d := events[k], states[k], states[k + 1];
            e.id in c.rounds && e.id in d.rounds &&
            var r, s := c.rounds[e.id], d.rounds[e.id];
            if r.status == Chosen && !r.isEmpty then s.status == CommitDataPrepared && PreparedWith(s, env, e.random)
            else r.status != Chosen ==> s == r.(phase := Commit)
  {
    RunStep(env, events, states, k);
    var c, e := states[k], events[k];
    var r := c.rounds[e.id].(phase := Commit);
    assert RoundOk(c, env, e.id);
    if r.status == Chosen && !r.isEmpty { PreparesWhen(r, env, e.random); }
  }

  // ---------- what no run comes to ----------

  /** In whatever state, a rejected round commits to no tree but reveals it with its random; any other ends the process. */
  lemma RejectMeans(r: Round, env: Env, random: Hash)
    ensures RejectVoteRound(r, env, random) ==
              if r.isReject then r.(status := CommitDataPrepared, root := Some(0), random := Some(random), masked := Some(env.commitHash(0, random)))
              else r.(terminated := true)
  {}

  /** In whatever state, a chosen round is rejected exactly if the first request it wants that is not valid is invalid or over the limit. */
  lemma RejectsIff(r: Round, env: Env, random: Hash, j: nat)
    requires InRange(r) && r.phase == Commit && r.status == Chosen && !r.isReject && j < |r.indices|
    requires r.attestations[r.indices[j]].status != AttestationStatus.Valid
    requires forall i :: 0 <= i < j ==> r.attestations[r.indices[i]].status == AttestationStatus.Valid
    ensures var s := TryPrepareCommitData(r, env, random);
            if r.attestations[r.indices[j]].status in {Invalid, OverLimit} then s == r.(isReject := true, rejectIndex := Some(r.indices[j])) else s == r
  {
    FirstNotValidAt(r.attestations, r.indices, j);
  }

  lemma {:induction false} FirstNotValidAt(attestations: seq<Attestation>, indices: seq<nat>, j: nat)
    requires Within(indices, |attestations|) && j < |indices| && attestations[indices[j]].status != AttestationStatus.Valid
    requires forall i :: 0 <= i < j ==> attestations[indices[i]].status == AttestationStatus.Valid
    ensures FirstNotValid(attestations, indices) == Some(indices[j])
    decreases j
  {
    if j > 0 { FirstNotValidAt(attestations, indices[1..], j - 1); }
  }
}
