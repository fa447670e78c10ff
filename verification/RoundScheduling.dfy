/**
 Rounds and schedulers together.  A round's runs take it that a verdict is final: a request that has one
 is not queued, sent or processed again.  Nothing in the round sees to that; it follows from what the
 schedulers of the sources keep.
 */
module RoundScheduling {
  import opened CommitReveal
  import opened Merkle
  import opened RoundCompletion
  import opened RoundState
  import opened Wrappers

  import S = SourceManagers

  // ---------- reports of one scheduler ----------

  /** How many of the reports are about one of the requests. */
  function ReportsAbout(reported: seq<S.Id>, ids: set<S.Id>): nat {
    if reported == [] then 0
    else ReportsAbout(reported[..|reported| - 1], ids) + if reported[|reported| - 1] in ids then 1 else 0
  }

  lemma {:induction false} ReportsSplit(reported: seq<S.Id>, ids: set<S.Id>, x: S.Id)
    requires x in ids
    ensures ReportsAbout(reported, ids) == ReportsAbout(reported, ids - {x}) + multiset(reported)[x]
    decreases |reported|
  {
    if reported != [] {
      var front, last := reported[..|reported| - 1], reported[|reported| - 1];
      assert reported == front + [last];
      assert multiset(reported) == multiset(front) + multiset{last};
      ReportsSplit(front, ids, x);
    }
  }

  lemma {:induction false} ReportsAboutNone(reported: seq<S.Id>)
    ensures ReportsAbout(reported, {}) == 0
  {
    if reported != [] { ReportsAboutNone(reported[..|reported| - 1]); }
  }

  /** A scheduler reports the requests of a round at most once each, and fewer times while one of them is not done. */
  lemma {:induction false} ReportsAtMostOnce(s: S.State, maxRetries: nat, ids: set<S.Id>)
    requires S.Fits(s, maxRetries)
    ensures ReportsAbout(s.reported, ids) <= |ids|
    ensures (exists a :: a in ids && !S.At(s.track, a, S.Done)) ==> ReportsAbout(s.reported, ids) < |ids|
    decreases ids
  {
    if ids == {} {
      ReportsAboutNone(s.reported);
    } else {
      var x :| x in ids && ((exists a :: a in ids && !S.At(s.track, a, S.Done)) ==> !S.At(s.track, x, S.Done));
      ReportsSplit(s.reported, ids, x);
      assert multiset(s.reported)[x] == S.OneIf(S.At(s.track, x, S.Done));
      ReportsAtMostOnce(s, maxRetries, ids - {x});
    }
  }

  // ---------- rounds that take whatever comes ----------

  ghost predicate OpenStepOf(env: Env, c: Chain, e: Event, d: Chain)
    requires env.assigners > 0
  {
    AllInRange(c) ==> Possible(c, e) && d == Apply(c, env, e)
  }

  /** Runs of the rounds alone, in which any request may get any number of verdicts. */
  ghost predicate OpenRun(env: Env, events: seq<Event>, states: seq<Chain>) {
    && env.assigners > 0
    && |states| == |events| + 1 && states[0] == START
    && forall k :: 0 <= k < |events| ==> OpenStepOf(env, states[k], events[k], states[k + 1])
  }

  // ---------- the schedulers beside them ----------

  /** The schedulers by source, and the identity of a request with one of them. */
  type Schedulers = map<nat, S.State>

  datatype Handle = Handle(source: nat, request: S.Id)

  ghost predicate InPlace(s: Schedulers, h: Handle, place: S.Place) {
    h.source in s && S.At(s[h.source].track, h.request, place)
  }

  /** The scheduler is done with the request, which it gave the status. */
  ghost predicate DoneWith(s: Schedulers, h: Handle, status: AttestationStatus) {
    InPlace(s, h, S.Done) && h.request in s[h.source].requests && s[h.source].requests[h.request].status == status
  }

  ghost predicate AllFit(s: Schedulers, maxRetries: nat) {
    forall source :: source in s ==> S.Fits(s[source], maxRetries)
  }

  ghost predicate AllGoOn(s: Schedulers, t: Schedulers) {
    forall source :: source in s ==> source in t && forall a :: S.Follows(s[source], t[source], a)
  }

  /** Requests, each with the scheduler it was handed to, and those refused when they were added. */
  datatype Requests = Requests(handle: (nat, nat) -> Handle, refused: set<(nat, nat)>)

  /** The request that has just been added to its round, and is refused by the same callback. */
  ghost predicate JustAdded(events: seq<Event>, k: nat, c: Chain, id: nat, index: nat) {
    0 < k <= |events| && events[k - 1] == Add(id) && id in c.rounds && index + 1 == |c.rounds[id].attestations|
  }

  /**
   What the round hears comes from the scheduler of the request: queueing and sending, and a verdict when
   the request becomes done, the status it has there.  A refused request is not handed over; its verdict
   comes when it is added, and says that it is over the limit or cannot be processed.
   */
  ghost predicate FromScheduler(q: Requests, events: seq<Event>, k: nat, c: Chain, s: Schedulers, t: Schedulers)
    requires k < |events|
  {
    match events[k]
    case Enqueue(id, index) => (id, index) !in q.refused && InPlace(t, q.handle(id, index), S.Fifo)
    case Start(id, index) => (id, index) !in q.refused && InPlace(t, q.handle(id, index), S.InFlight)
    case Processed(id, index, status, _, _) =>
      if (id, index) in q.refused then JustAdded(events, k, c, id, index) && status in {OverLimit, NotProcessed}
      else !InPlace(s, q.handle(id, index), S.Done) && DoneWith(t, q.handle(id, index), status)
    case _ => true
  }

  ghost predicate Scheduled(q: Requests, maxRetries: nat, events: seq<Event>, states: seq<Chain>, schedulers: seq<Schedulers>) {
    && |states| == |schedulers| == |events| + 1
    && (forall k: nat :: k <= |events| ==> AllFit(schedulers[k], maxRetries))
    && forall k: nat :: k < |events| ==>
         AllGoOn(schedulers[k], schedulers[k + 1]) && FromScheduler(q, events, k, states[k], schedulers[k], schedulers[k + 1])
  }

  // ---------- a verdict is final ----------

  ghost predicate FinalIsDone(q: Requests, c: Chain, s: Schedulers, id: nat, index: nat)
    requires id in c.rounds && index < |c.rounds[id].attestations|
  {
    var status := c.rounds[id].attestations[index].status;
    status.Final() ==> if (id, index) in q.refused then !status.Valid? else DoneWith(s, q.handle(id, index), status)
  }

  ghost predicate FinalAreDone(q: Requests, c: Chain, s: Schedulers) {
    forall id, index: nat :: id in c.rounds && index < |c.rounds[id].attestations| ==> FinalIsDone(q, c, s, id, index)
  }

  lemma DoneStays(s: Schedulers, t: Schedulers, maxRetries: nat, h: Handle)
    requires AllFit(s, maxRetries) && AllFit(t, maxRetries) && AllGoOn(s, t) && InPlace(s, h, S.Done)
    ensures InPlace(t, h, S.Done)
    ensures forall status :: DoneWith(s, h, status) ==> DoneWith(t, h, status)
  {
    assert S.Fits(s[h.source], maxRetries) && S.Fits(t[h.source], maxRetries);
    assert S.Follows(s[h.source], t[h.source], h.request);
  }

  /** What a step makes of the requests of a round: only the one that is processed gets a verdict. */
  ghost predicate SameVerdicts(r: Round, s: Round) {
    && |r.attestations| <= |s.attestations|
    && forall i :: 0 <= i < |s.attestations| ==>
         (s.attestations[i].status.Final() ==> i < |r.attestations| && r.attestations[i].status == s.attestations[i].status)
  }

  lemma LocalVerdicts(r: Round, env: Env, e: Event)
    requires env.assigners > 0 && InRange(r) && (OnRequest(e) ==> e.index < |r.attestations|) && !e.Processed?
    ensures SameVerdicts(r, Local(r, env, e))
  {
    match e
    case CloseVoting(_, random) =>
      if r.status.Rank() < BitVotingClosed.Rank() {
        CalculateKeepsCount(r.(status := BitVotingClosed), env, random);
      }
    case CommitPhaseStart(_, random) => PrepareKeepsCount(r.(phase := Commit), env, random);
    case _ =>
  }

  lemma ProcessedVerdicts(r: Round, env: Env, e: Event)
    requires env.assigners > 0 && InRange(r) && e.Processed? && e.index < |r.attestations|
    ensures Local(r, env, e).attestations == r.attestations[e.index := Attestation(e.status, e.hash)]
  {
    var counted := Counted(r, e.index, e.status, e.hash);
    CalculateKeepsCount(counted, env, e.random);
  }

  lemma SubmitKeepsRequests(c: Chain, env: Env, id0: nat, random: Hash, receipt: bool, id: nat)
    requires id0 in c.rounds && id in OnSubmit(c, env, id0, random, receipt).rounds
    ensures id in c.rounds && OnSubmit(c, env, id0, random, receipt).rounds[id].attestations == c.rounds[id].attestations
  {
    SubmitTouches(c, env, id0, random, receipt);
  }

  lemma StepVerdicts(c: Chain, env: Env, e: Event, id: nat, index: nat)
    requires env.assigners > 0 && AllInRange(c) && Possible(c, e)
    requires var d := Apply(c, env, e);
             id in d.rounds && index < |d.rounds[id].attestations| && d.rounds[id].attestations[index].status.Final()
    ensures var status := Apply(c, env, e).rounds[id].attestations[index].status;
            || (e.Processed? && e.id == id && e.index == index && status == e.status)
            || (id in c.rounds && index < |c.rounds[id].attestations| && c.rounds[id].attestations[index].status == status)
  {
    match e
    case Create(_, _) =>
    case FirstCommit(_, _, _, _, _) =>
    case Submit(id0, random, receipt) => SubmitKeepsRequests(c, env, id0, random, receipt, id);
    case Processed(_, _, _, _, _) => ProcessedVerdicts(c.rounds[e.id], env, e);
    case _ => LocalVerdicts(c.rounds[e.id], env, e);
  }

  lemma StepKeepsDone(q: Requests, maxRetries: nat, events: seq<Event>, k: nat, env: Env, c: Chain, s: Schedulers, t: Schedulers)
    requires k < |events| && env.assigners > 0 && AllInRange(c) && Possible(c, events[k])
    requires AllFit(s, maxRetries) && AllFit(t, maxRetries) && AllGoOn(s, t) && FromScheduler(q, events, k, c, s, t)
    requires FinalAreDone(q, c, s)
    ensures FinalAreDone(q, Apply(c, env, events[k]), t)
  {
    var e, d := events[k], Apply(c, env, events[k]);
    forall id, index: nat | id in d.rounds && index < |d.rounds[id].attestations| ensures FinalIsDone(q, d, t, id, index) {
      if d.rounds[id].attestations[index].status.Final() {
        StepVerdicts(c, env, e, id, index);
        if !(e.Processed? && e.id == id && e.index == index && d.rounds[id].attestations[index].status == e.status) {
          assert FinalIsDone(q, c, s, id, index);
          if (id, index) !in q.refused { DoneStays(s, t, maxRetries, q.handle(id, index)); }
        }
      }
    }
  }

  /** A request that is about to get a verdict, or to be queued or sent, has none yet. */
  lemma StillPending(q: Requests, maxRetries: nat, events: seq<Event>, k: nat, c: Chain, s: Schedulers, t: Schedulers)
    requires k < |events| && Possible(c, events[k]) && OnRequest(events[k])
    requires AllFit(s, maxRetries) && AllFit(t, maxRetries) && AllGoOn(s, t) && FromScheduler(q, events, k, c, s, t) && FinalAreDone(q, c, s)
    requires JustAdded(events, k, c, events[k].id, events[k].index) ==> Fresh(c, events[k])
    ensures Pending(c.rounds[events[k].id], events[k].index)
  {
    var e := events[k];
    assert FinalIsDone(q, c, s, e.id, e.index);
    if InPlace(s, q.handle(e.id, e.index), S.Done) { DoneStays(s, t, maxRetries, q.handle(e.id, e.index)); }
  }

  predicate Fresh(c: Chain, e: Event)
    requires OnRequest(e) && e.id in c.rounds && e.index < |c.rounds[e.id].attestations|
  {
    c.rounds[e.id].attestations[e.index].status.Initial?
  }

  lemma AddedIsFresh(env: Env, events: seq<Event>, states: seq<Chain>, k: nat)
    requires k < |events| < |states| && Run(env, events[..k], states[..k + 1])
    requires Possible(states[k], events[k]) && OnRequest(events[k])
    requires JustAdded(events, k, states[k], events[k].id, events[k].index)
    ensures Fresh(states[k], events[k])
  {
    RunStep(env, events[..k], states[..k + 1], k - 1);
    assert events[..k][k - 1] == events[k - 1] && states[..k + 1][k] == states[k] && states[..k + 1][k - 1] == states[k - 1];
  }

  lemma RunPrefix(env: Env, events: seq<Event>, states: seq<Chain>, k: nat)
    requires env.assigners > 0 && k < |events| < |states| && Run(env, events[..k], states[..k + 1])
    requires StepOf(env, states[k], events[k], states[k + 1])
    ensures Run(env, events[..k + 1], states[..k + 2])
  {
    var es, ss := events[..k + 1], states[..k + 2];
    forall j | 0 <= j < |es| ensures StepOf(env, ss[j], es[j], ss[j + 1]) {
      if j < k { assert StepOf(env, states[..k + 1][j], events[..k][j], states[..k + 1][j + 1]); }
    }
    assert ss[0] == states[..k + 1][0];
  }

  lemma {:induction false} ScheduledPrefix(env: Env, events: seq<Event>, states: seq<Chain>,
                                           q: Requests, maxRetries: nat, schedulers: seq<Schedulers>, k: nat)
    requires OpenRun(env, events, states) && Scheduled(q, maxRetries, events, states, schedulers) && k <= |events|
    ensures Run(env, events[..k], states[..k + 1]) && FinalAreDone(q, states[k], schedulers[k])
    decreases k
  {
    if k > 0 {
      ScheduledPrefix(env, events, states, q, maxRetries, schedulers, k - 1);
      ScheduledStep(env, events, states, q, maxRetries, schedulers, k - 1);
      RunPrefix(env, events, states, k - 1);
    }
  }

  lemma ScheduledStep(env: Env, events: seq<Event>, states: seq<Chain>, q: Requests, maxRetries: nat, schedulers: seq<Schedulers>, k: nat)
    requires OpenRun(env, events, states) && Scheduled(q, maxRetries, events, states, schedulers) && k < |events|
    requires Run(env, events[..k], states[..k + 1]) && FinalAreDone(q, states[k], schedulers[k])
    ensures StepOf(env, states[k], events[k], states[k + 1]) && FinalAreDone(q, states[k + 1], schedulers[k + 1])
  {
    PrefixInRange(env, events[..k], states[..k + 1], states[k]);
    var e := events[k];
    assert OpenStepOf(env, states[k], e, states[k + 1]);
    if OnRequest(e) && JustAdded(events, k, states[k], e.id, e.index) { AddedIsFresh(env, events, states, k); }
    StepGuarded(env, events, states[k], states[k + 1], q, maxRetries, schedulers[k], schedulers[k + 1], k);
  }

  lemma PrefixInRange(env: Env, events: seq<Event>, states: seq<Chain>, c: Chain)
    requires Run(env, events, states) && c == states[|events|]
    ensures AllInRange(c)
  {
    RunKeeps(env, events, states, |events|);
    InvInRange(c, env);
  }

  /** A step that takes what comes is one that is guarded. */
  lemma StepGuarded(env: Env, events: seq<Event>, c: Chain, d: Chain, q: Requests, maxRetries: nat, s: Schedulers, t: Schedulers, k: nat)
    requires k < |events| && env.assigners > 0 && AllInRange(c) && Possible(c, events[k]) && d == Apply(c, env, events[k])
    requires AllFit(s, maxRetries) && AllFit(t, maxRetries) && AllGoOn(s, t) && FromScheduler(q, events, k, c, s, t) && FinalAreDone(q, c, s)
    requires OnRequest(events[k]) && JustAdded(events, k, c, events[k].id, events[k].index) ==> Fresh(c, events[k])
    ensures StepOf(env, c, events[k], d) && FinalAreDone(q, d, t)
  {
    if OnRequest(events[k]) { StillPending(q, maxRetries, events, k, c, s, t); }
    StepKeepsDone(q, maxRetries, events, k, env, c, s, t);
  }

  /** Rounds that take whatever comes, beside schedulers that keep what they keep, run as if verdicts were guarded. */
  lemma ScheduledRunsAreRuns(env: Env, events: seq<Event>, states: seq<Chain>, q: Requests, maxRetries: nat, schedulers: seq<Schedulers>)
    requires OpenRun(env, events, states) && Scheduled(q, maxRetries, events, states, schedulers)
    ensures Run(env, events, states)
  {
    ScheduledPrefix(env, events, states, q, maxRetries, schedulers, |events|);
    assert events[..|events|] == events && states[..|events| + 1] == states;
  }

  /** So the exit for too many verdicts is never taken: whenever one comes in, one more may be counted. */
  lemma VerdictsNeverExceed(env: Env, events: seq<Event>, states: seq<Chain>, q: Requests, maxRetries: nat, schedulers: seq<Schedulers>, k: nat)
    requires OpenRun(env, events, states) && Scheduled(q, maxRetries, events, states, schedulers)
    requires k < |events| && events[k].Processed?
    ensures var e := events[k];
            && e.id in states[k].rounds
            && states[k].rounds[e.id].attestationsProcessed < |states[k].rounds[e.id].attestations|
  {
    ScheduledRunsAreRuns(env, events, states, q, maxRetries, schedulers);
    ProcessedNeverExceeds(env, events, states, k);
  }

  /**
   In every scheduled run a request of a round is valid only if it was handed to its scheduler, which was
   told so by its verifier, and found the message intact.
   */
  lemma ValidOnlyIfVerified(env: Env, events: seq<Event>, states: seq<Chain>, q: Requests, maxRetries: nat, schedulers: seq<Schedulers>,
                            k: nat, id: nat, index: nat)
    requires OpenRun(env, events, states) && Scheduled(q, maxRetries, events, states, schedulers) && k <= |events|
    requires id in states[k].rounds && index < |states[k].rounds[id].attestations| && states[k].rounds[id].attestations[index].status.Valid?
    ensures (id, index) !in q.refused && InPlace(schedulers[k], q.handle(id, index), S.Done)
    ensures schedulers[k][q.handle(id, index).source].track[q.handle(id, index).request].answer == Some(S.Verified(true))
  {
    ScheduledPrefix(env, events, states, q, maxRetries, schedulers, k);
    assert FinalIsDone(q, states[k], schedulers[k], id, index);
    var h := q.handle(id, index);
    AnswerOf(schedulers[k][h.source], maxRetries, h.request);
  }

  lemma AnswerOf(s: S.State, maxRetries: nat, a: S.Id)
    requires S.Fits(s, maxRetries) && S.At(s.track, a, S.Done) && a in s.requests && s.requests[a].status.Valid?
    ensures s.track[a].answer == Some(S.Verified(true))
  {
    assert S.Consistent(s.requests[a], s.track[a], maxRetries, s.clock);
  }
}
