/**
 The scheduler of one source (`SourceManager.ts`): it moves every request between a queue, a heap of
 delayed retries and the set of requests in flight, and calls itself again whenever one is finished.

 A request object is its identity, and its mutable fields are kept in a map.  The clock moves on
 by any amount whenever it is read; the answer of a verifier is a later callback.
 */
module SourceManagers {
  import opened PriorityQueues
  import opened RoundState
  import opened Wrappers

  type Id = nat

  /** The fields of a request the scheduler uses. */
  datatype Request = Request(status: AttestationStatus, retry: nat, deadline: int)

  datatype Limit = AtMost(n: nat) | Unlimited {
    predicate Allows(x: nat) {
      Unlimited? || x < n
    }
  }

  datatype Limits = Limits(maxRequestsPerSecond: Limit, maxProcessing: Limit, maxFailedRetries: nat, delayBeforeRetry: nat)

  /** What a verifier may answer. */
  datatype Verdict = Verified(integrityOk: bool) | NeedsMoreChecks | Undecided | Refuted {
    function Status(): (s: AttestationStatus)
      ensures s.Final()
    {
      match this
      case Verified(integrityOk) => if integrityOk then Valid else Invalid
      case NeedsMoreChecks => Errored
      case Undecided => Errored
      case Refuted => Invalid
    }
  }

  // ---------- where a request is ----------

  /** `Held`: taken out by a call that has yet to start it; `Retrying`: its failure is being dealt with. */
  datatype Place = Fifo | Delayed | Held | InFlight | Retrying | Done

  /** What became of a request so far: its place, how often it was sent, when it may be sent and when it was, and what its verifier answered. */
  datatype Track = Track(place: Place, sends: nat, notBefore: int, sentAt: int, answer: Option<Verdict>)

  type Tracks = map<Id, Track>

  ghost predicate At(track: Tracks, a: Id, place: Place) {
    a in track && track[a].place == place
  }

  ghost function OneIf(b: bool): nat {
    if b then 1 else 0
  }

  /** A request is valid exactly if its verifier said so and the message is intact, and invalid if it is not or was refuted. */
  ghost predicate FollowsAnswer(status: AttestationStatus, answer: Option<Verdict>) {
    && (status.Valid? <==> answer == Some(Verified(true)))
    && (answer in {Some(Verified(false)), Some(Refuted)} ==> status.Invalid?)
    && (answer in {Some(NeedsMoreChecks), Some(Undecided)} ==> status.Errored?)
  }

  ghost predicate Consistent(r: Request, t: Track, maxRetries: nat, clock: int) {
    && r.retry <= maxRetries && (t.place != Done ==> t.answer == None)
    && match t.place
       case Fifo => r.status == Queued && r.retry == 0 && t.sends == 0 && t.notBefore <= clock
       case Delayed => r.status == Processing && t.sends == r.retry
       case Held => !r.status.Final() && t.sends == r.retry && t.notBefore <= clock
       case InFlight => r.status == Processing && t.sends == r.retry + 1 && t.notBefore <= t.sentAt <= r.deadline && t.sentAt <= clock
       case Retrying => r.status == Processing && t.sends == r.retry && t.notBefore <= clock
       case Done => r.status.Final() && t.sends <= r.retry + 1 && FollowsAnswer(r.status, t.answer)
  }

  ghost predicate RequestsFit(requests: map<Id, Request>, track: Tracks, maxRetries: nat, clock: int) {
    requests.Keys == track.Keys && forall a :: a in track ==> Consistent(requests[a], track[a], maxRetries, clock)
  }

  ghost predicate QueueFits(queue: seq<Id>, track: Tracks) {
    forall a :: multiset(queue)[a] == OneIf(At(track, a, Fifo))
  }

  ghost predicate HeapFits(nodes: multiset<QueueNode<Id>>, track: Tracks) {
    forall n :: nodes[n] == OneIf(At(track, n.value, Delayed) && n.key == track[n.value].notBefore)
  }

  ghost predicate ProcessingFits(processing: set<Id>, track: Tracks) {
    forall a :: a in processing <==> At(track, a, InFlight) || At(track, a, Retrying)
  }

  ghost predicate ReportsFit(reported: seq<Id>, track: Tracks) {
    forall a :: multiset(reported)[a] == OneIf(At(track, a, Done))
  }

  ghost function HeldIn(track: Tracks): set<Id> {
    set a | a in track && track[a].place == Held
  }

  ghost predicate Resting(track: Tracks) {
    HeldIn(track) == {} && forall a :: !At(track, a, Retrying)
  }

  lemma TakenBack(held: set<Id>, a: Id)
    requires a !in held
    ensures held + {a} - {a} == held
  {}

  // ---------- moving one request ----------

  lemma QueuePush(queue: seq<Id>, track: Tracks, a: Id, t: Track)
    requires QueueFits(queue, track) && !At(track, a, Fifo) && t.place == Fifo
    ensures QueueFits(queue + [a], track[a := t])
  {
    assert multiset(queue + [a]) == multiset(queue) + multiset{a};
  }

  lemma QueueShift(queue: seq<Id>, track: Tracks, t: Track)
    requires QueueFits(queue, track) && queue != [] && t.place != Fifo
    ensures At(track, queue[0], Fifo) && QueueFits(queue[1..], track[queue[0] := t])
  {
    assert queue == [queue[0]] + queue[1..];
    assert multiset(queue) == multiset{queue[0]} + multiset(queue[1..]);
    assert multiset(queue)[queue[0]] >= 1;
    forall b ensures multiset(queue[1..])[b] == OneIf(At(track[queue[0] := t], b, Fifo)) {
      assert multiset(queue)[b] == OneIf(At(track, b, Fifo));
    }
  }

  lemma HeapPush(nodes: multiset<QueueNode<Id>>, track: Tracks, a: Id, t: Track)
    requires HeapFits(nodes, track) && !At(track, a, Delayed) && t.place == Delayed
    ensures HeapFits(nodes + multiset{QueueNode(t.notBefore, a)}, track[a := t])
  {}

  lemma HeapPop(nodes: multiset<QueueNode<Id>>, rest: multiset<QueueNode<Id>>, n: QueueNode<Id>, track: Tracks, t: Track)
    requires HeapFits(nodes, track) && nodes == rest + multiset{n} && t.place != Delayed
    ensures At(track, n.value, Delayed) && track[n.value].notBefore == n.key && HeapFits(rest, track[n.value := t])
  {
    assert nodes[n] == 1;
    forall m ensures rest[m] == OneIf(At(track[n.value := t], m.value, Delayed) && m.key == track[n.value := t][m.value].notBefore) {
      assert nodes[m] == OneIf(At(track, m.value, Delayed) && m.key == track[m.value].notBefore);
    }
  }

  lemma Reported(reported: seq<Id>, track: Tracks, a: Id, t: Track)
    requires ReportsFit(reported, track) && !At(track, a, Done) && t.place == Done
    ensures ReportsFit(reported + [a], track[a := t])
  {
    assert multiset(reported + [a]) == multiset(reported) + multiset{a};
  }

  lemma QueueFrame(queue: seq<Id>, track: Tracks, a: Id, t: Track)
    requires QueueFits(queue, track) && !At(track, a, Fifo) && t.place != Fifo
    ensures QueueFits(queue, track[a := t])
  {}

  lemma HeapFrame(nodes: multiset<QueueNode<Id>>, track: Tracks, a: Id, t: Track)
    requires HeapFits(nodes, track) && !At(track, a, Delayed) && t.place != Delayed
    ensures HeapFits(nodes, track[a := t])
  {
    forall n ensures nodes[n] == OneIf(At(track[a := t], n.value, Delayed) && n.key == track[a := t][n.value].notBefore) {
      assert nodes[n] == OneIf(At(track, n.value, Delayed) && n.key == track[n.value].notBefore);
    }
  }

  lemma ReportsFrame(reported: seq<Id>, track: Tracks, a: Id, t: Track)
    requires ReportsFit(reported, track) && !At(track, a, Done) && t.place != Done
    ensures ReportsFit(reported, track[a := t])
  {}

  // ---------- the state as a value ----------

  datatype State = State(requests: map<Id, Request>, track: Tracks, clock: int, queue: seq<Id>, nodes: multiset<QueueNode<Id>>,
                         processing: set<Id>, reported: seq<Id>, limits: Limits)

  /** Every request is where its track says, and nowhere else. */
  ghost predicate Fits(s: State, maxRetries: nat) {
    && RequestsFit(s.requests, s.track, maxRetries, s.clock)
    && QueueFits(s.queue, s.track)
    && HeapFits(s.nodes, s.track)
    && ProcessingFits(s.processing, s.track)
    && ReportsFit(s.reported, s.track)
  }

  /** A request may be retried and sent more often and be due later, but not otherwise, and its deadline stays. */
  ghost predicate Advances(r: Request, t: Track, r': Request, t': Track) {
    && r'.deadline == r.deadline && r.retry <= r'.retry && t.sends <= t'.sends && t.notBefore <= t'.notBefore
    && (t.place == Done ==> t'.place == Done && t'.answer == t.answer && r' == r)
  }

  ghost predicate Follows(s: State, t: State, a: Id) {
    a in s.track && a in s.requests ==>
      a in t.track && a in t.requests && Advances(s.requests[a], s.track[a], t.requests[a], t.track[a])
  }

  /** Nor is the failure of a request left to be dealt with. */
  ghost predicate Onward(s: State, t: State, a: Id) {
    Follows(s, t, a) && Steady(s, t, a) && (At(t.track, a, Retrying) ==> At(s.track, a, Retrying))
  }

  /** The retries of a request are not counted on, and it is not due later, unless its failure was being dealt with. */
  ghost predicate Steady(s: State, t: State, a: Id) {
    a in s.track && a in s.requests && a in t.track && a in t.requests ==>
      && t.requests[a].retry == s.requests[a].retry
      && (s.track[a].place != Retrying ==> t.track[a].notBefore == s.track[a].notBefore)
  }

  /** What no step of the scheduler does: lose or forget a request, reopen a finished one, or turn back the clock. */
  ghost predicate GoesOn(s: State, t: State) {
    && t.requests.Keys == s.requests.Keys
    && s.clock <= t.clock && s.reported <= t.reported && t.limits == s.limits
    && forall a :: Onward(s, t, a)
  }

  /** The same, but that the failure of `x` remains to be dealt with. */
  ghost predicate GoesOnBut(s: State, t: State, x: Id) {
    && t.requests.Keys == s.requests.Keys
    && s.clock <= t.clock && s.reported <= t.reported && t.limits == s.limits
    && Follows(s, t, x) && forall a :: a != x ==> Onward(s, t, a)
  }

  lemma GoesOnTransitive(s: State, t: State, u: State)
    requires GoesOn(s, t) && GoesOn(t, u)
    ensures GoesOn(s, u)
  {
    forall a ensures Onward(s, u, a) {
      assert Onward(s, t, a) && Onward(t, u, a);
    }
  }

  lemma AllOnward(s: State, t: State, u: State)
    requires (forall a :: Onward(s, t, a)) && GoesOn(t, u)
    ensures forall a :: Onward(s, u, a)
  {
    forall a ensures Onward(s, u, a) {
      assert Onward(s, t, a) && Onward(t, u, a);
    }
  }

  /** Time has passed, and nothing else. */
  ghost predicate Passed(s: State, t: State) {
    s.clock <= t.clock && t == s.(clock := t.clock)
  }

  lemma GoesOnAfter(s: State, t: State, u: State)
    requires (Passed(s, t) || GoesOn(s, t)) && (Passed(t, u) || GoesOn(t, u))
    ensures GoesOn(s, u)
  {
    PassedGoesOn(s, t);
    PassedGoesOn(t, u);
    GoesOnTransitive(s, t, u);
  }

  /** So a callback that leaves in hand what was, leaves nothing new there. */
  lemma RestStays(s: State, t: State)
    requires (forall a :: Onward(s, t, a)) && HeldIn(t.track) == HeldIn(s.track)
    ensures Resting(s.track) ==> Resting(t.track)
  {
    if Resting(s.track) {
      forall a ensures !At(t.track, a, Retrying) {
        assert Onward(s, t, a);
      }
    }
  }

  /** Nor if one request, whose failure is dealt with, is taken back among the waiting ones. */
  lemma RestStaysBut(s: State, t: State, x: Id)
    requires GoesOnBut(s, t, x) && !At(t.track, x, Retrying) && HeldIn(t.track) == HeldIn(s.track)
    ensures Resting(s.track) ==> Resting(t.track)
  {
    if Resting(s.track) {
      forall a ensures !At(t.track, a, Retrying) {
        assert a != x ==> Onward(s, t, a);
      }
    }
  }

  lemma RetriedGoesOn(s: State, t: State, u: State, v: State, x: Id)
    requires GoesOnBut(s, t, x) && Passed(t, u) && GoesOn(u, v)
    ensures GoesOnBut(s, v, x) && Follows(t, v, x)
  {
    assert Onward(u, v, x);
    forall a | a != x ensures Onward(s, v, a) {
      assert Onward(s, t, a);
      assert Onward(u, v, a);
    }
  }

  lemma GoesOnIsBut(s: State, t: State, x: Id)
    requires GoesOn(s, t)
    ensures GoesOnBut(s, t, x)
  {
    assert Onward(s, t, x);
  }

  lemma PassedGoesOn(s: State, t: State)
    ensures Passed(s, t) ==> GoesOn(s, t)
  {}

  lemma PassedFits(s: State, t: State, maxRetries: nat)
    requires Fits(s, maxRetries) && Passed(s, t)
    ensures Fits(t, maxRetries)
  {
    forall a | a in s.track ensures Consistent(s.requests[a], s.track[a], maxRetries, t.clock) {
      assert Consistent(s.requests[a], s.track[a], maxRetries, s.clock);
    }
  }

  /** Request `a` with its fields becoming `r` and its track `t`, leaving one place and entering another. */
  ghost function Moved(s: State, a: Id, r: Request, t: Track): State {
    var from := if a in s.track then Some(s.track[a]) else None;
    State(s.requests[a := r], s.track[a := t], s.clock,
          if t.place == Fifo then s.queue + [a]
          else if from.Some? && from.value.place == Fifo && s.queue != [] then s.queue[1..]
          else s.queue,
          if t.place == Delayed then s.nodes + multiset{QueueNode(t.notBefore, a)}
          else if from.Some? && from.value.place == Delayed then s.nodes - multiset{QueueNode(from.value.notBefore, a)}
          else s.nodes,
          if t.place == InFlight || t.place == Retrying then s.processing + {a} else s.processing - {a},
          if t.place == Done then s.reported + [a] else s.reported, s.limits)
  }

  /** The moves there are: to a different place, from the queue only from its front, and never out of `Done`. */
  ghost predicate CanMove(s: State, a: Id, t: Track) {
    a in s.track ==>
      && s.track[a].place != t.place && s.track[a].place != Done
      && (s.track[a].place == Fifo ==> s.queue != [] && s.queue[0] == a)
  }

  lemma ConsistentAt(s: State, a: Id, maxRetries: nat)
    requires Fits(s, maxRetries) && (a in s.track || a in s.requests)
    ensures a in s.track && a in s.requests && Consistent(s.requests[a], s.track[a], maxRetries, s.clock)
    ensures a in s.processing <==> s.track[a].place == InFlight || s.track[a].place == Retrying
  {
    assert At(s.track, a, InFlight) <==> s.track[a].place == InFlight;
  }

  ghost predicate IsSteady(r: Request, t: Track, r': Request, t': Track) {
    t'.place != Retrying ==> r'.retry == r.retry && (t.place != Retrying ==> t'.notBefore == t.notBefore)
  }

  /** A move keeps every request in its place, forgets none, and takes `a` where it should be. */
  lemma MoveFits(s: State, u: State, a: Id, r: Request, t: Track, maxRetries: nat)
    requires Fits(s, maxRetries) && CanMove(s, a, t) && Consistent(r, t, maxRetries, s.clock) && u == Moved(s, a, r, t)
    requires a in s.track ==> a in s.requests && Advances(s.requests[a], s.track[a], r, t) && IsSteady(s.requests[a], s.track[a], r, t)
    ensures Fits(u, maxRetries) && (a in s.track ==> if t.place == Retrying then GoesOnBut(s, u, a) else GoesOn(s, u))
    ensures t.place != Retrying ==> forall b :: Onward(s, u, b)
    ensures HeldIn(u.track) == if t.place == Held then HeldIn(s.track) + {a} else HeldIn(s.track) - {a}
  {
    MovedFits(s, a, r, t, maxRetries);
    MovedHeld(s, a, r, t);
    if a in s.track { MovedGoesOn(s, a, r, t); }
  }

  lemma MovedFits(s: State, a: Id, r: Request, t: Track, maxRetries: nat)
    requires Fits(s, maxRetries) && CanMove(s, a, t) && Consistent(r, t, maxRetries, s.clock)
    ensures Fits(Moved(s, a, r, t), maxRetries)
  {
    MovedQueueFits(s, a, r, t, maxRetries);
    MovedHeapFits(s, a, r, t, maxRetries);
    MovedRequestsFit(s, a, r, t, maxRetries);
    MovedProcessingFits(s, a, r, t, maxRetries);
    MovedReportsFit(s, a, r, t, maxRetries);
  }

  lemma MovedRequestsFit(s: State, a: Id, r: Request, t: Track, maxRetries: nat)
    requires Fits(s, maxRetries) && Consistent(r, t, maxRetries, s.clock)
    ensures RequestsFit(s.requests[a := r], s.track[a := t], maxRetries, s.clock)
  {}

  lemma MovedProcessingFits(s: State, a: Id, r: Request, t: Track, maxRetries: nat)
    requires Fits(s, maxRetries)
    ensures ProcessingFits(Moved(s, a, r, t).processing, s.track[a := t])
  {}

  lemma MovedReportsFit(s: State, a: Id, r: Request, t: Track, maxRetries: nat)
    requires Fits(s, maxRetries) && CanMove(s, a, t)
    ensures ReportsFit(Moved(s, a, r, t).reported, s.track[a := t])
  {
    if t.place == Done { Reported(s.reported, s.track, a, t); } else { ReportsFrame(s.reported, s.track, a, t); }
  }

  lemma MovedQueueFits(s: State, a: Id, r: Request, t: Track, maxRetries: nat)
    requires Fits(s, maxRetries) && CanMove(s, a, t)
    ensures QueueFits(Moved(s, a, r, t).queue, s.track[a := t])
  {
    if t.place == Fifo { QueuePush(s.queue, s.track, a, t); }
    else if At(s.track, a, Fifo) { QueueShift(s.queue, s.track, t); }
    else { QueueFrame(s.queue, s.track, a, t); }
  }

  lemma MovedHeapFits(s: State, a: Id, r: Request, t: Track, maxRetries: nat)
    requires Fits(s, maxRetries) && CanMove(s, a, t)
    ensures HeapFits(Moved(s, a, r, t).nodes, s.track[a := t])
  {
    if t.place == Delayed { HeapPush(s.nodes, s.track, a, t); }
    else if At(s.track, a, Delayed) {
      var n := QueueNode(s.track[a].notBefore, a);
      assert s.nodes[n] == 1;
      HeapPop(s.nodes, s.nodes - multiset{n}, n, s.track, t);
    }
    else { HeapFrame(s.nodes, s.track, a, t); }
  }

  lemma MovedGoesOn(s: State, a: Id, r: Request, t: Track)
    requires CanMove(s, a, t) && a in s.requests && a in s.track && Advances(s.requests[a], s.track[a], r, t) && IsSteady(s.requests[a], s.track[a], r, t)
    ensures if t.place == Retrying then GoesOnBut(s, Moved(s, a, r, t), a) else GoesOn(s, Moved(s, a, r, t))
  {}

  lemma MovedHeld(s: State, a: Id, r: Request, t: Track)
    ensures HeldIn(Moved(s, a, r, t).track) == if t.place == Held then HeldIn(s.track) + {a} else HeldIn(s.track) - {a}
  {}

  /** A request gets its final status, and is reported. */
  lemma FinishedFits(s: State, u: State, a: Id, status: AttestationStatus, answer: Option<Verdict>, maxRetries: nat)
    requires Fits(s, maxRetries) && (At(s.track, a, Held) || At(s.track, a, InFlight)) && a in s.requests
    requires status.Final() && FollowsAnswer(status, answer)
    requires u == s.(requests := s.requests[a := s.requests[a].(status := status)], track := s.track[a := s.track[a].(place := Done, answer := answer)],
                     processing := s.processing - {a}, reported := s.reported + [a])
    ensures Fits(u, maxRetries) && GoesOn(s, u) && HeldIn(u.track) == HeldIn(s.track) - {a}
  {
    ConsistentAt(s, a, maxRetries);
    MoveFits(s, u, a, s.requests[a].(status := status), s.track[a].(place := Done, answer := answer), maxRetries);
  }

  /** A delayed request that is due is taken out of the heap. */
  lemma PoppedFits(s: State, u: State, n: QueueNode<Id>, t: Track, maxRetries: nat)
    requires Fits(s, maxRetries) && n in s.nodes && n.key <= s.clock && n.value in s.track && t == s.track[n.value].(place := Held)
    requires u == s.(track := s.track[n.value := t], nodes := s.nodes - multiset{n})
    ensures Fits(u, maxRetries) && GoesOn(s, u) && HeldIn(u.track) == HeldIn(s.track) + {n.value} && n.value !in HeldIn(s.track)
  {
    HeapNode(s, n, maxRetries);
    ConsistentAt(s, n.value, maxRetries);
    var r := s.requests[n.value];
    assert s.requests[n.value := r] == s.requests && s.processing - {n.value} == s.processing;
    MoveFits(s, u, n.value, r, t, maxRetries);
  }

  lemma HeapNode(s: State, n: QueueNode<Id>, maxRetries: nat)
    requires Fits(s, maxRetries) && n in s.nodes
    ensures At(s.track, n.value, Delayed) && n == QueueNode(s.track[n.value].notBefore, n.value)
  {
    assert s.nodes[n] == OneIf(At(s.track, n.value, Delayed) && n.key == s.track[n.value].notBefore);
  }

  method TakeTop(queue: PriorityQueue<Id>) returns (a: Id)
    requires queue.Valid() && queue.heap != []
    modifies queue
    ensures queue.Valid() && a == old(queue.heap)[0].value
    ensures multiset(queue.heap) == old(multiset(queue.heap)) - multiset{old(queue.heap)[0]}
    ensures |queue.heap| == old(|queue.heap|) - 1
  {
    var popped := queue.Pop();
    a := popped.value;
    assert |old(multiset(queue.heap))| == |multiset(queue.heap)| + 1;
  }

  class SourceManager {
    var limits: Limits
    /** No configuration allows more retries. */
    ghost const maxRetries: nat
    /** Whether there is a verifier for a request. */
    const isSupported: Id -> bool
    var clock: int
    var requestTime: int
    var requestsPerSecond: nat
    var attestationsQueue: seq<Id>
    const attestationsPriorityQueue: PriorityQueue<Id>
    var attestationProcessing: set<Id>
    var delayQueueTimer: bool
    var delayQueueStartTime: int
    /** Timers set to look for work again. */
    var heartbeats: nat
    var requests: map<Id, Request>
    /** The requests reported to their rounds, in that order. */
    var reported: seq<Id>
    ghost var track: Tracks

    ghost function Snap(): State
      reads this, attestationsPriorityQueue
    {
      State(requests, track, clock, attestationsQueue, multiset(attestationsPriorityQueue.heap), attestationProcessing, reported, limits)
    }

    ghost predicate Valid()
      reads this, attestationsPriorityQueue
    {
      && attestationsPriorityQueue.Valid()
      && limits.maxFailedRetries <= maxRetries
      && Fits(Snap(), maxRetries)
    }

    /** No request is in hand: none is taken out, and no failure is left to be dealt with. */
    ghost predicate AtRest()
      reads this
    {
      Resting(track)
    }

    function Size(): nat
      reads this, attestationsPriorityQueue
    {
      |attestationsQueue| + |attestationsPriorityQueue.heap|
    }

    constructor (limits: Limits, ghost maxRetries: nat, clock: int, isSupported: Id -> bool)
      requires limits.maxFailedRetries <= maxRetries
      ensures Valid() && requests == map[] && AtRest() && fresh(attestationsPriorityQueue)
      ensures this.maxRetries == maxRetries && this.limits == limits && this.isSupported == isSupported
    {
      this.isSupported := isSupported;
      this.limits := limits;
      this.maxRetries := maxRetries;
      this.clock := clock;
      this.requestTime := 0;
      this.requestsPerSecond := 0;
      this.attestationsQueue := [];
      this.attestationsPriorityQueue := new PriorityQueue();
      this.attestationProcessing := {};
      this.delayQueueTimer := false;
      this.delayQueueStartTime := 0;
      this.heartbeats := 0;
      this.requests := map[];
      this.reported := [];
      this.track := map[];
    }

    /** A new configuration for a later round. */
    method RefreshLatestRoundId(limits: Limits)
      requires Valid() && limits.maxFailedRetries <= maxRetries
      modifies `limits
      ensures Valid() && this.limits == limits && track == old(track)
    {
      this.limits := limits;
    }

    method GetTimeMs() returns (now: int)
      requires Valid()
      modifies `clock
      ensures Valid() && now == clock && Passed(old(Snap()), Snap())
    {
      var passed: int := *;
      now := if passed > 0 then clock + passed else clock;
      PassedFits(Snap(), Snap().(clock := now), maxRetries);
      clock := now;
    }

    /** Whether the limits leave room for one more request at this moment. */
    ghost predicate HasRoom()
      reads `clock, `requestTime, `requestsPerSecond, `limits, `attestationProcessing
    {
      && (clock / 1000 == requestTime ==> limits.maxRequestsPerSecond.Allows(requestsPerSecond))
      && limits.maxProcessing.Allows(|attestationProcessing|)
    }

    method CanProcessNextAttestation() returns (ok: bool)
      requires Valid()
      modifies `clock
      ensures Valid() && Passed(old(Snap()), Snap()) && ok == HasRoom()
      ensures ok <==> && (clock / 1000 != requestTime || limits.maxRequestsPerSecond == Unlimited || requestsPerSecond < limits.maxRequestsPerSecond.n)
                      && (limits.maxProcessing == Unlimited || |attestationProcessing| < limits.maxProcessing.n)
    {
      var now := GetTimeMs();
      ok := (requestTime != now / 1000 || limits.maxRequestsPerSecond.Allows(requestsPerSecond))
            && limits.maxProcessing.Allows(|attestationProcessing|);
    }

    method IncreaseRequestCount()
      requires Valid()
      modifies `clock, `requestTime, `requestsPerSecond
      ensures Valid() && Passed(old(Snap()), Snap())
      ensures requestTime == clock / 1000
      ensures requestsPerSecond == if old(requestTime) == clock / 1000 then old(requestsPerSecond) + 1 else 0
    {
      var now := GetTimeMs();
      if requestTime == now / 1000 {
        requestsPerSecond := requestsPerSecond + 1;
      } else {
        requestTime := now / 1000;
        requestsPerSecond := 0;
      }
    }

    /** A request of a round is handed over, once: it is started right away or queued. */
    method VerifyAttestationRequest(a: Id, deadline: int)
      requires Valid() && a !in requests
      modifies this, attestationsPriorityQueue
      ensures Valid() && requests.Keys == old(requests).Keys + {a}
      ensures HeldIn(track) == old(HeldIn(track)) && (old(AtRest()) ==> AtRest())
      ensures forall b :: Onward(old(Snap()), Snap(), b)
      ensures a in track && requests[a].deadline == deadline
      ensures At(track, a, Fifo) ==> !HasRoom() && attestationsQueue == old(attestationsQueue) + [a]
      ensures !At(track, a, Fifo) ==> Processed(a, 0)
    {
      Admit(a, deadline);
      ghost var admitted := Snap();
      StartOrQueue(a);
      assert Onward(admitted, Snap(), a);
      AllOnward(old(Snap()), admitted, Snap());
      RestStays(old(Snap()), Snap());
    }

    method StartOrQueue(a: Id)
      requires Valid() && At(track, a, Held) && track[a].sends == 0
      modifies this, attestationsPriorityQueue
      ensures Valid() && GoesOn(old(Snap()), Snap()) && HeldIn(track) == old(HeldIn(track)) - {a}
      ensures At(track, a, Fifo) ==> !HasRoom() && attestationsQueue == old(attestationsQueue) + [a]
      ensures !At(track, a, Fifo) ==> Processed(a, 0)
    {
      ghost var before := Snap();
      var ok := CanProcessNextAttestation();
      ghost var later := Snap();
      if ok {
        Process(a);
      } else {
        EnQueue(a);
      }
      GoesOnAfter(before, later, Snap());
    }

    method Admit(a: Id, deadline: int)
      requires Valid() && a !in requests
      modifies `requests, `track
      ensures Valid() && At(track, a, Held) && requests == old(requests)[a := Request(Initial, 0, deadline)]
      ensures HeldIn(track) == old(HeldIn(track)) + {a}
      ensures (forall b :: Onward(old(Snap()), Snap(), b)) && track[a].sends == 0
    {
      ghost var before, t := Snap(), Track(Held, 0, clock, clock, None);
      assert a !in attestationProcessing;
      requests := requests[a := Request(Initial, 0, deadline)];
      track := track[a := t];
      MoveFits(before, Snap(), a, Request(Initial, 0, deadline), t, maxRetries);
    }

    method EnQueue(a: Id)
      requires Valid() && At(track, a, Held) && track[a].sends == 0
      modifies `requests, `attestationsQueue, `track
      ensures Valid() && GoesOn(old(Snap()), Snap()) && HeldIn(track) == old(HeldIn(track)) - {a}
      ensures attestationsQueue == old(attestationsQueue) + [a]
    {
      ghost var before, t := Snap(), track[a].(place := Fifo);
      ConsistentAt(before, a, maxRetries);
      requests := requests[a := requests[a].(status := Queued)];
      attestationsQueue := attestationsQueue + [a];
      track := track[a := t];
      MoveFits(before, Snap(), a, requests[a], t, maxRetries);
    }

    /** Puts a request whose verification failed among the delayed ones. */
    method EnQueueDelayed(a: Id, startTime: int)
      requires Valid() && At(track, a, Retrying) && clock <= startTime
      modifies this, attestationsPriorityQueue
      ensures Valid() && GoesOn(old(Snap()), Snap()) && HeldIn(track) == old(HeldIn(track))
      ensures a in track && a in requests && track[a].notBefore == startTime && requests[a].retry == old(requests[a].retry) && !At(track, a, Retrying)
    {
      Postpone(a, startTime);
      ghost var pushed := Snap();
      UpdateDelayQueueTimer();
      GoesOnTransitive(old(Snap()), pushed, Snap());
      assert Onward(pushed, Snap(), a);
    }

    /** The request is due from then on, and its failure is dealt with. */
    method Postpone(a: Id, startTime: int)
      requires Valid() && At(track, a, Retrying) && clock <= startTime
      modifies `track, `attestationProcessing, attestationsPriorityQueue
      ensures Valid() && GoesOn(old(Snap()), Snap()) && HeldIn(track) == old(HeldIn(track))
      ensures At(track, a, Delayed) && a in requests && track[a].notBefore == startTime && requests == old(requests)
    {
      ghost var before, t := Snap(), track[a].(place := Delayed, notBefore := startTime);
      ConsistentAt(before, a, maxRetries);
      assert requests == requests[a := requests[a]];
      // the other branch, for a request that is still queued, is not reached
      if requests[a].status == Processing {
        attestationProcessing := attestationProcessing - {a};
      }
      attestationsPriorityQueue.Push(a, startTime);
      track := track[a := t];
      MoveFits(before, Snap(), a, requests[a], t, maxRetries);
    }

    method UpdateDelayQueueTimer()
      requires Valid()
      modifies this, attestationsPriorityQueue
      ensures Valid() && GoesOn(old(Snap()), Snap()) && HeldIn(track) == old(HeldIn(track)) && Size() <= old(Size())
      ensures old(attestationsPriorityQueue.heap) != [] && old(attestationsPriorityQueue.heap)[0].key >= clock ==>
                attestationsPriorityQueue.heap == old(attestationsPriorityQueue.heap)
                && delayQueueTimer && delayQueueStartTime <= attestationsPriorityQueue.heap[0].key
      decreases Size(), 3
    {
      if attestationsPriorityQueue.Length() == 0 {
        return;
      }
      var firstStartTime := attestationsPriorityQueue.PeekKey().value;
      ghost var before := Snap();
      var now := GetTimeMs();
      PassedGoesOn(before, Snap());
      if firstStartTime < now {
        ghost var later := Snap();
        StartNext();
        GoesOnAfter(before, later, Snap());
        return;
      }
      if !delayQueueTimer || firstStartTime < delayQueueStartTime {
        delayQueueStartTime := firstStartTime;
        delayQueueTimer := true;
      }
    }

    /** What `Process` makes of a request that had been sent so often: it is sent in time, or finished at once. */
    ghost predicate Processed(a: Id, sends: nat)
      reads this
    {
      && a in track && a in requests
      && (!isSupported(a) ==> At(track, a, Done) && requests[a].status == NotProcessed)
      && (isSupported(a) ==>
            || (At(track, a, InFlight) && track[a].sends == sends + 1)
            || (At(track, a, Done) && requests[a].status == TooLate && clock > requests[a].deadline))
    }

    /** Sends a request to its verifier, unless it has none or is too late. */
    method Process(a: Id)
      requires Valid() && At(track, a, Held)
      modifies this, attestationsPriorityQueue
      ensures Valid() && GoesOn(old(Snap()), Snap()) && HeldIn(track) == old(HeldIn(track)) - {a} && Size() <= old(Size())
      ensures Processed(a, old(track[a].sends))
      ensures isSupported(a) ==> attestationsQueue == old(attestationsQueue)
      decreases Size(), 5
    {
      if !isSupported(a) {
        OnProcessed(a, NotProcessed, false, None);
        return;
      }
      ghost var before := Snap();
      var now := GetTimeMs();
      ghost var later := Snap();
      if now > requests[a].deadline {
        OnProcessed(a, TooLate, false, None);
        assert Onward(later, Snap(), a);
        GoesOnAfter(before, later, Snap());
        return;
      }
      Send(a);
      ghost var sent := Snap();
      IncreaseRequestCount();
      GoesOnAfter(before, later, sent);
      GoesOnAfter(before, sent, Snap());
    }

    method Send(a: Id)
      requires Valid() && At(track, a, Held) && a in requests && clock <= requests[a].deadline
      modifies `requests, `attestationProcessing, `track
      ensures Valid() && GoesOn(old(Snap()), Snap()) && HeldIn(track) == old(HeldIn(track)) - {a}
      ensures At(track, a, InFlight) && track[a].sends == old(track[a].sends) + 1 && track[a].sentAt == clock
      ensures attestationProcessing == old(attestationProcessing) + {a}
    {
      ghost var before, t := Snap(), track[a].(place := InFlight, sends := track[a].sends + 1, sentAt := clock);
      ConsistentAt(before, a, maxRetries);
      attestationProcessing := attestationProcessing + {a};
      requests := requests[a := requests[a].(status := Processing)];
      track := track[a := t];
      MoveFits(before, Snap(), a, requests[a], t, maxRetries);
    }

    /** The verifier has answered. */
    method OnVerified(a: Id, verdict: Verdict)
      requires Valid() && At(track, a, InFlight)
      modifies this, attestationsPriorityQueue
      ensures Valid() && GoesOn(old(Snap()), Snap()) && HeldIn(track) == old(HeldIn(track))
      ensures At(track, a, Done) && a in requests && (old(AtRest()) ==> AtRest())
      ensures requests[a].status.Valid? <==> verdict == Verified(true)
      ensures requests[a].status.Invalid? <==> verdict == Verified(false) || verdict == Refuted
      ensures requests[a].status.Errored? <==> verdict == NeedsMoreChecks || verdict == Undecided
      ensures track[a].answer == Some(verdict)
    {
      OnProcessed(a, verdict.Status(), true, Some(verdict));
      RestStays(old(Snap()), Snap());
    }

    /**
     The call to the verifier has failed, or what it answered could not be hashed: the request is retried
     later, as often as the configuration allows.
     */
    method OnFailed(a: Id)
      requires Valid() && At(track, a, InFlight)
      modifies this, attestationsPriorityQueue
      ensures Valid() && GoesOnBut(old(Snap()), Snap(), a) && HeldIn(track) == old(HeldIn(track)) && a in track && a in requests
      ensures !At(track, a, Retrying) && (old(AtRest()) ==> AtRest())
      ensures old(requests[a].retry) < old(limits).maxFailedRetries ==>
                requests[a].retry == old(requests[a].retry) + 1
                && old(clock) + old(limits).delayBeforeRetry <= track[a].notBefore <= clock + old(limits).delayBeforeRetry
      ensures old(requests[a].retry) >= old(limits).maxFailedRetries ==> At(track, a, Done) && requests[a].status == Errored
    {
      if requests[a].retry < limits.maxFailedRetries {
        ghost var before := Snap();
        CountRetry(a);
        ghost var counted := Snap();
        var now := GetTimeMs();
        ghost var later := Snap();
        EnQueueDelayed(a, now + limits.delayBeforeRetry);
        ghost var delayed := Snap();
        RetriedGoesOn(before, counted, later, delayed, a);
      } else {
        OnProcessed(a, Errored, false, None);
        GoesOnIsBut(old(Snap()), Snap(), a);
      }
      RestStaysBut(old(Snap()), Snap(), a);
    }

    method CountRetry(a: Id)
      requires Valid() && At(track, a, InFlight) && requests[a].retry < limits.maxFailedRetries
      modifies `requests, `track
      ensures Valid() && GoesOnBut(old(Snap()), Snap(), a) && HeldIn(track) == old(HeldIn(track)) && At(track, a, Retrying)
      ensures a in requests && requests[a].retry == old(requests[a].retry) + 1
    {
      ghost var before, t := Snap(), track[a].(place := Retrying);
      ConsistentAt(before, a, maxRetries);
      assert attestationProcessing + {a} == attestationProcessing;
      requests := requests[a := requests[a].(retry := requests[a].retry + 1)];
      track := track[a := t];
      MoveFits(before, Snap(), a, requests[a], t, maxRetries);
    }

    /** Reports a verdict to the round, and looks for more work unless the request came too late. */
    method OnProcessed(a: Id, status: AttestationStatus, hasData: bool, ghost answer: Option<Verdict>)
      requires Valid() && (At(track, a, Held) || At(track, a, InFlight))
      requires status.Final() && (hasData <==> answer.Some?) && (hasData ==> FollowsAnswer(status, answer))
      modifies this, attestationsPriorityQueue
      ensures Valid() && GoesOn(old(Snap()), Snap()) && HeldIn(track) == old(HeldIn(track)) - {a} && Size() <= old(Size())
      ensures At(track, a, Done) && a in requests && track[a].answer == answer
      ensures requests[a].status == if status.Valid? && !hasData then NotProcessed else status
      ensures status == TooLate ==> attestationsQueue == old(attestationsQueue) && clock == old(clock)
      decreases Size(), 4
    {
      var actualStatus := if status.Valid? && !hasData then NotProcessed else status;
      Finish(a, actualStatus, answer);
      ghost var finished := Snap();
      if actualStatus != TooLate {
        StartNext();
        assert Onward(finished, Snap(), a);
        GoesOnAfter(old(Snap()), finished, Snap());
      }
    }

    method Finish(a: Id, status: AttestationStatus, ghost answer: Option<Verdict>)
      requires Valid() && (At(track, a, Held) || At(track, a, InFlight)) && status.Final() && FollowsAnswer(status, answer)
      modifies `requests, `attestationProcessing, `reported, `track
      ensures Valid() && GoesOn(old(Snap()), Snap()) && HeldIn(track) == old(HeldIn(track)) - {a}
      ensures At(track, a, Done) && a in requests && requests[a].status == status && track[a].answer == answer
      ensures reported == old(reported) + [a]
    {
      ghost var before := Snap();
      ConsistentAt(before, a, maxRetries);
      requests := requests[a := requests[a].(status := status)];
      attestationProcessing := attestationProcessing - {a};
      reported := reported + [a];
      track := track[a := track[a].(place := Done, answer := answer)];
      FinishedFits(before, Snap(), a, status, answer, maxRetries);
    }

    /** Starts whatever may start: delayed requests that are due, then queued ones. */
    method StartNext()
      requires Valid()
      modifies this, attestationsPriorityQueue
      ensures Valid() && GoesOn(old(Snap()), Snap()) && HeldIn(track) == old(HeldIn(track)) && Size() <= old(Size())
      ensures HasRoom() ==> attestationsQueue == []
      decreases Size(), 2
    {
      ghost var before := Snap();
      var ok := CanProcessNextAttestation();
      ghost var later := Snap();
      PassedGoesOn(before, later);
      if !ok {
        if attestationProcessing == {} {
          heartbeats := heartbeats + 1;
        }
        return;
      }
      StartDelayed();
      ghost var delayed := Snap();
      GoesOnAfter(before, later, delayed);
      StartQueued();
      GoesOnAfter(before, delayed, Snap());
    }

    method StartDelayed()
      requires Valid()
      modifies this, attestationsPriorityQueue
      ensures Valid() && GoesOn(old(Snap()), Snap()) && HeldIn(track) == old(HeldIn(track)) && Size() <= old(Size())
      ensures HasRoom() ==> attestationsPriorityQueue.heap == [] || clock < attestationsPriorityQueue.heap[0].key
      decreases Size(), 1
    {
      var ok := CanProcessNextAttestation();
      PassedGoesOn(old(Snap()), Snap());
      while attestationsPriorityQueue.Length() > 0 && ok
        invariant Valid() && GoesOn(old(Snap()), Snap()) && HeldIn(track) == old(HeldIn(track)) && Size() <= old(Size())
        invariant ok == HasRoom()
        decreases Size()
      {
        var startTime := attestationsPriorityQueue.PeekKey().value;
        ghost var before := Snap();
        var now := GetTimeMs();
        ghost var later := Snap();
        GoesOnAfter(old(Snap()), before, later);
        if now < startTime {
          break;
        }
        StartDue();
        ghost var started := Snap();
        GoesOnAfter(old(Snap()), later, started);
        ok := CanProcessNextAttestation();
        GoesOnAfter(old(Snap()), started, Snap());
      }
    }

    method StartDue()
      requires Valid() && attestationsPriorityQueue.heap != [] && attestationsPriorityQueue.heap[0].key <= clock
      modifies this, attestationsPriorityQueue
      ensures Valid() && GoesOn(old(Snap()), Snap()) && HeldIn(track) == old(HeldIn(track)) && Size() < old(Size())
      decreases Size(), 0
    {
      ghost var held := HeldIn(track);
      var a := PopDue();
      ghost var popped := Snap();
      UpdateDelayQueueTimer();
      ghost var updated := Snap();
      Process(a);
      TakenBack(held, a);
      GoesOnTransitive(old(Snap()), popped, updated);
      GoesOnTransitive(old(Snap()), updated, Snap());
    }

    method StartQueued()
      requires Valid()
      modifies this, attestationsPriorityQueue
      ensures Valid() && GoesOn(old(Snap()), Snap()) && HeldIn(track) == old(HeldIn(track)) && Size() <= old(Size())
      ensures HasRoom() ==> attestationsQueue == []
      decreases Size(), 1
    {
      var ok := CanProcessNextAttestation();
      PassedGoesOn(old(Snap()), Snap());
      while attestationsQueue != [] && ok
        invariant Valid() && GoesOn(old(Snap()), Snap()) && HeldIn(track) == old(HeldIn(track)) && Size() <= old(Size())
        invariant ok == HasRoom()
        decreases Size()
      {
        ghost var before := Snap();
        StartQueuedNext();
        ghost var started := Snap();
        GoesOnAfter(old(Snap()), before, started);
        ok := CanProcessNextAttestation();
        GoesOnAfter(old(Snap()), started, Snap());
      }
    }

    method StartQueuedNext()
      requires Valid() && attestationsQueue != []
      modifies this, attestationsPriorityQueue
      ensures Valid() && GoesOn(old(Snap()), Snap()) && HeldIn(track) == old(HeldIn(track)) && Size() < old(Size())
      decreases Size(), 0
    {
      ghost var held := HeldIn(track);
      var a := Shift();
      ghost var shifted := Snap();
      Process(a);
      TakenBack(held, a);
      GoesOnTransitive(old(Snap()), shifted, Snap());
    }

    method PopDue() returns (a: Id)
      requires Valid() && attestationsPriorityQueue.heap != [] && attestationsPriorityQueue.heap[0].key <= clock
      modifies `track, attestationsPriorityQueue
      ensures Valid() && GoesOn(old(Snap()), Snap()) && At(track, a, Held) && Size() == old(Size()) - 1
      ensures HeldIn(track) == old(HeldIn(track)) + {a} && a !in old(HeldIn(track))
    {
      ghost var n := attestationsPriorityQueue.heap[0];
      ghost var before := Snap();
      HeapNode(before, n, maxRetries);
      a := TakeTop(attestationsPriorityQueue);
      track := track[a := track[a].(place := Held)];
      PoppedFits(before, Snap(), n, track[a], maxRetries);
    }

    method Shift() returns (a: Id)
      requires Valid() && attestationsQueue != []
      modifies `attestationsQueue, `track
      ensures Valid() && GoesOn(old(Snap()), Snap()) && a == old(attestationsQueue)[0] && At(track, a, Held) && Size() == old(Size()) - 1
      ensures HeldIn(track) == old(HeldIn(track)) + {a} && a !in old(HeldIn(track))
    {
      a := attestationsQueue[0];
      assert multiset(attestationsQueue)[a] == OneIf(At(track, a, Fifo));
      assert a in multiset(attestationsQueue);
      ghost var before, t := Snap(), track[a].(place := Held);
      ConsistentAt(before, a, maxRetries);
      assert requests == requests[a := requests[a]];
      assert attestationProcessing - {a} == attestationProcessing;
      attestationsQueue := attestationsQueue[1..];
      track := track[a := t];
      MoveFits(before, Snap(), a, requests[a], t, maxRetries);
    }

    /** The timer for the delayed requests fires; its handle is dropped only after the work is done. */
    method OnDelayTimer()
      requires Valid() && delayQueueTimer
      modifies this, attestationsPriorityQueue
      ensures Valid() && GoesOn(old(Snap()), Snap()) && HeldIn(track) == old(HeldIn(track)) && !delayQueueTimer
      ensures old(AtRest()) ==> AtRest()
    {
      StartNext();
      delayQueueTimer := false;
      RestStays(old(Snap()), Snap());
    }

    method OnHeartbeat()
      requires Valid() && heartbeats > 0
      modifies this, attestationsPriorityQueue
      ensures Valid() && GoesOn(old(Snap()), Snap()) && HeldIn(track) == old(HeldIn(track))
      ensures old(AtRest()) ==> AtRest()
    {
      heartbeats := heartbeats - 1;
      StartNext();
      RestStays(old(Snap()), Snap());
    }
  }

  /**
   Conservation: every request handed over is, at all times, once in the queue, once in the heap, in
   flight, held by a call in progress, or reported once, and in one of these only.  It has been sent at
   most one time more than retries are allowed, never before it was due nor after its deadline.
   */
  lemma Conservation(m: SourceManager, a: Id)
    requires m.Valid() && a in m.requests
    ensures var t := m.track[a];
            && multiset(m.attestationsQueue)[a] + multiset(m.attestationsPriorityQueue.heap)[QueueNode(t.notBefore, a)]
               + OneIf(a in m.attestationProcessing) + OneIf(At(m.track, a, Held)) + multiset(m.reported)[a] == 1
            && (forall n :: n in multiset(m.attestationsPriorityQueue.heap) && n.value == a ==> n.key == t.notBefore)
            && t.sends <= m.maxRetries + 1
            && (At(m.track, a, InFlight) ==> t.notBefore <= t.sentAt <= m.requests[a].deadline)
            && (a in m.reported <==> m.requests[a].status.Final())
  {
    assert Consistent(m.requests[a], m.track[a], m.maxRetries, m.clock);
    assert multiset(m.reported)[a] == OneIf(At(m.track, a, Done));
    forall n | n in multiset(m.attestationsPriorityQueue.heap) && n.value == a ensures n.key == m.track[a].notBefore {
      assert multiset(m.attestationsPriorityQueue.heap)[n] > 0;
    }
  }

  /**
   Between callbacks, where no request is in hand, each one is queued, delayed, or reported, or a call to
   its verifier is outstanding.
   */
  lemma RestConserves(m: SourceManager, a: Id)
    requires m.Valid() && a in m.requests && m.AtRest()
    ensures multiset(m.attestationsQueue)[a] + multiset(m.attestationsPriorityQueue.heap)[QueueNode(m.track[a].notBefore, a)]
            + OneIf(a in m.attestationProcessing) + multiset(m.reported)[a] == 1
    ensures a in m.attestationProcessing <==> At(m.track, a, InFlight)
  {
    Conservation(m, a);
    assert a !in HeldIn(m.track);
    assert ProcessingFits(m.attestationProcessing, m.track);
  }
}
