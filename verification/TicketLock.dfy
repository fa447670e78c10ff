/**
 The lock that puts transactions in sequence (`signAndFinalize3Sequenced` in `Web3Functions.ts`):
 a call takes a ticket, waits until the ticket comes up, and moves the display on when it is done -
 also when it gives up waiting.
 */
module TicketLock {
  datatype Call = Waiting | Inside | Finished | TimedOut {
    predicate Over() {
      Finished? || TimedOut?
    }
  }

  /** `calls` is the record of what became of each ticket so far. */
  datatype Lock = Lock(nextIndex: nat, currentIndex: nat, calls: seq<Call>)

  const FRESH := Lock(0, 0, [])

  datatype Step = Take | Enter(i: nat) | Finish(i: nat) | GiveUp(i: nat)

  predicate Enabled(s: Lock, step: Step) {
    match step
    case Take => true
    case Enter(i) => i < |s.calls| && s.calls[i] == Waiting && i == s.currentIndex
    case Finish(i) => i < |s.calls| && s.calls[i] == Inside
    case GiveUp(i) => i < |s.calls| && s.calls[i] == Waiting && i != s.currentIndex
  }

  function Apply(s: Lock, step: Step): Lock
    requires Enabled(s, step)
  {
    match step
    case Take => s.(nextIndex := s.nextIndex + 1, calls := s.calls + [Waiting])
    case Enter(i) => s.(calls := s.calls[i := Inside])
    case Finish(i) => s.(currentIndex := s.currentIndex + 1, calls := s.calls[i := Finished])
    case GiveUp(i) => s.(currentIndex := s.currentIndex + 1, calls := s.calls[i := TimedOut])
  }

  ghost predicate StepOf(s: Lock, step: Step, t: Lock) {
    Enabled(s, step) && t == Apply(s, step)
  }

  ghost predicate Run(steps: seq<Step>, states: seq<Lock>) {
    && |states| == |steps| + 1 && states[0] == FRESH
    && forall k :: 0 <= k < |steps| ==> StepOf(states[k], steps[k], states[k + 1])
  }

  // ---------- counting ----------

  function OverCount(calls: seq<Call>): (r: nat)
    ensures r <= |calls|
  {
    if calls == [] then 0 else OverCount(calls[..|calls| - 1]) + if calls[|calls| - 1].Over() then 1 else 0
  }

  lemma {:induction false} OverCountUpdate(calls: seq<Call>, i: nat, c: Call)
    requires i < |calls| && !calls[i].Over()
    ensures OverCount(calls[i := c]) == OverCount(calls) + if c.Over() then 1 else 0
    decreases |calls|
  {
    var after := calls[i := c];
    if i == |calls| - 1 {
      assert after[..|calls| - 1] == calls[..|calls| - 1];
    } else {
      assert after[..|calls| - 1] == calls[..|calls| - 1][i := c];
      OverCountUpdate(calls[..|calls| - 1], i, c);
    }
  }

  /** In every run the display counts the calls that are over, timed out ones included, and never passes the next ticket. */
  lemma {:induction false} DisplayCountsFinished(steps: seq<Step>, states: seq<Lock>, k: nat)
    requires Run(steps, states) && k < |states|
    ensures states[k].nextIndex == |states[k].calls| && states[k].currentIndex == OverCount(states[k].calls) <= states[k].nextIndex
    decreases k
  {
    if k > 0 {
      DisplayCountsFinished(steps, states, k - 1);
      var s := states[k - 1];
      assert StepOf(s, steps[k - 1], states[k - 1 + 1]);
      match steps[k - 1]
      case Take => assert (s.calls + [Waiting])[..|s.calls|] == s.calls;
      case Enter(i) => OverCountUpdate(s.calls, i, Inside);
      case Finish(i) => OverCountUpdate(s.calls, i, Finished);
      case GiveUp(i) => OverCountUpdate(s.calls, i, TimedOut);
    }
  }

  // ---------- one at a time, in order ----------

  ghost predicate InOrder(s: Lock, i: nat)
    requires i < |s.calls|
  {
    && (i < s.currentIndex ==> s.calls[i] == Finished)
    && (i == s.currentIndex ==> s.calls[i] == Waiting || s.calls[i] == Inside)
    && (i > s.currentIndex ==> s.calls[i] == Waiting)
  }

  /** Calls before the display are finished, those after it wait. */
  ghost predicate Sequenced(s: Lock) {
    s.currentIndex <= |s.calls| == s.nextIndex && forall i: nat :: i < |s.calls| ==> InOrder(s, i)
  }

  lemma {:induction false} StepSequenced(s: Lock, step: Step)
    requires Sequenced(s) && Enabled(s, step) && !step.GiveUp?
    ensures Sequenced(Apply(s, step))
  {
    var t := Apply(s, step);
    if step.Finish? { assert InOrder(s, step.i); }
    forall i: nat | i < |t.calls| ensures InOrder(t, i) {
      if i < |s.calls| { assert InOrder(s, i); }
    }
  }

  /** In every run without timeouts, calls are served one at a time and in the order of their tickets. */
  lemma {:induction false} RunsSequenced(steps: seq<Step>, states: seq<Lock>, k: nat)
    requires Run(steps, states) && k < |states|
    requires forall j :: 0 <= j < k ==> !steps[j].GiveUp?
    ensures Sequenced(states[k])
    decreases k
  {
    if k > 0 {
      RunsSequenced(steps, states, k - 1);
      assert StepOf(states[k - 1], steps[k - 1], states[k - 1 + 1]);
      StepSequenced(states[k - 1], steps[k - 1]);
    }
  }

  lemma OneAtATime(s: Lock, i: nat, j: nat)
    requires Sequenced(s) && i < |s.calls| && j < |s.calls| && s.calls[i] == Inside && s.calls[j] == Inside
    ensures i == j == s.currentIndex
  {
    assert InOrder(s, i) && InOrder(s, j);
  }

  /** Who enters has everybody with a lower ticket done before it. */
  lemma EntersInOrder(s: Lock, i: nat, j: nat)
    requires Sequenced(s) && Enabled(s, Enter(i)) && j < |s.calls|
    ensures j < i <==> s.calls[j] == Finished
    ensures s.calls[j] != Inside
  {
    assert InOrder(s, j) && InOrder(s, i);
  }

  // ---------- timeouts ----------

  /** Somebody may enter although a call is inside. */
  ghost predicate LetsInASecond(s: Lock) {
    exists i: nat, j: nat :: i < |s.calls| && s.calls[i] == Inside && Enabled(s, Enter(j))
  }

  ghost predicate Misplaced(s: Lock, i: nat) {
    && Inside in s.calls
    && s.currentIndex + 1 < |s.calls| && s.calls[s.currentIndex + 1] == Waiting && i != s.currentIndex + 1
  }

  /**
   A timeout moves the display on for a ticket that is not up.  In whatever state, a call may enter
   then while another one is inside exactly when somebody is inside and the next ticket still waits and
   is not the one that gives up.
   */
  lemma TimeoutLetsInASecondIff(s: Lock, i: nat)
    requires Enabled(s, GiveUp(i))
    ensures LetsInASecond(Apply(s, GiveUp(i))) <==> Misplaced(s, i)
  {
    var t := Apply(s, GiveUp(i));
    var c := s.currentIndex;
    if Inside in s.calls && c + 1 < |s.calls| && s.calls[c + 1] == Waiting && i != c + 1 {
      var a :| 0 <= a < |s.calls| && s.calls[a] == Inside;
      assert t.calls[a] == Inside && Enabled(t, Enter(c + 1));
    }
    if a: nat, b: nat :| a < |t.calls| && t.calls[a] == Inside && Enabled(t, Enter(b)) {
      assert s.calls[a] == Inside;
    }
  }

  ghost predicate AtMostOneInside(s: Lock) {
    forall i: nat, j: nat :: i < |s.calls| && j < |s.calls| && s.calls[i] == Inside && s.calls[j] == Inside ==> i == j
  }

  ghost predicate MisplacedAt(steps: seq<Step>, states: seq<Lock>, m: nat)
    requires m < |steps| && m < |states|
  {
    steps[m].GiveUp? && Misplaced(states[m], steps[m].i)
  }

  lemma StepAlone(s: Lock, step: Step)
    requires Enabled(s, step) && s.currentIndex == OverCount(s.calls) && AtMostOneInside(s) && !LetsInASecond(s)
    requires step.GiveUp? ==> !Misplaced(s, step.i)
    ensures AtMostOneInside(Apply(s, step)) && !LetsInASecond(Apply(s, step))
  {
    match step
    case Take => NotAllOver(s.calls);
    case Enter(i) =>
      forall j: nat | j < |s.calls| ensures s.calls[j] != Inside {
        assert s.calls[j] == Inside ==> LetsInASecond(s);
      }
    case Finish(i) =>
    case GiveUp(i) => TimeoutLetsInASecondIff(s, i);
  }

  lemma {:induction false} NotAllOver(calls: seq<Call>)
    ensures Inside in calls ==> OverCount(calls) < |calls|
  {
    if calls != [] { NotAllOver(calls[..|calls| - 1]); }
  }

  lemma {:induction false} AloneSoFar(steps: seq<Step>, states: seq<Lock>, k: nat)
    requires Run(steps, states) && k < |states|
    requires forall m: nat :: m < k ==> !MisplacedAt(steps, states, m)
    ensures AtMostOneInside(states[k]) && !LetsInASecond(states[k])
    decreases k
  {
    if k > 0 {
      AloneSoFar(steps, states, k - 1);
      DisplayCountsFinished(steps, states, k - 1);
      assert StepOf(states[k - 1], steps[k - 1], states[k - 1 + 1]);
      assert !MisplacedAt(steps, states, k - 1);
      StepAlone(states[k - 1], steps[k - 1]);
    }
  }

  /** Two calls are inside in a run only after such a timeout, and it is such timeouts that let a second one in. */
  lemma SecondNeedsTimeout(steps: seq<Step>, states: seq<Lock>, k: nat)
    requires Run(steps, states) && k < |states|
    ensures !AtMostOneInside(states[k]) ==> exists m: nat :: m < k && MisplacedAt(steps, states, m)
    ensures (exists p: nat :: p <= k && LetsInASecond(states[p])) <==> exists m: nat :: m < k && MisplacedAt(steps, states, m)
  {
    if forall m: nat :: m < k ==> !MisplacedAt(steps, states, m) {
      forall p: nat | p <= k ensures AtMostOneInside(states[p]) && !LetsInASecond(states[p]) {
        AloneSoFar(steps, states, p);
      }
    } else {
      var m: nat :| m < k && MisplacedAt(steps, states, m);
      assert StepOf(states[m], steps[m], states[m + 1]);
      TimeoutLetsInASecondIff(states[m], steps[m].i);
      assert m + 1 <= k && LetsInASecond(states[m + 1]);
    }
  }

  /** In every run only a waiting call gives up, and none whose number is up. */
  lemma GivesUpWaiting(steps: seq<Step>, states: seq<Lock>, k: nat)
    requires Run(steps, states) && k < |steps| && steps[k].GiveUp?
    ensures var i := steps[k].i;
            && i < |states[k].calls| && states[k].calls[i] == Waiting && i != states[k].currentIndex
            && states[k + 1] == Lock(states[k].nextIndex, states[k].currentIndex + 1, states[k].calls[i := TimedOut])
  {
    assert StepOf(states[k], steps[k], states[k + 1]);
  }

  /** A call that is still waiting when the display has passed its ticket never enters: it waits on, or times out. */
  lemma {:induction false} PassedNeverEnters(steps: seq<Step>, states: seq<Lock>, k: nat, j: nat, i: nat)
    requires Run(steps, states) && k <= j < |states|
    requires i < |states[k].calls| && states[k].calls[i] == Waiting && i < states[k].currentIndex
    ensures i < |states[j].calls| && i < states[j].currentIndex && (states[j].calls[i] == Waiting || states[j].calls[i] == TimedOut)
    decreases j
  {
    if j > k {
      PassedNeverEnters(steps, states, k, j - 1, i);
      assert StepOf(states[j - 1], steps[j - 1], states[j - 1 + 1]);
    }
  }

  /** A run in which it happens: of three calls the last one gives up while the first is inside, and the second enters. */
  lemma SecondEnters() returns (steps: seq<Step>, states: seq<Lock>)
    ensures Run(steps, states) && !AtMostOneInside(states[|steps|])
  {
    steps := [Take, Take, Take, Enter(0), GiveUp(2), Enter(1)];
    states := [FRESH, Lock(1, 0, [Waiting]), Lock(2, 0, [Waiting, Waiting]), Lock(3, 0, [Waiting, Waiting, Waiting]),
               Lock(3, 0, [Inside, Waiting, Waiting]), Lock(3, 1, [Inside, Waiting, TimedOut]), Lock(3, 1, [Inside, Inside, TimedOut])];
    assert states[6].calls[0] == Inside && states[6].calls[1] == Inside;
  }

  // ---------- the object ----------

  class SequencedSigner {
    var nextIndex: nat
    var currentIndex: nat
    ghost var calls: seq<Call>

    ghost function State(): Lock
      reads this
    {
      Lock(nextIndex, currentIndex, calls)
    }

    constructor ()
      ensures State() == FRESH
    {
      nextIndex, currentIndex, calls := 0, 0, [];
    }

    method TakeTicket() returns (waitIndex: nat)
      modifies this
      ensures waitIndex == old(nextIndex) && State() == Apply(old(State()), Take)
    {
      waitIndex := nextIndex;
      nextIndex := nextIndex + 1;
      calls := calls + [Waiting];
    }

    /** One look at the display: go in, give up, or wait on. */
    method Look(waitIndex: nat, deadlinePassed: bool) returns (entered: bool, timedOut: bool)
      requires waitIndex < |calls| && calls[waitIndex] == Waiting
      modifies this
      ensures entered == (waitIndex == old(currentIndex)) && timedOut == (!entered && deadlinePassed)
      ensures State() == if entered then Apply(old(State()), Enter(waitIndex))
                         else if timedOut then Apply(old(State()), GiveUp(waitIndex)) else old(State())
    {
      if waitIndex == currentIndex {
        calls := calls[waitIndex := Inside];
        return true, false;
      }
      if deadlinePassed {
        calls := calls[waitIndex := TimedOut];
        currentIndex := currentIndex + 1;
        return false, true;
      }
      return false, false;
    }

    /** The transaction is done, or has failed: the display moves on in either case. */
    method Finish(waitIndex: nat)
      requires waitIndex < |calls| && calls[waitIndex] == Inside
      modifies this
      ensures State() == Apply(old(State()), Step.Finish(waitIndex))
    {
      calls := calls[waitIndex := Finished];
      currentIndex := currentIndex + 1;
    }
  }
}
