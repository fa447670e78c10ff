/**
 For which byte lengths the agreed indices can be relied on.  Indices are counted from the left, while the
 conjunction of two votes pads the shorter text on the left, so that bits are matched from the right.
 */
module VoteLengths {
  import opened Hex
  import opened Sets
  import opened Sorting
  import opened Subsets
  import opened TextOrder
  import opened VoteAgreement
  import opened VoteChoice

  /** Votes of the given numbers of bytes. */
  ghost predicate HaveLengths(votes: seq<Digits>, lens: seq<nat>) {
    |votes| == |lens| && forall i :: 0 <= i < |lens| ==> |votes[i]| == 2 * lens[i]
  }

  /** Every index that is agreed on has `k` votes behind it. */
  ghost predicate IndicesSupported(votes: seq<Digits>, k: nat) {
    forall m, i: nat :: IsChosen(votes, k, m) && BitAtIndex(m, i) ==> |Supporters(votes, i)| >= k
  }

  ghost predicate AllEqual(lens: seq<nat>) {
    forall i, j :: 0 <= i < j < |lens| ==> lens[i] == lens[j]
  }

  // ---------- where indices are supported ----------

  lemma SingleSupports(votes: seq<Digits>, m: Digits, i: nat)
    requires AllWellFormed(votes) && IsChosen(votes, 1, m) && BitAtIndex(m, i)
    ensures |Supporters(votes, i)| >= 1
  {
    var sel: seq<nat> :| Group(votes, 1, sel) && Intersection(votes, sel) == m;
    assert sel == [sel[0]] && votes[sel[0]] in votes;
    SingleVote(votes, sel[0]);
    assert sel[0] in Supporters(votes, i);
  }

  lemma SupportedWhen(votes: seq<Digits>, lens: seq<nat>, k: nat)
    requires HaveLengths(votes, lens) && 0 < k <= |lens| && forall i :: 0 <= i < |lens| ==> lens[i] > 0
    requires k == 1 || AllEqual(lens)
    ensures IndicesSupported(votes, k)
  {
    assert AllWellFormed(votes);
    forall m, i: nat | IsChosen(votes, k, m) && BitAtIndex(m, i) ensures |Supporters(votes, i)| >= k {
      if k == 1 {
        SingleSupports(votes, m, i);
      } else {
        AgreedBitsSupported(votes, 2 * lens[0], k, m, i);
      }
    }
  }

  // ---------- where they are not ----------

  function AllOnes(length: nat): Digits {
    seq(length, _ => 15)
  }

  function NoBits(length: nat): Digits {
    seq(length, _ => 0)
  }

  /** The `k` votes from `a` on have every bit set, the others none. */
  ghost predicate WindowOfOnes(votes: seq<Digits>, a: nat, k: nat) {
    && a + k <= |votes| && AllWellFormed(votes)
    && forall i :: 0 <= i < |votes| ==> |votes[i]| >= 2 && votes[i] == if a <= i < a + k then AllOnes(|votes[i]|) else NoBits(|votes[i]|)
  }

  function Window(a: nat, k: nat): (sel: seq<nat>)
    ensures |sel| == k
  {
    seq(k, i requires 0 <= i < k => a + i)
  }

  lemma AllOnesBit(length: nat, p: nat)
    requires p / 4 < length
    ensures BitFromRight(AllOnes(length), p)
  {
    assert Bit(15, 0) && Bit(15, 1) && Bit(15, 2) && Bit(15, 3);
  }

  lemma {:induction false} OddEndHasOnes(d: Digits)
    requires |d| >= 2 && |d| % 2 == 0 && BitFromRight(d, 0)
    ensures Ones(d) > 0
    decreases |d|
  {
    if |d| == 2 {
      assert ByteOf(d[0], d[1]) % 2 == 1;
    } else {
      OddEndHasOnes(d[2..]);
    }
  }

  lemma {:induction false} NoBitsNoOnes(length: nat)
    ensures Ones(NoBits(length)) == 0
  {
    if length >= 2 {
      assert NoBits(length)[2..] == NoBits(length - 2);
      NoBitsNoOnes(length - 2);
    }
  }

  lemma {:induction false} ConsecutiveFrom(sel: seq<nat>, lo: nat, n: nat)
    requires Selection(sel, lo, n, |sel|) && n == lo + |sel|
    ensures sel == Window(lo, |sel|)
    decreases |sel|
  {
    if sel != [] {
      var rest := sel[1..];
      assert forall i :: 0 <= i < |rest| ==> rest[i] == sel[i + 1];
      if rest != [] { assert sel[0] < rest[0]; }
      SelectionLength(rest, sel[0] + 1, n);
      assert sel[0] == lo;
      ConsecutiveFrom(rest, lo + 1, n);
    }
  }

  lemma {:induction false} SelectionLength(sel: seq<nat>, lo: nat, n: nat)
    requires Selection(sel, lo, n, |sel|) && lo <= n
    ensures |sel| <= n - lo
    decreases |sel|
  {
    if sel != [] {
      var rest := sel[1..];
      assert forall i :: 0 <= i < |rest| ==> rest[i] == sel[i + 1];
      SelectionLength(rest, sel[0] + 1, n);
    }
  }

  /** The group of the window has a bit in common ... */
  lemma WindowHasBit(votes: seq<Digits>, a: nat, k: nat)
    requires WindowOfOnes(votes, a, k) && k > 0
    ensures Group(votes, k, Window(a, k)) && Ones(Intersection(votes, Window(a, k))) > 0
  {
    GroupOfWindow(votes, a, k);
    CommonEndHasOnes(Pick(votes, Window(a, k)));
  }

  lemma CommonEndHasOnes(group: seq<Digits>)
    requires group != [] && AllWellFormed(group) && forall v :: v in group ==> BitFromRight(v, 0)
    ensures Ones(IntersectAll(group)) > 0
  {
    IntersectAllMeaning(group, 0);
    OddEndHasOnes(IntersectAll(group));
  }

  /** ... and any other has not, so it is chosen. */
  lemma WindowIsChosen(votes: seq<Digits>, a: nat, k: nat, m: Digits)
    requires WindowOfOnes(votes, a, k) && k > 0 && IsChosen(votes, k, m)
    ensures m == Intersection(votes, Window(a, k))
  {
    var sel: seq<nat> :| Group(votes, k, sel) && Intersection(votes, sel) == m;
    WindowHasBit(votes, a, k);
    var w := Intersection(votes, Window(a, k));
    assert StringLeq(MaskText(w), MaskText(m));
    CountOrder(0, Ones(w), "0x" + Text(m), "0x" + Text(w));
    if i :| 0 <= i < k && !(a <= sel[i] < a + k) {
      OutsideHasNone(votes, a, k, sel, i);
    } else {
      ConsecutiveFrom(sel, a, a + k);
    }
  }

  lemma OutsideHasNone(votes: seq<Digits>, a: nat, k: nat, sel: seq<nat>, i: nat)
    requires WindowOfOnes(votes, a, k) && Group(votes, k, sel) && i < k && !(a <= sel[i] < a + k)
    ensures Ones(Intersection(votes, sel)) == 0
  {
    var group := Pick(votes, sel);
    var m := IntersectAll(group);
    assert group[i] in group && group[i] == NoBits(|group[i]|);
    assert AllWellFormed(group);
    forall p: nat ensures BitFromRight(m, p) <==> BitFromRight(NoBits(|m|), p) {
      IntersectAllMeaning(group, p);
      ZeroBits(p % 4);
    }
    SameBitsSameDigits(m, NoBits(|m|));
    NoBitsNoOnes(|m|);
  }

  /** Its mask is as long as the longest of its votes, and the last index is agreed on. */
  lemma WindowAgreesOnLast(votes: seq<Digits>, a: nat, k: nat, m: Digits)
    requires WindowOfOnes(votes, a, k) && k > 0 && m == Intersection(votes, Window(a, k))
    ensures m != [] && BitAtIndex(m, 4 * |m| - 1)
    ensures forall x :: a <= x < a + k ==> |votes[x]| <= |m|
  {
    WindowHasBit(votes, a, k);
    var group := Pick(votes, Window(a, k));
    GroupOfWindow(votes, a, k);
    IntersectAllMeaning(group, 0);
    IndexFromRight(m, 4 * |m| - 1);
    forall x | a <= x < a + k ensures |votes[x]| <= |m| {
      assert group[x - a] in group;
    }
  }

  lemma GroupOfWindow(votes: seq<Digits>, a: nat, k: nat)
    requires WindowOfOnes(votes, a, k)
    ensures var group := Pick(votes, Window(a, k));
            && AllWellFormed(group) && (forall i :: 0 <= i < k ==> group[i] == votes[a + i])
            && forall v :: v in group ==> |v| >= 2 && BitFromRight(v, 0)
  {
    var group := Pick(votes, Window(a, k));
    forall i | 0 <= i < k ensures WellFormed(group[i]) && |group[i]| >= 2 && BitFromRight(group[i], 0) {
      WindowVote(votes, a, k, a + i);
    }
  }

  lemma WindowVote(votes: seq<Digits>, a: nat, k: nat, x: nat)
    requires WindowOfOnes(votes, a, k) && a <= x < a + k
    ensures WellFormed(votes[x]) && |votes[x]| >= 2 && BitFromRight(votes[x], 0)
  {
    assert votes[x] in votes;
    AllOnesBit(|votes[x]|, 0);
  }

  /** Only the votes of the window that reach as far support an index. */
  lemma SupportersInWindow(votes: seq<Digits>, a: nat, k: nat, i: nat)
    requires WindowOfOnes(votes, a, k)
    ensures Supporters(votes, i) <= Elements(Window(a, k)) && |Elements(Window(a, k))| == k
  {
    IncreasingCount(Window(a, k), 0, |votes|);
    forall j | j in Supporters(votes, i) ensures j in Elements(Window(a, k)) {
      if a <= j < a + k {
        assert Window(a, k)[j - a] == j;
      } else {
        ZeroBits(3 - i % 4);
      }
    }
  }

  lemma ShortDoesNotSupport(votes: seq<Digits>, x: nat, length: nat)
    requires x < |votes| && |votes[x]| < length
    ensures x !in Supporters(votes, 4 * length - 1)
  {}

  /** With two different lengths in the window the last index is agreed on, and not supported. */
  lemma WindowMisleads(votes: seq<Digits>, a: nat, k: nat, t: nat, m: Digits)
    requires WindowOfOnes(votes, a, k) && a <= t && t + 1 < a + k && |votes[t]| != |votes[t + 1]|
    requires IsChosen(votes, k, m)
    ensures m != [] && BitAtIndex(m, 4 * |m| - 1) && |Supporters(votes, 4 * |m| - 1)| < k
  {
    WindowIsChosen(votes, a, k, m);
    WindowAgreesOnLast(votes, a, k, m);
    var i := 4 * |m| - 1;
    var x := if |votes[t]| < |m| then t else t + 1;
    ShortDoesNotSupport(votes, x, |m|);
    SupportersInWindow(votes, a, k, i);
    assert Window(a, k)[x - a] == x;
    SmallerWithout(Supporters(votes, i), Elements(Window(a, k)), x);
  }

  // ---------- the condition ----------

  function OnesInWindow(lens: seq<nat>, a: nat, k: nat): seq<Digits> {
    seq(|lens|, i requires 0 <= i < |lens| => if a <= i < a + k then AllOnes(2 * lens[i]) else NoBits(2 * lens[i]))
  }

  lemma OnesInWindowFit(lens: seq<nat>, a: nat, k: nat)
    requires a + k <= |lens| && forall i :: 0 <= i < |lens| ==> lens[i] > 0
    ensures WindowOfOnes(OnesInWindow(lens, a, k), a, k) && HaveLengths(OnesInWindow(lens, a, k), lens)
  {}

  lemma WindowNotSupported(votes: seq<Digits>, a: nat, k: nat, t: nat)
    requires WindowOfOnes(votes, a, k) && a <= t && t + 1 < a + k && |votes[t]| != |votes[t + 1]|
    ensures !IndicesSupported(votes, k)
  {
    var m := ChosenMask(votes, k);
    WindowMisleads(votes, a, k, t, m);
  }

  lemma NotSupportedWhen(lens: seq<nat>, k: nat)
    requires 1 < k <= |lens| && !AllEqual(lens) && forall i :: 0 <= i < |lens| ==> lens[i] > 0
    ensures exists votes :: HaveLengths(votes, lens) && !IndicesSupported(votes, k)
  {
    var t := NeighboursDiffer(lens);
    var a := if t + k <= |lens| then t else |lens| - k;
    var votes := OnesInWindow(lens, a, k);
    OnesInWindowFit(lens, a, k);
    WindowNotSupported(votes, a, k, t);
  }

  lemma {:induction false} NeighboursDiffer(lens: seq<nat>) returns (t: nat)
    requires !AllEqual(lens)
    ensures t + 1 < |lens| && lens[t] != lens[t + 1]
    decreases |lens|
  {
    var i, j :| 0 <= i < j < |lens| && lens[i] != lens[j];
    if lens[0] != lens[1] {
      t := 0;
    } else {
      var rest := lens[1..];
      var i' := if i == 0 then 0 else i - 1;
      assert j > 1 && rest[i'] != rest[j - 1];
      t := NeighboursDiffer(rest);
      t := t + 1;
    }
  }

  /** For votes of given byte lengths, whatever they are, the agreed indices are supported exactly when groups are single votes, or all lengths agree. */
  lemma SupportedForLengthsIff(lens: seq<nat>, k: nat)
    requires 0 < k <= |lens| && forall i :: 0 <= i < |lens| ==> lens[i] > 0
    ensures (forall votes :: HaveLengths(votes, lens) ==> IndicesSupported(votes, k)) <==> k == 1 || AllEqual(lens)
  {
    if k == 1 || AllEqual(lens) {
      forall votes | HaveLengths(votes, lens) ensures IndicesSupported(votes, k) {
        SupportedWhen(votes, lens, k);
      }
    } else {
      NotSupportedWhen(lens, k);
    }
  }

  /**
   Three assigners, so two votes are a majority: two of different lengths with every bit set, and none from
   the third, agree on a last index that only the longer one has.
   */
  lemma UnequalLengthsMislead(short: nat, long: nat, m: Digits)
    requires 0 < short < long && short % 2 == 0 && long % 2 == 0
    requires IsChosen([AllOnes(short), AllOnes(long), [0, 0]], (3 + 1) / 2, m)
    ensures m != [] && BitAtIndex(m, 4 * |m| - 1) && |Supporters([AllOnes(short), AllOnes(long), [0, 0]], 4 * |m| - 1)| < 2
  {
    var votes := [AllOnes(short), AllOnes(long), [0, 0]];
    assert WindowOfOnes(votes, 0, 2);
    WindowMisleads(votes, 0, 2, 0, m);
  }
}
