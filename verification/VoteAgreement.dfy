/** What all voters can rely on about the agreed vote. */
module VoteAgreement {
  import opened Hex
  import opened Sets
  import opened Sorting
  import opened Subsets
  import opened TextOrder
  import opened VoteChoice

  // ---------- the order of the votes does not matter ----------

  lemma {:induction false} PickedAreThere(votes: seq<Digits>, sel: seq<nat>, lo: nat)
    requires lo <= |votes| && Selection(sel, lo, |votes|, |sel|)
    ensures multiset(Pick(votes, sel)) <= multiset(votes[lo..])
    decreases |sel|
  {
    if sel != [] {
      var rest := sel[1..];
      PickedAreThere(votes, rest, sel[0] + 1);
      PickFirst(votes, sel);
      LaterAreThere(votes, lo, sel[0]);
    }
  }

  lemma PickFirst<T>(items: seq<T>, sel: seq<nat>)
    requires sel != [] && forall i :: 0 <= i < |sel| ==> sel[i] < |items|
    ensures multiset(Pick(items, sel)) == multiset{items[sel[0]]} + multiset(Pick(items, sel[1..]))
  {
    assert Pick(items, sel) == [items[sel[0]]] + Pick(items, sel[1..]);
  }

  lemma LaterAreThere<T>(items: seq<T>, lo: nat, i: nat)
    requires lo <= i < |items|
    ensures multiset{items[i]} + multiset(items[i + 1..]) <= multiset(items[lo..])
  {
    assert items[lo..] == items[lo..i] + ([items[i]] + items[i + 1..]);
  }

  lemma SelectionCons(sel: seq<nat>, lo: nat, n: nat)
    requires lo < n && Selection(sel, lo + 1, n, |sel|)
    ensures Selection([lo] + sel, lo, n, |sel| + 1)
  {}

  lemma PickCons<T>(items: seq<T>, sel: seq<nat>, lo: nat)
    requires lo < |items| && Selection(sel, lo + 1, |items|, |sel|)
    ensures Selection([lo] + sel, lo, |items|, |sel| + 1)
    ensures Pick(items, [lo] + sel) == [items[lo]] + Pick(items, sel)
  {
    SelectionCons(sel, lo, |items|);
  }

  lemma {:induction false} SelectionOf<T>(votes: seq<T>, m: multiset<T>, lo: nat) returns (sel: seq<nat>)
    requires lo <= |votes| && m <= multiset(votes[lo..])
    ensures Selection(sel, lo, |votes|, |m|) && multiset(Pick(votes, sel)) == m
    decreases |votes| - lo
  {
    if |m| == 0 {
      sel := [];
    } else {
      assert lo < |votes|;
      var v := votes[lo];
      assert votes[lo..] == [v] + votes[lo + 1..];
      if v in m {
        var rest := SelectionOf(votes, m - multiset{v}, lo + 1);
        PickCons(votes, rest, lo);
        sel := [lo] + rest;
      } else {
        sel := SelectionOf(votes, m, lo + 1);
      }
    }
  }

  lemma SameGroupElsewhere(votes1: seq<Digits>, votes2: seq<Digits>, k: nat, sel1: seq<nat>) returns (sel2: seq<nat>)
    requires multiset(votes1) == multiset(votes2) && AllWellFormed(votes1)
    requires Group(votes1, k, sel1)
    ensures Group(votes2, k, sel2) && Intersection(votes2, sel2) == Intersection(votes1, sel1)
  {
    var picked1 := Pick(votes1, sel1);
    PickedAreThere(votes1, sel1, 0);
    assert votes1[0..] == votes1 && votes2[0..] == votes2;
    sel2 := SelectionOf(votes2, multiset(picked1), 0);
    var picked2 := Pick(votes2, sel2);
    forall v ensures v in picked1 <==> v in picked2 {
      assert v in picked1 <==> v in multiset(picked1);
      assert v in picked2 <==> v in multiset(picked2);
    }
    assert AllWellFormed(picked1);
    IntersectAllSameElements(picked1, picked2);
  }

  /** Any two clients that see the same votes, in whatever order, choose the same mask. */
  lemma AgreedVoteIgnoresOrder(votes1: seq<Digits>, votes2: seq<Digits>, k: nat, m1: Digits, m2: Digits)
    requires multiset(votes1) == multiset(votes2) && AllWellFormed(votes1)
    requires IsChosen(votes1, k, m1) && IsChosen(votes2, k, m2)
    ensures m1 == m2
  {
    var sel1: seq<nat> :| Group(votes1, k, sel1) && Intersection(votes1, sel1) == m1;
    var sel2: seq<nat> :| Group(votes2, k, sel2) && Intersection(votes2, sel2) == m2;
    WellFormedTransfers(votes1, votes2);
    var other2 := SameGroupElsewhere(votes1, votes2, k, sel1);
    var other1 := SameGroupElsewhere(votes2, votes1, k, sel2);
    StringLeqTotal(MaskText(m1), MaskText(m2));
    MaskTextInjective(m1, m2);
  }

  lemma WellFormedTransfers(votes1: seq<Digits>, votes2: seq<Digits>)
    requires multiset(votes1) == multiset(votes2) && AllWellFormed(votes1)
    ensures AllWellFormed(votes2)
  {
    forall v | v in votes2 ensures WellFormed(v) {
      assert v in multiset(votes2);
      assert v in votes1;
    }
  }

  // ---------- every agreed bit has its supporters ----------

  ghost function SupportersFromRight(votes: seq<Digits>, p: nat): set<nat> {
    set i: nat | i < |votes| && BitFromRight(votes[i], p)
  }

  lemma {:induction false} IncreasingCount(sel: seq<nat>, lo: nat, n: nat)
    requires Selection(sel, lo, n, |sel|)
    ensures |Elements(sel)| == |sel|
    decreases |sel|
  {
    if sel != [] {
      var rest := sel[1..];
      assert forall i :: 0 <= i < |rest| ==> rest[i] == sel[i + 1];
      IncreasingCount(rest, sel[0] + 1, n);
      assert sel == [sel[0]] + rest;
      ElementsCons(sel[0], rest);
      assert sel[0] !in Elements(rest);
    } else {
      assert Elements(sel) == {};
    }
  }

  lemma AgreedBitsSupportedFromRight(votes: seq<Digits>, k: nat, m: Digits, p: nat)
    requires AllWellFormed(votes) && IsChosen(votes, k, m) && BitFromRight(m, p)
    ensures |SupportersFromRight(votes, p)| >= k
  {
    var sel: seq<nat> :| Group(votes, k, sel) && Intersection(votes, sel) == m;
    var group := Pick(votes, sel);
    IntersectAllMeaning(group, p);
    IncreasingCount(sel, 0, |votes|);
    forall x | x in Elements(sel) ensures x in SupportersFromRight(votes, p) {
      var j :| 0 <= j < |sel| && sel[j] == x;
      assert group[j] in group && group[j] == votes[x];
    }
    SubsetSize(Elements(sel), SupportersFromRight(votes, p));
  }

  /** Bit `i` the way bit masks are read: the first digit holds the bits 0 to 3, its highest bit being bit 0. */
  predicate BitAtIndex(d: Digits, i: nat) {
    i / 4 < |d| && Bit(d[i / 4], 3 - i % 4)
  }

  ghost function Supporters(votes: seq<Digits>, i: nat): set<nat> {
    set j: nat | j < |votes| && BitAtIndex(votes[j], i)
  }

  predicate IsZero(v: Digits) {
    forall i :: 0 <= i < |v| ==> v[i] == 0
  }

  ghost predicate Uniform(votes: seq<Digits>, length: nat) {
    length % 2 == 0 && forall v :: v in votes ==> WellFormed(v) && (|v| == length || IsZero(v))
  }

  lemma IndexFromRight(v: Digits, i: nat)
    requires i / 4 < |v|
    ensures BitAtIndex(v, i) <==> BitFromRight(v, 4 * |v| - 1 - i)
  {
    var p := 4 * |v| - 1 - i;
    assert p / 4 == |v| - 1 - i / 4 && p % 4 == 3 - i % 4;
  }

  lemma BitMeansLength(v: Digits, length: nat, p: nat)
    requires |v| == length || IsZero(v)
    requires BitFromRight(v, p)
    ensures |v| == length
  {
    ZeroBits(p % 4);
  }

  /** When the votes have one byte length, apart from votes for nothing, each agreed index has `k` votes behind it. */
  lemma AgreedBitsSupported(votes: seq<Digits>, length: nat, k: nat, m: Digits, i: nat)
    requires Uniform(votes, length) && IsChosen(votes, k, m) && BitAtIndex(m, i)
    ensures |m| == length && |Supporters(votes, i)| >= k
  {
    var p := 4 * |m| - 1 - i;
    IndexFromRight(m, i);
    AgreedBitsSupportedFromRight(votes, k, m, p);
    ChosenLength(votes, length, k, m, p);
    forall j | j in SupportersFromRight(votes, p) ensures j in Supporters(votes, i) {
      assert votes[j] in votes;
      BitMeansLength(votes[j], length, p);
      IndexFromRight(votes[j], i);
    }
    SubsetSize(SupportersFromRight(votes, p), Supporters(votes, i));
  }

  lemma ChosenLength(votes: seq<Digits>, length: nat, k: nat, m: Digits, p: nat)
    requires Uniform(votes, length) && IsChosen(votes, k, m) && BitFromRight(m, p)
    ensures |m| == length
  {
    var sel: seq<nat> :| Group(votes, k, sel) && Intersection(votes, sel) == m;
    var group := Pick(votes, sel);
    assert AllWellFormed(group);
    IntersectAllMeaning(group, p);
    forall v | v in group ensures |v| == length {
      assert v in votes;
      BitMeansLength(v, length, p);
    }
    assert group[0] in group;
    assert length % 2 == 0 && Length(group[0]) == length;
  }

  // ---------- optimality ----------

  ghost predicate MostOnes(votes: seq<Digits>, k: nat, m: Digits) {
    forall sel :: Group(votes, k, sel) ==> Ones(Intersection(votes, sel)) <= Ones(m)
  }

  /** The largest count is not overtaken, as decimal text, by the count of any other group. */
  ghost predicate LargestNotOvertaken(votes: seq<Digits>, k: nat) {
    exists best :: Group(votes, k, best)
      && MostOnes(votes, k, Intersection(votes, best))
      && forall sel :: Group(votes, k, sel) ==> !Overtakes(Ones(Intersection(votes, sel)), Ones(Intersection(votes, best)))
  }

  /**
   The documented optimum, exactly: no group of `k` votes has more ones in common than the chosen
   mask has, if and only if the largest count is not overtaken in the text order.
   */
  lemma OptimumIff(votes: seq<Digits>, k: nat, m: Digits)
    requires IsChosen(votes, k, m)
    ensures MostOnes(votes, k, m) <==> LargestNotOvertaken(votes, k)
  {
    var chosen: seq<nat> :| Group(votes, k, chosen) && Intersection(votes, chosen) == m;
    var tm := "0x" + Text(m);
    if MostOnes(votes, k, m) {
      forall sel | Group(votes, k, sel) ensures !Overtakes(Ones(Intersection(votes, sel)), Ones(m)) {
        var c := Intersection(votes, sel);
        if Ones(c) < Ones(m) {
          CountOrder(Ones(c), Ones(m), "0x" + Text(c), tm);
        }
      }
    }
    if LargestNotOvertaken(votes, k) {
      var best: seq<nat> :| Group(votes, k, best) && MostOnes(votes, k, Intersection(votes, best))
        && forall sel :: Group(votes, k, sel) ==> !Overtakes(Ones(Intersection(votes, sel)), Ones(Intersection(votes, best)));
      var b := Intersection(votes, best);
      assert !Overtakes(Ones(m), Ones(b));
      if Ones(m) < Ones(b) {
        CountOrder(Ones(m), Ones(b), tm, "0x" + Text(b));
      }
    }
  }

  /** Counts written with one number of digits, as with fewer than ten requests, leave the optimum intact. */
  lemma OptimumForCountsOfOneWidth(votes: seq<Digits>, k: nat, m: Digits, width: nat)
    requires IsChosen(votes, k, m)
    requires forall sel :: Group(votes, k, sel) ==> Width(Ones(Intersection(votes, sel))) == width
    ensures MostOnes(votes, k, m)
  {
    forall sel | Group(votes, k, sel) ensures Ones(Intersection(votes, sel)) <= Ones(m) {
      var c := Intersection(votes, sel);
      if Ones(m) < Ones(c) {
        CountOrder(Ones(m), Ones(c), "0x" + Text(m), "0x" + Text(c));
      }
    }
  }

  /** Among groups with equally many ones in common the mask that is last in text order wins. */
  lemma TiesBrokenByText(votes: seq<Digits>, k: nat, m: Digits, sel: seq<nat>)
    requires IsChosen(votes, k, m) && Group(votes, k, sel)
    requires Ones(Intersection(votes, sel)) == Ones(m)
    ensures StringLeq(Text(Intersection(votes, sel)), Text(m))
  {
    var c := Intersection(votes, sel);
    var p := Decimal(Ones(m)) + "," + "0x";
    assert MaskText(m) == p + Text(m) && MaskText(c) == p + Text(c);
    CommonPrefix(p, Text(c), Text(m));
  }

  /** The optimum is not always met: nine ones are preferred to ten. */
  lemma NineBeatsTen(m: Digits)
    requires IsChosen([[15, 15, 8, 0], [15, 15, 12, 0]], 1, m)
    ensures m == [15, 15, 8, 0] && Ones(m) == 9 && Ones([15, 15, 12, 0]) == 10
    ensures !MostOnes([[15, 15, 8, 0], [15, 15, 12, 0]], 1, m)
  {
    NineAndTen();
    NineSortsLast([15, 15, 8, 0], [15, 15, 12, 0]);
    LaterOfTwo([15, 15, 8, 0], [15, 15, 12, 0], m);
  }

  lemma LaterOfTwo(a: Digits, b: Digits, m: Digits)
    requires WellFormed(a) && WellFormed(b) && Precedes(MaskText(b), MaskText(a)) && Ones(a) < Ones(b)
    requires IsChosen([a, b], 1, m)
    ensures m == a && !MostOnes([a, b], 1, m)
  {
    var votes := [a, b];
    SingleVote(votes, 0);
    SingleVote(votes, 1);
    var sel: seq<nat> :| Group(votes, 1, sel) && Intersection(votes, sel) == m;
    assert sel == [0] || sel == [1];
  }

  lemma NineSortsLast(nine: Digits, ten: Digits)
    requires Ones(nine) == 9 && Ones(ten) == 10
    ensures Precedes(MaskText(ten), MaskText(nine))
  {
    assert Leading(10, 1) == 1;
    CountOrder(9, 10, "0x" + Text(nine), "0x" + Text(ten));
  }

  lemma NineAndTen()
    ensures Ones([15, 15, 8, 0]) == 9 && Ones([15, 15, 12, 0]) == 10
  {
    OnesOfFour(15, 15, 8, 0);
    OnesOfFour(15, 15, 12, 0);
    assert OnesIn(15) == 4;
    assert OnesIn(255) == 4 + OnesIn(15);
    assert OnesIn(8) == 1 && OnesIn(128) == OnesIn(8);
    assert OnesIn(12) == 2 && OnesIn(192) == OnesIn(12);
  }

  lemma OnesOfFour(a: Nibble, b: Nibble, c: Nibble, d: Nibble)
    ensures Ones([a, b, c, d]) == OnesIn(ByteOf(a, b)) + OnesIn(ByteOf(c, d))
  {
    var four: Digits := [a, b, c, d];
    var two: Digits := [c, d];
    assert four[2..] == two && two[2..] == [];
    assert Ones(two) == OnesIn(ByteOf(c, d)) + Ones(two[2..]);
  }

  lemma SingleVote(votes: seq<Digits>, i: nat)
    requires i < |votes| && WellFormed(votes[i])
    ensures Group(votes, 1, [i]) && Intersection(votes, [i]) == votes[i]
  {
    var group := Pick(votes, [i]);
    assert group == [votes[i]];
    forall p: nat ensures BitFromRight(IntersectAll(group), p) <==> BitFromRight(votes[i], p) {
      IntersectAllMeaning(group, p);
    }
    IntersectAllMeaning(group, 0);
    assert group[1..] == [];
    assert MaxLength(group) == Length(votes[i]) by { assert group[0] in group; }
    SameBitsSameDigits(IntersectAll(group), votes[i]);
  }
}
