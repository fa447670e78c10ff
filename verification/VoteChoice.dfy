/**
 The agreed vote: `chooseCandidate` intersects every group of votes of the given size and takes the
 intersection that sorts last.
 */
module VoteChoice {
  import opened Wrappers
  import opened Hex
  import opened Sorting
  import opened Subsets
  import opened TextOrder

  datatype Candidate = Candidate(ones: nat, mask: Digits)

  function CandidateText(c: Candidate): string {
    Decimal(c.ones) + "," + ("0x" + Text(c.mask))
  }

  predicate CandidateLeq(a: Candidate, b: Candidate) {
    StringLeq(CandidateText(a), CandidateText(b))
  }

  lemma CandidateOrder()
    ensures TotalOrder(CandidateLeq)
  {
    forall x, y ensures CandidateLeq(x, y) || CandidateLeq(y, x) {
      StringLeqTotal(CandidateText(x), CandidateText(y));
    }
    forall x, y, z | CandidateLeq(x, y) && CandidateLeq(y, z) ensures CandidateLeq(x, z) {
      StringLeqTransitive(CandidateText(x), CandidateText(y), CandidateText(z));
    }
  }

  // ---------- intersection of a group ----------

  function FoldAnd(c: Digits, group: seq<Digits>): Digits
    decreases |group|
  {
    if group == [] then c else FoldAnd(HexStringAnd(c, group[0]), group[1..])
  }

  function IntersectAll(group: seq<Digits>): Digits
    requires group != []
  {
    FoldAnd(group[0], group)
  }

  function MaxLength(group: seq<Digits>): (r: nat)
    ensures forall v :: v in group ==> Length(v) <= r
    ensures r == 0 || exists v :: v in group && Length(v) == r
  {
    if group == [] then 0
    else
      var r := MaxLength(group[1..]);
      assert group[0] in group;
      if Length(group[0]) < r then r else Length(group[0])
  }

  ghost predicate AllWellFormed(group: seq<Digits>) {
    forall v :: v in group ==> WellFormed(v)
  }

  lemma {:induction false} FoldAndMeaning(c: Digits, group: seq<Digits>, p: nat)
    requires WellFormed(c) && AllWellFormed(group)
    ensures WellFormed(FoldAnd(c, group)) && Length(FoldAnd(c, group)) == Max(Length(c), MaxLength(group))
    ensures BitFromRight(FoldAnd(c, group), p) <==> BitFromRight(c, p) && forall v :: v in group ==> BitFromRight(v, p)
    decreases |group|
  {
    if group != [] {
      var rest := group[1..];
      assert group == [group[0]] + rest && group[0] in group;
      assert AllWellFormed(rest);
      HexStringAndMeaning(c, group[0]);
      FoldAndMeaning(HexStringAnd(c, group[0]), rest, p);
    }
  }

  /** A group of votes has a bit in common exactly when each of them has it; the length is that of the longest. */
  lemma IntersectAllMeaning(group: seq<Digits>, p: nat)
    requires group != [] && AllWellFormed(group)
    ensures WellFormed(IntersectAll(group)) && Length(IntersectAll(group)) == MaxLength(group)
    ensures BitFromRight(IntersectAll(group), p) <==> forall v :: v in group ==> BitFromRight(v, p)
  {
    assert group[0] in group;
    FoldAndMeaning(group[0], group, p);
  }

  lemma IntersectAllSameElements(a: seq<Digits>, b: seq<Digits>)
    requires a != [] && b != [] && AllWellFormed(a) && AllWellFormed(b)
    requires forall v :: v in a <==> v in b
    ensures IntersectAll(a) == IntersectAll(b)
  {
    forall p: nat ensures BitFromRight(IntersectAll(a), p) <==> BitFromRight(IntersectAll(b), p) {
      IntersectAllMeaning(a, p);
      IntersectAllMeaning(b, p);
    }
    IntersectAllMeaning(a, 0);
    IntersectAllMeaning(b, 0);
    SameBitsSameDigits(IntersectAll(a), IntersectAll(b));
  }

  // ---------- the choice ----------

  function Intersection(votes: seq<Digits>, sel: seq<nat>): Digits
    requires sel != [] && forall i :: 0 <= i < |sel| ==> sel[i] < |votes|
  {
    IntersectAll(Pick(votes, sel))
  }

  ghost predicate Group(votes: seq<Digits>, k: nat, sel: seq<nat>) {
    k > 0 && Selection(sel, 0, |votes|, k)
  }

  function MaskText(mask: Digits): string {
    CandidateText(Candidate(Ones(mask), mask))
  }

  /** `m` is the intersection of some group of `k` votes, and no group's intersection sorts after it. */
  ghost predicate IsChosen(votes: seq<Digits>, k: nat, m: Digits) {
    && (exists sel :: Group(votes, k, sel) && Intersection(votes, sel) == m)
    && forall sel :: Group(votes, k, sel) ==> StringLeq(MaskText(Intersection(votes, sel)), MaskText(m))
  }

  /** The intersection of a group, vote by vote. */
  method CommonMask(subset: seq<Digits>) returns (candidate: Digits)
    requires subset != []
    ensures candidate == IntersectAll(subset)
  {
    candidate := subset[0];
    var j := 0;
    while j < |subset|
      invariant 0 <= j <= |subset|
      invariant FoldAnd(candidate, subset[j..]) == IntersectAll(subset)
    {
      assert subset[j..][1..] == subset[j + 1..];
      candidate := HexStringAnd(candidate, subset[j]);
      j := j + 1;
    }
  }

  method ChooseCandidate(votes: seq<Digits>, groupSize: nat) returns (r: Result<Digits, Error>)
    ensures r.Ok? <==> 0 < groupSize <= |votes|
    ensures r.Err? ==> r.error == if |votes| < groupSize then SubgroupTooBig else InvalidHex
    ensures r.Ok? ==> IsChosen(votes, groupSize, r.value) && r.value == ChosenMask(votes, groupSize)
  {
    var subsets := GetSubsetsOfSize(votes, groupSize);
    if subsets.Err? {
      return Err(subsets.error);
    }
    var allSubsets := subsets.value;
    if groupSize == 0 {
      // the only subset is empty, it has no first vote, and counting the ones of an undefined mask throws
      return Err(InvalidHex);
    }
    var candidates: seq<Candidate> := [];
    var i := 0;
    ghost var sels := Selections(0, |votes|, groupSize);
    while i < |allSubsets|
      invariant 0 <= i <= |allSubsets| && |candidates| == i
      invariant forall j :: 0 <= j < i ==> Group(votes, groupSize, sels[j]) && candidates[j] == CandidateAt(votes, sels[j])
    {
      var subset := allSubsets[i];
      assert subset == Pick(votes, sels[i]) && Selection(sels[i], 0, |votes|, groupSize);
      var candidate := CommonMask(subset);
      var ones := CountOnes(candidate);
      candidates := candidates + [Candidate(ones, candidate)];
      i := i + 1;
    }
    FirstSelection(|votes|, groupSize);
    CandidateOrder();
    var sorted := Sort(CandidateLeq, candidates);
    var last := sorted[|sorted| - 1];
    LastIsChosen(votes, groupSize, candidates, last, sorted);
    ChosenUnique(votes, groupSize, last.mask, ChosenMask(votes, groupSize));
    return Ok(last.mask);
  }

  /** Two masks cannot both be chosen. */
  lemma ChosenUnique(votes: seq<Digits>, k: nat, m1: Digits, m2: Digits)
    requires IsChosen(votes, k, m1) && IsChosen(votes, k, m2)
    ensures m1 == m2
  {
    var sel1: seq<nat> :| Group(votes, k, sel1) && Intersection(votes, sel1) == m1;
    var sel2: seq<nat> :| Group(votes, k, sel2) && Intersection(votes, sel2) == m2;
    StringLeqTotal(MaskText(m1), MaskText(m2));
    MaskTextInjective(m1, m2);
  }

  lemma MaskTextInjective(m1: Digits, m2: Digits)
    requires MaskText(m1) == MaskText(m2)
    ensures m1 == m2
  {
    var d1, d2 := Decimal(Ones(m1)), Decimal(Ones(m2));
    var t1, t2 := "0x" + Text(m1), "0x" + Text(m2);
    if Ones(m1) < Ones(m2) {
      CountOrder(Ones(m1), Ones(m2), t1, t2);
      StringLeqTotal(MaskText(m1), MaskText(m2));
    } else if Ones(m2) < Ones(m1) {
      CountOrder(Ones(m2), Ones(m1), t2, t1);
      StringLeqTotal(MaskText(m1), MaskText(m2));
    }
    assert MaskText(m1)[|d1| + 3..] == Text(m1) && MaskText(m2)[|d2| + 3..] == Text(m2);
    ParseText(m1);
    ParseText(m2);
  }

  function CandidateAt(votes: seq<Digits>, sel: seq<nat>): Candidate
    requires sel != [] && forall i :: 0 <= i < |sel| ==> sel[i] < |votes|
  {
    Candidate(Ones(Intersection(votes, sel)), Intersection(votes, sel))
  }

  lemma SelectionsAreGroups(votes: seq<Digits>, k: nat)
    requires 0 < k
    ensures forall j :: 0 <= j < |Selections(0, |votes|, k)| ==> Group(votes, k, Selections(0, |votes|, k)[j])
  {
    SelectionsSound(0, |votes|, k);
    var sels := Selections(0, |votes|, k);
    forall j | 0 <= j < |sels| ensures Group(votes, k, sels[j]) {
      assert sels[j] in sels;
    }
  }

  /** The mask `ChooseCandidate` returns. */
  function ChosenMask(votes: seq<Digits>, k: nat): (m: Digits)
    requires 0 < k <= |votes|
    ensures IsChosen(votes, k, m)
  {
    var sels := Selections(0, |votes|, k);
    SelectionsAreGroups(votes, k);
    FirstSelection(|votes|, k);
    CandidateOrder();
    var candidates := seq(|sels|, j requires 0 <= j < |sels| => CandidateAt(votes, sels[j]));
    var sorted := Sort(CandidateLeq, candidates);
    LastIsChosen(votes, k, candidates, sorted[|sorted| - 1], sorted);
    sorted[|sorted| - 1].mask
  }

  lemma FirstSelection(n: nat, k: nat)
    requires k <= n
    ensures Selections(0, n, k) != []
  {
    var sel: seq<nat> := seq(k, i => i);
    SelectionsComplete(sel, 0, n, k);
  }

  lemma LastIsChosen(votes: seq<Digits>, k: nat, candidates: seq<Candidate>, last: Candidate, sorted: seq<Candidate>)
    requires 0 < k && |candidates| == |Selections(0, |votes|, k)| > 0
    requires forall j :: 0 <= j < |candidates| ==>
      var sel := Selections(0, |votes|, k)[j];
      Group(votes, k, sel) && candidates[j] == CandidateAt(votes, sel)
    requires TotalOrder(CandidateLeq) && sorted == Sort(CandidateLeq, candidates) && last == sorted[|sorted| - 1]
    ensures IsChosen(votes, k, last.mask)
  {
    var sels := Selections(0, |votes|, k);
    assert last in Elements(sorted);
    var j :| 0 <= j < |candidates| && candidates[j] == last;
    assert Group(votes, k, sels[j]) && Intersection(votes, sels[j]) == last.mask;
    forall sel | Group(votes, k, sel) ensures StringLeq(MaskText(Intersection(votes, sel)), MaskText(last.mask)) {
      SelectionsComplete(sel, 0, |votes|, k);
      var i :| 0 <= i < |sels| && sels[i] == sel;
      var c := candidates[i];
      assert c in Elements(sorted);
      var h :| 0 <= h < |sorted| && sorted[h] == c;
      assert CandidateLeq(c, last) || h == |sorted| - 1;
      StringLeqTotal(CandidateText(c), CandidateText(c));
    }
  }
}
