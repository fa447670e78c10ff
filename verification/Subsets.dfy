/**
 Agreement on bit votes (`choose-subsets-lib/subsets-lib.ts`).

 A vote is the sequence of digit values of its hex text, the prefix and the letter case being
 normalised away.  `HexStringAnd` pads the shorter text with zeros on the left, turns both into
 bytes - which drops an odd last digit - and prints the bytewise conjunction; an empty result is
 printed as "0x0", that is as the single digit zero.
 */
module Subsets {
  import opened Wrappers
  import opened Hex
  import opened Powers

  datatype Error = SubgroupTooBig | InvalidHex

  // ---------- bits ----------

  function AndBits(a: nat, b: nat): (r: nat)
    ensures r <= a && r <= b
  {
    if a == 0 || b == 0 then 0 else (if a % 2 == 1 && b % 2 == 1 then 1 else 0) + 2 * AndBits(a / 2, b / 2)
  }

  predicate Bit(a: nat, k: nat) {
    if k == 0 then a % 2 == 1 else Bit(a / 2, k - 1)
  }

  lemma {:induction false} AndBitsBit(a: nat, b: nat, k: nat)
    ensures Bit(AndBits(a, b), k) <==> Bit(a, k) && Bit(b, k)
    decreases k
  {
    if a == 0 || b == 0 {
      ZeroBits(k);
    } else if k > 0 {
      AndBitsBit(a / 2, b / 2, k - 1);
      assert AndBits(a, b) / 2 == AndBits(a / 2, b / 2);
    }
  }

  lemma {:induction false} ZeroBits(k: nat)
    ensures !Bit(0, k)
  {
    if k > 0 { ZeroBits(k - 1); }
  }

  lemma NibbleFromBits(a: Nibble, b: Nibble)
    requires forall k: nat :: k < 4 ==> (Bit(a, k) <==> Bit(b, k))
    ensures a == b
  {
    assert Bit(a, 0) == Bit(b, 0) && Bit(a, 1) == Bit(b, 1) && Bit(a, 2) == Bit(b, 2) && Bit(a, 3) == Bit(b, 3);
    assert Bit(a, 1) == Bit(a / 2, 0) && Bit(b, 1) == Bit(b / 2, 0);
    assert Bit(a, 2) == Bit(a / 2, 1) == Bit(a / 2 / 2, 0) && Bit(b, 2) == Bit(b / 2, 1) == Bit(b / 2 / 2, 0);
    assert Bit(a, 3) == Bit(a / 2, 2) == Bit(a / 2 / 2, 1) == Bit(a / 2 / 2 / 2, 0);
    assert Bit(b, 3) == Bit(b / 2, 2) == Bit(b / 2 / 2, 1) == Bit(b / 2 / 2 / 2, 0);
  }

  /** Bit `p` of the number a digit text denotes, counted from the right; texts end in zeros to the left. */
  predicate BitFromRight(d: Digits, p: nat) {
    p / 4 < |d| && Bit(d[|d| - 1 - p / 4], p % 4)
  }

  lemma SameBitsSameDigits(c: Digits, d: Digits)
    requires |c| == |d|
    requires forall p: nat :: BitFromRight(c, p) <==> BitFromRight(d, p)
    ensures c == d
  {
    forall i | 0 <= i < |c| ensures c[i] == d[i] {
      forall k: nat | k < 4 ensures Bit(c[i], k) <==> Bit(d[i], k) {
        var p := 4 * (|c| - 1 - i) + k;
        assert p / 4 == |c| - 1 - i && p % 4 == k;
        assert BitFromRight(c, p) <==> BitFromRight(d, p);
      }
      NibbleFromBits(c[i], d[i]);
    }
  }

  // ---------- hexStringAnd, countOnes ----------

  function Max(a: nat, b: nat): nat {
    if a < b then b else a
  }

  function PadStart(d: Digits, len: nat): (r: Digits)
    ensures |r| == Max(|d|, len)
  {
    if |d| >= len then d else seq(len - |d|, _ => 0) + d
  }

  lemma PadStartBit(d: Digits, len: nat, p: nat)
    ensures BitFromRight(PadStart(d, len), p) <==> BitFromRight(d, p)
  {
    ZeroBits(p % 4);
  }

  function HexStringAnd(a: Digits, b: Digits): Digits {
    var len := Max(|a|, |b|);
    var x, y := PadStart(a, len), PadStart(b, len);
    var r := seq(len / 2 * 2, i requires 0 <= i < len => AndBits(x[i], y[i]) as Nibble);
    if r == [] then [0] else r
  }

  /** Digit `i` of a text filled up with zeros on the left. */
  ghost function DigitAt(d: Digits, len: nat, i: nat): nat
    requires |d| <= len && i < len
  {
    if i < len - |d| then 0 else d[i - (len - |d|)]
  }

  /** Of any two texts: the digits of the conjunction, a last one that makes no byte being dropped. */
  lemma HexStringAndOfAny(a: Digits, b: Digits, i: nat, k: nat)
    ensures var len, r := Max(|a|, |b|), HexStringAnd(a, b);
            && |r| == (if len < 2 then 1 else len / 2 * 2) && (len < 2 ==> r == [0])
            && (i < len / 2 * 2 ==> (Bit(r[i], k) <==> Bit(DigitAt(a, len, i), k) && Bit(DigitAt(b, len, i), k)))
  {
    var len := Max(|a|, |b|);
    if i < len / 2 * 2 { AndBitsBit(DigitAt(a, len, i), DigitAt(b, len, i), k); }
  }

  /** What the bytes of bit votes can look like: whole bytes, or the digit zero that stands for no byte at all. */
  predicate WellFormed(v: Digits) {
    v == [0] || (v != [] && |v| % 2 == 0)
  }

  function Length(v: Digits): nat {
    if v == [0] then 0 else |v|
  }

  lemma HexStringAndMeaning(a: Digits, b: Digits)
    requires WellFormed(a) && WellFormed(b)
    ensures WellFormed(HexStringAnd(a, b)) && Length(HexStringAnd(a, b)) == Max(Length(a), Length(b))
    ensures forall p: nat :: BitFromRight(HexStringAnd(a, b), p) <==> BitFromRight(a, p) && BitFromRight(b, p)
  {
    forall p: nat ensures BitFromRight(HexStringAnd(a, b), p) <==> BitFromRight(a, p) && BitFromRight(b, p) {
      HexStringAndBit(a, b, p);
    }
  }

  lemma HexStringAndBit(a: Digits, b: Digits, p: nat)
    requires WellFormed(a) && WellFormed(b)
    ensures BitFromRight(HexStringAnd(a, b), p) <==> BitFromRight(a, p) && BitFromRight(b, p)
  {
    var len := Max(|a|, |b|);
    PadStartBit(a, len, p);
    PadStartBit(b, len, p);
    HexStringAndDigits(a, b);
    if len == 1 {
      ZeroBits(p % 4);
    } else {
      PairBit(PadStart(a, len), PadStart(b, len), HexStringAnd(a, b), p);
    }
  }

  lemma HexStringAndDigits(a: Digits, b: Digits)
    requires WellFormed(a) && WellFormed(b)
    ensures var len := Max(|a|, |b|);
            && (len == 1 ==> HexStringAnd(a, b) == [0] && a == [0] && b == [0])
            && (len != 1 ==> Pairwise(PadStart(a, len), PadStart(b, len), HexStringAnd(a, b)))
  {}

  ghost predicate Pairwise(x: Digits, y: Digits, r: Digits) {
    |x| == |y| == |r| && forall i :: 0 <= i < |r| ==> r[i] == AndBits(x[i], y[i])
  }

  lemma PairBit(x: Digits, y: Digits, r: Digits, p: nat)
    requires Pairwise(x, y, r)
    ensures BitFromRight(r, p) <==> BitFromRight(x, p) && BitFromRight(y, p)
  {
    if p / 4 < |r| {
      var i := |r| - 1 - p / 4;
      AndBitsBit(x[i], y[i], p % 4);
    }
  }

  function OnesIn(n: nat): nat {
    if n == 0 then 0 else n % 2 + OnesIn(n / 2)
  }

  function ByteOf(hi: nat, lo: nat): nat {
    16 * hi + lo
  }

  /** Ones in the bytes of a digit text; an odd last digit makes no byte. */
  function Ones(d: Digits): nat {
    if |d| < 2 then 0 else OnesIn(ByteOf(d[0], d[1])) + Ones(d[2..])
  }

  method CountOnes(d: Digits) returns (count: nat)
    ensures count == Ones(d)
  {
    count := 0;
    var rest := d;
    while |rest| >= 2
      invariant count + Ones(rest) == Ones(d)
    {
      var s := CountByte(ByteOf(rest[0], rest[1]));
      count := count + s;
      rest := rest[2..];
    }
  }

  /** The inner loop, over the eight bits of a byte. */
  method CountByte(byte: nat) returns (s: nat)
    requires byte < 256
    ensures s == OnesIn(byte)
  {
    var curr: nat := byte;
    s := 0;
    Pow2Of8();
    for i := 0 to 8
      invariant s + OnesIn(curr) == OnesIn(byte)
      invariant curr < Pow2(8 - i)
    {
      s := s + curr % 2;
      curr := curr / 2;
    }
  }

  // ---------- getSubsetsOfSize ----------

  /** `sel` picks `k` positions between `lo` and `n` in increasing order. */
  predicate Selection(sel: seq<nat>, lo: nat, n: nat, k: nat) {
    && |sel| == k
    && (forall i :: 0 <= i < k ==> lo <= sel[i] < n)
    && forall i, j :: 0 <= i < j < k ==> sel[i] < sel[j]
  }

  function PrependEach(x: nat, ss: seq<seq<nat>>): (r: seq<seq<nat>>)
    ensures |r| == |ss|
  {
    seq(|ss|, j requires 0 <= j < |ss| => [x] + ss[j])
  }

  /** The reference enumeration: with the position `lo` first, then without it, and no pruning. */
  function Selections(lo: nat, n: nat, k: nat): seq<seq<nat>>
    decreases n - lo
  {
    if k == 0 then [[]]
    else if lo >= n then []
    else PrependEach(lo, Selections(lo + 1, n, k - 1)) + Selections(lo + 1, n, k)
  }

  lemma {:induction false} SelectionsSound(lo: nat, n: nat, k: nat)
    ensures forall s :: s in Selections(lo, n, k) ==> Selection(s, lo, n, k)
    decreases n - lo
  {
    if k > 0 && lo < n {
      SelectionsSound(lo + 1, n, k - 1);
      SelectionsSound(lo + 1, n, k);
      var a := Selections(lo + 1, n, k - 1);
      forall s | s in Selections(lo, n, k) ensures Selection(s, lo, n, k) {
        if s !in Selections(lo + 1, n, k) {
          var j :| 0 <= j < |a| && s == [lo] + a[j];
          assert Selection(a[j], lo + 1, n, k - 1);
        }
      }
    }
  }

  lemma {:induction false} SelectionsComplete(s: seq<nat>, lo: nat, n: nat, k: nat)
    requires Selection(s, lo, n, k)
    ensures s in Selections(lo, n, k)
    decreases n - lo
  {
    if k > 0 {
      assert lo <= s[0] < n;
      if s[0] == lo {
        SelectionsComplete(s[1..], lo + 1, n, k - 1);
        var rest := Selections(lo + 1, n, k - 1);
        var j :| 0 <= j < |rest| && rest[j] == s[1..];
        assert PrependEach(lo, rest)[j] == s;
      } else {
        SelectionsComplete(s, lo + 1, n, k);
      }
    }
  }

  lemma {:induction false} SelectionsDistinct(lo: nat, n: nat, k: nat)
    ensures forall i, j :: 0 <= i < j < |Selections(lo, n, k)| ==> Selections(lo, n, k)[i] != Selections(lo, n, k)[j]
    decreases n - lo
  {
    if k > 0 && lo < n {
      SelectionsDistinct(lo + 1, n, k - 1);
      SelectionsDistinct(lo + 1, n, k);
      SelectionsSound(lo + 1, n, k);
      var a, b := Selections(lo + 1, n, k - 1), Selections(lo + 1, n, k);
      var with := PrependEach(lo, a);
      var all := with + b;
      forall i, j | 0 <= i < j < |all| ensures all[i] != all[j] {
        if j < |with| {
          assert with[i][1..] == a[i] && with[j][1..] == a[j];
        } else if i < |with| {
          assert with[i][0] == lo;
          assert b[j - |with|] in b;
        }
      }
    }
  }

  function Factorial(n: nat): (r: nat)
    ensures r >= 1
  {
    if n == 0 then 1 else n * Factorial(n - 1)
  }

  /** There are `n! / (k! (n-k)!)` selections of `k` positions out of `n`. */
  lemma {:induction false} SelectionsCount(lo: nat, n: nat, k: nat)
    requires lo <= n && k <= n - lo
    ensures |Selections(lo, n, k)| * Factorial(k) * Factorial(n - lo - k) == Factorial(n - lo)
    decreases n - lo
  {
    var m := n - lo;
    if k == 0 {
    } else if k == m {
      TooFewPositions(lo + 1, n, k);
      SelectionsCount(lo + 1, n, k - 1);
      var a := |Selections(lo + 1, n, k - 1)|;
      assert |Selections(lo, n, k)| == a;
      assert a * Factorial(k - 1) == Factorial(m - 1);
      assert a * (k * Factorial(k - 1)) == k * (a * Factorial(k - 1));
    } else {
      SelectionsCount(lo + 1, n, k - 1);
      SelectionsCount(lo + 1, n, k);
      var a, b := |Selections(lo + 1, n, k - 1)|, |Selections(lo + 1, n, k)|;
      Pascal(a, b, k, m, Factorial(k - 1), Factorial(m - k - 1), Factorial(m - 1));
      assert Factorial(k) == k * Factorial(k - 1) && Factorial(m - k) == (m - k) * Factorial(m - k - 1);
    }
  }

  lemma Pascal(a: nat, b: nat, k: nat, m: nat, f: nat, g: nat, h: nat)
    requires 0 < k < m
    requires a * f * ((m - k) * g) == h
    requires b * (k * f) * g == h
    ensures (a + b) * (k * f) * ((m - k) * g) == m * h
  {
    calc {
      (a + b) * (k * f) * ((m - k) * g);
      a * (k * f) * ((m - k) * g) + b * (k * f) * ((m - k) * g);
      { assert a * (k * f) * ((m - k) * g) == k * (a * f * ((m - k) * g)); }
      k * h + b * (k * f) * ((m - k) * g);
      { assert b * (k * f) * ((m - k) * g) == (m - k) * (b * (k * f) * g); }
      k * h + (m - k) * h;
      m * h;
    }
  }

  lemma {:induction false} TooFewPositions(lo: nat, n: nat, k: nat)
    requires k > 0 && lo + k > n
    ensures Selections(lo, n, k) == []
    decreases n - lo
  {
    if lo < n {
      if k > 1 { TooFewPositions(lo + 1, n, k - 1); }
      TooFewPositions(lo + 1, n, k);
    }
  }

  function Pick<T>(items: seq<T>, sel: seq<nat>): (r: seq<T>)
    requires forall i :: 0 <= i < |sel| ==> sel[i] < |items|
    ensures |r| == |sel|
  {
    seq(|sel|, i requires 0 <= i < |sel| => items[sel[i]])
  }

  /** `result` is `before` followed by `arr` extended in every way by `k` elements from position `lo` on. */
  ghost predicate Extends<T>(result: seq<seq<T>>, before: seq<seq<T>>, arr: seq<T>, items: seq<T>, lo: nat, k: nat) {
    var sels := Selections(lo, |items|, k);
    && |result| == |before| + |sels|
    && result[..|before|] == before
    && forall j :: 0 <= j < |sels| ==>
        && Selection(sels[j], lo, |items|, k)
        && result[|before| + j] == arr + Pick(items, sels[j])
  }

  /** The recursive helper, pushing onto a result it shares with its callers; subtrees that are too small are cut off. */
  method SubsetsHelper<T>(arr: seq<T>, splitIndex: nat, items: seq<T>, size: nat, result: seq<seq<T>>) returns (r: seq<seq<T>>)
    requires |arr| <= size && splitIndex <= |items|
    ensures Extends(r, result, arr, items, splitIndex, size - |arr|)
    decreases |items| - splitIndex
  {
    ghost var k := size - |arr|;
    SelectionsSound(splitIndex, |items|, k);
    if |arr| == size {
      assert arr + Pick(items, []) == arr;
      return result + [arr];
    }
    if splitIndex + 1 > |items| {
      return result;
    }
    var subtreeSizes := |arr| + |items| - splitIndex;
    if subtreeSizes >= size {
      r := SubsetsHelper(arr + [items[splitIndex]], splitIndex + 1, items, size, result);
      ghost var mid := r;
      if subtreeSizes > size {
        r := SubsetsHelper(arr, splitIndex + 1, items, size, r);
      } else {
        TooFewPositions(splitIndex + 1, |items|, k);
      }
      JoinExtends(r, mid, result, arr, items, splitIndex, k);
    } else {
      TooFewPositions(splitIndex, |items|, k);
      r := result;
    }
  }

  lemma JoinExtends<T>(r: seq<seq<T>>, mid: seq<seq<T>>, before: seq<seq<T>>, arr: seq<T>, items: seq<T>, lo: nat, k: nat)
    requires k > 0 && lo < |items|
    requires Extends(mid, before, arr + [items[lo]], items, lo + 1, k - 1)
    requires Extends(r, mid, arr, items, lo + 1, k)
    ensures Extends(r, before, arr, items, lo, k)
  {
    SelectionsSound(lo, |items|, k);
    var n := |items|;
    var a, b, sels := Selections(lo + 1, n, k - 1), Selections(lo + 1, n, k), Selections(lo, n, k);
    forall j | 0 <= j < |sels| ensures Selection(sels[j], lo, n, k) && r[|before| + j] == arr + Pick(items, sels[j]) {
      assert sels[j] in sels;
      if j < |a| {
        assert sels[j] == [lo] + a[j];
        assert r[|before| + j] == r[..|mid|][|before| + j] == mid[|before| + j];
        assert Pick(items, sels[j]) == [items[lo]] + Pick(items, a[j]);
      } else {
        assert sels[j] == b[j - |a|];
        assert r[|mid| + (j - |a|)] == arr + Pick(items, b[j - |a|]);
      }
    }
    assert r[..|before|] == r[..|mid|][..|before|];
  }

  /** `result` lists, in the order of the reference enumeration, what each selection of positions picks. */
  ghost predicate IsEnumeration<T>(result: seq<seq<T>>, items: seq<T>, size: nat) {
    var sels := Selections(0, |items|, size);
    && |result| == |sels|
    && forall j :: 0 <= j < |sels| ==> Selection(sels[j], 0, |items|, size) && result[j] == Pick(items, sels[j])
  }

  /** All subsets of the given size, in the order of the reference enumeration; nothing is lost to the pruning. */
  method GetSubsetsOfSize<T>(items: seq<T>, size: nat) returns (r: Result<seq<seq<T>>, Error>)
    ensures r.Ok? <==> size <= |items|
    ensures r.Err? ==> r.error == SubgroupTooBig
    ensures r.Ok? ==> IsEnumeration(r.value, items, size)
  {
    if |items| < size {
      return Err(SubgroupTooBig);
    }
    var result := SubsetsHelper([], 0, items, size, []);
    ghost var sels := Selections(0, |items|, size);
    forall j | 0 <= j < |sels| ensures Selection(sels[j], 0, |items|, size) && result[j] == Pick(items, sels[j]) {
      assert result[0 + j] == [] + Pick(items, sels[j]);
    }
    return Ok(result);
  }
}
