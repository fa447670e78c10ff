/**
 The order in which the default sort of the source puts `[ones, mask]` pairs: by the text
 "ones,0xmask", so that counts are compared as decimal text and not as numbers.
 */
module TextOrder {
  import opened Hex

  predicate StringLeq(a: string, b: string) {
    if a == "" then true
    else if b == "" then false
    else if a[0] != b[0] then a[0] < b[0]
    else StringLeq(a[1..], b[1..])
  }

  predicate Precedes(a: string, b: string) {
    !StringLeq(b, a)
  }

  /** Alike before position `i`, and `a` is smaller there. */
  ghost predicate SmallerAt(a: string, b: string, i: nat) {
    i < |a| && i < |b| && a[i] < b[i] && forall j :: 0 <= j < i ==> a[j] == b[j]
  }

  ghost predicate GoesOn(a: string, b: string) {
    |a| <= |b| && forall j :: 0 <= j < |a| ==> a[j] == b[j]
  }

  /** One text comes first that is smaller at their first difference, or that the other goes on from. */
  lemma {:induction false} TextOrderMeans(a: string, b: string)
    ensures StringLeq(a, b) <==> GoesOn(a, b) || exists i: nat :: SmallerAt(a, b, i)
    decreases |a|
  {
    if a != "" && b != "" {
      if a[0] == b[0] {
        TextOrderMeans(a[1..], b[1..]);
        OrderOfRest(a, b, a[1..], b[1..]);
      } else if a[0] < b[0] {
        assert SmallerAt(a, b, 0);
      }
    }
  }

  lemma OrderOfRest(a: string, b: string, x: string, y: string)
    requires a != "" && b != "" && a[0] == b[0] && x == a[1..] && y == b[1..]
    ensures GoesOn(a, b) <==> GoesOn(x, y)
    ensures (exists i: nat :: SmallerAt(a, b, i)) <==> exists i: nat :: SmallerAt(x, y, i)
  {
    assert forall j :: 0 <= j < |x| ==> a[j + 1] == x[j];
    assert forall j :: 0 <= j < |y| ==> b[j + 1] == y[j];
    if i: nat :| SmallerAt(x, y, i) { assert SmallerAt(a, b, i + 1); }
    if i: nat :| SmallerAt(a, b, i) { assert SmallerAt(x, y, i - 1); }
    if GoesOn(x, y) {
      forall j | 0 <= j < |a| ensures a[j] == b[j] { assert j > 0 ==> x[j - 1] == y[j - 1]; }
    }
  }

  lemma {:induction false} StringLeqTotal(a: string, b: string)
    ensures StringLeq(a, b) || StringLeq(b, a)
    ensures StringLeq(a, b) && StringLeq(b, a) ==> a == b
  {
    if a != "" && b != "" && a[0] == b[0] {
      StringLeqTotal(a[1..], b[1..]);
      assert a == [a[0]] + a[1..] && b == [b[0]] + b[1..];
    }
  }

  lemma {:induction false} StringLeqTransitive(a: string, b: string, c: string)
    requires StringLeq(a, b) && StringLeq(b, c)
    ensures StringLeq(a, c)
  {
    if a != "" && b != "" && c != "" && a[0] == b[0] == c[0] {
      StringLeqTransitive(a[1..], b[1..], c[1..]);
    }
  }

  lemma {:induction false} CommonPrefix(p: string, a: string, b: string)
    ensures StringLeq(p + a, p + b) <==> StringLeq(a, b)
  {
    if p == "" {
      assert p + a == a && p + b == b;
    } else {
      assert (p + a)[1..] == p[1..] + a && (p + b)[1..] == p[1..] + b;
      CommonPrefix(p[1..], a, b);
    }
  }

  // ---------- decimal numerals ----------

  function Decimal(n: nat): (r: string)
    ensures |r| == Width(n)
  {
    if n < 10 then [DigitChar(n)] else Decimal(n / 10) + [DigitChar(n % 10)]
  }

  function Width(n: nat): (r: nat)
    ensures r >= 1
  {
    if n < 10 then 1 else 1 + Width(n / 10)
  }

  /** The number the first `w` digits of `n` denote. */
  function Leading(n: nat, w: nat): nat {
    if n < 10 || Width(n) <= w then n else Leading(n / 10, w)
  }

  /** `a` is the smaller count, and yet its text comes after that of `b`: 9 and 10, or 5 and 123, or 31 and 305. */
  predicate Overtakes(a: nat, b: nat) {
    Width(a) < Width(b) && a > Leading(b, Width(a))
  }

  lemma {:induction false} SameWidthOrder(a: nat, b: nat, x: string, y: string)
    requires Width(a) == Width(b) && a < b
    ensures Precedes(Decimal(a) + x, Decimal(b) + y)
    decreases b
  {
    if a >= 10 {
      var da, db := [DigitChar(a % 10)], [DigitChar(b % 10)];
      assert Decimal(a) + x == Decimal(a / 10) + (da + x);
      assert Decimal(b) + y == Decimal(b / 10) + (db + y);
      if a / 10 < b / 10 {
        SameWidthOrder(a / 10, b / 10, da + x, db + y);
      } else {
        CommonPrefix(Decimal(a / 10), db + y, da + x);
      }
    }
  }

  lemma {:induction false} LeadingDigits(n: nat, w: nat) returns (rest: string)
    requires 1 <= w < Width(n)
    ensures Width(Leading(n, w)) == w
    ensures Decimal(n) == Decimal(Leading(n, w)) + rest
    ensures rest != "" && rest[0] >= '0'
  {
    if Width(n / 10) == w {
      rest := [DigitChar(n % 10)];
      assert Leading(n, w) == Leading(n / 10, w) == n / 10;
    } else {
      var front := LeadingDigits(n / 10, w);
      rest := front + [DigitChar(n % 10)];
      assert Decimal(n) == Decimal(Leading(n, w)) + rest;
    }
  }

  /** The text order of two different counts agrees with the order of the numbers except when the smaller overtakes. */
  lemma CountOrder(a: nat, b: nat, x: string, y: string)
    requires a < b
    ensures Overtakes(a, b) ==> Precedes(Decimal(b) + "," + y, Decimal(a) + "," + x)
    ensures !Overtakes(a, b) ==> Precedes(Decimal(a) + "," + x, Decimal(b) + "," + y)
  {
    WidthMonotone(a, b);
    assert Decimal(a) + "," + x == Decimal(a) + ("," + x);
    if Width(a) == Width(b) {
      assert Decimal(b) + "," + y == Decimal(b) + ("," + y);
      SameWidthOrder(a, b, "," + x, "," + y);
    } else {
      var q := Leading(b, Width(a));
      var rest := LeadingDigits(b, Width(a));
      var tail := rest + "," + y;
      assert Decimal(b) + "," + y == Decimal(q) + tail;
      if a < q {
        SameWidthOrder(a, q, "," + x, tail);
      } else if a > q {
        SameWidthOrder(q, a, tail, "," + x);
      } else {
        CommonPrefix(Decimal(a), tail, "," + x);
        assert tail[0] == rest[0];
      }
    }
  }

  lemma {:induction false} WidthMonotone(a: nat, b: nat)
    requires a <= b
    ensures Width(a) <= Width(b)
  {
    if a >= 10 { WidthMonotone(a / 10, b / 10); }
  }
}
