/** The library sort the source relies on, for any total order given as a function. */
module Sorting {
  ghost predicate TotalOrder<T(!new)>(leq: (T, T) -> bool) {
    && (forall x, y :: leq(x, y) || leq(y, x))
    && (forall x, y, z :: leq(x, y) && leq(y, z) ==> leq(x, z))
  }

  ghost predicate SortedBy<T>(leq: (T, T) -> bool, s: seq<T>) {
    forall i, j :: 0 <= i < j < |s| ==> leq(s[i], s[j])
  }

  ghost function Elements<T>(s: seq<T>): set<T> {
    set x | x in s
  }

  lemma ElementsCons<T>(x: T, s: seq<T>)
    ensures Elements([x] + s) == {x} + Elements(s)
  {}

  function Insert<T(!new)>(leq: (T, T) -> bool, x: T, s: seq<T>): (r: seq<T>)
    requires TotalOrder(leq) && SortedBy(leq, s)
    ensures |r| == |s| + 1 && (r[0] == x || (s != [] && r[0] == s[0]))
    ensures SortedBy(leq, r)
    ensures Elements(r) == {x} + Elements(s)
  {
    if s == [] || leq(x, s[0]) then
      ElementsCons(x, s);
      [x] + s
    else
      ElementsCons(s[0], s[1..]);
      assert s == [s[0]] + s[1..];
      ElementsCons(s[0], Insert(leq, x, s[1..]));
      [s[0]] + Insert(leq, x, s[1..])
  }

  function Sort<T(!new)>(leq: (T, T) -> bool, s: seq<T>): (r: seq<T>)
    requires TotalOrder(leq)
    ensures SortedBy(leq, r) && |r| == |s| && Elements(r) == Elements(s)
  {
    if s == [] then []
    else
      ElementsCons(s[0], s[1..]);
      assert s == [s[0]] + s[1..];
      Insert(leq, s[0], Sort(leq, s[1..]))
  }
}
