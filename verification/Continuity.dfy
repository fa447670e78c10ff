/** The continuity check on the transaction tables (`checkDatabaseContinuous` in `indexer.ts`). */
module Continuity {
  import opened Sets
  import opened Storage
  import opened Wrappers

  function MinOf(s: seq<nat>): (r: nat)
    requires s != []
    ensures r in s && forall x :: x in s ==> r <= x
  {
    if |s| == 1 then s[0]
    else
      var m := MinOf(s[1..]);
      assert s == [s[0]] + s[1..];
      if s[0] < m then s[0] else m
  }

  function MaxOf(s: seq<nat>): (r: nat)
    requires s != []
    ensures r in s && forall x :: x in s ==> x <= r
  {
    if |s| == 1 then s[0]
    else
      var m := MaxOf(s[1..]);
      assert s == [s[0]] + s[1..];
      if s[0] > m then s[0] else m
  }

  /** max - min + 1 - number of distinct values; nothing for no rows. */
  function Missing(numbers: seq<nat>): Option<int> {
    if numbers == [] then None else Some(MaxOf(numbers) - MinOf(numbers) + 1 - |Distinct(numbers)|)
  }

  function Distinct(numbers: seq<nat>): set<nat> {
    set x | x in numbers
  }

  ghost predicate Gapless(numbers: seq<nat>) {
    forall x, y, z :: x in numbers && z in numbers && x <= y <= z ==> y in numbers
  }

  function Interval(lo: nat, hi: nat): (r: set<nat>)
    requires lo <= hi + 1
    ensures |r| == hi - lo + 1
    ensures forall x: nat :: x in r <==> lo <= x <= hi
    decreases hi + 1 - lo
  {
    if lo == hi + 1 then {} else {lo} + Interval(lo + 1, hi)
  }

  /** The formula the check uses gives zero exactly when the numbers have no gap. */
  lemma MissingFindsGaps(numbers: seq<nat>)
    requires numbers != []
    ensures Missing(numbers) == Some(0) <==> Gapless(numbers)
    ensures Missing(numbers).value >= 0
  {
    var lo, hi := MinOf(numbers), MaxOf(numbers);
    var all, there := Interval(lo, hi), Distinct(numbers);
    assert there <= all;
    SubsetSize(there, all);
    if Gapless(numbers) {
      forall y | y in all ensures y in there {
        assert lo in numbers && hi in numbers;
      }
      assert there == all;
    }
    if |there| == |all| {
      SameSize(there, all);
      forall x, y, z | x in numbers && z in numbers && x <= y <= z ensures y in numbers {
        assert y in all;
      }
    }
  }

  function Numbers(rows: seq<Row>): (r: seq<nat>)
    ensures |r| == |rows|
  {
    seq(|rows|, i requires 0 <= i < |rows| => rows[i].blockNumber)
  }

  function AtLeast(numbers: seq<nat>, bottom: nat): (r: seq<nat>)
    ensures forall x :: x in r <==> x in numbers && x >= bottom
  {
    if numbers == [] then []
    else
      assert numbers == [numbers[0]] + numbers[1..];
      (if numbers[0] >= bottom then [numbers[0]] else []) + AtLeast(numbers[1..], bottom)
  }

  /** What the query counts in one table. */
  function MissingIn(rows: seq<Row>, bottom: nat): Option<int> {
    Missing(AtLeast(Numbers(rows), bottom))
  }

  ghost predicate HasNumber(rows: seq<Row>, number: nat) {
    exists i :: 0 <= i < |rows| && rows[i].blockNumber == number
  }

  /** From `bottom` on a number between two of the table is not in it. */
  ghost predicate GapFrom(rows: seq<Row>, bottom: nat) {
    exists x, y, z :: bottom <= x <= y <= z && HasNumber(rows, x) && HasNumber(rows, z) && !HasNumber(rows, y)
  }

  lemma NumberInRows(rows: seq<Row>, number: nat)
    ensures number in Numbers(rows) <==> HasNumber(rows, number)
  {
    if i :| 0 <= i < |rows| && rows[i].blockNumber == number {
      assert Numbers(rows)[i] == number;
    }
  }

  /** The query finds the gaps of a table. */
  lemma QueryFindsGaps(rows: seq<Row>, bottom: nat)
    ensures MissingIn(rows, bottom) in [None, Some(0)] <==> !GapFrom(rows, bottom)
  {
    var kept := AtLeast(Numbers(rows), bottom);
    forall x: nat ensures x in kept <==> HasNumber(rows, x) && x >= bottom {
      NumberInRows(rows, x);
    }
    if kept != [] { MissingFindsGaps(kept); }
    GapInNumbers(kept, rows, bottom);
  }

  lemma GapInNumbers(kept: seq<nat>, rows: seq<Row>, bottom: nat)
    requires forall x: nat :: x in kept <==> HasNumber(rows, x) && x >= bottom
    ensures Gapless(kept) <==> !GapFrom(rows, bottom)
  {
    if x, y, z :| x in kept && z in kept && x <= y <= z && y !in kept {
      assert HasNumber(rows, x) && HasNumber(rows, z) && !HasNumber(rows, y);
    }
    if x: nat, y: nat, z: nat :| bottom <= x <= y <= z && HasNumber(rows, x) && HasNumber(rows, z) && !HasNumber(rows, y) {
      assert x in kept && z in kept && y !in kept;
    }
  }

  /** Rows of consecutive blocks have consecutive numbers, from any bottom on. */
  lemma {:induction false} RowsHaveNoGaps(blocks: seq<Block>, first: nat, bottom: nat)
    requires Numbered(blocks, first)
    ensures MissingIn(RowsOf(blocks), bottom) in {None, Some(0)}
  {
    var numbers := Numbers(RowsOf(blocks));
    var kept := AtLeast(numbers, bottom);
    forall x, y, z | x in kept && z in kept && x <= y <= z ensures y in kept {
      NumbersAre(blocks, first, x);
      NumbersAre(blocks, first, y);
      NumbersAre(blocks, first, z);
    }
    if kept != [] { MissingFindsGaps(kept); }
  }

  lemma {:induction false} NumbersAre(blocks: seq<Block>, first: nat, x: nat)
    requires Numbered(blocks, first)
    ensures x in Numbers(RowsOf(blocks)) <==> first <= x < first + |blocks|
  {
    var rows := RowsOf(blocks);
    if x in Numbers(rows) {
      var i :| 0 <= i < |rows| && rows[i].blockNumber == x;
      RowsOfMember(blocks, rows[i]);
      var j: nat :| j < |blocks| && rows[i] in BlockRows(blocks[j]);
      assert NumberedAt(blocks, first, j);
    }
    if first <= x < first + |blocks| {
      var b := blocks[x - first];
      assert NumberedAt(blocks, first, x - first);
      RowsOfMember(blocks, BlockRows(b)[0]);
      var i :| 0 <= i < |rows| && rows[i] == BlockRows(b)[0];
      assert Numbers(rows)[i] == x;
    }
  }
}
