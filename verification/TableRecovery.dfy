/** What a restart makes of the two tables it finds (`interlacing.ts`, `initialize`): when it goes on safely, and when not. */
module TableRecovery {
  import opened Continuity
  import opened Interlacing
  import opened Storage
  import opened Wrappers

  // ---------- the promise ----------

  /** Tables and limits after further blocks are saved one after the other. */
  function SaveAll(tables: Tables, rotor: Rotor, ranges: Ranges, xs: seq<Block>): (r: (Tables, Rotor))
    requires rotor.index <= 1
    ensures r.1.index <= 1
  {
    if xs == [] then (tables, rotor)
    else
      var (t, r) := SaveAll(tables, rotor, ranges, xs[..|xs| - 1]);
      var x := xs[|xs| - 1];
      (NextTables(r, Written(t, r.index, x), x.timestamp, x.number), NextRotor(r, ranges, x.timestamp, x.number))
  }

  /** What is in range is stored, and neither table has a gap, as which the continuity check would reset the database. */
  ghost predicate Kept(tables: Tables, chain: seq<Block>, ranges: Ranges) {
    && (forall j: nat :: j < |chain| && InRange(chain, j, ranges) ==> HasRows(tables, chain[j]))
    && Gapless(Numbers(tables.t0)) && Gapless(Numbers(tables.t1))
  }

  /** From these tables and limits on nothing is lost, whatever blocks are saved next. */
  ghost predicate SafeFrom(tables: Tables, rotor: Rotor, chain: seq<Block>, ranges: Ranges, first: nat)
    requires rotor.index <= 1
  {
    forall xs :: Numbered(xs, first + |chain|) ==> Kept(SaveAll(tables, rotor, ranges, xs).0, chain + xs, ranges)
  }

  // ---------- what a restart asks of the tables ----------

  /** The first rows name the table that begins with `newer` as the later one; on equal times that is the first table. */
  predicate FirstTimesTell(active: nat, older: Block, newer: Block) {
    if active == 1 then FirstTime(older) < FirstTime(newer) else FirstTime(older) <= FirstTime(newer)
  }

  /** The last block of the older table is out of the time range when the limit taken from the newer one is reached, or is so already. */
  predicate LimitIsLateEnough(lastOlder: Block, newer: Block, last: Block, ranges: Ranges) {
    lastOlder.timestamp <= FirstTime(newer) || lastOlder.timestamp + ranges.timeRange <= last.timestamp
  }

  /** If only one table has rows, nothing at all is asked. */
  ghost predicate TellsWhereToGoOn(active: nat, chain: seq<Block>, b: nat, a: nat, ranges: Ranges) {
    b < a < |chain| ==>
      FirstTimesTell(active, chain[b], chain[a]) && (NonDecreasing(chain) ==> LimitIsLateEnough(chain[a - 1], chain[a], Last(chain), ranges))
  }

  /** Where the table begins that is to be written: the active one, or the other if that has no row yet. */
  function Resumed(chain: seq<Block>, b: nat, a: nat): nat {
    if a < |chain| then a else if chain == [] then 0 else b
  }

  // ---------- the first rows ----------

  lemma FirstRowFrom(chain: seq<Block>, first: nat, lo: nat, hi: nat)
    requires Numbered(chain, first) && lo <= hi <= |chain|
    ensures RowsOf(chain[lo..hi]) == [] <==> lo == hi
    ensures lo < hi ==> RowsOf(chain[lo..hi])[0].blockNumber == first + lo && RowsOf(chain[lo..hi])[0].timestamp == FirstTime(chain[lo])
  {
    NonEmpty(chain[lo..hi]);
    if lo < hi { assert chain[lo..hi][0] == chain[lo] && NumberedAt(chain, first, lo); }
  }

  /** Of two tables with rows the active one is found exactly when the first rows tell. */
  lemma IndexFound(tables: Tables, active: nat, chain: seq<Block>, b: nat, a: nat, ranges: Ranges, first: nat)
    requires Stored(tables, active, chain, b, a) && Numbered(chain, first) && b < a < |chain|
    ensures Initialized(tables, ranges).index == active <==> FirstTimesTell(active, chain[b], chain[a])
  {
    assert chain[a..|chain|] == chain[a..];
    FirstRowFrom(chain, first, a, |chain|);
    FirstRowFrom(chain, first, b, a);
  }

  lemma InitializedAtResumed(tables: Tables, active: nat, chain: seq<Block>, b: nat, a: nat, ranges: Ranges, first: nat)
    requires Stored(tables, active, chain, b, a) && Numbered(chain, first) && b < |chain|
    requires b < a < |chain| ==> FirstTimesTell(active, chain[b], chain[a])
    ensures var p, rotor := Resumed(chain, b, a), Initialized(tables, ranges);
            && Stored(tables, rotor.index, chain, b, p)
            && rotor.endBlockTime == FirstTime(chain[p]) + ranges.timeRange
            && rotor.endBlockNumber == first + p + ranges.blockRange
  {
    var none: seq<Block> := [];
    assert chain[a..|chain|] == chain[a..] && chain[b..b] == none && chain[b..|chain|] == chain[b..];
    FirstRowFrom(chain, first, a, |chain|);
    FirstRowFrom(chain, first, b, a);
    FirstRowFrom(chain, first, b, b);
  }

  // ---------- enough ----------

  /** The tables are in their places, and the limits no earlier than the content allows. */
  ghost predicate GoesOn(tables: Tables, rotor: Rotor, chain: seq<Block>, b: nat, a: nat, ranges: Ranges, first: nat) {
    && Stored(tables, rotor.index, chain, b, a) && DroppedIsOld(chain, b, ranges) && Numbered(chain, first)
    && RotorFits(rotor, chain, b, a, ranges, first)
  }

  lemma Recovers(tables: Tables, active: nat, chain: seq<Block>, b: nat, a: nat, ranges: Ranges, first: nat)
    requires Stored(tables, active, chain, b, a) && DroppedIsOld(chain, b, ranges) && Numbered(chain, first)
    requires TellsWhereToGoOn(active, chain, b, a, ranges)
    ensures GoesOn(tables, Initialized(tables, ranges), chain, b, Resumed(chain, b, a), ranges, first)
  {
    if chain != [] {
      InitializedAtResumed(tables, active, chain, b, a, ranges, first);
      if NonDecreasing(chain) {
        forall j: nat | b <= j < Resumed(chain, b, a) ensures Covered(Initialized(tables, ranges), chain, j, ranges) {
          assert NotLater(chain, j, a - 1);
        }
      }
    } else {
      var none: seq<Block> := [];
      assert chain[a..] == none && chain[b..a] == none;
      NonEmpty(none);
    }
  }

  lemma OneMore(tables: Tables, rotor: Rotor, chain: seq<Block>, b: nat, a: nat, ranges: Ranges, first: nat, x: Block,
                tables2: Tables, rotor2: Rotor, after: seq<Block>)
      returns (b': nat, a': nat)
    requires GoesOn(tables, rotor, chain, b, a, ranges, first) && x.number == first + |chain| && after == chain + [x]
    requires tables2 == NextTables(rotor, Written(tables, rotor.index, x), x.timestamp, x.number)
    requires rotor2 == NextRotor(rotor, ranges, x.timestamp, x.number)
    ensures GoesOn(tables2, rotor2, after, b', a', ranges, first)
  {
    SavedIsStored(tables, rotor.index, chain, b, a, ranges, first, x);
    b', a' := UpdateKeepsStored(rotor, Written(tables, rotor.index, x), chain, b, a, ranges, first, x);
  }

  /** Saving goes on from there as in any run. */
  lemma {:induction false} SaveAllKeeps(tables: Tables, rotor: Rotor, chain: seq<Block>, b: nat, a: nat, ranges: Ranges, first: nat, xs: seq<Block>)
      returns (b': nat, a': nat)
    requires GoesOn(tables, rotor, chain, b, a, ranges, first) && Numbered(xs, first + |chain|)
    ensures GoesOn(SaveAll(tables, rotor, ranges, xs).0, SaveAll(tables, rotor, ranges, xs).1, chain + xs, b', a', ranges, first)
    decreases |xs|
  {
    if xs == [] {
      assert chain + xs == chain;
      b', a' := b, a;
    } else {
      var front, x := xs[..|xs| - 1], xs[|xs| - 1];
      FrontNumbered(xs, first + |chain|);
      var b1, a1 := SaveAllKeeps(tables, rotor, chain, b, a, ranges, first, front);
      var (t, r) := SaveAll(tables, rotor, ranges, front);
      var (t2, r2) := SaveAll(tables, rotor, ranges, xs);
      assert chain + xs == chain + front + [x];
      b', a' := OneMore(t, r, chain + front, b1, a1, ranges, first, x, t2, r2, chain + xs);
    }
  }

  lemma FrontNumbered(xs: seq<Block>, n: nat)
    requires Numbered(xs, n) && xs != []
    ensures Numbered(xs[..|xs| - 1], n) && xs[|xs| - 1].number == n + |xs| - 1
  {
    SliceNumbered(xs, n, 0, |xs| - 1);
    assert NumberedAt(xs, n, |xs| - 1) && xs[0..|xs| - 1] == xs[..|xs| - 1];
  }

  lemma SliceGapless(chain: seq<Block>, first: nat, lo: nat, hi: nat)
    requires Numbered(chain, first) && lo <= hi <= |chain|
    ensures Gapless(Numbers(RowsOf(chain[lo..hi])))
  {
    SliceNumbered(chain, first, lo, hi);
    var numbers := Numbers(RowsOf(chain[lo..hi]));
    forall x, y, z | x in numbers && z in numbers && x <= y <= z ensures y in numbers {
      NumbersAre(chain[lo..hi], first + lo, x);
      NumbersAre(chain[lo..hi], first + lo, y);
      NumbersAre(chain[lo..hi], first + lo, z);
    }
  }

  lemma StoredIsKept(tables: Tables, active: nat, chain: seq<Block>, b: nat, a: nat, ranges: Ranges, first: nat)
    requires Stored(tables, active, chain, b, a) && DroppedIsOld(chain, b, ranges) && Numbered(chain, first)
    ensures Kept(tables, chain, ranges)
  {
    forall j: nat | j < |chain| && InRange(chain, j, ranges) ensures HasRows(tables, chain[j]) {
      Retained(tables, active, chain, b, a, ranges, j);
    }
    assert chain[a..|chain|] == chain[a..];
    SliceGapless(chain, first, a, |chain|);
    SliceGapless(chain, first, b, a);
    assert Gapless(Numbers(tables.Get(active))) && Gapless(Numbers(tables.Get(1 - active)));
  }

  lemma GoesOnSafely(tables: Tables, rotor: Rotor, chain: seq<Block>, b: nat, a: nat, ranges: Ranges, first: nat)
    requires GoesOn(tables, rotor, chain, b, a, ranges, first)
    ensures SafeFrom(tables, rotor, chain, ranges, first)
  {
    forall xs | Numbered(xs, first + |chain|) ensures Kept(SaveAll(tables, rotor, ranges, xs).0, chain + xs, ranges) {
      var b', a' := SaveAllKeeps(tables, rotor, chain, b, a, ranges, first, xs);
      var (t, r) := SaveAll(tables, rotor, ranges, xs);
      StoredIsKept(t, r.index, chain + xs, b', a', ranges, first);
    }
  }

  // ---------- needed ----------

  function Quiet(number: nat, time: nat): Block {
    Block(number, 0, time, [])
  }

  /** Going on with the older table leaves a gap there at once. */
  lemma WrongTableGapes(tables: Tables, active: nat, chain: seq<Block>, b: nat, a: nat, ranges: Ranges, first: nat)
    requires Stored(tables, active, chain, b, a) && Numbered(chain, first) && b < a < |chain|
    requires Initialized(tables, ranges).index != active
    ensures !SafeFrom(tables, Initialized(tables, ranges), chain, ranges, first)
  {
    var rotor := Initialized(tables, ranges);
    var x := Quiet(first + |chain|, 0);
    var rows := RowsOf(chain[b..a]) + BlockRows(x);
    OneSaved(tables, rotor, ranges, x);
    assert SaveAll(tables, rotor, ranges, [x]).0.Get(1 - active) == rows;
    assert Numbered([x], first + |chain|);
    GapAfter(chain, first, b, a, x);
    assert !Kept(SaveAll(tables, rotor, ranges, [x]).0, chain + [x], ranges);
  }

  lemma OneSaved(tables: Tables, rotor: Rotor, ranges: Ranges, x: Block)
    requires rotor.index <= 1
    ensures SaveAll(tables, rotor, ranges, [x]) ==
              (NextTables(rotor, Written(tables, rotor.index, x), x.timestamp, x.number), NextRotor(rotor, ranges, x.timestamp, x.number))
  {
    var none: seq<Block> := [];
    assert [x][..0] == none;
  }

  lemma GapAfter(chain: seq<Block>, first: nat, b: nat, a: nat, x: Block)
    requires Numbered(chain, first) && b < a < |chain| && x == Quiet(first + |chain|, 0)
    ensures !Gapless(Numbers(RowsOf(chain[b..a]) + BlockRows(x)))
  {
    var part := RowsOf(chain[b..a]);
    var numbers := Numbers(part + BlockRows(x));
    SliceNumbered(chain, first, b, a);
    NumbersAre(chain[b..a], first + b, first + b);
    NumbersAre(chain[b..a], first + b, first + a);
    assert numbers == Numbers(part) + [first + |chain|];
    assert first + b in numbers && first + |chain| in numbers && first + a !in numbers;
  }

  /** Blocks that do not reach the limit by number are all written to the same table. */
  lemma {:induction false} NothingTurns(tables: Tables, rotor: Rotor, ranges: Ranges, xs: seq<Block>)
    requires rotor.index <= 1 && rotor.endBlockTime != NOT_SET && forall i :: 0 <= i < |xs| ==> xs[i].number < rotor.endBlockNumber
    ensures SaveAll(tables, rotor, ranges, xs).1 == rotor
    ensures SaveAll(tables, rotor, ranges, xs).0.Get(rotor.index) == tables.Get(rotor.index) + RowsOf(xs)
    decreases |xs|
  {
    if xs != [] {
      var front, x := xs[..|xs| - 1], xs[|xs| - 1];
      NothingTurns(tables, rotor, ranges, front);
      assert tables.Get(rotor.index) + RowsOf(front) + BlockRows(x) == tables.Get(rotor.index) + RowsOf(xs);
    }
  }

  /** Blocks all of one time, from number `n` on. */
  function QuietFrom(n: nat, count: nat, time: nat): (xs: seq<Block>)
    ensures |xs| == count && forall i :: 0 <= i < count ==> xs[i] == Quiet(n + i, time)
  {
    seq(count, i requires 0 <= i < count => Quiet(n + i, time))
  }

  /** After these the tables turn, and the older one is dropped. */
  lemma QuietTurns(tables: Tables, rotor: Rotor, ranges: Ranges, n: nat, count: nat, time: nat)
    requires rotor.index <= 1 && rotor.endBlockTime != NOT_SET && time >= rotor.endBlockTime
    requires count > 0 && n + count - 1 >= rotor.endBlockNumber && (count > 1 ==> n + count - 1 == rotor.endBlockNumber)
    ensures var t := SaveAll(tables, rotor, ranges, QuietFrom(n, count, time)).0;
            t.Get(rotor.index) == tables.Get(rotor.index) + RowsOf(QuietFrom(n, count, time)) && t.Get(1 - rotor.index) == []
  {
    var xs := QuietFrom(n, count, time);
    NothingTurns(tables, rotor, ranges, xs[..count - 1]);
  }

  lemma QuietInOrder(chain: seq<Block>, n: nat, count: nat, time: nat)
    requires chain != [] && NonDecreasing(chain) && Last(chain).timestamp <= time
    ensures NonDecreasing(chain + QuietFrom(n, count, time))
  {
    var all := chain + QuietFrom(n, count, time);
    forall i: nat, j: nat | i <= j < |all| ensures NotLater(all, i, j) {
      if i < |chain| {
        assert NotLater(chain, i, |chain| - 1);
        if j < |chain| { assert NotLater(chain, i, j); }
      }
    }
  }

  /** A limit that is too early is reached while the last block of the older table is still in range. */
  lemma EarlyLimitLoses(tables: Tables, active: nat, chain: seq<Block>, b: nat, a: nat, ranges: Ranges, first: nat)
    requires Stored(tables, active, chain, b, a) && Numbered(chain, first) && b < a < |chain|
    requires FirstTimesTell(active, chain[b], chain[a])
    requires NonDecreasing(chain) && !LimitIsLateEnough(chain[a - 1], chain[a], Last(chain), ranges)
    ensures !SafeFrom(tables, Initialized(tables, ranges), chain, ranges, first)
  {
    var rotor := Initialized(tables, ranges);
    InitializedAtResumed(tables, active, chain, b, a, ranges, first);
    IndexFound(tables, active, chain, b, a, ranges, first);
    var time := if rotor.endBlockTime >= Last(chain).timestamp then rotor.endBlockTime else Last(chain).timestamp;
    var n := first + |chain|;
    var count: nat := if rotor.endBlockNumber >= n then rotor.endBlockNumber - n + 1 else 1;
    var xs := QuietFrom(n, count, time);
    var t := SaveAll(tables, rotor, ranges, xs).0;
    forall i: nat | i < |xs| ensures NumberedAt(xs, n, i) {}
    QuietTurns(tables, rotor, ranges, n, count, time);
    QuietInOrder(chain, n, count, time);
    LostRow(chain, first, a, xs, t.Get(rotor.index));
    var row := BlockRows(chain[a - 1])[0];
    assert row !in t.t0 && row !in t.t1;
    assert (chain + xs)[a - 1] == chain[a - 1] && Last(chain + xs).timestamp == time;
    assert InRange(chain + xs, a - 1, ranges) && !HasRows(t, (chain + xs)[a - 1]);
    assert !Kept(t, chain + xs, ranges);
  }

  lemma LostRow(chain: seq<Block>, first: nat, a: nat, xs: seq<Block>, rows: seq<Row>)
    requires Numbered(chain, first) && 0 < a <= |chain| && Numbered(xs, first + |chain|)
    requires rows == RowsOf(chain[a..]) + RowsOf(xs)
    ensures BlockRows(chain[a - 1])[0] !in rows
  {
    var row := BlockRows(chain[a - 1])[0];
    assert NumberedAt(chain, first, a - 1);
    RowsOfMember(chain[a..], row);
    RowsOfMember(xs, row);
    forall j: nat | j < |chain[a..]| ensures row !in BlockRows(chain[a..][j]) {
      assert NumberedAt(chain, first, a + j);
    }
    forall j: nat | j < |xs| ensures row !in BlockRows(xs[j]) {
      assert NumberedAt(xs, first + |chain|, j);
    }
  }

  /**
   After a restart nothing is ever lost, whatever is saved next, exactly when the tables tell where to go on:
   of two tables with rows the active one has the later first row, and - with times in order - the last
   block of the other is no later than that row claims to be, or out of the time range already.
   */
  lemma RestartSafeIff(tables: Tables, active: nat, chain: seq<Block>, b: nat, a: nat, ranges: Ranges, first: nat)
    requires Stored(tables, active, chain, b, a) && DroppedIsOld(chain, b, ranges) && Numbered(chain, first)
    ensures SafeFrom(tables, Initialized(tables, ranges), chain, ranges, first) <==> TellsWhereToGoOn(active, chain, b, a, ranges)
  {
    if TellsWhereToGoOn(active, chain, b, a, ranges) {
      Recovers(tables, active, chain, b, a, ranges, first);
      GoesOnSafely(tables, Initialized(tables, ranges), chain, b, Resumed(chain, b, a), ranges, first);
    } else {
      IndexFound(tables, active, chain, b, a, ranges, first);
      if FirstTimesTell(active, chain[b], chain[a]) {
        EarlyLimitLoses(tables, active, chain, b, a, ranges, first);
      } else {
        WrongTableGapes(tables, active, chain, b, a, ranges, first);
      }
    }
  }

  /** They tell when the newer table begins with a block that has transactions and is later than the first of the older one. */
  lemma TrueTimesTell(active: nat, chain: seq<Block>, b: nat, a: nat, ranges: Ranges)
    requires b < a < |chain| ==> chain[a].transactions != [] && FirstTime(chain[b]) < chain[a].timestamp
    ensures TellsWhereToGoOn(active, chain, b, a, ranges)
  {
    if b < a < |chain| && NonDecreasing(chain) {
      assert NotLater(chain, a - 1, a);
    }
  }

  // ---------- what happens otherwise ----------

  function OneTx(number: nat): Block {
    Block(number, number, 10 * number, [Tx(number, [], Some([]))])
  }

  /**
   An empty block first in the newer table misleads the restart.  With a block range of 2, blocks 1 to
   3 in the first table and the empty block 4 in the second: the restart goes on with the first
   table, and as soon as block 5 is saved block 4 is dropped, though it is within the range.
   */
  lemma EmptyFirstBlockMisleadsRestart(b4: Block)
    requires b4 == Block(4, 4, 40, [])
    ensures var ranges := Ranges(0, 2);
            var chain := [OneTx(1), OneTx(2), OneTx(3), b4];
            var tables := Tables(RowsOf(chain[..3]), RowsOf(chain[3..]));
            var restarted := Initialized(tables, ranges);
            var after := NextTables(restarted, Written(tables, restarted.index, OneTx(5)), 50, 5);
            && Stored(tables, 1, chain, 0, 3) && !TellsWhereToGoOn(1, chain, 0, 3, ranges)
            && BlockRows(b4)[0] !in after.t0 && BlockRows(b4)[0] !in after.t1
            && b4.number + ranges.blockRange > 5
  {
    var chain := [OneTx(1), OneTx(2), OneTx(3), b4];
    var tables := Tables(RowsOf(chain[..3]), RowsOf(chain[3..]));
    NonEmpty(chain[..3]);
    NonEmpty(chain[3..]);
    assert chain[3..][0] == b4 && chain[..3][0] == OneTx(1) && chain[0..3] == chain[..3];
    RowsOfMember(chain[..3], BlockRows(b4)[0]);
    var after := Written(tables, 0, OneTx(5));
    assert forall r :: r in BlockRows(OneTx(5)) ==> r.blockNumber == 5;
    assert BlockRows(b4)[0] !in after.t0;
  }

  /** The row of a block without transactions. */
  function EmptyRow(number: nat): Row {
    Row(number, 0, None)
  }

  function TxAt(number: nat, time: nat): Block {
    Block(number, number, time, [Tx(number, [], Some([]))])
  }

  /** A database as a run may leave it, that does not tell where to go on. */
  ghost predicate FoundEarly(tables: Tables, chain: seq<Block>, ranges: Ranges) {
    Stored(tables, 0, chain, 2, 4) && DroppedIsOld(chain, 2, ranges) && NonDecreasing(chain) && !TellsWhereToGoOn(0, chain, 2, 4, ranges)
  }

  lemma ChainFoundEarly(chain: seq<Block>, tables: Tables, b4: Block, b5: Block)
    requires b4 == TxAt(4, 1200) && b5 == Block(5, 5, 1201, [])
    requires chain == [TxAt(1, 1000), TxAt(2, 1100), Block(3, 3, 1100, []), b4, b5]
    requires tables == Tables(RowsOf(chain[4..]), RowsOf(chain[2..4]))
    ensures FoundEarly(tables, chain, Ranges(100, 1))
  {
    assert !LimitIsLateEnough(chain[3], chain[4], Last(chain), Ranges(100, 1));
  }

  /**
   The right table, but from too early on.  With a time range of 100, the empty blocks 3 and 5 begin
   the tables: the restart goes on with the active one, its limit is long past, and as soon as block 6 is
   saved block 4 is dropped, though it is only two units of time old.
   */
  lemma EmptyFirstBlockRotatesEarly(b4: Block, b5: Block)
    requires b4 == TxAt(4, 1200) && b5 == Block(5, 5, 1201, [])
    ensures var ranges := Ranges(100, 1);
            var chain := [TxAt(1, 1000), TxAt(2, 1100), Block(3, 3, 1100, []), b4, b5];
            var tables := Tables(RowsOf(chain[4..]), RowsOf(chain[2..4]));
            var restarted := Initialized(tables, ranges);
            var after := NextTables(restarted, Written(tables, restarted.index, TxAt(6, 1202)), 1202, 6);
            && FoundEarly(tables, chain, ranges) && NonDecreasing(chain + [TxAt(6, 1202)])
            && restarted.index == 0
            && BlockRows(b4)[0] !in after.t0 && BlockRows(b4)[0] !in after.t1
            && b4.timestamp + ranges.timeRange > 1202
  {
    var chain := [TxAt(1, 1000), TxAt(2, 1100), Block(3, 3, 1100, []), b4, b5];
    var tables := Tables(RowsOf(chain[4..]), RowsOf(chain[2..4]));
    NonEmpty(chain[4..]);
    NonEmpty(chain[2..4]);
    assert chain[4..] == [b5] && chain[2..4][0] == Block(3, 3, 1100, []);
    RowsOfMember(chain[4..], BlockRows(b4)[0]);
    ChainFoundEarly(chain, tables, b4, b5);
    assert forall r :: r in BlockRows(TxAt(6, 1202)) ==> r.blockNumber == 6;
    assert BlockRows(b5) == [EmptyRow(5)];
  }
}
