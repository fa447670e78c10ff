/** Two transaction tables used in turn (`interlacing.ts`): rotation, and recovery at a restart. */
module Interlacing {
  import opened Storage
  import opened Wrappers

  /** The volatile part: which table is written, and from when on the other may be dropped for it. */
  datatype Rotor = Rotor(index: nat, endBlockTime: int, endBlockNumber: int)

  const NOT_SET := -1
  const FRESH := Rotor(0, NOT_SET, NOT_SET)

  /** After a block was saved: the tables are swapped once both limits are reached. */
  predicate Rotates(rotor: Rotor, time: nat, number: nat) {
    rotor.endBlockTime != NOT_SET && time >= rotor.endBlockTime && number >= rotor.endBlockNumber
  }

  function NextRotor(rotor: Rotor, ranges: Ranges, time: nat, number: nat): Rotor
    requires rotor.index <= 1
  {
    if rotor.endBlockTime == NOT_SET then Rotor(rotor.index, time + ranges.timeRange, number + ranges.blockRange)
    else if Rotates(rotor, time, number) then Rotor(1 - rotor.index, time + ranges.timeRange, number + ranges.blockRange)
    else rotor
  }

  /** Swapping drops the older content. */
  function NextTables(rotor: Rotor, tables: Tables, time: nat, number: nat): Tables
    requires rotor.index <= 1
  {
    if Rotates(rotor, time, number) then tables.Put(1 - rotor.index, []) else tables
  }

  /** What is made of the tables found at a start. */
  function Initialized(tables: Tables, ranges: Ranges): Rotor {
    if tables.t0 == [] && tables.t1 == [] then FRESH
    else
      var index := if tables.t0 != [] && tables.t1 != [] then (if tables.t0[0].timestamp < tables.t1[0].timestamp then 1 else 0)
                   else if tables.t1 != [] then 1 else 0;
      var first := tables.Get(index)[0];
      Rotor(index, first.timestamp + ranges.timeRange, first.blockNumber + ranges.blockRange)
  }

  /** Once block `j` may be dropped it is out of the time range; perhaps it is already. */
  ghost predicate Covered(rotor: Rotor, chain: seq<Block>, j: nat, ranges: Ranges)
    requires j < |chain|
  {
    || chain[j].timestamp + ranges.timeRange <= rotor.endBlockTime
    || chain[j].timestamp + ranges.timeRange <= Last(chain).timestamp
  }

  /** The limits are no earlier than what the other table holds allows, the blocks from `b` to `a`. */
  ghost predicate RotorFits(rotor: Rotor, chain: seq<Block>, b: nat, a: nat, ranges: Ranges, first: nat) {
    && rotor.index <= 1 && a <= |chain|
    && (chain == [] ==> rotor == FRESH)
    && (chain != [] ==>
          && rotor.endBlockTime != NOT_SET
          && rotor.endBlockNumber >= first + a - 1 + ranges.blockRange
          && (NonDecreasing(chain) ==> forall j: nat :: b <= j < a ==> Covered(rotor, chain, j, ranges)))
  }

  // ---------- saving ----------

  /** What saving a block writes to the active table. */
  function Written(tables: Tables, active: nat, x: Block): Tables {
    tables.Put(active, tables.Get(active) + BlockRows(x))
  }

  lemma SavedIsStored(tables: Tables, active: nat, chain: seq<Block>, b: nat, a: nat, ranges: Ranges, first: nat, x: Block)
    requires Stored(tables, active, chain, b, a) && DroppedIsOld(chain, b, ranges) && Numbered(chain, first)
    requires x.number == first + |chain|
    ensures Stored(Written(tables, active, x), active, chain + [x], b, a)
    ensures DroppedIsOld(chain + [x], b, ranges) && Numbered(chain + [x], first)
  {
    RowsOfAppend(chain[a..], x);
    assert (chain + [x])[a..] == chain[a..] + [x] && (chain + [x])[b..a] == chain[b..a];
    DroppedStaysOld(chain, b, ranges, first, x);
    NumberedAppend(chain, first, x);
  }

  lemma NumberedAppend(chain: seq<Block>, first: nat, x: Block)
    requires Numbered(chain, first) && x.number == first + |chain|
    ensures Numbered(chain + [x], first)
  {
    forall j: nat | j < |chain + [x]| ensures NumberedAt(chain + [x], first, j) {
      assert j < |chain| ==> NumberedAt(chain, first, j);
    }
  }

  lemma DroppedStaysOld(chain: seq<Block>, b: nat, ranges: Ranges, first: nat, x: Block)
    requires DroppedIsOld(chain, b, ranges) && Numbered(chain, first) && x.number == first + |chain| && b <= |chain|
    ensures DroppedIsOld(chain + [x], b, ranges)
  {
    var after := chain + [x];
    forall j: nat | j < b ensures IsOld(after, j, ranges) {
      assert IsOld(chain, j, ranges);
      assert NumberedAt(chain, first, |chain| - 1);
      if NonDecreasing(after) {
        PrefixNonDecreasing(chain, x);
        assert NotLater(after, |chain| - 1, |chain|);
      }
    }
  }

  lemma PrefixNonDecreasing(chain: seq<Block>, x: Block)
    requires NonDecreasing(chain + [x])
    ensures NonDecreasing(chain)
  {
    forall i: nat, j: nat | i <= j < |chain| ensures NotLater(chain, i, j) {
      assert NotLater(chain + [x], i, j);
    }
  }

  /** Where the two tables begin once block `x` is saved and the tables are updated. */
  lemma UpdateKeepsStored(rotor: Rotor, tables: Tables, chain: seq<Block>, b: nat, a: nat, ranges: Ranges, first: nat, x: Block)
      returns (b': nat, a': nat)
    requires RotorFits(rotor, chain, b, a, ranges, first) && Numbered(chain, first)
    requires x.number == first + |chain|
    requires Stored(tables, rotor.index, chain + [x], b, a) && DroppedIsOld(chain + [x], b, ranges)
    ensures RotorFits(NextRotor(rotor, ranges, x.timestamp, x.number), chain + [x], b', a', ranges, first)
    ensures Stored(NextTables(rotor, tables, x.timestamp, x.number), NextRotor(rotor, ranges, x.timestamp, x.number).index, chain + [x], b', a')
    ensures DroppedIsOld(chain + [x], b', ranges)
    ensures b' == if Rotates(rotor, x.timestamp, x.number) then a else b
    ensures a' == if Rotates(rotor, x.timestamp, x.number) then |chain| + 1 else a
  {
    var after := chain + [x];
    var rotor' := NextRotor(rotor, ranges, x.timestamp, x.number);
    if !Rotates(rotor, x.timestamp, x.number) {
      b', a' := b, a;
      if NonDecreasing(after) {
        PrefixNonDecreasing(chain, x);
        forall j: nat | b <= j < a ensures Covered(rotor', after, j, ranges) {
          assert Covered(rotor, chain, j, ranges);
          assert NotLater(after, |chain| - 1, |chain|);
        }
      }
    } else {
      b', a' := a, |after|;
      assert after[a'..] == [] && after[a..a'] == after[a..];
      forall j: nat | j < a ensures IsOld(after, j, ranges) {
        assert NumberedAt(chain, first, j);
        if j < b {
          assert IsOld(after, j, ranges);
        } else if NonDecreasing(after) {
          PrefixNonDecreasing(chain, x);
          assert Covered(rotor, chain, j, ranges);
          assert NotLater(after, |chain| - 1, |chain|);
        }
      }
      if NonDecreasing(after) {
        forall j: nat | b' <= j < a' ensures Covered(rotor', after, j, ranges) {
          assert NotLater(after, j, |chain|);
        }
      }
    }
  }

  lemma NonEmpty(blocks: seq<Block>)
    ensures RowsOf(blocks) == [] <==> blocks == []
    ensures blocks != [] ==> RowsOf(blocks) != [] && RowsOf(blocks)[0].blockNumber == blocks[0].number
    ensures blocks != [] ==> RowsOf(blocks)[0].timestamp == FirstTime(blocks[0])
  {
    if blocks != [] { RowsOfFirst(blocks); }
  }

  // ---------- the classes ----------

  /** The header of a block as kept in the block table. */
  datatype BlockRow = BlockRow(number: nat, hash: nat, timestamp: nat)

  /** The tables and state entries that survive a restart.  Only confirmed blocks are kept here. */
  class Database {
    var tables: Tables
    var blocks: seq<BlockRow>
    /** The last saved block, 0 if there is none. */
    var N: nat
    var bottom: Option<nat>

    constructor ()
      ensures tables == Tables([], []) && blocks == [] && N == 0 && bottom == None
    {
      tables, blocks, N, bottom := Tables([], []), [], 0, None;
    }
  }

  class InterlacingManager {
    var index: nat
    var endBlockTime: int
    var endBlockNumber: int
    var tableLock: bool
    const ranges: Ranges
    const db: Database

    ghost function State(): Rotor
      reads this
    {
      Rotor(index, endBlockTime, endBlockNumber)
    }

    constructor (ranges: Ranges, db: Database)
      ensures this.ranges == ranges && this.db == db && State() == FRESH && !tableLock
    {
      this.ranges := ranges;
      this.db := db;
      this.index, this.endBlockTime, this.endBlockNumber, this.tableLock := 0, NOT_SET, NOT_SET, false;
    }

    /** Takes up the tables that are there. */
    method Initialize()
      requires State() == FRESH
      modifies `index, `endBlockTime, `endBlockNumber
      ensures State() == Initialized(db.tables, ranges)
      ensures db.tables.t0 == [] && db.tables.t1 == [] ==> index == 0 && endBlockTime == endBlockNumber == NOT_SET
      ensures db.tables.t0 != [] || db.tables.t1 != [] ==>
                && (index == 1 <==> db.tables.t1 != [] && (db.tables.t0 != [] ==> db.tables.t0[0].timestamp < db.tables.t1[0].timestamp))
                && index <= 1 && db.tables.Get(index) != []
                && endBlockTime == db.tables.Get(index)[0].timestamp + ranges.timeRange
                && endBlockNumber == db.tables.Get(index)[0].blockNumber + ranges.blockRange
    {
      if db.tables.t0 == [] && db.tables.t1 == [] {
        index := 0;
        return;
      }
      index := 0;
      if db.tables.t0 != [] && db.tables.t1 != [] {
        if db.tables.t0[0].timestamp < db.tables.t1[0].timestamp {
          index := 1;
        }
      } else if db.tables.t1 != [] {
        index := 1;
      }
      var items := db.tables.Get(index);
      endBlockTime := items[0].timestamp + ranges.timeRange;
      endBlockNumber := items[0].blockNumber + ranges.blockRange;
    }

    /** `true` if the tables were swapped and one of them dropped. */
    method Update(blockTime: nat, blockNumber: nat) returns (dropped: bool)
      requires !tableLock && index <= 1
      modifies this, db`tables
      ensures !tableLock
      ensures State() == NextRotor(old(State()), ranges, blockTime, blockNumber)
      ensures db.tables == NextTables(old(State()), old(db.tables), blockTime, blockNumber)
      ensures dropped == Rotates(old(State()), blockTime, blockNumber)
      ensures dropped <==> old(endBlockTime) != NOT_SET && blockTime >= old(endBlockTime) && blockNumber >= old(endBlockNumber)
      ensures index == if dropped then 1 - old(index) else old(index)
      ensures dropped || old(endBlockTime) == NOT_SET ==>
                endBlockTime == blockTime + ranges.timeRange && endBlockNumber == blockNumber + ranges.blockRange
      ensures !dropped && old(endBlockTime) != NOT_SET ==> endBlockTime == old(endBlockTime) && endBlockNumber == old(endBlockNumber)
      ensures db.tables.Get(index) == if dropped then [] else old(db.tables).Get(index)
      ensures db.tables.Get(1 - index) == old(db.tables).Get(1 - index)
    {
      if endBlockTime == NOT_SET {
        endBlockTime := blockTime + ranges.timeRange;
        endBlockNumber := blockNumber + ranges.blockRange;
        return false;
      }
      if blockTime < endBlockTime || blockNumber < endBlockNumber {
        return false;
      }
      tableLock := true;
      endBlockTime := blockTime + ranges.timeRange;
      endBlockNumber := blockNumber + ranges.blockRange;
      index := 1 - index;
      db.tables := db.tables.Put(index, []);
      tableLock := false;
      return true;
    }

    /** Drops both tables. */
    method ResetAll()
      requires !tableLock
      modifies this, db`tables
      ensures !tableLock && State() == FRESH && db.tables == Tables([], [])
    {
      endBlockTime := NOT_SET;
      endBlockNumber := NOT_SET;
      tableLock := true;
      index := 0;
      for i := 0 to 2
        invariant unchanged(db) || i > 0
        invariant i >= 1 ==> db.tables.t0 == []
        invariant i >= 2 ==> db.tables.t1 == []
        invariant tableLock && endBlockTime == NOT_SET && endBlockNumber == NOT_SET && index == 0
      {
        db.tables := db.tables.Put(i, []);
      }
      tableLock := false;
    }
  }
}
