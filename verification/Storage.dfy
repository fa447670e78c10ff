/** What the indexer stores: blocks, and the rows of their transactions in two tables. */
module Storage {
  import opened Hex
  import opened Wrappers

  type Address = nat

  /**
   A transaction.  The reference is its digit values, so that letter case does not matter, as in the
   database.  `None` as outputs stands for a stored response that cannot be parsed.
   */
  datatype Tx = Tx(id: nat, reference: Digits, outputs: Option<seq<Address>>)

  datatype Block = Block(number: nat, hash: nat, timestamp: nat, transactions: seq<Tx>)

  /** A row of a transaction table; one without a transaction marks a block that has none. */
  datatype Row = Row(blockNumber: nat, timestamp: nat, transaction: Option<Tx>)

  /** The rows a block is saved as; the marker row does not get the time of its block. */
  function BlockRows(b: Block): (r: seq<Row>)
    ensures r != [] && forall i :: 0 <= i < |r| ==> r[i].blockNumber == b.number
    ensures b.transactions != [] ==> forall i :: 0 <= i < |r| ==> r[i].timestamp == b.timestamp
  {
    if b.transactions == [] then [Row(b.number, 0, None)]
    else seq(|b.transactions|, i requires 0 <= i < |b.transactions| => Row(b.number, b.timestamp, Some(b.transactions[i])))
  }

  /** The time the first row of a block has. */
  function FirstTime(b: Block): nat {
    if b.transactions == [] then 0 else b.timestamp
  }

  function RowsOf(blocks: seq<Block>): seq<Row> {
    if blocks == [] then [] else RowsOf(blocks[..|blocks| - 1]) + BlockRows(blocks[|blocks| - 1])
  }

  lemma RowsOfAppend(blocks: seq<Block>, b: Block)
    ensures RowsOf(blocks + [b]) == RowsOf(blocks) + BlockRows(b)
  {
    assert (blocks + [b])[..|blocks|] == blocks;
  }

  lemma {:induction false} RowsOfFirst(blocks: seq<Block>)
    requires blocks != []
    ensures RowsOf(blocks) != [] && RowsOf(blocks)[0] == BlockRows(blocks[0])[0]
    decreases |blocks|
  {
    var front := blocks[..|blocks| - 1];
    if front == [] {
      assert RowsOf(blocks) == BlockRows(blocks[0]);
    } else {
      RowsOfFirst(front);
    }
  }

  /** A row is stored exactly when it is a row of one of the blocks. */
  lemma {:induction false} RowsOfMember(blocks: seq<Block>, r: Row)
    ensures r in RowsOf(blocks) <==> exists j :: 0 <= j < |blocks| && r in BlockRows(blocks[j])
    decreases |blocks|
  {
    if blocks != [] {
      var front, last := blocks[..|blocks| - 1], blocks[|blocks| - 1];
      RowsOfMember(front, r);
      MemberOfLonger(blocks, front, last, r);
    }
  }

  lemma MemberOfLonger(blocks: seq<Block>, front: seq<Block>, last: Block, r: Row)
    requires blocks == front + [last]
    ensures (exists j :: 0 <= j < |blocks| && r in BlockRows(blocks[j]))
            <==> (exists j :: 0 <= j < |front| && r in BlockRows(front[j])) || r in BlockRows(last)
  {
    if j :| 0 <= j < |blocks| && r in BlockRows(blocks[j]) {
      assert j < |front| ==> front[j] == blocks[j];
    }
    if j :| 0 <= j < |front| && r in BlockRows(front[j]) {
      assert blocks[j] == front[j];
    }
    if r in BlockRows(last) {
      assert blocks[|front|] == last;
    }
  }

  /** The two transaction tables. */
  datatype Tables = Tables(t0: seq<Row>, t1: seq<Row>) {
    function Get(i: nat): seq<Row> {
      if i == 0 then t0 else t1
    }

    function Put(i: nat, rows: seq<Row>): Tables {
      if i == 0 then Tables(rows, t1) else Tables(t0, rows)
    }
  }

  // ---------- the saved chain ----------

  ghost predicate NumberedAt(chain: seq<Block>, first: nat, j: nat)
    requires j < |chain|
  {
    chain[j].number == first + j
  }

  /** Consecutive blocks from number `first` on. */
  ghost predicate Numbered(chain: seq<Block>, first: nat) {
    forall j: nat :: j < |chain| ==> NumberedAt(chain, first, j)
  }

  lemma SliceNumbered(chain: seq<Block>, first: nat, lo: nat, hi: nat)
    requires Numbered(chain, first) && lo <= hi <= |chain|
    ensures Numbered(chain[lo..hi], first + lo)
  {
    var part, start := chain[lo..hi], first + lo;
    forall j: nat | j < |part| ensures NumberedAt(part, start, j) {
      assert NumberedAt(chain, first, lo + j);
    }
  }

  ghost predicate NotLater(chain: seq<Block>, i: nat, j: nat)
    requires i < |chain| && j < |chain|
  {
    chain[i].timestamp <= chain[j].timestamp
  }

  ghost predicate NonDecreasing(chain: seq<Block>) {
    forall i: nat, j: nat :: i <= j < |chain| ==> NotLater(chain, i, j)
  }

  function Last(chain: seq<Block>): Block
    requires chain != []
  {
    chain[|chain| - 1]
  }

  /** How much is to be kept: by block number and by time. */
  datatype Ranges = Ranges(timeRange: nat, blockRange: nat)

  /** Block `j` is out of both ranges, of the second one provided that times never decrease. */
  ghost predicate IsOld(chain: seq<Block>, j: nat, ranges: Ranges)
    requires j < |chain|
  {
    && chain[j].number + ranges.blockRange <= Last(chain).number
    && (NonDecreasing(chain) ==> chain[j].timestamp + ranges.timeRange <= Last(chain).timestamp)
  }

  /** Block `j` is to be kept: it is within the block range of the last one, or - times never decreasing - within the time range. */
  ghost predicate InRange(chain: seq<Block>, j: nat, ranges: Ranges)
    requires j < |chain|
  {
    || chain[j].number + ranges.blockRange > Last(chain).number
    || (NonDecreasing(chain) && chain[j].timestamp + ranges.timeRange > Last(chain).timestamp)
  }

  /** A block is stored, with every one of its rows. */
  ghost predicate HasRows(tables: Tables, b: Block) {
    forall r :: r in BlockRows(b) ==> r in tables.t0 || r in tables.t1
  }

  /** Only blocks that are out of both ranges are no longer stored. */
  ghost predicate DroppedIsOld(chain: seq<Block>, b: nat, ranges: Ranges) {
    chain != [] ==> b < |chain| && forall j: nat :: j < b ==> IsOld(chain, j, ranges)
  }

  /** The active table has the blocks from `a` on, the other one those from `b` to `a`, and nothing else. */
  ghost predicate Stored(tables: Tables, active: nat, chain: seq<Block>, b: nat, a: nat) {
    && b <= a <= |chain| && active <= 1
    && tables.Get(active) == RowsOf(chain[a..])
    && tables.Get(1 - active) == RowsOf(chain[b..a])
  }

  lemma StoredRows(tables: Tables, active: nat, chain: seq<Block>, b: nat, a: nat, r: Row)
    requires Stored(tables, active, chain, b, a)
    ensures r in tables.t0 || r in tables.t1 <==> exists j :: b <= j < |chain| && r in BlockRows(chain[j])
  {
    RowsOfMember(chain[a..], r);
    RowsOfMember(chain[b..a], r);
    if j :| b <= j < |chain| && r in BlockRows(chain[j]) {
      if j < a { assert chain[b..a][j - b] == chain[j]; } else { assert chain[a..][j - a] == chain[j]; }
    }
  }

  /** Retention: a saved block that is in range is still stored. */
  lemma Retained(tables: Tables, active: nat, chain: seq<Block>, b: nat, a: nat, ranges: Ranges, j: nat)
    requires Stored(tables, active, chain, b, a) && DroppedIsOld(chain, b, ranges) && j < |chain| && InRange(chain, j, ranges)
    ensures HasRows(tables, chain[j])
  {
    assert j < b ==> IsOld(chain, j, ranges);
    forall r | r in BlockRows(chain[j]) ensures r in tables.t0 || r in tables.t1 {
      StoredRows(tables, active, chain, b, a, r);
    }
  }
}
