/** The queries attestation verification makes on the indexer database (`IndexedQueryManager.ts`). */
module IndexedQueries {
  import opened Hex
  import opened Interlacing
  import opened Storage
  import opened Wrappers

  datatype QueryError = BlockNumberMandatory

  /** A parameter that is left out, or zero or empty, is no restriction. */
  datatype TransactionQuery = TransactionQuery(
    startBlockNumber: Option<nat>, endBlockNumber: Option<nat>, paymentReference: Option<Digits>, transactionId: Option<nat>)

  datatype TransactionQueryResult = TransactionQueryResult(result: seq<Row>, startBlock: Option<BlockRow>, endBlock: Option<BlockRow>)

  predicate Passes(q: TransactionQuery, r: Row) {
    && (q.startBlockNumber.Some? && q.startBlockNumber.value != 0 ==> r.blockNumber >= q.startBlockNumber.value)
    && (q.endBlockNumber.Some? && q.endBlockNumber.value != 0 ==> r.blockNumber <= q.endBlockNumber.value)
    && (q.paymentReference.Some? && q.paymentReference.value != [] ==> r.transaction.Some? && r.transaction.value.reference == q.paymentReference.value)
    && (q.transactionId.Some? && q.transactionId.value != 0 ==> r.transaction.Some? && r.transaction.value.id == q.transactionId.value)
  }

  function Matching(q: TransactionQuery, rows: seq<Row>): (r: seq<Row>)
    ensures forall x :: x in r <==> x in rows && Passes(q, x)
  {
    if rows == [] then []
    else
      assert rows == rows[..|rows| - 1] + [rows[|rows| - 1]];
      Matching(q, rows[..|rows| - 1]) + if Passes(q, rows[|rows| - 1]) then [rows[|rows| - 1]] else []
  }

  /** Rows are let through one by one, in their order. */
  lemma {:induction false} MatchingSplits(q: TransactionQuery, a: seq<Row>, b: seq<Row>)
    ensures Matching(q, a + b) == Matching(q, a) + Matching(q, b)
    decreases |b|
  {
    if b == [] {
      assert a + b == a;
    } else {
      var front, last := b[..|b| - 1], b[|b| - 1];
      assert (a + b)[..|a + b| - 1] == a + front;
      MatchingSplits(q, a, front);
    }
  }

  /** One row is let through if it meets each restriction that is given. */
  lemma MatchingOne(q: TransactionQuery, r: Row)
    ensures Matching(q, [r]) == (if MeetsAll(q, r) then [r] else [])
  {
    assert [r][..0] == [];
  }

  ghost predicate MeetsAll(q: TransactionQuery, r: Row) {
    && (forall n :: q.startBlockNumber == Some(n) && n > 0 ==> n <= r.blockNumber)
    && (forall n :: q.endBlockNumber == Some(n) && n > 0 ==> r.blockNumber <= n)
    && (forall d :: q.paymentReference == Some(d) && |d| > 0 ==> exists tx :: r.transaction == Some(tx) && tx.reference == d)
    && (forall t :: q.transactionId == Some(t) && t > 0 ==> exists tx :: r.transaction == Some(tx) && tx.id == t)
  }

  lemma MeetsAllIsPasses(q: TransactionQuery, r: Row)
    ensures MeetsAll(q, r) <==> Passes(q, r)
  {}

  function BlockWithNumber(blocks: seq<BlockRow>, number: nat): (r: Option<BlockRow>)
    ensures r.Some? ==> r.value in blocks && r.value.number == number
    ensures r.None? ==> forall b :: b in blocks ==> b.number != number
  {
    if blocks == [] then None
    else
      assert blocks == [blocks[0]] + blocks[1..];
      if blocks[0].number == number then Some(blocks[0]) else BlockWithNumber(blocks[1..], number)
  }

  /** A block by its number; zero does not count as one. */
  function QueryBlock(blocks: seq<BlockRow>, number: nat): Result<Option<BlockRow>, QueryError> {
    if number == 0 then Err(BlockNumberMandatory) else Ok(BlockWithNumber(blocks, number))
  }

  function QueryBoundary(blocks: seq<BlockRow>, number: Option<nat>): Result<Option<BlockRow>, QueryError> {
    if number.None? then Ok(None) else QueryBlock(blocks, number.value)
  }

  /** What `queryTransactions` answers: matching rows of both tables, and the boundary blocks. */
  function TransactionAnswer(tables: Tables, blocks: seq<BlockRow>, q: TransactionQuery): Result<TransactionQueryResult, QueryError> {
    var start, end := QueryBoundary(blocks, q.startBlockNumber), QueryBoundary(blocks, q.endBlockNumber);
    if start.Err? then Err(start.error)
    else if end.Err? then Err(end.error)
    else Ok(TransactionQueryResult(Matching(q, tables.t0) + Matching(q, tables.t1), start.value, end.value))
  }

  /** A boundary block is one with the number asked for, if there is one. */
  ghost predicate IsBoundary(blocks: seq<BlockRow>, number: Option<nat>, found: Option<BlockRow>) {
    && (found.Some? ==> found.value in blocks && number == Some(found.value.number))
    && (found.None? ==> forall b :: b in blocks ==> number != Some(b.number))
  }

  /** The rows of the first table, then of the second, that meet all restrictions; an error exactly for a boundary number of zero. */
  ghost predicate QueryGives(tables: Tables, blocks: seq<BlockRow>, q: TransactionQuery, r: Result<TransactionQueryResult, QueryError>) {
    && (r.Err? <==> q.startBlockNumber == Some(0) || q.endBlockNumber == Some(0))
    && (r.Ok? ==>
          && r.value.result == Matching(q, tables.t0) + Matching(q, tables.t1)
          && (forall x :: x in r.value.result <==> (x in tables.t0 || x in tables.t1) && MeetsAll(q, x))
          && IsBoundary(blocks, q.startBlockNumber, r.value.startBlock)
          && IsBoundary(blocks, q.endBlockNumber, r.value.endBlock))
  }

  /** What `queryTransactions` answers, whatever the tables hold. */
  lemma TransactionAnswerGives(tables: Tables, blocks: seq<BlockRow>, q: TransactionQuery)
    ensures QueryGives(tables, blocks, q, TransactionAnswer(tables, blocks, q))
  {
    forall x ensures MeetsAll(q, x) <==> Passes(q, x) { MeetsAllIsPasses(q, x); }
  }

  predicate Overflows(b: BlockRow, timestamp: nat, number: nat) {
    b.timestamp > timestamp && b.number > number
  }

  /** The confirmed block with the least number that is past both deadlines. */
  function FirstOverflow(blocks: seq<BlockRow>, timestamp: nat, number: nat): (r: Option<BlockRow>)
    ensures r.Some? ==> r.value in blocks && r.value.timestamp > timestamp && r.value.number > number
    ensures r.Some? ==> forall b :: b in blocks && b.timestamp > timestamp && b.number > number ==> r.value.number <= b.number
    ensures r.None? ==> forall b :: b in blocks ==> b.timestamp <= timestamp || b.number <= number
  {
    if blocks == [] then None
    else
      assert blocks == [blocks[0]] + blocks[1..];
      var rest := FirstOverflow(blocks[1..], timestamp, number);
      if Overflows(blocks[0], timestamp, number) && (rest.None? || blocks[0].number <= rest.value.number) then Some(blocks[0]) else rest
  }

  datatype ReferencedStatus = Found | NoOverflowBlock | DataAvailabilityFailure

  datatype ReferencedAnswer = ReferencedAnswer(status: ReferencedStatus, transactions: seq<Row>, firstOverflowBlock: Option<BlockRow>, minimalBlock: Option<BlockRow>)

  const NO_OVERFLOW := ReferencedAnswer(NoOverflowBlock, [], None, None)
  const NOT_AVAILABLE := ReferencedAnswer(DataAvailabilityFailure, [], None, None)

  function ReferencedQuery(minimal: nat, overflow: nat, reference: Digits): TransactionQuery
    requires overflow > 0
  {
    TransactionQuery(Some(minimal), Some(overflow - 1), Some(reference), None)
  }

  /** What `getReferencedTransactions` answers. */
  function ReferencedTransactions(tables: Tables, blocks: seq<BlockRow>, minimal: nat, deadlineNumber: nat, deadlineTime: nat, reference: Digits):
      Result<ReferencedAnswer, QueryError>
  {
    match FirstOverflow(blocks, deadlineTime, deadlineNumber)
    case None => Ok(NO_OVERFLOW)
    case Some(overflow) =>
      match TransactionAnswer(tables, blocks, ReferencedQuery(minimal, overflow.number, reference))
      case Err(e) => Err(e)
      case Ok(answer) =>
        if answer.startBlock.None? then Ok(NOT_AVAILABLE)
        else Ok(ReferencedAnswer(Found, answer.result, Some(overflow), answer.startBlock))
  }

  /** The rows with the reference, from the minimal block on and before the first block past both deadlines. */
  ghost predicate FoundBetween(tables: Tables, blocks: seq<BlockRow>, minimal: nat, deadlineNumber: nat, deadlineTime: nat, reference: Digits,
                               found: ReferencedAnswer) {
    && found.firstOverflowBlock.Some? && found.minimalBlock.Some?
    && var overflow := found.firstOverflowBlock.value;
       && overflow in blocks && overflow.timestamp > deadlineTime && overflow.number > deadlineNumber
       && (forall b :: b in blocks && b.timestamp > deadlineTime && b.number > deadlineNumber ==> overflow.number <= b.number)
       && found.minimalBlock.value in blocks && found.minimalBlock.value.number == minimal
       && forall x :: x in found.transactions <==>
            && (x in tables.t0 || x in tables.t1) && minimal <= x.blockNumber < overflow.number
            && (reference != [] ==> x.transaction.Some? && x.transaction.value.reference == reference)
  }

  class IndexedQueryManager {
    const db: Database

    constructor (db: Database)
      ensures this.db == db
    {
      this.db := db;
    }

    /** The rows of one table the query builder's conditions let through. */
    method Select(q: TransactionQuery, rows: seq<Row>) returns (found: seq<Row>)
      ensures found == Matching(q, rows)
    {
      found := [];
      for i := 0 to |rows|
        invariant found == Matching(q, rows[..i])
      {
        assert rows[..i + 1][..i] == rows[..i];
        if Passes(q, rows[i]) {
          found := found + [rows[i]];
        }
      }
      assert rows[..|rows|] == rows;
    }

    /** The loop over the two tables, then the boundary blocks. */
    method QueryTransactions(q: TransactionQuery) returns (r: Result<TransactionQueryResult, QueryError>)
      ensures r == TransactionAnswer(db.tables, db.blocks, q) && QueryGives(db.tables, db.blocks, q, r)
    {
      TransactionAnswerGives(db.tables, db.blocks, q);
      var results := [];
      for table := 0 to 2
        invariant table == 0 ==> results == []
        invariant table == 1 ==> results == Matching(q, db.tables.t0)
        invariant table == 2 ==> results == Matching(q, db.tables.t0) + Matching(q, db.tables.t1)
      {
        var found := Select(q, db.tables.Get(table));
        results := results + found;
      }
      var lower, upper := QueryBoundary(db.blocks, q.startBlockNumber), QueryBoundary(db.blocks, q.endBlockNumber);
      if lower.Err? {
        return Err(lower.error);
      }
      if upper.Err? {
        return Err(upper.error);
      }
      return Ok(TransactionQueryResult(results, lower.value, upper.value));
    }

    method GetReferencedTransactions(minimal: nat, deadlineNumber: nat, deadlineTime: nat, reference: Digits)
        returns (r: Result<ReferencedAnswer, QueryError>)
      ensures r == ReferencedTransactions(db.tables, db.blocks, minimal, deadlineNumber, deadlineTime, reference)
      ensures r.Ok? ==> (r.value.status == NoOverflowBlock <==> forall b :: b in db.blocks ==> b.timestamp <= deadlineTime || b.number <= deadlineNumber)
      ensures r.Ok? && r.value.status != NoOverflowBlock ==>
                (r.value.status == DataAvailabilityFailure <==> forall b :: b in db.blocks ==> b.number != minimal)
      ensures r.Ok? && r.value.status != Found ==> r.value == ReferencedAnswer(r.value.status, [], None, None)
      ensures r.Ok? && r.value.status == Found ==> FoundBetween(db.tables, db.blocks, minimal, deadlineNumber, deadlineTime, reference, r.value)
      ensures r.Err? ==> r.error == BlockNumberMandatory && exists b :: b in db.blocks && b.timestamp > deadlineTime && b.number > deadlineNumber
    {
      var firstOverflowBlock := FirstOverflow(db.blocks, deadlineTime, deadlineNumber);
      if firstOverflowBlock.None? {
        return Ok(NO_OVERFLOW);
      }
      var answer := QueryTransactions(ReferencedQuery(minimal, firstOverflowBlock.value.number, reference));
      if answer.Err? {
        return Err(answer.error);
      }
      if answer.value.startBlock.None? {
        return Ok(NOT_AVAILABLE);
      }
      return Ok(ReferencedAnswer(Found, answer.value.result, firstOverflowBlock, answer.value.startBlock));
    }
  }
}
