/**
 The proof that a referenced payment was not made (`generic-chain-verifications.ts`), down to what the
 indexer has saved.  The parsed outputs of a transaction and the summary of the payment to an output
 are given.
 */
module NonExistence {
  import opened Hex
  import opened HexMeaning
  import opened IndexedQueries
  import opened IndexerRuns
  import opened IndexerState
  import opened Interlacing
  import opened Storage
  import opened Wrappers

  /** `Unanswered` claims success but has no response, which the source regards as impossible and throws on. */
  datatype Summary = Success(amount: int, senderFailure: bool) | Unanswered | Unsuccessful

  type Summaries = (Tx, nat) -> Summary

  datatype Status =
    | Confirmed | ZeroPaymentReferenceUnsupported | NotStandardPaymentReference | DataAvailabilityIssue | NotConfirmed
    | SystemFailure | ReferencedTransactionExists

  datatype VerifyError = MandatoryBlockNumber | ShouldHaveResponse

  datatype Verification = Verification(status: Status, lowerBoundaryBlock: Option<BlockRow>, firstOverflowBlock: Option<BlockRow>)

  datatype Request = Request(
    minimalBlockNumber: nat, deadlineBlockNumber: nat, deadlineTimestamp: nat,
    destinationAddress: Address, amount: int, paymentReference: string)

  function Only(status: Status): Verification {
    Verification(status, None, None)
  }

  // ---------- one transaction ----------

  /** The first output to the address. */
  function FirstOutput(outputs: seq<Address>, address: Address): (r: Option<nat>)
    ensures r.Some? ==> r.value < |outputs| && outputs[r.value] == address && forall i :: 0 <= i < r.value ==> outputs[i] != address
    ensures r.None? ==> address !in outputs
  {
    if outputs == [] then None
    else
      assert outputs == [outputs[0]] + outputs[1..];
      if outputs[0] == address then Some(0)
      else
        match FirstOutput(outputs[1..], address)
        case None => None
        case Some(i) => Some(i + 1)
  }

  /** The payment the search is for: enough, to the address, and not failed through the sender. */
  predicate PaysEnough(tx: Tx, summaries: Summaries, address: Address, amount: int) {
    tx.outputs.Some?
    && match FirstOutput(tx.outputs.value, address)
       case None => false
       case Some(i) => match summaries(tx, i)
                       case Success(paid, senderFailure) => paid >= amount && !senderFailure
                       case _ => false
  }

  ghost predicate ByAddress(tx: Tx, summaries: Summaries) {
    tx.outputs.Some? ==>
      forall i, k :: 0 <= i < |tx.outputs.value| && 0 <= k < |tx.outputs.value| && tx.outputs.value[i] == tx.outputs.value[k] ==>
        summaries(tx, i) == summaries(tx, k)
  }

  /** The loop looks at the first output to the address only; that is enough if summaries depend on the address alone. */
  lemma FirstOutputSuffices(tx: Tx, summaries: Summaries, address: Address, amount: int, j: nat)
    requires tx.outputs.Some? && j < |tx.outputs.value| && tx.outputs.value[j] == address
    requires ByAddress(tx, summaries)
    ensures PaysEnough(tx, summaries, address, amount) <==>
            summaries(tx, j).Success? && summaries(tx, j).amount >= amount && !summaries(tx, j).senderFailure
  {
    var first := FirstOutput(tx.outputs.value, address);
    assert summaries(tx, first.value) == summaries(tx, j);
  }

  datatype Verdict = Passed | Match | Unparsable | Unexpected

  function VerdictOn(r: Row, summaries: Summaries, address: Address, amount: int): (v: Verdict)
    ensures v == Match <==> r.transaction.Some? && PaysEnough(r.transaction.value, summaries, address, amount)
  {
    if r.transaction.None? || r.transaction.value.outputs.None? then Unparsable
    else
      match FirstOutput(r.transaction.value.outputs.value, address)
      case None => Passed
      case Some(i) =>
        match summaries(r.transaction.value, i)
        case Success(paid, senderFailure) => if paid >= amount && !senderFailure then Match else Passed
        case Unanswered => Unexpected
        case Unsuccessful => Passed
  }

  /** The first row that decides, if any does. */
  function Scan(rows: seq<Row>, summaries: Summaries, address: Address, amount: int): (v: Verdict)
    ensures v == Passed <==> forall r :: r in rows ==> VerdictOn(r, summaries, address, amount) == Passed
    ensures v != Passed ==> exists r :: r in rows && VerdictOn(r, summaries, address, amount) == v
  {
    if rows == [] then Passed
    else
      assert rows == [rows[0]] + rows[1..];
      var v := VerdictOn(rows[0], summaries, address, amount);
      if v != Passed then v else Scan(rows[1..], summaries, address, amount)
  }

  /** The verification's outcome for the rows found. */
  function Respond(rows: seq<Row>, summaries: Summaries, overflow: BlockRow, lower: BlockRow, address: Address, amount: int): Result<Verification, VerifyError> {
    match Scan(rows, summaries, address, amount)
    case Passed => Ok(Verification(Confirmed, Some(lower), Some(overflow)))
    case Match => Ok(Only(ReferencedTransactionExists))
    case Unparsable => Ok(Only(SystemFailure))
    case Unexpected => Err(ShouldHaveResponse)
  }

  /** Output `n` is the first one to the address. */
  ghost predicate FirstTo(tx: Tx, n: nat, address: Address) {
    tx.outputs.Some? && n < |tx.outputs.value| && tx.outputs.value[n] == address && address !in tx.outputs.value[..n]
  }

  ghost predicate Unreadable(r: Row) {
    r.transaction.None? || r.transaction.value.outputs.None?
  }

  ghost predicate PaidTo(r: Row, summaries: Summaries, address: Address, amount: int) {
    r.transaction.Some?
    && exists n: nat, paid :: FirstTo(r.transaction.value, n, address) && paid >= amount && summaries(r.transaction.value, n) == Success(paid, false)
  }

  ghost predicate SummaryMissing(r: Row, summaries: Summaries, address: Address) {
    r.transaction.Some?
    && exists n: nat :: FirstTo(r.transaction.value, n, address) && summaries(r.transaction.value, n) == Unanswered
  }

  /** Every row before the `i`-th is readable, and its first output to the address has a summary and does not pay. */
  ghost predicate NothingBefore(rows: seq<Row>, i: nat, summaries: Summaries, address: Address, amount: int)
    requires i <= |rows|
  {
    forall j :: 0 <= j < i ==> !Unreadable(rows[j]) && !PaidTo(rows[j], summaries, address, amount) && !SummaryMissing(rows[j], summaries, address)
  }

  lemma VerdictMeans(r: Row, summaries: Summaries, address: Address, amount: int)
    ensures VerdictOn(r, summaries, address, amount) ==
              if Unreadable(r) then Unparsable
              else if PaidTo(r, summaries, address, amount) then Match
              else if SummaryMissing(r, summaries, address) then Unexpected
              else Passed
  {
    if !Unreadable(r) {
      var tx := r.transaction.value;
      var first := FirstOutput(tx.outputs.value, address);
      if first.Some? {
        var n := first.value;
        assert FirstTo(tx, n, address);
        assert forall k: nat :: FirstTo(tx, k, address) ==> k == n;
        if summaries(tx, n).Success? { assert summaries(tx, n) == Success(summaries(tx, n).amount, summaries(tx, n).senderFailure); }
      }
    }
  }

  /** The first row that is not passed over decides: the search fails on one it cannot read, and reports one that pays. */
  lemma {:induction false} FirstRowDecides(rows: seq<Row>, summaries: Summaries, address: Address, amount: int, i: nat)
    requires i < |rows| && NothingBefore(rows, i, summaries, address, amount)
    ensures Unreadable(rows[i]) ==> Scan(rows, summaries, address, amount) == Unparsable
    ensures !Unreadable(rows[i]) && PaidTo(rows[i], summaries, address, amount) ==> Scan(rows, summaries, address, amount) == Match
    ensures !Unreadable(rows[i]) && !PaidTo(rows[i], summaries, address, amount) && SummaryMissing(rows[i], summaries, address) ==>
              Scan(rows, summaries, address, amount) == Unexpected
    decreases i
  {
    VerdictMeans(rows[0], summaries, address, amount);
    if i > 0 {
      forall j | 0 <= j < i - 1
        ensures !Unreadable(rows[1..][j]) && !PaidTo(rows[1..][j], summaries, address, amount) && !SummaryMissing(rows[1..][j], summaries, address)
      {
        assert rows[1..][j] == rows[j + 1];
      }
      FirstRowDecides(rows[1..], summaries, address, amount, i - 1);
    }
  }

  lemma NoRowDecides(rows: seq<Row>, summaries: Summaries, address: Address, amount: int)
    requires NothingBefore(rows, |rows|, summaries, address, amount)
    ensures Scan(rows, summaries, address, amount) == Passed
  {
    forall r | r in rows ensures VerdictOn(r, summaries, address, amount) == Passed {
      var j :| 0 <= j < |rows| && rows[j] == r;
      VerdictMeans(r, summaries, address, amount);
    }
  }

  /** What the search answers for the rows found, down to the first one that decides. */
  ghost predicate Responds(rows: seq<Row>, summaries: Summaries, overflow: BlockRow, lower: BlockRow, address: Address, amount: int,
                           r: Result<Verification, VerifyError>) {
    && (NothingBefore(rows, |rows|, summaries, address, amount) ==> r == Ok(Verification(Confirmed, Some(lower), Some(overflow))))
    && forall i: nat :: i < |rows| && NothingBefore(rows, i, summaries, address, amount) ==>
         && (Unreadable(rows[i]) ==> r == Ok(Verification(SystemFailure, None, None)))
         && (!Unreadable(rows[i]) && PaidTo(rows[i], summaries, address, amount) ==> r == Ok(Verification(ReferencedTransactionExists, None, None)))
         && (!Unreadable(rows[i]) && !PaidTo(rows[i], summaries, address, amount) && SummaryMissing(rows[i], summaries, address) ==>
               r == Err(ShouldHaveResponse))
  }

  lemma RespondMeans(rows: seq<Row>, summaries: Summaries, overflow: BlockRow, lower: BlockRow, address: Address, amount: int)
    ensures Responds(rows, summaries, overflow, lower, address, amount, Respond(rows, summaries, overflow, lower, address, amount))
  {
    if NothingBefore(rows, |rows|, summaries, address, amount) { NoRowDecides(rows, summaries, address, amount); }
    forall i: nat | i < |rows| && NothingBefore(rows, i, summaries, address, amount)
      ensures
        var r := Respond(rows, summaries, overflow, lower, address, amount);
        && (Unreadable(rows[i]) ==> r == Ok(Verification(SystemFailure, None, None)))
        && (!Unreadable(rows[i]) && PaidTo(rows[i], summaries, address, amount) ==> r == Ok(Verification(ReferencedTransactionExists, None, None)))
        && (!Unreadable(rows[i]) && !PaidTo(rows[i], summaries, address, amount) && SummaryMissing(rows[i], summaries, address) ==>
              r == Err(ShouldHaveResponse))
    {
      FirstRowDecides(rows, summaries, address, amount, i);
    }
  }

  method ResponseReferencedPaymentNonExistence(rows: seq<Row>, summaries: Summaries, overflow: BlockRow, lower: BlockRow, address: Address, amount: int)
      returns (r: Result<Verification, VerifyError>)
    ensures r == Respond(rows, summaries, overflow, lower, address, amount)
    ensures r.Ok? && r.value.status == ReferencedTransactionExists ==>
              exists x :: x in rows && x.transaction.Some? && PaysEnough(x.transaction.value, summaries, address, amount)
    ensures r.Ok? && r.value.status == Confirmed ==>
              forall x :: x in rows ==> x.transaction.Some? && !PaysEnough(x.transaction.value, summaries, address, amount)
  {
    for i := 0 to |rows|
      invariant Scan(rows, summaries, address, amount) == Scan(rows[i..], summaries, address, amount)
    {
      assert rows[i..][1..] == rows[i + 1..];
      if rows[i].transaction.None? || rows[i].transaction.value.outputs.None? {
        return Ok(Only(SystemFailure));
      }
      var tx := rows[i].transaction.value;
      var outputs := tx.outputs.value;
      for out := 0 to |outputs|
        invariant forall j :: 0 <= j < out ==> outputs[j] != address
      {
        if outputs[out] == address {
          assert FirstOutput(outputs, address) == Some(out);
          var summary := summaries(tx, out);
          if summary.Unsuccessful? {
            break;
          }
          if summary.Unanswered? {
            return Err(ShouldHaveResponse);
          }
          if summary.amount >= amount {
            if !summary.senderFailure {
              return Ok(Only(ReferencedTransactionExists));
            }
          }
          break;
        }
      }
    }
    return Ok(Verification(Confirmed, Some(lower), Some(overflow)));
  }

  // ---------- the verification ----------

  predicate ZeroReference(reference: string) {
    |UnPrefix0x(reference)| == 64 && forall i :: 0 <= i < 64 ==> UnPrefix0x(reference)[i] == '0'
  }

  predicate StandardReference(reference: string) {
    |UnPrefix0x(reference)| == 64 && IsHex(UnPrefix0x(reference))
  }

  /** The answer of `verifyReferencedPaymentNonExistence` on a database. */
  function Answer(tables: Tables, blocks: seq<BlockRow>, request: Request, summaries: Summaries): Result<Verification, VerifyError> {
    if ZeroReference(request.paymentReference) then Ok(Only(ZeroPaymentReferenceUnsupported))
    else if !StandardReference(request.paymentReference) then Ok(Only(NotStandardPaymentReference))
    else
      match ReferencedTransactions(tables, blocks, request.minimalBlockNumber, request.deadlineBlockNumber, request.deadlineTimestamp,
                                   Parse(UnPrefix0x(request.paymentReference)))
      case Err(_) => Err(MandatoryBlockNumber)
      case Ok(found) =>
        if found.status != Found || found.firstOverflowBlock.None? || found.minimalBlock.None? then Ok(Only(DataAvailabilityIssue))
        else if request.minimalBlockNumber >= found.firstOverflowBlock.value.number then Ok(Only(NotConfirmed))
        else Respond(found.transactions, summaries, found.firstOverflowBlock.value, found.minimalBlock.value, request.destinationAddress, request.amount)
  }

  method VerifyReferencedPaymentNonExistence(request: Request, iqm: IndexedQueryManager, summaries: Summaries)
      returns (r: Result<Verification, VerifyError>)
    ensures r == Answer(iqm.db.tables, iqm.db.blocks, request, summaries)
  {
    if ZeroReference(request.paymentReference) {
      return Ok(Only(ZeroPaymentReferenceUnsupported));
    }
    if !StandardReference(request.paymentReference) {
      return Ok(Only(NotStandardPaymentReference));
    }
    var found := iqm.GetReferencedTransactions(request.minimalBlockNumber, request.deadlineBlockNumber, request.deadlineTimestamp,
                                               Parse(UnPrefix0x(request.paymentReference)));
    if found.Err? {
      return Err(MandatoryBlockNumber);
    }
    if found.value.status != Found {
      return Ok(Only(DataAvailabilityIssue));
    }
    var overflow, lower := found.value.firstOverflowBlock.value, found.value.minimalBlock.value;
    if request.minimalBlockNumber >= overflow.number {
      return Ok(Only(NotConfirmed));
    }
    r := ResponseReferencedPaymentNonExistence(found.value.transactions, summaries, overflow, lower, request.destinationAddress, request.amount);
  }

  // ---------- what the answer means ----------

  /** A payment as requested, in a saved block of the range that is searched. */
  ghost predicate PaidIn(b: Block, tx: Tx, request: Request, overflow: nat, summaries: Summaries)
    requires StandardReference(request.paymentReference)
  {
    && request.minimalBlockNumber <= b.number < overflow
    && tx in b.transactions && tx.reference == Parse(UnPrefix0x(request.paymentReference))
    && PaysEnough(tx, summaries, request.destinationAddress, request.amount)
  }

  /** What is known once the search itself decides. */
  lemma SearchReached(tables: Tables, blocks: seq<BlockRow>, request: Request, summaries: Summaries) returns (overflow: BlockRow, rows: seq<Row>)
    requires Answer(tables, blocks, request, summaries).Ok?
    requires Answer(tables, blocks, request, summaries).value.status in {Confirmed, ReferencedTransactionExists}
    ensures StandardReference(request.paymentReference) && 0 < request.minimalBlockNumber < overflow.number
    ensures FirstOverflow(blocks, request.deadlineTimestamp, request.deadlineBlockNumber) == Some(overflow)
    ensures var q := ReferencedQuery(request.minimalBlockNumber, overflow.number, Parse(UnPrefix0x(request.paymentReference)));
            rows == Matching(q, tables.t0) + Matching(q, tables.t1)
    ensures var v := Answer(tables, blocks, request, summaries).value.status;
            Scan(rows, summaries, request.destinationAddress, request.amount) == if v == Confirmed then Passed else Match
    ensures Answer(tables, blocks, request, summaries).value.status == Confirmed ==>
              Answer(tables, blocks, request, summaries).value.firstOverflowBlock == Some(overflow)
  {
    var reference := Parse(UnPrefix0x(request.paymentReference));
    overflow := FirstOverflow(blocks, request.deadlineTimestamp, request.deadlineBlockNumber).value;
    var q := ReferencedQuery(request.minimalBlockNumber, overflow.number, reference);
    rows := TransactionAnswer(tables, blocks, q).value.result;
  }

  lemma RowOfTx(b: Block, tx: Tx)
    requires tx in b.transactions
    ensures Row(b.number, b.timestamp, Some(tx)) in BlockRows(b)
  {
    var i :| 0 <= i < |b.transactions| && b.transactions[i] == tx;
    assert BlockRows(b)[i] == Row(b.number, b.timestamp, Some(tx));
  }

  lemma TxOfRow(b: Block, r: Row)
    requires r in BlockRows(b) && r.transaction.Some?
    ensures r.transaction.value in b.transactions && r.blockNumber == b.number
  {
    var i :| 0 <= i < |BlockRows(b)| && BlockRows(b)[i] == r;
    assert b.transactions != [] ==> b.transactions[i] == r.transaction.value;
  }

  /** A block saved at any time that is not below the stored bottom is in the tables. */
  lemma SaveIsInTables(s: State, ranges: Ranges, i: nat) returns (j: nat)
    requires DiskFits(s, ranges) && i < |s.saves| && s.bottom.Some? && s.saves[i].block.number >= s.bottom.value
    ensures s.history.b <= j < |s.history.chain| && s.history.chain[j] == s.saves[i].block
  {
    OlderIsBelow(s.saves, s.blocks, s.history, i);
    SinceIsNumbered(s.saves, s.history, i);
    j := i - |s.history.older|;
  }

  lemma OlderIsBelow(saves: seq<Save>, blocks: seq<BlockRow>, h: History, i: nat)
    requires AllSaved(saves, h.older, h.chain) && BlocksFit(blocks, h)
    ensures i < |h.older| ==> saves[i].block.number < h.first
  {
    if i < |h.older| { assert SavedBefore(saves, h.older, i) && OlderAt(h, i); }
  }

  lemma SinceIsNumbered(saves: seq<Save>, h: History, i: nat)
    requires AllSaved(saves, h.older, h.chain) && Numbered(h.chain, h.first)
    ensures |h.older| <= i < |saves| ==> h.chain[i - |h.older|] == saves[i].block && saves[i].block.number == h.first + (i - |h.older|)
  {
    if |h.older| <= i < |saves| {
      assert SavedSince(saves, h.older, h.chain, i - |h.older|) && NumberedAt(h.chain, h.first, i - |h.older|);
    }
  }

  lemma SoundForSaved(s: State, ranges: Ranges, request: Request, summaries: Summaries, i: nat, tx: Tx)
    requires DiskFits(s, ranges) && i < |s.saves| && s.bottom.Some? && s.saves[i].block.number >= s.bottom.value
    requires Answer(s.tables, s.blocks, request, summaries).Ok? && Answer(s.tables, s.blocks, request, summaries).value.status == Confirmed
    ensures StandardReference(request.paymentReference)
    ensures var v := Answer(s.tables, s.blocks, request, summaries).value;
            v.firstOverflowBlock.Some? && !PaidIn(s.saves[i].block, tx, request, v.firstOverflowBlock.value.number, summaries)
  {
    var j := SaveIsInTables(s, ranges, i);
    SoundOnDisk(s, ranges, request, summaries, j, s.saves[i].block, tx);
  }

  /**
   End to end: if the verifier confirms that the payment does not exist, and the minimal block is not
   below the stored bottom, no block of the searched range that was ever saved has it.
   */
  lemma NonExistenceSound(settings: Settings, events: seq<Event>, states: seq<State>, k: nat, request: Request, summaries: Summaries, i: nat, tx: Tx)
    requires Run(settings, events, states) && k < |states|
    requires Answer(states[k].tables, states[k].blocks, request, summaries).Ok?
    requires Answer(states[k].tables, states[k].blocks, request, summaries).value.status == Confirmed
    requires states[k].bottom.Some? && request.minimalBlockNumber >= states[k].bottom.value
    requires i < |states[k].saves|
    ensures StandardReference(request.paymentReference)
    ensures var v := Answer(states[k].tables, states[k].blocks, request, summaries).value;
            v.firstOverflowBlock.Some? && !PaidIn(states[k].saves[i].block, tx, request, v.firstOverflowBlock.value.number, summaries)
  {
    RunKeeps(settings, events, states, k);
    var s := states[k];
    if s.saves[i].block.number >= s.bottom.value {
      SoundForSaved(s, settings.ranges, request, summaries, i, tx);
    } else {
      var overflow, rows := SearchReached(s.tables, s.blocks, request, summaries);
    }
  }

  /** The same of every output, when the summaries of a transaction depend on the address alone. */
  lemma NoOutputPays(settings: Settings, events: seq<Event>, states: seq<State>, k: nat, request: Request, summaries: Summaries, i: nat, tx: Tx, o: nat)
    requires Run(settings, events, states) && k < |states|
    requires Answer(states[k].tables, states[k].blocks, request, summaries).Ok?
    requires Answer(states[k].tables, states[k].blocks, request, summaries).value.status == Confirmed
    requires states[k].bottom.Some? && request.minimalBlockNumber >= states[k].bottom.value
    requires i < |states[k].saves| && ByAddress(tx, summaries)
    requires tx in states[k].saves[i].block.transactions && tx.outputs.Some? && o < |tx.outputs.value|
    ensures StandardReference(request.paymentReference)
    ensures var v, b := Answer(states[k].tables, states[k].blocks, request, summaries).value, states[k].saves[i].block;
            && v.firstOverflowBlock.Some?
            && !(&& request.minimalBlockNumber <= b.number < v.firstOverflowBlock.value.number
                 && tx.reference == Parse(UnPrefix0x(request.paymentReference)) && tx.outputs.value[o] == request.destinationAddress
                 && summaries(tx, o).Success? && summaries(tx, o).amount >= request.amount && !summaries(tx, o).senderFailure)
  {
    NonExistenceSound(settings, events, states, k, request, summaries, i, tx);
    if tx.outputs.value[o] == request.destinationAddress {
      FirstOutputSuffices(tx, summaries, request.destinationAddress, request.amount, o);
    }
  }

  lemma SoundOnDisk(s: State, ranges: Ranges, request: Request, summaries: Summaries, j: nat, x: Block, tx: Tx)
    requires DiskFits(s, ranges) && s.history.b <= j < |s.history.chain| && x == s.history.chain[j]
    requires Answer(s.tables, s.blocks, request, summaries).Ok? && Answer(s.tables, s.blocks, request, summaries).value.status == Confirmed
    ensures StandardReference(request.paymentReference)
    ensures var v := Answer(s.tables, s.blocks, request, summaries).value;
            v.firstOverflowBlock.Some? && !PaidIn(x, tx, request, v.firstOverflowBlock.value.number, summaries)
  {
    var overflow, rows := SearchReached(s.tables, s.blocks, request, summaries);
    RowIsSearched(s, ranges, request, overflow.number, j, tx);
  }

  /** The rows the search looks at. */
  ghost predicate Searched(s: State, request: Request, overflow: nat, r: Row)
    requires StandardReference(request.paymentReference) && overflow > 0
  {
    var q := ReferencedQuery(request.minimalBlockNumber, overflow, Parse(UnPrefix0x(request.paymentReference)));
    r in Matching(q, s.tables.t0) + Matching(q, s.tables.t1)
  }

  lemma SearchedMeans(s: State, request: Request, overflow: nat, r: Row)
    requires StandardReference(request.paymentReference) && overflow > 0 && request.minimalBlockNumber > 0
    ensures Searched(s, request, overflow, r) <==>
            && (r in s.tables.t0 || r in s.tables.t1) && request.minimalBlockNumber <= r.blockNumber
            && (overflow == 1 || r.blockNumber < overflow)
            && r.transaction.Some? && r.transaction.value.reference == Parse(UnPrefix0x(request.paymentReference))
  {}

  lemma RowIsSearched(s: State, ranges: Ranges, request: Request, overflow: nat, j: nat, tx: Tx)
    requires DiskFits(s, ranges) && s.history.b <= j < |s.history.chain|
    requires StandardReference(request.paymentReference) && 0 < request.minimalBlockNumber < overflow
    ensures var b := s.history.chain[j];
            request.minimalBlockNumber <= b.number < overflow && tx in b.transactions && tx.reference == Parse(UnPrefix0x(request.paymentReference)) ==>
              Searched(s, request, overflow, Row(b.number, b.timestamp, Some(tx)))
  {
    var h := s.history;
    var b := h.chain[j];
    var r := Row(b.number, b.timestamp, Some(tx));
    if request.minimalBlockNumber <= b.number && tx in b.transactions {
      RowOfTx(b, tx);
      StoredRows(s.tables, h.active, h.chain, h.b, h.a, r);
      SearchedMeans(s, request, overflow, r);
    }
  }

  // ---------- the range that is searched ----------

  lemma HeaderIsSaved(saves: seq<Save>, blocks: seq<BlockRow>, h: History, i: nat)
    requires AllSaved(saves, h.older, h.chain) && BlocksFit(blocks, h) && i < |blocks|
    ensures |blocks| == |saves| && blocks[i] == Header(saves[i].block)
  {
    if i < |h.older| {
      assert SavedBefore(saves, h.older, i);
    } else {
      HeaderAt(blocks, h, i - |h.older|);
      assert SavedSince(saves, h.older, h.chain, i - |h.older|);
    }
  }

  /** In every run the block table has a header for every save, in their order: number, hash and time. */
  lemma BlockTableIsSaves(settings: Settings, events: seq<Event>, states: seq<State>, k: nat)
    requires Run(settings, events, states) && k < |states|
    ensures var s := states[k];
            && |s.blocks| == |s.saves|
            && forall i :: 0 <= i < |s.saves| ==>
                 var b := s.saves[i].block; s.blocks[i].number == b.number && s.blocks[i].hash == b.hash && s.blocks[i].timestamp == b.timestamp
  {
    RunKeeps(settings, events, states, k);
    var s := states[k];
    SavesAndHeaders(s, settings.ranges);
    forall i: nat | i < |s.saves| ensures s.blocks[i] == Header(s.saves[i].block) {
      HeaderIsSaved(s.saves, s.blocks, s.history, i);
    }
  }

  ghost predicate WithinDeadlines(x: Block, request: Request) {
    x.number <= request.deadlineBlockNumber || x.timestamp <= request.deadlineTimestamp
  }

  /** `o` is the first block past both deadlines: all with a lower number that were ever saved are within one of them. */
  ghost predicate EndsRange(s: State, request: Request, o: Block) {
    && o.number > request.deadlineBlockNumber && o.timestamp > request.deadlineTimestamp
    && (exists i :: 0 <= i < |s.saves| && s.saves[i].block == o)
    && forall i :: 0 <= i < |s.saves| && s.saves[i].block.number < o.number ==> WithinDeadlines(s.saves[i].block, request)
  }

  lemma OverflowEndsRange(s: State, ranges: Ranges, request: Request, row: BlockRow) returns (o: Block)
    requires DiskFits(s, ranges) && FirstOverflow(s.blocks, request.deadlineTimestamp, request.deadlineBlockNumber) == Some(row)
    ensures EndsRange(s, request, o) && Header(o) == row
  {
    var h := s.history;
    var n: nat :| n < |s.blocks| && s.blocks[n] == row;
    HeaderIsSaved(s.saves, s.blocks, h, n);
    o := s.saves[n].block;
    forall i: nat | i < |s.saves| && s.saves[i].block.number < o.number ensures WithinDeadlines(s.saves[i].block, request) {
      HeaderIsSaved(s.saves, s.blocks, h, i);
      assert s.blocks[i] in s.blocks;
    }
  }

  /** The numbers of such blocks agree, so this is the one found; and there is none only if every block is within a deadline. */
  lemma RangeEndIsOverflow(s: State, ranges: Ranges, request: Request)
    requires DiskFits(s, ranges)
    ensures var row := FirstOverflow(s.blocks, request.deadlineTimestamp, request.deadlineBlockNumber);
            && (row.None? <==> forall i :: 0 <= i < |s.saves| ==> WithinDeadlines(s.saves[i].block, request))
            && forall o :: EndsRange(s, request, o) ==> row.Some? && row.value.number == o.number
  {
    var row := FirstOverflow(s.blocks, request.deadlineTimestamp, request.deadlineBlockNumber);
    if row.Some? {
      var o1 := OverflowEndsRange(s, ranges, request, row.value);
    }
    SavesAndHeaders(s, ranges);
    forall i: nat | i < |s.saves| ensures row.None? ==> WithinDeadlines(s.saves[i].block, request) {
      HeaderIsSaved(s.saves, s.blocks, s.history, i);
      assert s.blocks[i] in s.blocks;
    }
  }

  lemma SavesAndHeaders(s: State, ranges: Ranges)
    requires DiskFits(s, ranges)
    ensures |s.saves| == |s.blocks|
  {}

  // ---------- every answer, in the fields of the request ----------

  ghost predicate WellReferenced(request: Request) {
    var reference := UnPrefix0x(request.paymentReference);
    |reference| == 64 && reference != seq(64, _ => '0') && forall i :: 0 <= i < 64 ==> HexChar(reference[i])
  }

  ghost predicate EverSaved(s: State, number: nat) {
    exists i :: 0 <= i < |s.saves| && s.saves[i].block.number == number
  }

  /** The transaction does not count: its first output to the address, if any, did not succeed or is not enough. */
  ghost predicate Harmless(tx: Tx, request: Request, summaries: Summaries) {
    && tx.outputs.Some?
    && forall n :: 0 <= n < |tx.outputs.value| && tx.outputs.value[n] == request.destinationAddress && request.destinationAddress !in tx.outputs.value[..n] ==>
         match summaries(tx, n)
         case Success(paid, senderFailure) => paid < request.amount || senderFailure
         case Unanswered => false
         case Unsuccessful => true
  }

  /** All stored transactions of the range with the reference are harmless. */
  ghost predicate AllHarmless(s: State, request: Request, summaries: Summaries, o: Block)
    requires IsHex(UnPrefix0x(request.paymentReference))
  {
    forall j: nat, tx :: s.history.b <= j < |s.history.chain| && tx in s.history.chain[j].transactions ==>
      request.minimalBlockNumber <= s.history.chain[j].number < o.number && tx.reference == Parse(UnPrefix0x(request.paymentReference)) ==>
        Harmless(tx, request, summaries)
  }

  lemma ReferenceCases(request: Request)
    ensures ZeroReference(request.paymentReference) <==> UnPrefix0x(request.paymentReference) == seq(64, _ => '0')
    ensures !ZeroReference(request.paymentReference) && StandardReference(request.paymentReference) <==> WellReferenced(request)
    ensures WellReferenced(request) ==> IsHex(UnPrefix0x(request.paymentReference))
  {
    var reference := UnPrefix0x(request.paymentReference);
    forall c: char ensures CharDigit(c).Some? <==> HexChar(c) { CharMeans(c); }
  }

  lemma {:induction false} FirstIs(outputs: seq<Address>, address: Address, n: nat)
    requires n < |outputs| && outputs[n] == address && address !in outputs[..n]
    ensures FirstOutput(outputs, address) == Some(n)
    decreases n
  {
    if n > 0 {
      assert outputs[..n] == [outputs[0]] + outputs[1..][..n - 1];
      FirstIs(outputs[1..], address, n - 1);
    }
  }

  lemma HarmlessVerdict(r: Row, request: Request, summaries: Summaries)
    ensures VerdictOn(r, summaries, request.destinationAddress, request.amount) == Passed
            <==> r.transaction.Some? && Harmless(r.transaction.value, request, summaries)
  {
    if r.transaction.Some? && r.transaction.value.outputs.Some? {
      var outputs := r.transaction.value.outputs.value;
      var first := FirstOutput(outputs, request.destinationAddress);
      if first.Some? {
        assert request.destinationAddress !in outputs[..first.value];
        forall n | 0 <= n < |outputs| && outputs[n] == request.destinationAddress && request.destinationAddress !in outputs[..n]
          ensures n == first.value
        {
          FirstIs(outputs, request.destinationAddress, n);
        }
      }
    }
  }

  lemma ScanIsHarmless(s: State, ranges: Ranges, request: Request, summaries: Summaries, o: Block, rows: seq<Row>)
    requires DiskFits(s, ranges) && WellReferenced(request) && StandardReference(request.paymentReference)
    requires 0 < request.minimalBlockNumber < o.number
    requires var q := ReferencedQuery(request.minimalBlockNumber, o.number, Parse(UnPrefix0x(request.paymentReference)));
             rows == Matching(q, s.tables.t0) + Matching(q, s.tables.t1)
    ensures IsHex(UnPrefix0x(request.paymentReference))
    ensures Scan(rows, summaries, request.destinationAddress, request.amount) == Passed <==> AllHarmless(s, request, summaries, o)
  {
    if AllHarmless(s, request, summaries, o) {
      forall r | r in rows ensures VerdictOn(r, summaries, request.destinationAddress, request.amount) == Passed {
        SearchedMeans(s, request, o.number, r);
        StoredHarmless(s, ranges, request, summaries, o, r);
      }
    }
    if Scan(rows, summaries, request.destinationAddress, request.amount) == Passed {
      forall j: nat, tx | s.history.b <= j < |s.history.chain| && tx in s.history.chain[j].transactions
        ensures request.minimalBlockNumber <= s.history.chain[j].number < o.number && tx.reference == Parse(UnPrefix0x(request.paymentReference)) ==>
                  Harmless(tx, request, summaries)
      {
        var r := Row(s.history.chain[j].number, s.history.chain[j].timestamp, Some(tx));
        RowIsSearched(s, ranges, request, o.number, j, tx);
        HarmlessVerdict(r, request, summaries);
      }
    }
  }

  lemma StoredHarmless(s: State, ranges: Ranges, request: Request, summaries: Summaries, o: Block, r: Row)
    requires DiskFits(s, ranges) && IsHex(UnPrefix0x(request.paymentReference)) && AllHarmless(s, request, summaries, o)
    requires (r in s.tables.t0 || r in s.tables.t1) && r.transaction.Some? && r.transaction.value.reference == Parse(UnPrefix0x(request.paymentReference))
    requires request.minimalBlockNumber <= r.blockNumber < o.number
    ensures VerdictOn(r, summaries, request.destinationAddress, request.amount) == Passed
  {
    var h := s.history;
    StoredRows(s.tables, h.active, h.chain, h.b, h.a, r);
    var j: nat :| h.b <= j < |h.chain| && r in BlockRows(h.chain[j]);
    TxOfRow(h.chain[j], r);
    HarmlessVerdict(r, request, summaries);
  }

  lemma NumberFound(s: State, ranges: Ranges, number: nat)
    requires DiskFits(s, ranges)
    ensures BlockWithNumber(s.blocks, number).Some? <==> EverSaved(s, number)
  {
    var found := BlockWithNumber(s.blocks, number);
    SavesAndHeaders(s, ranges);
    if found.Some? {
      var n: nat :| n < |s.blocks| && s.blocks[n] == found.value;
      HeaderIsSaved(s.saves, s.blocks, s.history, n);
    }
    if i :| 0 <= i < |s.saves| && s.saves[i].block.number == number {
      HeaderIsSaved(s.saves, s.blocks, s.history, i);
      assert s.blocks[i] in s.blocks;
    }
  }

  /** What is answered before any row is looked at; `o` is the first block past both deadlines. */
  ghost predicate EarlyAnswer(s: State, request: Request, o: Block, answer: Result<Verification, VerifyError>) {
    if request.minimalBlockNumber == 0 || o.number == 1 then answer == Err(MandatoryBlockNumber)
    else if !EverSaved(s, request.minimalBlockNumber) then answer == Ok(Only(DataAvailabilityIssue))
    else request.minimalBlockNumber >= o.number && answer == Ok(Only(NotConfirmed))
  }

  ghost predicate IsConfirmed(answer: Result<Verification, VerifyError>) {
    answer.Ok? && answer.value.status == Confirmed
  }

  lemma AnswerGivenOverflow(tables: Tables, blocks: seq<BlockRow>, request: Request, summaries: Summaries, row: BlockRow)
    requires !ZeroReference(request.paymentReference) && StandardReference(request.paymentReference)
    requires FirstOverflow(blocks, request.deadlineTimestamp, request.deadlineBlockNumber) == Some(row)
    ensures var minimal, answer := request.minimalBlockNumber, Answer(tables, blocks, request, summaries);
            if minimal == 0 || row.number == 1 then answer == Err(MandatoryBlockNumber)
            else if BlockWithNumber(blocks, minimal).None? then answer == Ok(Only(DataAvailabilityIssue))
            else if minimal >= row.number then answer == Ok(Only(NotConfirmed))
            else
              var q := ReferencedQuery(minimal, row.number, Parse(UnPrefix0x(request.paymentReference)));
              var rows := Matching(q, tables.t0) + Matching(q, tables.t1);
              IsConfirmed(answer) <==> Scan(rows, summaries, request.destinationAddress, request.amount) == Passed
  {}

  lemma AnswerInRange(s: State, ranges: Ranges, request: Request, summaries: Summaries, o: Block)
    requires DiskFits(s, ranges) && WellReferenced(request) && EndsRange(s, request, o)
    ensures IsHex(UnPrefix0x(request.paymentReference))
    ensures var answer := Answer(s.tables, s.blocks, request, summaries);
            EarlyAnswer(s, request, o, answer) || (0 < request.minimalBlockNumber < o.number && (IsConfirmed(answer) <==> AllHarmless(s, request, summaries, o)))
  {
    ReferenceCases(request);
    RangeEndIsOverflow(s, ranges, request);
    NumberFound(s, ranges, request.minimalBlockNumber);
    var row := FirstOverflow(s.blocks, request.deadlineTimestamp, request.deadlineBlockNumber).value;
    AnswerGivenOverflow(s.tables, s.blocks, request, summaries, row);
    var q := ReferencedQuery(request.minimalBlockNumber, o.number, Parse(UnPrefix0x(request.paymentReference)));
    if 0 < request.minimalBlockNumber < o.number {
      ScanIsHarmless(s, ranges, request, summaries, o, Matching(q, s.tables.t0) + Matching(q, s.tables.t1));
    }
  }

  /**
   Every answer, in every run: unsupported and malformed references; no data unless some block is past both
   deadlines and the minimal one was saved; and, once the range is known to be one, confirmed exactly when
   all the stored transactions with the reference in it are harmless.
   */
  lemma Answers(settings: Settings, events: seq<Event>, states: seq<State>, k: nat, request: Request, summaries: Summaries)
    requires Run(settings, events, states) && k < |states|
    ensures var s, answer := states[k], Answer(states[k].tables, states[k].blocks, request, summaries);
            && (UnPrefix0x(request.paymentReference) == seq(64, _ => '0') ==> answer == Ok(Only(ZeroPaymentReferenceUnsupported)))
            && (UnPrefix0x(request.paymentReference) != seq(64, _ => '0') && !WellReferenced(request) ==> answer == Ok(Only(NotStandardPaymentReference)))
            && (WellReferenced(request) && (forall i :: 0 <= i < |s.saves| ==> WithinDeadlines(s.saves[i].block, request)) ==>
                  answer == Ok(Only(DataAvailabilityIssue)))
            && forall o :: WellReferenced(request) && EndsRange(s, request, o) ==>
                 IsHex(UnPrefix0x(request.paymentReference))
                 && (EarlyAnswer(s, request, o, answer)
                     || (0 < request.minimalBlockNumber < o.number && (IsConfirmed(answer) <==> AllHarmless(s, request, summaries, o))))
  {
    RunKeeps(settings, events, states, k);
    ReferenceCases(request);
    RangeEndIsOverflow(states[k], settings.ranges, request);
    forall o | WellReferenced(request) && EndsRange(states[k], request, o)
      ensures IsHex(UnPrefix0x(request.paymentReference))
      ensures var s, answer := states[k], Answer(states[k].tables, states[k].blocks, request, summaries);
              EarlyAnswer(s, request, o, answer)
              || (0 < request.minimalBlockNumber < o.number && (IsConfirmed(answer) <==> AllHarmless(s, request, summaries, o)))
    {
      AnswerInRange(states[k], settings.ranges, request, summaries, o);
    }
  }

  /** Where the confirmed range ends: at the first block past both deadlines of the request. */
  lemma ConfirmedRangeEnds(settings: Settings, events: seq<Event>, states: seq<State>, k: nat, request: Request, summaries: Summaries)
    requires Run(settings, events, states) && k < |states|
    requires Answer(states[k].tables, states[k].blocks, request, summaries).Ok?
    requires Answer(states[k].tables, states[k].blocks, request, summaries).value.status == Confirmed
    ensures var v := Answer(states[k].tables, states[k].blocks, request, summaries).value;
            v.firstOverflowBlock.Some? && exists o :: EndsRange(states[k], request, o) && Header(o) == v.firstOverflowBlock.value
  {
    RunKeeps(settings, events, states, k);
    var overflow, rows := SearchReached(states[k].tables, states[k].blocks, request, summaries);
    var o := OverflowEndsRange(states[k], settings.ranges, request, overflow);
  }

  /** Output `n` is the first one to the address, and the payment to it is enough and not failed through the sender. */
  ghost predicate PaidBy(tx: Tx, n: nat, request: Request, summaries: Summaries) {
    && tx.outputs.Some? && n < |tx.outputs.value| && tx.outputs.value[n] == request.destinationAddress
    && request.destinationAddress !in tx.outputs.value[..n]
    && summaries(tx, n).Success? && summaries(tx, n).amount >= request.amount && !summaries(tx, n).senderFailure
  }

  /** What a reported payment is: in a saved block from the minimal one on, that is within one of the deadlines. */
  ghost predicate Reports(s: State, request: Request, summaries: Summaries, o: Block, j: nat, tx: Tx, n: nat) {
    && EndsRange(s, request, o) && IsHex(UnPrefix0x(request.paymentReference))
    && j < |s.history.chain| && request.minimalBlockNumber <= s.history.chain[j].number < o.number
    && WithinDeadlines(s.history.chain[j], request)
    && tx in s.history.chain[j].transactions && tx.reference == Parse(UnPrefix0x(request.paymentReference))
    && PaidBy(tx, n, request, summaries)
  }

  /** And the other way round: if it says that the payment exists, a saved block that is within one of the deadlines has it. */
  lemma ExistenceSound(settings: Settings, events: seq<Event>, states: seq<State>, k: nat, request: Request, summaries: Summaries)
    requires Run(settings, events, states) && k < |states|
    requires Answer(states[k].tables, states[k].blocks, request, summaries).Ok?
    requires Answer(states[k].tables, states[k].blocks, request, summaries).value.status == ReferencedTransactionExists
    ensures exists o, j: nat, tx, n: nat :: Reports(states[k], request, summaries, o, j, tx, n)
  {
    RunKeeps(settings, events, states, k);
    var s := states[k];
    var overflow, j, tx := FoundOnDisk(s, settings.ranges, request, summaries);
    var o := OverflowEndsRange(s, settings.ranges, request, overflow);
    var n := PaymentOf(tx, request, summaries);
    ChainIsSaved(s, settings.ranges, j);
    assert Reports(s, request, summaries, o, j, tx, n);
  }

  lemma ChainIsSaved(s: State, ranges: Ranges, j: nat)
    requires DiskFits(s, ranges) && j < |s.history.chain|
    ensures exists i :: 0 <= i < |s.saves| && s.saves[i].block == s.history.chain[j]
  {
    assert SavedSince(s.saves, s.history.older, s.history.chain, j);
  }

  lemma PaymentOf(tx: Tx, request: Request, summaries: Summaries) returns (n: nat)
    requires PaysEnough(tx, summaries, request.destinationAddress, request.amount)
    ensures PaidBy(tx, n, request, summaries)
  {
    n := FirstOutput(tx.outputs.value, request.destinationAddress).value;
  }

  lemma FoundOnDisk(s: State, ranges: Ranges, request: Request, summaries: Summaries) returns (overflow: BlockRow, j: nat, tx: Tx)
    requires DiskFits(s, ranges)
    requires Answer(s.tables, s.blocks, request, summaries).Ok? && Answer(s.tables, s.blocks, request, summaries).value.status == ReferencedTransactionExists
    ensures StandardReference(request.paymentReference)
    ensures FirstOverflow(s.blocks, request.deadlineTimestamp, request.deadlineBlockNumber) == Some(overflow)
    ensures j < |s.history.chain| && PaidIn(s.history.chain[j], tx, request, overflow.number, summaries)
  {
    var rows: seq<Row>;
    overflow, rows := SearchReached(s.tables, s.blocks, request, summaries);
    var r :| r in rows && VerdictOn(r, summaries, request.destinationAddress, request.amount) == Match;
    SearchedMeans(s, request, overflow.number, r);
    j := HolderOf(s, ranges, r);
    tx := r.transaction.value;
    TxOfRow(s.history.chain[j], r);
  }

  lemma HolderOf(s: State, ranges: Ranges, r: Row) returns (j: nat)
    requires DiskFits(s, ranges) && (r in s.tables.t0 || r in s.tables.t1)
    ensures j < |s.history.chain| && r in BlockRows(s.history.chain[j])
  {
    var h := s.history;
    StoredRows(s.tables, h.active, h.chain, h.b, h.a, r);
    j :| h.b <= j < |h.chain| && r in BlockRows(h.chain[j]);
  }

  /**
   The searched range is wide enough: with block times that never decrease since the last clean start,
   every block ever saved that is within either deadline comes before the overflow block.
   */
  lemma RangeCoversDeadlines(settings: Settings, events: seq<Event>, states: seq<State>, k: nat, request: Request, summaries: Summaries, i: nat)
    requires Run(settings, events, states) && k < |states|
    requires Answer(states[k].tables, states[k].blocks, request, summaries).Ok?
    requires Answer(states[k].tables, states[k].blocks, request, summaries).value.status == Confirmed
    requires states[k].bottom.Some? && request.minimalBlockNumber >= states[k].bottom.value
    requires NonDecreasing(states[k].history.chain) && i < |states[k].saves|
    requires states[k].saves[i].block.number <= request.deadlineBlockNumber || states[k].saves[i].block.timestamp <= request.deadlineTimestamp
    ensures var v := Answer(states[k].tables, states[k].blocks, request, summaries).value;
            v.firstOverflowBlock.Some? && states[k].saves[i].block.number < v.firstOverflowBlock.value.number
  {
    RunKeeps(settings, events, states, k);
    var s := states[k];
    var overflow, rows := SearchReached(s.tables, s.blocks, request, summaries);
    if s.saves[i].block.number >= s.bottom.value {
      SavedBeforeOverflow(s, settings.ranges, request, overflow, i);
    }
  }

  lemma SavedBeforeOverflow(s: State, ranges: Ranges, request: Request, overflow: BlockRow, i: nat)
    requires DiskFits(s, ranges) && NonDecreasing(s.history.chain) && i < |s.saves|
    requires FirstOverflow(s.blocks, request.deadlineTimestamp, request.deadlineBlockNumber) == Some(overflow)
    requires s.bottom.Some? && s.bottom.value <= request.minimalBlockNumber < overflow.number && s.saves[i].block.number >= s.bottom.value
    requires s.saves[i].block.number <= request.deadlineBlockNumber || s.saves[i].block.timestamp <= request.deadlineTimestamp
    ensures s.saves[i].block.number < overflow.number
  {
    var j := SaveIsInTables(s, ranges, i);
    OverflowIsLater(s, ranges, request, overflow, j);
  }

  lemma TimesInOrder(chain: seq<Block>, i: nat, j: nat)
    requires NonDecreasing(chain) && i < |chain| && j < |chain|
    ensures i <= j ==> chain[i].timestamp <= chain[j].timestamp
  {
    if i <= j { assert NotLater(chain, i, j); }
  }

  lemma HeaderAt(blocks: seq<BlockRow>, h: History, o: nat)
    requires blocks == h.older + Headers(h.chain) && o < |h.chain|
    ensures blocks[|h.older| + o] == Header(h.chain[o])
  {}

  lemma OverflowIsLater(s: State, ranges: Ranges, request: Request, overflow: BlockRow, j: nat)
    requires DiskFits(s, ranges) && NonDecreasing(s.history.chain) && j < |s.history.chain|
    requires FirstOverflow(s.blocks, request.deadlineTimestamp, request.deadlineBlockNumber) == Some(overflow)
    requires s.bottom.Some? && s.bottom.value <= request.minimalBlockNumber < overflow.number
    requires s.history.chain[j].number <= request.deadlineBlockNumber || s.history.chain[j].timestamp <= request.deadlineTimestamp
    ensures s.history.chain[j].number < overflow.number
  {
    var h := s.history;
    assert NumberedAt(h.chain, h.first, j);
    var i :| 0 <= i < |s.blocks| && s.blocks[i] == overflow;
    if i < |h.older| {
      assert OlderAt(h, i);
    } else {
      var o: nat := i - |h.older|;
      HeaderAt(s.blocks, h, o);
      assert NumberedAt(h.chain, h.first, o);
      TimesInOrder(h.chain, o, j);
    }
  }
}
