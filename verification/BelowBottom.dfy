/**
 What the answer of the non-existence verifier is worth when the minimal block is below the bottom of the
 transaction tables, which the verifier does not check.
 */
module BelowBottom {
  import opened Hex
  import opened IndexedQueries
  import opened IndexerRuns
  import opened IndexerState
  import opened Interlacing
  import opened NonExistence
  import opened Storage

  ghost predicate Confirms(s: State, request: Request, summaries: Summaries) {
    var answer := Answer(s.tables, s.blocks, request, summaries);
    answer.Ok? && answer.value.status == Confirmed && answer.value.firstOverflowBlock.Some? && StandardReference(request.paymentReference)
  }

  function Overflow(s: State, request: Request, summaries: Summaries): nat
    requires Confirms(s, request, summaries)
  {
    Answer(s.tables, s.blocks, request, summaries).value.firstOverflowBlock.value.number
  }

  /** The block of save `i` has a payment as requested, and is in the range. */
  ghost predicate PaysIn(s: State, request: Request, summaries: Summaries, i: nat)
    requires Confirms(s, request, summaries) && i < |s.saves|
  {
    exists tx :: PaidIn(s.saves[i].block, tx, request, Overflow(s, request, summaries), summaries)
  }

  /** The answer is wrong: a block that was ever saved, and is in the range, has such a payment. */
  ghost predicate AnyPays(s: State, request: Request, summaries: Summaries)
    requires Confirms(s, request, summaries)
  {
    exists i: nat :: i < |s.saves| && PaysIn(s, request, summaries, i)
  }

  /** The block of save `i` is below the stored bottom; while there is no bottom, every block is. */
  predicate Gone(s: State, i: nat)
    requires i < |s.saves|
  {
    s.bottom.None? || s.saves[i].block.number < s.bottom.value
  }

  // ---------- when the answer is wrong ----------

  lemma ConfirmedAnswers(s: State, request: Request, summaries: Summaries)
    requires Answer(s.tables, s.blocks, request, summaries).Ok?
    requires Answer(s.tables, s.blocks, request, summaries).value.status == Confirmed
    ensures Confirms(s, request, summaries)
  {
    var overflow, rows := SearchReached(s.tables, s.blocks, request, summaries);
  }

  /**
   In every run, through rotations and resets, an answer that there is no such payment is wrong exactly
   when a block of the range that was saved, and has a number below the stored bottom, has one.
   */
  lemma ConfirmedWrongIff(settings: Settings, events: seq<Event>, states: seq<State>, k: nat, request: Request, summaries: Summaries)
    requires Run(settings, events, states) && k < |states|
    requires var answer := Answer(states[k].tables, states[k].blocks, request, summaries); answer.Ok? && answer.value.status == Confirmed
    ensures Confirms(states[k], request, summaries)
    ensures var s := states[k];
            AnyPays(s, request, summaries) <==> exists i: nat :: i < |s.saves| && Gone(s, i) && PaysIn(s, request, summaries, i)
  {
    RunKeeps(settings, events, states, k);
    var s := states[k];
    ConfirmedAnswers(s, request, summaries);
    forall i: nat | i < |s.saves| && !Gone(s, i) ensures !PaysIn(s, request, summaries, i) {
      StoredDoesNotPay(s, settings.ranges, request, summaries, i);
    }
  }

  lemma StoredDoesNotPay(s: State, ranges: Ranges, request: Request, summaries: Summaries, i: nat)
    requires DiskFits(s, ranges) && Confirms(s, request, summaries) && i < |s.saves| && !Gone(s, i)
    ensures !PaysIn(s, request, summaries, i)
  {
    forall tx ensures !PaidIn(s.saves[i].block, tx, request, Overflow(s, request, summaries), summaries) {
      SoundForSaved(s, ranges, request, summaries, i, tx);
    }
  }

  // ---------- the caller can rely on nothing ----------

  /** What every run keeps of a database and of what was saved. */
  ghost predicate OnDisk(s: State, ranges: Ranges) {
    DiskFits(s, ranges) && SavesFit(s.saves)
  }

  ghost predicate SameDatabase(s: State, other: State) {
    other.tables == s.tables && other.blocks == s.blocks && other.savedN == s.savedN && other.bottom == s.bottom
  }

  function With(b: Block, txs: seq<Tx>): Block {
    b.(transactions := txs)
  }

  /** The same database, the block of save `i` having had the transactions `txs`. */
  function WithSaved(s: State, i: nat, txs: seq<Tx>): State
    requires i < |s.saves| && i < |s.history.older| + |s.history.chain|
  {
    var h, x := s.history, With(s.saves[i].block, txs);
    s.(saves := s.saves[i := s.saves[i].(block := x)],
       history := if i < |h.older| then h else h.(chain := h.chain[i - |h.older| := x]))
  }

  lemma OthersNumbered(chain: seq<Block>, first: nat, j: nat, txs: seq<Tx>)
    requires Numbered(chain, first) && j < |chain|
    ensures Numbered(chain[j := With(chain[j], txs)], first) && Headers(chain[j := With(chain[j], txs)]) == Headers(chain)
  {
    var other := chain[j := With(chain[j], txs)];
    forall i: nat | i < |other| ensures NumberedAt(other, first, i) {
      assert NumberedAt(chain, first, i);
    }
    assert forall i :: 0 <= i < |chain| ==> Header(other[i]) == Header(chain[i]);
  }

  lemma OthersOld(chain: seq<Block>, b: nat, ranges: Ranges, j: nat, txs: seq<Tx>)
    requires DroppedIsOld(chain, b, ranges) && j < |chain|
    ensures DroppedIsOld(chain[j := With(chain[j], txs)], b, ranges)
  {
    var other := chain[j := With(chain[j], txs)];
    SameTimes(chain, other);
    forall i: nat | i < b ensures IsOld(other, i, ranges) {
      assert IsOld(chain, i, ranges);
    }
  }

  lemma SameTimes(chain: seq<Block>, other: seq<Block>)
    requires |other| == |chain| && forall i :: 0 <= i < |chain| ==> other[i].timestamp == chain[i].timestamp
    ensures NonDecreasing(chain) <==> NonDecreasing(other)
  {
    if NonDecreasing(chain) {
      forall i: nat, j: nat | i <= j < |other| ensures NotLater(other, i, j) {
        assert NotLater(chain, i, j);
      }
    }
    if NonDecreasing(other) {
      forall i: nat, j: nat | i <= j < |chain| ensures NotLater(chain, i, j) {
        assert NotLater(other, i, j);
      }
    }
  }

  lemma OthersSaved(s: State, i: nat, txs: seq<Tx>)
    requires AllSaved(s.saves, s.history.older, s.history.chain) && SavesFit(s.saves) && i < |s.saves|
    ensures var o := WithSaved(s, i, txs); AllSaved(o.saves, o.history.older, o.history.chain) && SavesFit(o.saves)
  {
    var h, o := s.history, WithSaved(s, i, txs);
    forall n: nat | n < |o.saves| ensures SaveFits(o.saves[n]) {
      assert SaveFits(s.saves[n]);
    }
    forall n: nat | n < |h.older| ensures SavedBefore(o.saves, h.older, n) {
      assert SavedBefore(s.saves, h.older, n);
    }
    forall j: nat | j < |h.chain| ensures SavedSince(o.saves, h.older, o.history.chain, j) {
      assert SavedSince(s.saves, h.older, h.chain, j);
    }
  }

  lemma GoneIsDropped(s: State, ranges: Ranges, i: nat)
    requires DiskFits(s, ranges) && i < |s.saves| && Gone(s, i) && i >= |s.history.older|
    ensures i - |s.history.older| < s.history.b <= |s.history.chain| && s.history.chain[i - |s.history.older|] == s.saves[i].block
  {
    SinceIsNumbered(s.saves, s.history, i);
  }

  /** What a dropped block had in it shows nowhere in the database, nor in what is known about it. */
  lemma DroppedLeavesNoTrace(s: State, ranges: Ranges, i: nat, txs: seq<Tx>)
    requires OnDisk(s, ranges) && i < |s.saves| && Gone(s, i)
    ensures OnDisk(WithSaved(s, i, txs), ranges) && SameDatabase(s, WithSaved(s, i, txs))
  {
    var h, h2 := s.history, WithSaved(s, i, txs).history;
    OthersSaved(s, i, txs);
    if i >= |h.older| {
      var j := i - |h.older|;
      GoneIsDropped(s, ranges, i);
      assert h2.chain[h.a..] == h.chain[h.a..] && h2.chain[h.b..h.a] == h.chain[h.b..h.a];
      OthersNumbered(h.chain, h.first, j, txs);
      OthersOld(h.chain, h.b, ranges, j, txs);
      forall n: nat | n < |h2.older| ensures OlderAt(h2, n) {
        assert OlderAt(h, n);
      }
    }
  }

  ghost predicate AsRequested(tx: Tx, request: Request, summaries: Summaries)
    requires StandardReference(request.paymentReference)
  {
    tx.reference == Parse(UnPrefix0x(request.paymentReference)) && PaysEnough(tx, summaries, request.destinationAddress, request.amount)
  }

  /**
   So below the bottom the answer is worth nothing: whatever payment is asked for, the same answer is
   given about a database that has lost a block of the range with that payment in it.
   */
  lemma SameAnswerAlthoughPaid(s: State, ranges: Ranges, request: Request, summaries: Summaries, i: nat, tx: Tx)
    requires OnDisk(s, ranges) && Confirms(s, request, summaries) && i < |s.saves| && Gone(s, i)
    requires request.minimalBlockNumber <= s.saves[i].block.number < Overflow(s, request, summaries) && AsRequested(tx, request, summaries)
    ensures var other := WithSaved(s, i, [tx]);
            && OnDisk(other, ranges) && SameDatabase(s, other) && Confirms(other, request, summaries)
            && PaysIn(other, request, summaries, i)
  {
    DroppedLeavesNoTrace(s, ranges, i, [tx]);
    var other := WithSaved(s, i, [tx]);
    assert PaidIn(other.saves[i].block, tx, request, Overflow(other, request, summaries), summaries);
  }

  // ---------- the guard that is missing ----------

  lemma {:induction false} NumberedAmong(blocks: seq<BlockRow>, number: nat) returns (i: nat)
    requires BlockWithNumber(blocks, number).Some?
    ensures i < |blocks| && blocks[i].number == number
  {
    if blocks[0].number == number {
      i := 0;
    } else {
      i := NumberedAmong(blocks[1..], number);
      i := i + 1;
    }
  }

  /** The verifier does see to it that the minimal block has been saved at some time. */
  lemma MinimalIsSaved(s: State, ranges: Ranges, request: Request, summaries: Summaries) returns (i: nat)
    requires DiskFits(s, ranges) && Confirms(s, request, summaries)
    ensures i < |s.saves| && s.saves[i].block.number == request.minimalBlockNumber < Overflow(s, request, summaries)
  {
    MinimalHeader(s.tables, s.blocks, request, summaries);
    i := NumberedAmong(s.blocks, request.minimalBlockNumber);
    HeaderIsSaved(s.saves, s.blocks, s.history, i);
  }

  lemma MinimalHeader(tables: Tables, blocks: seq<BlockRow>, request: Request, summaries: Summaries)
    requires var answer := Answer(tables, blocks, request, summaries);
             answer.Ok? && answer.value.status == Confirmed && answer.value.firstOverflowBlock.Some?
    ensures BlockWithNumber(blocks, request.minimalBlockNumber).Some?
    ensures request.minimalBlockNumber < Answer(tables, blocks, request, summaries).value.firstOverflowBlock.value.number
  {}

  /**
   The guard is exact: an answer that there is no payment is right of every history that leaves this
   database exactly when there is a stored bottom and the minimal block is not below it.
   */
  lemma GuardIsExact(s: State, ranges: Ranges, request: Request, summaries: Summaries, tx: Tx)
    requires OnDisk(s, ranges) && Confirms(s, request, summaries) && AsRequested(tx, request, summaries)
    ensures (forall other :: OnDisk(other, ranges) && SameDatabase(s, other) ==> !AnyPays(other, request, summaries))
            <==> s.bottom.Some? && request.minimalBlockNumber >= s.bottom.value
  {
    if s.bottom.Some? && request.minimalBlockNumber >= s.bottom.value {
      forall other | OnDisk(other, ranges) && SameDatabase(s, other) ensures !AnyPays(other, request, summaries) {
        GuardedIsRight(other, ranges, request, summaries);
      }
    } else {
      var i := MinimalIsSaved(s, ranges, request, summaries);
      SameAnswerAlthoughPaid(s, ranges, request, summaries, i, tx);
      assert AnyPays(WithSaved(s, i, [tx]), request, summaries);
    }
  }

  lemma GuardedIsRight(s: State, ranges: Ranges, request: Request, summaries: Summaries)
    requires DiskFits(s, ranges) && Confirms(s, request, summaries)
    requires s.bottom.Some? && request.minimalBlockNumber >= s.bottom.value
    ensures !AnyPays(s, request, summaries)
  {
    forall i: nat | i < |s.saves| ensures !PaysIn(s, request, summaries, i) {
      if !Gone(s, i) { StoredDoesNotPay(s, ranges, request, summaries, i); }
    }
  }
}
