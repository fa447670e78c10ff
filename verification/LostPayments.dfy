/** Two runs in which a payment that was made is declared not to exist: after rotations, and after a reset. */
module LostPayments {
  import opened BelowBottom
  import opened ConfirmedSaves
  import opened Hex
  import opened IndexedQueries
  import opened IndexerRuns
  import opened IndexerState
  import opened Interlacing
  import opened NonExistence
  import opened Storage
  import opened Wrappers

  const NARROW := Settings(Ranges(0, 1), 1, true)

  // ---------- runs that sync block after block ----------

  ghost predicate BlocksSaved(saves: seq<Save>, saved: seq<Block>) {
    |saves| == |saved| && forall i :: 0 <= i < |saved| ==> saves[i].block == saved[i]
  }

  /** Syncing, about to turn to the next block. */
  ghost predicate Ready(s: State, h: History, rotor: Rotor, saved: seq<Block>) {
    && Inv(s, NARROW.ranges) && s.n + 1 == h.first + |h.chain| && s.t == 10 && s.isSyncing && !s.waitNp1 && !s.attempting && !s.stopped
    && s.prepared == map[] && s.processors == [] && s.rotor == rotor
    && s.history == h && h.active == rotor.index && BlocksSaved(s.saves, saved)
  }

  function NextProcessor(x: Block): Processor {
    Processor(x.number, x.hash)
  }

  function CleanHistory(first: nat, older: seq<BlockRow>): History {
    History([], first, older, 0, 0, 0)
  }

  lemma NothingStored(s: State, ranges: Ranges)
    requires DiskFits(s, ranges) && s.history.chain == []
    ensures s.tables == Tables([], []) && s.savedN == 0 && s.bottom == None && s.blocks == s.history.older
  {
    var none: seq<Block> := [];
    assert s.history.chain[s.history.a..] == none && s.history.chain[s.history.b..s.history.a] == none;
    assert s.history.older + Headers(none) == s.history.older;
    assert s.tables.Get(0) == [] && s.tables.Get(1) == [];
  }

  /** An indexer started on a clean database is ready for the first block. */
  lemma StartsReady(s: State, syncStart: nat, saved: seq<Block>) returns (s2: State)
    requires Inv(s, NARROW.ranges) && s.history.chain == [] && Enabled(s, NARROW, Restart(10, syncStart)) && BlocksSaved(s.saves, saved)
    ensures StepOf(NARROW, s, Restart(10, syncStart), s2)
    ensures Ready(s2, CleanHistory(syncStart + 1, s.history.older), FRESH, saved)
  {
    NothingStored(s, NARROW.ranges);
    StepKeeps(s, NARROW, Restart(10, syncStart));
    s2 := Apply(s, NARROW, Restart(10, syncStart));
  }

  lemma WaitsForNext(s: State, h: History, rotor: Rotor, saved: seq<Block>, x: Block) returns (w: State)
    requires Ready(s, h, rotor, saved) && rotor.index <= 1 && x.number == s.n + 1 < 9
    ensures StepOf(NARROW, s, Sync(NextProcessor(x), []), w) && Inv(w, NARROW.ranges)
    ensures w == s.(np1Hash := x.hash, processors := [NextProcessor(x)], waitNp1 := true)
  {
    w := Apply(s, NARROW, Sync(NextProcessor(x), []));
    StepKeeps(s, NARROW, Sync(NextProcessor(x), []));
    SyncWaits(s, x);
  }

  lemma SyncWaits(s: State, x: Block)
    requires s.rotor.index <= 1 && s.t == 10 && x.number == s.n + 1 < 9 && s.prepared == map[] && s.processors == [] && !s.attempting
    ensures SyncLoop(s, NARROW, NextProcessor(x), []) == s.(np1Hash := x.hash, processors := [NextProcessor(x)], waitNp1 := true)
  {
    assert Process([], NextProcessor(x)) == [NextProcessor(x)];
    assert ProcessAll([NextProcessor(x)], []) == [NextProcessor(x)];
  }

  lemma CheckStays(s: State)
    requires !CheckDatabaseContinuous(s).stopped
    ensures CheckDatabaseContinuous(s) == s
  {}

  lemma RotatedHistory(w: State, ranges: Ranges, x: Block)
    requires w.rotor.index <= 1 && !RotateTables(w, ranges, x).stopped
    ensures var s2, h, turned := RotateTables(w, ranges, x), w.history, Rotates(w.rotor, x.timestamp, x.number);
            && s2.rotor == NextRotor(w.rotor, ranges, x.timestamp, x.number)
            && s2.history == (if turned then h.(b := h.a, a := |h.chain|, active := s2.rotor.index) else h)
  {
    if Rotates(w.rotor, x.timestamp, x.number) {
      var turned := IndexerRuns.Turned(w, ranges, x);
      BottomFrame(turned);
      CheckStays(SaveBottomState(turned));
    }
  }

  /** Where saving `x` leads to. */
  function Turned(h: History, rotor: Rotor, x: Block): History
    requires rotor.index <= 1
  {
    var turned := Rotates(rotor, x.timestamp, x.number);
    h.(chain := h.chain + [x], b := if turned then h.a else h.b, a := if turned then |h.chain| + 1 else h.a,
       active := NextRotor(rotor, NARROW.ranges, x.timestamp, x.number).index)
  }

  lemma SaveTurns(s: State, x: Block)
    requires s.rotor.index <= 1 && x.number == s.n + 1 && !BlockSave(s, NARROW.ranges, x).stopped && s.history.active == s.rotor.index
    ensures var s2 := BlockSave(s, NARROW.ranges, x);
            && s2.rotor == NextRotor(s.rotor, NARROW.ranges, x.timestamp, x.number)
            && s2.history == Turned(s.history, s.rotor, x)
  {
    var w0 := WriteBlock(s, x);
    var w1 := if NeedsBottom(w0) then SaveBottomState(w0) else w0;
    assert w1 == w0.(bottom := w1.bottom, bottomTime := w1.bottomTime);
    var w := w1.(processors := Above(w1.processors, w1.n));
    RotatedHistory(w, NARROW.ranges, x);
  }

  lemma ReadyAgain(s: State, w: State, s2: State, h: History, rotor: Rotor, saved: seq<Block>, x: Block)
    requires Ready(s, h, rotor, saved) && rotor.index <= 1 && x.number == s.n + 1
    requires w == s.(np1Hash := x.hash, processors := [NextProcessor(x)], waitNp1 := true)
    requires SameLoops(w, s2) && s2.n == w.n + 1 && s2.saves == w.saves + [Save(w.n, w.np1Hash, x)] && s2.processors == [] && !s2.stopped
    requires s2.history == Turned(h, rotor, x) && s2.rotor == NextRotor(rotor, NARROW.ranges, x.timestamp, x.number)
    requires Inv(s2.(waitNp1 := false), NARROW.ranges)
    ensures Ready(s2.(waitNp1 := false), s2.history, s2.rotor, saved + [x])
  {}

  lemma SavesNext(s: State, h: History, rotor: Rotor, saved: seq<Block>, x: Block, w: State) returns (s2: State)
    requires Ready(s, h, rotor, saved) && rotor.index <= 1 && x.number == s.n + 1 && Inv(w, NARROW.ranges)
    requires w == s.(np1Hash := x.hash, processors := [NextProcessor(x)], waitNp1 := true)
    ensures StepOf(NARROW, w, Completed(x, NextProcessor(x)), s2)
    ensures Ready(s2, Turned(h, rotor, x), NextRotor(rotor, NARROW.ranges, x.timestamp, x.number), saved + [x])
  {
    s2 := Apply(w, NARROW, Completed(x, NextProcessor(x)));
    StepKeeps(w, NARROW, Completed(x, NextProcessor(x)));
    SaveKeeps(w, NARROW.ranges, x);
    SaveFrame(w, NARROW.ranges, x);
    SaveTurns(w, x);
    assert Above([NextProcessor(x)], x.number) == [];
    ReadyAgain(s, w, BlockSave(w, NARROW.ranges, x), h, rotor, saved, x);
  }

  /** A run that has come so far, and is about to turn to the next block. */
  ghost predicate ReadyRun(events: seq<Event>, states: seq<State>, h: History, rotor: Rotor, saved: seq<Block>) {
    Run(NARROW, events, states) && Ready(states[|events|], h, rotor, saved)
  }

  lemma RunLonger(events: seq<Event>, states: seq<State>, e: Event, s2: State)
    requires Run(NARROW, events, states) && StepOf(NARROW, states[|events|], e, s2)
    ensures Run(NARROW, events + [e], states + [s2])
  {
    forall k | 0 <= k < |events + [e]| ensures StepOf(NARROW, (states + [s2])[k], (events + [e])[k], (states + [s2])[k + 1]) {
      if k < |events| { assert StepOf(NARROW, states[k], events[k], states[k + 1]); }
    }
  }

  lemma SaveOne(events: seq<Event>, states: seq<State>, h: History, rotor: Rotor, saved: seq<Block>, x: Block,
                h2: History, rotor2: Rotor, saved2: seq<Block>)
      returns (events2: seq<Event>, states2: seq<State>)
    requires ReadyRun(events, states, h, rotor, saved) && rotor.index <= 1 && x.number == h.first + |h.chain| < 9
    requires h2 == Turned(h, rotor, x) && rotor2 == NextRotor(rotor, NARROW.ranges, x.timestamp, x.number) && saved2 == saved + [x]
    ensures ReadyRun(events2, states2, h2, rotor2, saved2)
  {
    var s := states[|events|];
    var w := WaitsForNext(s, h, rotor, saved, x);
    var s2 := SavesNext(s, h, rotor, saved, x, w);
    RunLonger(events, states, Sync(NextProcessor(x), []), w);
    RunLonger(events + [Sync(NextProcessor(x), [])], states + [w], Completed(x, NextProcessor(x)), s2);
    events2 := events + [Sync(NextProcessor(x), [])] + [Completed(x, NextProcessor(x))];
    states2 := states + [w] + [s2];
  }

  lemma FirstReady() returns (events: seq<Event>, states: seq<State>)
    ensures ReadyRun(events, states, CleanHistory(1, []), FRESH, [])
  {
    CleanFits(NARROW.ranges);
    var s1 := StartsReady(CLEAN, 0, []);
    events, states := [Restart(10, 0)], [CLEAN, s1];
  }

  lemma AfterOne(x: Block) returns (events: seq<Event>, states: seq<State>)
    requires x.number == 1 && x.timestamp == 10
    ensures ReadyRun(events, states, History([x], 1, [], 0, 0, 0), Rotor(0, 10, 2), [x])
  {
    events, states := FirstReady();
    events, states := SaveOne(events, states, CleanHistory(1, []), FRESH, [], x, History([x], 1, [], 0, 0, 0), Rotor(0, 10, 2), [x]);
  }

  // ---------- what the verifier answers ----------

  lemma {:induction false} NothingMatches(q: TransactionQuery, rows: seq<Row>)
    requires forall r :: r in rows ==> !Passes(q, r)
    ensures Matching(q, rows) == []
  {
    if rows != [] {
      var front := rows[..|rows| - 1];
      assert rows == front + [rows[|rows| - 1]];
      NothingMatches(q, front);
    }
  }

  lemma EmptyBlockHasNoReference(b: Block, q: TransactionQuery)
    requires b.transactions == [] && q.paymentReference.Some? && q.paymentReference.value != []
    ensures Matching(q, RowsOf([b])) == []
  {
    var none: seq<Block> := [];
    assert [b][..0] == none && RowsOf(none) == [];
    assert RowsOf([b]) == [] + BlockRows(b) == BlockRows(b);
    NothingMatches(q, RowsOf([b]));
  }

  /** Asking for a payment in block 1, the deadline being that block, when only block `b` is left in the tables. */
  lemma AnswerOnDatabase(tables: Tables, h: seq<BlockRow>, b: Block, overflow: BlockRow, request: Request, summaries: Summaries)
    requires StandardReference(request.paymentReference) && !ZeroReference(request.paymentReference)
    requires request.minimalBlockNumber == request.deadlineBlockNumber == 1 && request.deadlineTimestamp == 10
    requires FirstOverflow(h, 10, 1) == Some(overflow) && BlockWithNumber(h, 1).Some?
    requires b.transactions == [] && (tables == Tables([], RowsOf([b])) || tables == Tables(RowsOf([b]), []))
    ensures Answer(tables, h, request, summaries) == Ok(Verification(Confirmed, BlockWithNumber(h, 1), Some(overflow)))
  {
    var q := ReferencedQuery(1, overflow.number, Parse(UnPrefix0x(request.paymentReference)));
    EmptyBlockHasNoReference(b, q);
    NothingMatches(q, []);
    assert Matching(q, tables.t0) + Matching(q, tables.t1) == [];
    assert TransactionAnswer(tables, h, q).Ok? && TransactionAnswer(tables, h, q).value.result == [];
  }

  /** The request, and a payment it asks for. */
  function TheRequest(reference: string): Request {
    Request(1, 1, 10, 7, 5, reference)
  }

  ghost predicate Pays(tx: Tx, reference: string, summaries: Summaries) {
    StandardReference(reference) && !ZeroReference(reference)
    && tx == Tx(1, Parse(UnPrefix0x(reference)), Some([7])) && summaries(tx, 0) == Success(5, false)
  }

  /** The answer is Confirmed, though the first block saved has the payment. */
  ghost predicate WronglyConfirmed(s: State, reference: string, summaries: Summaries) {
    Confirms(s, TheRequest(reference), summaries) && |s.saves| > 0 && PaysIn(s, TheRequest(reference), summaries, 0)
  }

  lemma FirstSavePays(s: State, tx: Tx, reference: string, summaries: Summaries, x: Block)
    requires Pays(tx, reference, summaries) && x == Block(1, 1, 10, [tx]) && |s.saves| > 0 && s.saves[0].block == x
    requires Confirms(s, TheRequest(reference), summaries) && Overflow(s, TheRequest(reference), summaries) > 1
    ensures WronglyConfirmed(s, reference, summaries)
  {
    assert FirstOutput([7], 7) == Some(0);
    assert PaidIn(s.saves[0].block, tx, TheRequest(reference), Overflow(s, TheRequest(reference), summaries), summaries);
  }

  // ---------- after two rotations ----------

  function Dropping(txs: seq<Tx>): seq<Block> {
    [Block(1, 1, 10, txs), Block(2, 2, 20, []), Block(3, 3, 30, [])]
  }

  function DroppedHistory(txs: seq<Tx>): History {
    History(Dropping(txs), 1, [], 2, 3, 0)
  }

  lemma DroppingTurns(txs: seq<Tx>)
    ensures var x := Dropping(txs);
            && Turned(History([x[0]], 1, [], 0, 0, 0), Rotor(0, 10, 2), x[1]) == History([x[0], x[1]], 1, [], 0, 2, 1)
            && NextRotor(Rotor(0, 10, 2), NARROW.ranges, 20, 2) == Rotor(1, 20, 3)
            && Turned(History([x[0], x[1]], 1, [], 0, 2, 1), Rotor(1, 20, 3), x[2]) == DroppedHistory(txs)
            && NextRotor(Rotor(1, 20, 3), NARROW.ranges, 30, 3) == Rotor(0, 30, 4)
  {}

  /** Three blocks are synced, and the tables turned at the second and at the third: the first two are gone. */
  lemma RunThatDrops(txs: seq<Tx>) returns (events: seq<Event>, states: seq<State>)
    ensures ReadyRun(events, states, DroppedHistory(txs), Rotor(0, 30, 4), Dropping(txs))
  {
    var x := Dropping(txs);
    DroppingTurns(txs);
    events, states := AfterOne(x[0]);
    events, states := SaveOne(events, states, History([x[0]], 1, [], 0, 0, 0), Rotor(0, 10, 2), [x[0]], x[1],
                              History([x[0], x[1]], 1, [], 0, 2, 1), Rotor(1, 20, 3), [x[0], x[1]]);
    events, states := SaveOne(events, states, History([x[0], x[1]], 1, [], 0, 2, 1), Rotor(1, 20, 3), [x[0], x[1]], x[2],
                              DroppedHistory(txs), Rotor(0, 30, 4), x);
  }

  lemma OverflowOfThree(h: seq<BlockRow>)
    requires h == [BlockRow(1, 1, 10), BlockRow(2, 2, 20), BlockRow(3, 3, 30)]
    ensures FirstOverflow(h, 10, 1) == Some(h[1]) && BlockWithNumber(h, 1) == Some(h[0])
  {
    assert h[1..][1..] == [h[2]] && [h[2]][1..] == [];
    assert FirstOverflow([h[2]], 10, 1) == Some(h[2]);
    assert FirstOverflow(h[1..], 10, 1) == Some(h[1]);
  }

  lemma DatabaseAfterDrop(s: State, txs: seq<Tx>)
    requires DiskFits(s, NARROW.ranges) && s.history == DroppedHistory(txs)
    ensures s.blocks == [BlockRow(1, 1, 10), BlockRow(2, 2, 20), BlockRow(3, 3, 30)]
    ensures s.tables == Tables([], RowsOf([Dropping(txs)[2]]))
  {
    var chain := Dropping(txs);
    assert s.blocks == Headers(chain) by { assert [] + Headers(chain) == Headers(chain); }
    var none: seq<Block> := [];
    assert chain[3..] == none && chain[2..3] == [chain[2]] && RowsOf(none) == [];
  }

  /** In a run a payment that was made is declared not to exist, the minimal block being the one it was made in. */
  lemma BelowBottomUnsound(tx: Tx, reference: string, summaries: Summaries)
    requires Pays(tx, reference, summaries)
    ensures exists events, states: seq<State>, k: nat ::
              Run(NARROW, events, states) && k < |states| && states[k].bottom == Some(3) && WronglyConfirmed(states[k], reference, summaries)
  {
    var events, states := RunThatDrops([tx]);
    var s := states[|events|];
    DatabaseAfterDrop(s, [tx]);
    OverflowOfThree(s.blocks);
    AnswerOnDatabase(s.tables, s.blocks, Dropping([tx])[2], s.blocks[1], TheRequest(reference), summaries);
    FirstSavePays(s, tx, reference, summaries, Dropping([tx])[0]);
    assert Run(NARROW, events, states) && s.bottom == Some(3) && WronglyConfirmed(s, reference, summaries);
  }

  // ---------- after a reset ----------

  /** A restart that finds the database too far behind resets it, but leaves the headers. */
  lemma ResetsBehind(s: State, h: History, rotor: Rotor, saved: seq<Block>, syncStart: nat) returns (s2: State)
    requires Ready(s, h, rotor, saved) && h.chain != [] && 0 < h.first + |h.chain| - 1 < syncStart && Enabled(s, NARROW, Restart(10, syncStart))
    ensures StepOf(NARROW, s, Restart(10, syncStart), s2) && Inv(s2, NARROW.ranges)
    ensures s2.history == CleanHistory(h.first + |h.chain|, h.older + Headers(h.chain)) && BlocksSaved(s2.saves, saved)
  {
    s2 := Apply(s, NARROW, Restart(10, syncStart));
    StepKeeps(s, NARROW, Restart(10, syncStart));
    BottomUnchanged(Halted(s), NARROW.ranges);
    TakeUpKeeps(SaveBottomState(Halted(s)), NARROW.ranges);
    var up := TakeUp(SaveBottomState(Halted(s)), NARROW.ranges);
    CheckPasses(up, up.history, NARROW.ranges);
  }

  function Late(): Block {
    Block(4, 4, 40, [])
  }

  function ResetHistory(x: Block): History {
    History([Late()], 4, [Header(x)], 0, 0, 0)
  }

  lemma AfterReset(x: Block) returns (events: seq<Event>, states: seq<State>, s1: State)
    requires x.number == 1 && x.timestamp == 10
    ensures Run(NARROW, events, states) && states[|events|] == s1 && Inv(s1, NARROW.ranges)
    ensures s1.history == CleanHistory(2, [Header(x)]) && BlocksSaved(s1.saves, [x])
  {
    events, states := AfterOne(x);
    s1 := ResetsBehind(states[|events|], History([x], 1, [], 0, 0, 0), Rotor(0, 10, 2), [x], 3);
    RunLonger(events, states, Restart(10, 3), s1);
    events, states := events + [Restart(10, 3)], states + [s1];
    assert [] + Headers([x]) == [Header(x)];
  }

  /** Block 1 is synced; two restarts then want to sync from block 3 on: the first resets the database, the second begins a new one. */
  lemma RunThatResets(x: Block) returns (events: seq<Event>, states: seq<State>)
    requires x.number == 1 && x.timestamp == 10
    ensures ReadyRun(events, states, ResetHistory(x), Rotor(0, 40, 5), [x, Late()])
  {
    var s1;
    events, states, s1 := AfterReset(x);
    NothingStored(s1, NARROW.ranges);
    var s2 := StartsReady(s1, 3, [x]);
    RunLonger(events, states, Restart(10, 3), s2);
    events, states := events + [Restart(10, 3)], states + [s2];
    events, states := SaveOne(events, states, CleanHistory(4, [Header(x)]), FRESH, [x], Late(), ResetHistory(x), Rotor(0, 40, 5), [x, Late()]);
  }

  lemma OverflowOfTwo(h: seq<BlockRow>)
    requires h == [BlockRow(1, 1, 10), BlockRow(4, 4, 40)]
    ensures FirstOverflow(h, 10, 1) == Some(h[1]) && BlockWithNumber(h, 1) == Some(h[0])
  {
    assert h[1..] == [h[1]] && [h[1]][1..] == [];
    assert FirstOverflow([h[1]], 10, 1) == Some(h[1]);
  }

  lemma DatabaseAfterReset(s: State, x: Block)
    requires DiskFits(s, NARROW.ranges) && s.history == ResetHistory(x) && x.number == 1 && x.timestamp == 10 && x.hash == 1
    ensures s.blocks == [BlockRow(1, 1, 10), BlockRow(4, 4, 40)]
    ensures s.tables == Tables(RowsOf([Late()]), [])
  {
    var chain := [Late()];
    var none: seq<Block> := [];
    assert s.blocks == [Header(x)] + Headers(chain) && Headers(chain) == [Header(Late())];
    assert chain[0..] == chain && chain[0..0] == none && RowsOf(none) == [];
  }

  /** In another run it is declared not to exist after a reset, which leaves the header of the block it was made in. */
  lemma ResetUnsound(tx: Tx, reference: string, summaries: Summaries)
    requires Pays(tx, reference, summaries)
    ensures exists events, states: seq<State>, k: nat ::
              Run(NARROW, events, states) && k < |states| && states[k].bottom == Some(4) && WronglyConfirmed(states[k], reference, summaries)
  {
    var x := Block(1, 1, 10, [tx]);
    var events, states := RunThatResets(x);
    var s := states[|events|];
    DatabaseAfterReset(s, x);
    OverflowOfTwo(s.blocks);
    AnswerOnDatabase(s.tables, s.blocks, Late(), s.blocks[1], TheRequest(reference), summaries);
    FirstSavePays(s, tx, reference, summaries, x);
    assert Run(NARROW, events, states) && s.bottom == Some(4) && WronglyConfirmed(s, reference, summaries);
  }
}
