/** What every run of the indexer keeps, through any order of completions, hash changes and restarts. */
module IndexerRuns {
  import opened Continuity
  import opened IndexerState
  import opened Interlacing
  import opened Storage
  import opened TableRecovery
  import opened Wrappers

  // ---------- the invariant ----------

  function Headers(chain: seq<Block>): (r: seq<BlockRow>)
    ensures |r| == |chain|
  {
    seq(|chain|, i requires 0 <= i < |chain| => Header(chain[i]))
  }

  ghost predicate OlderAt(h: History, i: nat)
    requires i < |h.older|
  {
    h.older[i].number < h.first
  }

  ghost predicate TablesFit(tables: Tables, h: History, ranges: Ranges) {
    && h.first >= 1 && Numbered(h.chain, h.first)
    && Stored(tables, h.active, h.chain, h.b, h.a)
    && DroppedIsOld(h.chain, h.b, ranges)
  }

  ghost predicate BlocksFit(blocks: seq<BlockRow>, h: History) {
    blocks == h.older + Headers(h.chain) && forall i: nat :: i < |h.older| ==> OlderAt(h, i)
  }

  ghost predicate EntriesFit(savedN: nat, bottom: Option<nat>, h: History) {
    if h.chain == [] then savedN == 0 && bottom == None && h.b == h.a == 0
    else savedN + 1 == h.first + |h.chain| && bottom == Some(h.first + h.b)
  }

  ghost predicate AllNumbered(blocks: seq<Block>, k: nat) {
    forall i :: 0 <= i < |blocks| ==> blocks[i].number == k
  }

  /** Processed blocks are kept under their own number. */
  ghost predicate PreparedFit(prepared: map<nat, seq<Block>>) {
    forall k :: k in prepared ==> AllNumbered(prepared[k], k)
  }

  ghost predicate SaveFits(s: Save) {
    s.block.number == s.n + 1 && s.block.hash == s.expectedHash
  }

  ghost predicate SavesFit(saves: seq<Save>) {
    forall i: nat :: i < |saves| ==> SaveFits(saves[i])
  }

  ghost predicate SavedBefore(saves: seq<Save>, older: seq<BlockRow>, i: nat)
    requires i < |older| && i < |saves|
  {
    older[i] == Header(saves[i].block)
  }

  ghost predicate SavedSince(saves: seq<Save>, older: seq<BlockRow>, chain: seq<Block>, j: nat)
    requires j < |chain| && |older| + j < |saves|
  {
    chain[j] == saves[|older| + j].block
  }

  /** The headers from before the last clean start and the blocks since then are all that was ever saved. */
  ghost predicate AllSaved(saves: seq<Save>, older: seq<BlockRow>, chain: seq<Block>) {
    && |saves| == |older| + |chain|
    && (forall i: nat :: i < |older| ==> SavedBefore(saves, older, i))
    && forall j: nat :: j < |chain| ==> SavedSince(saves, older, chain, j)
  }

  ghost predicate VolatileFits(s: State, ranges: Ranges) {
    && s.history.active == s.rotor.index
    && RotorFits(s.rotor, s.history.chain, s.history.b, s.history.a, ranges, s.history.first)
    && s.n + 1 == s.history.first + |s.history.chain|
    && (s.bottomTime.Some? ==> s.history.chain != [])
    && PreparedFit(s.prepared) && !s.failed
  }

  ghost predicate DiskFits(s: State, ranges: Ranges) {
    && TablesFit(s.tables, s.history, ranges) && BlocksFit(s.blocks, s.history)
    && EntriesFit(s.savedN, s.bottom, s.history) && AllSaved(s.saves, s.history.older, s.history.chain)
  }

  ghost predicate Inv(s: State, ranges: Ranges) {
    DiskFits(s, ranges) && SavesFit(s.saves) && s.rotor.index <= 1 && !s.failed && (!s.stopped ==> VolatileFits(s, ranges))
  }

  // ---------- bottom and continuity ----------

  lemma LeastOfRows(blocks: seq<Block>, first: nat)
    requires first >= 1 && Numbered(blocks, first)
    ensures LeastNumber(RowsOf(blocks)) == if blocks == [] then None else Some(first)
  {
    if blocks != [] {
      NonEmpty(blocks);
      assert NumberedAt(blocks, first, 0);
      var numbers := Numbers(RowsOf(blocks));
      NumbersAre(blocks, first, first);
      NumbersAre(blocks, first, MinOf(numbers));
    }
  }

  lemma LeastOfPart(chain: seq<Block>, first: nat, lo: nat, hi: nat)
    requires first >= 1 && Numbered(chain, first) && lo <= hi <= |chain|
    ensures LeastNumber(RowsOf(chain[lo..hi])) == if lo == hi then None else Some(first + lo)
  {
    SliceNumbered(chain, first, lo, hi);
    LeastOfRows(chain[lo..hi], first + lo);
  }

  lemma LeastOfRest(chain: seq<Block>, first: nat, lo: nat)
    requires first >= 1 && Numbered(chain, first) && lo <= |chain|
    ensures LeastNumber(RowsOf(chain[lo..])) == if lo == |chain| then None else Some(first + lo)
  {
    assert chain[lo..|chain|] == chain[lo..];
    LeastOfPart(chain, first, lo, |chain|);
  }

  lemma LeastInTables(tables: Tables, active: nat, chain: seq<Block>, first: nat, b: nat, a: nat)
    requires first >= 1 && Numbered(chain, first) && Stored(tables, active, chain, b, a)
    ensures LeastNumber(tables.Get(active)) == if a == |chain| then None else Some(first + a)
    ensures LeastNumber(tables.Get(1 - active)) == if a == b then None else Some(first + b)
  {
    LeastOfRest(chain, first, a);
    LeastOfPart(chain, first, b, a);
  }

  /** The least number of a table; a table in which it is zero counts as empty. */
  ghost predicate LeastIs(rows: seq<Row>, m: nat) {
    m != 0 && HasNumber(rows, m) && forall i :: 0 <= i < |rows| ==> m <= rows[i].blockNumber
  }

  lemma LeastMeans(rows: seq<Row>, m: nat)
    ensures LeastNumber(rows) == Some(m) <==> LeastIs(rows, m)
  {
    if rows != [] {
      var least := MinOf(Numbers(rows));
      NumberInRows(rows, least);
      NumberInRows(rows, m);
      forall i | 0 <= i < |rows| ensures least <= rows[i].blockNumber {
        assert Numbers(rows)[i] in Numbers(rows);
      }
    }
  }

  /** Whatever the tables hold, their bottom is the smaller of their least numbers. */
  lemma BottomMeans(tables: Tables, m: nat)
    ensures BottomOf(tables) == Some(m) <==> (LeastIs(tables.t0, m) && forall k: nat :: LeastIs(tables.t1, k) ==> m <= k)
                                             || (LeastIs(tables.t1, m) && forall k: nat :: LeastIs(tables.t0, k) ==> m <= k)
  {
    forall k: nat ensures (LeastNumber(tables.t0) == Some(k) <==> LeastIs(tables.t0, k)) && (LeastNumber(tables.t1) == Some(k) <==> LeastIs(tables.t1, k)) {
      LeastMeans(tables.t0, k);
      LeastMeans(tables.t1, k);
    }
  }

  /** The time found is that of the first block saved under the number. */
  lemma {:induction false} TimeMeans(blocks: seq<BlockRow>, number: nat, time: nat)
    ensures TimeOf(blocks, number) == Some(time) <==>
              exists i :: 0 <= i < |blocks| && blocks[i].number == number && blocks[i].timestamp == time
                          && forall j :: 0 <= j < i ==> blocks[j].number != number
  {
    if blocks != [] && blocks[0].number != number {
      var rest := blocks[1..];
      TimeMeans(rest, number, time);
      if TimeOf(blocks, number) == Some(time) {
        var i :| 0 <= i < |rest| && rest[i].number == number && rest[i].timestamp == time && forall j :: 0 <= j < i ==> rest[j].number != number;
        assert blocks[i + 1] == rest[i];
        assert forall j :: 0 < j < i + 1 ==> blocks[j] == rest[j - 1];
      }
      if i :| 0 <= i < |blocks| && blocks[i].number == number && blocks[i].timestamp == time && forall j :: 0 <= j < i ==> blocks[j].number != number {
        assert rest[i - 1] == blocks[i];
        assert forall j :: 0 <= j < i - 1 ==> rest[j] == blocks[j + 1];
      }
    }
  }

  /** `m` is the bottom of the tables, and `time` that of the first block saved under that number. */
  ghost predicate BottomIs(tables: Tables, blocks: seq<BlockRow>, m: nat, time: nat) {
    && ((LeastIs(tables.t0, m) && forall k: nat :: LeastIs(tables.t1, k) ==> m <= k)
        || (LeastIs(tables.t1, m) && forall k: nat :: LeastIs(tables.t0, k) ==> m <= k))
    && exists i :: 0 <= i < |blocks| && blocks[i].number == m && blocks[i].timestamp == time && forall j :: 0 <= j < i ==> blocks[j].number != m
  }

  /** The bottom entries are set to the bottom of the tables and its time, if there are such, and nothing else is changed. */
  lemma SaveBottomMeans(s: State)
    ensures var s2 := SaveBottomState(s);
            && (forall m, time :: BottomIs(s.tables, s.blocks, m, time) ==> s2 == s.(bottom := Some(m), bottomTime := Some(time)))
            && ((forall m, time :: !BottomIs(s.tables, s.blocks, m, time)) ==> s2 == s)
  {
    forall m: nat, time: nat
      ensures BottomIs(s.tables, s.blocks, m, time) <==> BottomOf(s.tables) == Some(m) && TimeOf(s.blocks, m) == Some(time)
    {
      BottomMeans(s.tables, m);
      TimeMeans(s.blocks, m, time);
    }
  }

  /** Whatever the tables hold, the check resets the database exactly if from the saved bottom on one of them has a gap. */
  lemma ResetsIff(s: State)
    requires !s.stopped
    ensures var s2 := CheckDatabaseContinuous(s);
            && (s2.stopped <==> s.bottom.Some? && s.bottom.value != 0
                                && (GapFrom(s.tables.t0, s.bottom.value) || GapFrom(s.tables.t1, s.bottom.value)))
            && (!s2.stopped ==> s2 == s)
            && (s2.stopped ==> s2.tables == Tables([], []) && s2.savedN == 0 && s2.bottom == None && s2.blocks == s.blocks
                               && s2.rotor == Rotor(0, NOT_SET, NOT_SET))
  {
    if s.bottom.Some? {
      QueryFindsGaps(s.tables.t0, s.bottom.value);
      QueryFindsGaps(s.tables.t1, s.bottom.value);
    }
  }

  /** The bottom of the tables is the first block still stored. */
  lemma BottomIsFirstStored(tables: Tables, h: History, ranges: Ranges)
    requires TablesFit(tables, h, ranges)
    ensures BottomOf(tables) == if h.b == |h.chain| then None else Some(h.first + h.b)
  {
    LeastInTables(tables, h.active, h.chain, h.first, h.b, h.a);
    assert tables.Get(h.active) == tables.t0 || tables.Get(h.active) == tables.t1;
  }

  lemma {:induction false} TimeFound(blocks: seq<BlockRow>, number: nat, i: nat)
    requires i < |blocks| && blocks[i].number == number
    ensures TimeOf(blocks, number).Some?
  {
    if blocks[0].number != number { TimeFound(blocks[1..], number, i - 1); }
  }

  lemma BottomSaved(s: State, h: History, ranges: Ranges)
    requires TablesFit(s.tables, h, ranges) && BlocksFit(s.blocks, h) && h.b < |h.chain|
    ensures SaveBottomState(s) == s.(bottomTime := SaveBottomState(s).bottomTime, bottom := Some(h.first + h.b))
    ensures SaveBottomState(s).bottomTime.Some?
  {
    BottomIsFirstStored(s.tables, h, ranges);
    assert NumberedAt(h.chain, h.first, h.b);
    TimeFound(s.blocks, h.first + h.b, |h.older| + h.b);
  }

  /** The continuity check finds nothing missing in either table, whatever bottom it starts from. */
  lemma TablesHaveNoGaps(tables: Tables, h: History, ranges: Ranges, bottom: nat)
    requires TablesFit(tables, h, ranges)
    ensures MissingIn(tables.t0, bottom) in [None, Some(0)] && MissingIn(tables.t1, bottom) in [None, Some(0)]
  {
    assert h.chain[h.a..|h.chain|] == h.chain[h.a..];
    PartHasNoGaps(h.chain, h.first, h.a, |h.chain|, bottom);
    PartHasNoGaps(h.chain, h.first, h.b, h.a, bottom);
    assert MissingIn(tables.Get(h.active), bottom) in [None, Some(0)] && MissingIn(tables.Get(1 - h.active), bottom) in [None, Some(0)];
  }

  lemma PartHasNoGaps(chain: seq<Block>, first: nat, lo: nat, hi: nat, bottom: nat)
    requires Numbered(chain, first) && lo <= hi <= |chain|
    ensures MissingIn(RowsOf(chain[lo..hi]), bottom) in [None, Some(0)]
  {
    SliceNumbered(chain, first, lo, hi);
    RowsHaveNoGaps(chain[lo..hi], first + lo, bottom);
  }

  /** So the check never resets a database the indexer has written. */
  lemma CheckPasses(s: State, h: History, ranges: Ranges)
    requires TablesFit(s.tables, h, ranges)
    ensures CheckDatabaseContinuous(s) == s
  {
    if s.bottom.Some? { TablesHaveNoGaps(s.tables, h, ranges, s.bottom.value); }
  }

  // ---------- saving ----------

  lemma BlocksAppend(blocks: seq<BlockRow>, h: History, x: Block)
    requires BlocksFit(blocks, h)
    ensures BlocksFit(blocks + [Header(x)], h.(chain := h.chain + [x]))
  {
    var h1 := h.(chain := h.chain + [x]);
    assert Headers(h1.chain) == Headers(h.chain) + [Header(x)];
    assert h.older + Headers(h.chain) + [Header(x)] == h.older + (Headers(h.chain) + [Header(x)]);
    forall i: nat | i < |h1.older| ensures OlderAt(h1, i) {
      assert OlderAt(h, i);
    }
  }

  lemma WriteKeeps(s: State, ranges: Ranges, x: Block)
    requires DiskFits(s, ranges) && VolatileFits(s, ranges) && x.number == s.n + 1
    ensures TablesFit(WriteBlock(s, x).tables, WriteBlock(s, x).history, ranges)
    ensures BlocksFit(WriteBlock(s, x).blocks, WriteBlock(s, x).history)
  {
    var h := s.history;
    SavedIsStored(s.tables, h.active, h.chain, h.b, h.a, ranges, h.first, x);
    BlocksAppend(s.blocks, h, x);
  }

  ghost predicate BottomReady(s: State, ranges: Ranges, bottom: nat) {
    && TablesFit(s.tables, s.history, ranges) && BlocksFit(s.blocks, s.history) && s.history.b < |s.history.chain|
    && s.history.first + s.history.b == bottom && (s.bottomTime.Some? ==> s.bottom == Some(bottom))
  }

  lemma BottomIsKnown(s: State, ranges: Ranges)
    requires DiskFits(s, ranges) && VolatileFits(s, ranges)
    ensures s.history.b <= |s.history.chain| && (s.bottomTime.Some? ==> s.bottom == Some(s.history.first + s.history.b))
  {}

  lemma ReadyWhen(s: State, w: State, ranges: Ranges, x: Block, bottom: nat)
    requires w == WriteBlock(s, x) && TablesFit(w.tables, w.history, ranges) && BlocksFit(w.blocks, w.history)
    requires s.history.b <= |s.history.chain| && s.history.first + s.history.b == bottom
    requires s.bottomTime.Some? ==> s.bottom == Some(bottom)
    ensures BottomReady(w, ranges, bottom)
  {}

  /** The bottom entry is in place after the write, whether it was before or not. */
  lemma SetBottom(w0: State, ranges: Ranges, bottom: nat) returns (w: State)
    requires BottomReady(w0, ranges, bottom)
    ensures w == if NeedsBottom(w0) then SaveBottomState(w0) else w0
    ensures w == w0.(bottomTime := w.bottomTime, bottom := Some(bottom)) && w.bottomTime.Some?
  {
    if NeedsBottom(w0) {
      BottomSaved(w0, w0.history, ranges);
      w := SaveBottomState(w0);
    } else {
      w := w0;
    }
  }

  /** The state once the tables are swapped, before the bottom is saved again. */
  function Turned(s: State, ranges: Ranges, x: Block): State
    requires s.rotor.index <= 1
  {
    var rotor := NextRotor(s.rotor, ranges, x.timestamp, x.number);
    s.(rotor := rotor, tables := NextTables(s.rotor, s.tables, x.timestamp, x.number),
       history := s.history.(b := s.history.a, a := |s.history.chain|, active := rotor.index))
  }

  ghost predicate IsTurned(s: State, s2: State, h0: History) {
    s2 == s.(tables := s2.tables, rotor := s2.rotor, bottomTime := s2.bottomTime, bottom := Some(h0.first + h0.a),
             history := s.history.(b := h0.a, a := |s.history.chain|, active := s2.rotor.index))
  }

  lemma BottomedAndChecked(s1: State, ranges: Ranges) returns (s2: State)
    requires TablesFit(s1.tables, s1.history, ranges) && BlocksFit(s1.blocks, s1.history) && s1.history.b < |s1.history.chain|
    ensures s2 == CheckDatabaseContinuous(SaveBottomState(s1))
    ensures s2 == s1.(bottomTime := s2.bottomTime, bottom := Some(s1.history.first + s1.history.b)) && s2.bottomTime.Some?
  {
    BottomSaved(s1, s1.history, ranges);
    s2 := SaveBottomState(s1);
    CheckPasses(s2, s1.history, ranges);
  }

  lemma TurnedIsRotated(s: State, ranges: Ranges, x: Block)
    requires s.rotor.index <= 1 && Rotates(s.rotor, x.timestamp, x.number)
    ensures RotateTables(s, ranges, x) == CheckDatabaseContinuous(SaveBottomState(Turned(s, ranges, x)))
  {}

  lemma TurnedFits(s: State, ranges: Ranges, h0: History, x: Block) returns (s1: State)
    requires RotorFits(s.rotor, h0.chain, h0.b, h0.a, ranges, h0.first) && Numbered(h0.chain, h0.first) && x.number == h0.first + |h0.chain|
    requires s.history == h0.(chain := h0.chain + [x]) && h0.active == s.rotor.index
    requires TablesFit(s.tables, s.history, ranges) && BlocksFit(s.blocks, s.history)
    requires Rotates(s.rotor, x.timestamp, x.number)
    ensures s1 == Turned(s, ranges, x)
    ensures s1 == s.(tables := s1.tables, rotor := s1.rotor, history := s.history.(b := h0.a, a := |s.history.chain|, active := s1.rotor.index))
    ensures TablesFit(s1.tables, s1.history, ranges) && BlocksFit(s1.blocks, s1.history) && s1.history.b < |s1.history.chain|
    ensures RotorFits(s1.rotor, s1.history.chain, s1.history.b, s1.history.a, ranges, s1.history.first)
  {
    UpdateFits(s.rotor, s.tables, h0, ranges, x);
    s1 := Turned(s, ranges, x);
    BlocksSameChain(s.blocks, s.history, s1.history);
  }

  lemma StayKeeps(s: State, ranges: Ranges, h0: History, x: Block) returns (s2: State)
    requires RotorFits(s.rotor, h0.chain, h0.b, h0.a, ranges, h0.first) && Numbered(h0.chain, h0.first) && x.number == h0.first + |h0.chain|
    requires s.history == h0.(chain := h0.chain + [x]) && h0.active == s.rotor.index
    requires TablesFit(s.tables, s.history, ranges)
    requires !Rotates(s.rotor, x.timestamp, x.number)
    ensures s2 == RotateTables(s, ranges, x) && s2 == s.(rotor := s2.rotor) && s2.rotor.index == s.rotor.index
    ensures RotorFits(s2.rotor, s2.history.chain, s2.history.b, s2.history.a, ranges, s2.history.first)
  {
    UpdateFits(s.rotor, s.tables, h0, ranges, x);
    s2 := s.(rotor := NextRotor(s.rotor, ranges, x.timestamp, x.number));
  }

  lemma BlocksSameChain(blocks: seq<BlockRow>, h: History, h2: History)
    requires BlocksFit(blocks, h) && h2.chain == h.chain && h2.older == h.older && h2.first == h.first
    ensures BlocksFit(blocks, h2)
  {
    forall i: nat | i < |h2.older| ensures OlderAt(h2, i) {
      assert OlderAt(h, i);
    }
  }

  lemma UpdateFits(rotor: Rotor, tables: Tables, h0: History, ranges: Ranges, x: Block)
    requires RotorFits(rotor, h0.chain, h0.b, h0.a, ranges, h0.first) && Numbered(h0.chain, h0.first) && x.number == h0.first + |h0.chain|
    requires h0.active == rotor.index && TablesFit(tables, h0.(chain := h0.chain + [x]), ranges)
    ensures var rotor' := NextRotor(rotor, ranges, x.timestamp, x.number);
            var turned := Rotates(rotor, x.timestamp, x.number);
            var h := h0.(chain := h0.chain + [x], b := if turned then h0.a else h0.b,
                         a := if turned then |h0.chain| + 1 else h0.a, active := rotor'.index);
            && TablesFit(NextTables(rotor, tables, x.timestamp, x.number), h, ranges)
            && RotorFits(rotor', h.chain, h.b, h.a, ranges, h.first)
  {
    var b', a' := UpdateKeepsStored(rotor, tables, h0.chain, h0.b, h0.a, ranges, h0.first, x);
  }

  ghost predicate IsBottomed(s: State, w: State, x: Block) {
    w == s.(tables := w.tables, blocks := w.blocks, savedN := s.n + 1, n := s.n + 1, saves := w.saves, bottomTime := w.bottomTime,
            bottom := Some(s.history.first + s.history.b), processors := w.processors, history := s.history.(chain := s.history.chain + [x]))
  }

  ghost predicate Bottomed(s: State, w: State, ranges: Ranges, x: Block) {
    && IsBottomed(s, w, x)
    && w.bottomTime.Some? && SavesFit(w.saves)
    && TablesFit(w.tables, w.history, ranges) && BlocksFit(w.blocks, w.history)
  }

  lemma WriteThenBottom(s: State, w0: State, wb: State, w: State, ranges: Ranges, x: Block)
    requires x.number == s.n + 1 && s.rotor.index <= 1
    requires w0 == WriteBlock(s, x) && wb == if NeedsBottom(w0) then SaveBottomState(w0) else w0
    requires wb == w0.(bottomTime := wb.bottomTime, bottom := Some(s.history.first + s.history.b))
    requires w == wb.(processors := Above(wb.processors, wb.n))
    ensures IsBottomed(s, w, x) && BlockSave(s, ranges, x) == RotateTables(w, ranges, x)
    ensures w.bottomTime == wb.bottomTime && w.tables == w0.tables && w.blocks == w0.blocks && w.history == w0.history
    ensures w.saves == s.saves + [Save(s.n, s.np1Hash, x)]
  {}

  lemma WriteBottomed(s: State, ranges: Ranges, x: Block, w0: State) returns (w: State)
    requires w0 == WriteBlock(s, x) && TablesFit(w0.tables, w0.history, ranges) && BlocksFit(w0.blocks, w0.history)
    requires s.history.b <= |s.history.chain| && (s.bottomTime.Some? ==> s.bottom == Some(s.history.first + s.history.b))
    requires SavesFit(s.saves) && x.number == s.n + 1 && x.hash == s.np1Hash && s.rotor.index <= 1
    ensures Bottomed(s, w, ranges, x) && BlockSave(s, ranges, x) == RotateTables(w, ranges, x)
    ensures w.saves == s.saves + [Save(s.n, s.np1Hash, x)]
  {
    ReadyWhen(s, w0, ranges, x, s.history.first + s.history.b);
    var wb := SetBottom(w0, ranges, s.history.first + s.history.b);
    w := wb.(processors := Above(wb.processors, wb.n));
    SavesAppend(s.saves, Save(s.n, s.np1Hash, x));
    WriteThenBottom(s, w0, wb, w, ranges, x);
  }

  lemma SaveKeeps(s: State, ranges: Ranges, x: Block)
    requires Inv(s, ranges) && !s.stopped && x.number == s.n + 1 && x.hash == s.np1Hash
    ensures var s2 := BlockSave(s, ranges, x);
            && Inv(s2, ranges) && !s2.stopped && s2.n == s.n + 1
            && s2.history.chain == s.history.chain + [x] && s2.history.first == s.history.first && s2.history.older == s.history.older
            && s2.saves == s.saves + [Save(s.n, s.np1Hash, x)]
            && s2.prepared == s.prepared
  {
    WriteKeeps(s, ranges, x);
    BottomIsKnown(s, ranges);
    var w := WriteBottomed(s, ranges, x, WriteBlock(s, x));
    AfterRotation(s, w, ranges, x);
    AllSavedAppend(s.saves, s.history.older, s.history.chain, Save(s.n, s.np1Hash, x));
  }

  /** Where a save has to end. */
  ghost predicate Landed(s: State, w: State, s2: State, ranges: Ranges, x: Block) {
    && TablesFit(s2.tables, s2.history, ranges) && BlocksFit(s2.blocks, s2.history)
    && EntriesFit(s2.savedN, s2.bottom, s2.history)
    && VolatileFits(s2, ranges)
    && s2.rotor.index <= 1 && !s2.stopped && s2.n == s.n + 1
    && s2.history.chain == s.history.chain + [x] && s2.history.first == s.history.first && s2.history.older == s.history.older
    && s2.saves == w.saves && s2.prepared == s.prepared
  }

  lemma LandedWhen(s: State, w: State, s2: State, ranges: Ranges, x: Block)
    requires DiskFits(s, ranges) && VolatileFits(s, ranges)
    requires s2.savedN == s2.n == s.n + 1 && s2.prepared == s.prepared && s2.saves == w.saves && !s2.failed && !s2.stopped
    requires s2.history.chain == s.history.chain + [x] && s2.history.first == s.history.first && s2.history.older == s.history.older
    requires s2.history.active == s2.rotor.index <= 1 && s2.bottom == Some(s2.history.first + s2.history.b)
    requires TablesFit(s2.tables, s2.history, ranges) && BlocksFit(s2.blocks, s2.history)
    requires RotorFits(s2.rotor, s2.history.chain, s2.history.b, s2.history.a, ranges, s2.history.first)
    ensures Landed(s, w, s2, ranges, x)
  {}

  lemma TurnedFields(s: State, w: State, s2: State, x: Block)
    requires IsBottomed(s, w, x) && IsTurned(w, s2, s.history)
    ensures s2.savedN == s2.n == s.n + 1 && s2.prepared == s.prepared && s2.saves == w.saves
    ensures s2.failed == s.failed && s2.stopped == s.stopped
    ensures s2.history.chain == s.history.chain + [x] && s2.history.first == s.history.first && s2.history.older == s.history.older
    ensures s2.history.active == s2.rotor.index && s2.bottom == Some(s2.history.first + s2.history.b)
  {}

  lemma AfterTurn(s: State, w: State, s2: State, ranges: Ranges, x: Block)
    requires DiskFits(s, ranges) && VolatileFits(s, ranges) && !s.stopped && x.number == s.n + 1 && Bottomed(s, w, ranges, x)
    requires IsTurned(w, s2, s.history)
    requires TablesFit(s2.tables, s2.history, ranges) && BlocksFit(s2.blocks, s2.history) && s2.bottomTime.Some?
    requires RotorFits(s2.rotor, s2.history.chain, s2.history.b, s2.history.a, ranges, s2.history.first)
    ensures Landed(s, w, s2, ranges, x)
  {
    TurnedFields(s, w, s2, x);
    LandedWhen(s, w, s2, ranges, x);
  }

  lemma AfterStay(s: State, w: State, s2: State, ranges: Ranges, x: Block)
    requires DiskFits(s, ranges) && VolatileFits(s, ranges) && !s.stopped && x.number == s.n + 1 && Bottomed(s, w, ranges, x)
    requires s2 == w.(rotor := s2.rotor) && s2.rotor.index == w.rotor.index
    requires RotorFits(s2.rotor, s2.history.chain, s2.history.b, s2.history.a, ranges, s2.history.first)
    ensures Landed(s, w, s2, ranges, x)
  {
    LandedWhen(s, w, s2, ranges, x);
  }

  lemma LandTurned(s: State, w: State, ranges: Ranges, x: Block)
    requires DiskFits(s, ranges) && VolatileFits(s, ranges) && !s.stopped && x.number == s.n + 1 && Bottomed(s, w, ranges, x)
    requires Rotates(w.rotor, x.timestamp, x.number)
    ensures Landed(s, w, RotateTables(w, ranges, x), ranges, x)
  {
    var s1 := TurnedFits(w, ranges, s.history, x);
    var s2 := BottomedAndChecked(s1, ranges);
    TurnedThenBottomed(w, s1, s2, s.history);
    AfterTurn(s, w, s2, ranges, x);
    TurnedIsRotated(w, ranges, x);
  }

  lemma TurnedThenBottomed(s: State, s1: State, s2: State, h0: History)
    requires s1 == s.(tables := s1.tables, rotor := s1.rotor, history := s.history.(b := h0.a, a := |s.history.chain|, active := s1.rotor.index))
    requires s2 == s1.(bottomTime := s2.bottomTime, bottom := Some(s1.history.first + s1.history.b))
    requires s.history.first == h0.first
    ensures IsTurned(s, s2, h0)
    ensures s2.tables == s1.tables && s2.history == s1.history && s2.blocks == s1.blocks && s2.rotor == s1.rotor
  {}

  lemma AfterRotation(s: State, w: State, ranges: Ranges, x: Block)
    requires DiskFits(s, ranges) && VolatileFits(s, ranges) && !s.stopped && x.number == s.n + 1 && Bottomed(s, w, ranges, x)
    ensures Landed(s, w, RotateTables(w, ranges, x), ranges, x)
  {
    if Rotates(w.rotor, x.timestamp, x.number) {
      LandTurned(s, w, ranges, x);
    } else {
      var s2 := StayKeeps(w, ranges, s.history, x);
      AfterStay(s, w, s2, ranges, x);
    }
  }

  lemma AllSavedAppend(saves: seq<Save>, older: seq<BlockRow>, chain: seq<Block>, save: Save)
    requires AllSaved(saves, older, chain)
    ensures AllSaved(saves + [save], older, chain + [save.block])
  {
    forall i: nat | i < |older| ensures SavedBefore(saves + [save], older, i) {
      assert SavedBefore(saves, older, i);
    }
    forall j: nat | j < |chain + [save.block]| ensures SavedSince(saves + [save], older, chain + [save.block], j) {
      assert j < |chain| ==> SavedSince(saves, older, chain, j);
    }
  }

  lemma AllSavedReset(saves: seq<Save>, older: seq<BlockRow>, chain: seq<Block>)
    requires AllSaved(saves, older, chain)
    ensures AllSaved(saves, older + Headers(chain), [])
  {
    var all := older + Headers(chain);
    forall i: nat | i < |all| ensures SavedBefore(saves, all, i) {
      if i < |older| { assert SavedBefore(saves, older, i); } else { assert SavedSince(saves, older, chain, i - |older|); }
    }
  }

  lemma SavesAppend(saves: seq<Save>, save: Save)
    requires SavesFit(saves) && SaveFits(save)
    ensures SavesFit(saves + [save])
  {
    forall i: nat | i < |saves + [save]| ensures SaveFits((saves + [save])[i]) {
      assert i < |saves| ==> SaveFits(saves[i]);
    }
  }

  // ---------- the steps ----------

  lemma PreparedKeeps(prepared: map<nat, seq<Block>>, x: Block)
    requires PreparedFit(prepared)
    ensures PreparedFit(Prepared(prepared, x))
  {
    assert x.number in prepared ==> AllNumbered(prepared[x.number], x.number);
  }

  lemma CompletedKeeps(s: State, ranges: Ranges, x: Block, np2: Processor)
    requires Inv(s, ranges) && !s.stopped
    ensures Inv(BlockCompleted(s, ranges, x, np2), ranges) && !BlockCompleted(s, ranges, x, np2).stopped
  {
    if x.number == s.n + 1 && x.hash == s.np1Hash && s.waitNp1 {
      SaveKeeps(s, ranges, x);
      VolatileSame(BlockSave(s, ranges, x), BlockCompleted(s, ranges, x, np2), ranges);
    } else {
      PreparedKeeps(s.prepared, x);
      VolatileSame(s, BlockCompleted(s, ranges, x, np2), ranges);
    }
  }

  /** What does not matter for the invariant. */
  lemma VolatileSame(s: State, s2: State, ranges: Ranges)
    requires Inv(s, ranges) && !s.stopped && PreparedFit(s2.prepared)
    requires s2 == s.(t := s2.t, np1Hash := s2.np1Hash, waitNp1 := s2.waitNp1, refreshing := s2.refreshing, attempting := s2.attempting, isSyncing := s2.isSyncing,
                      prepared := s2.prepared, processors := s2.processors)
    ensures Inv(s2, ranges)
  {}

  lemma ReadyIsNext(s: State)
    requires PreparedFit(s.prepared) && ReadyBlock(s).Some?
    ensures ReadyBlock(s).value.number == s.n + 1 && ReadyBlock(s).value.hash == s.np1Hash
  {
    assert AllNumbered(s.prepared[s.n + 1], s.n + 1);
  }

  lemma TrySaveKeeps(s: State, ranges: Ranges)
    requires Inv(s, ranges) && !s.stopped
    ensures Inv(TrySaveNp1Block(s, ranges), ranges) && !TrySaveNp1Block(s, ranges).stopped
  {
    if ReadyBlock(s).Some? {
      ReadyIsNext(s);
      SaveKeeps(s, ranges, ReadyBlock(s).value);
      var saved := BlockSave(s, ranges, ReadyBlock(s).value);
      WithoutFits(saved.prepared, s.n + 1);
      VolatileSame(saved, TrySaveNp1Block(s, ranges), ranges);
    } else {
      VolatileSame(s, TrySaveNp1Block(s, ranges), ranges);
    }
  }

  lemma AttemptKeeps(s: State, ranges: Ranges)
    requires Inv(s, ranges) && !s.stopped
    ensures Inv(Attempt(s, ranges), ranges) && !Attempt(s, ranges).stopped
  {
    TrySaveKeeps(s, ranges);
    VolatileSame(TrySaveNp1Block(s, ranges), Attempt(s, ranges), ranges);
  }

  lemma WithoutFits(prepared: map<nat, seq<Block>>, k: nat)
    requires PreparedFit(prepared)
    ensures PreparedFit(prepared - {k})
  {
    forall j | j in prepared - {k} ensures AllNumbered((prepared - {k})[j], j) {
      assert AllNumbered(prepared[j], j);
    }
  }

  datatype Event =
    /** A block has been processed; `np2` is block N+2 as the chain has it. */
    | Completed(x: Block, np2: Processor)
    | Loop(top: nat, np1: Processor)
    | Refresh(np1: Processor)
    | Sync(np1: Processor, ahead: seq<Processor>)
    | TryAgain
    /** A change of the height seen while syncing, at the start of a turn. */
    | Height(top: nat)
    /** The process ends, wherever it is, and is started again. */
    | Restart(top: nat, syncStart: nat)

  /** A restart loses nothing: the tables tell where to go on, see `TableRecovery.RestartSafeIff`. */
  ghost predicate TablesTell(s: State, ranges: Ranges) {
    var h := s.history;
    TellsWhereToGoOn(h.active, h.chain, h.b, h.a, ranges)
  }

  ghost predicate Enabled(s: State, settings: Settings, e: Event) {
    match e
    case Completed(_, _) => !s.stopped
    case Loop(_, _) => !s.stopped && !s.waitNp1 && !s.refreshing && !s.isSyncing
    case Refresh(_) => !s.stopped && !s.waitNp1 && s.refreshing
    case Sync(_, _) => !s.stopped && !s.waitNp1 && !s.attempting && s.isSyncing
    case TryAgain => !s.stopped && !s.waitNp1 && s.attempting
    case Height(_) => !s.stopped && !s.waitNp1 && !s.attempting && s.isSyncing
    case Restart(top, syncStart) =>
      && TablesTell(s, settings.ranges) && (settings.syncEnabled || top >= settings.confirmations)
      && (s.history.chain == [] ==> forall i :: 0 <= i < |s.blocks| ==> s.blocks[i].number <= CleanStart(settings, top, syncStart))
  }

  function Apply(s: State, settings: Settings, e: Event): State
    requires s.rotor.index <= 1
  {
    match e
    case Completed(x, np2) => BlockCompleted(s, settings.ranges, x, np2)
    case Loop(top, np1) => MainLoop(s, settings, top, np1)
    case Refresh(np1) => MainLoopRefresh(s, np1)
    case Sync(np1, ahead) => SyncLoop(s, settings, np1, ahead)
    case TryAgain => Attempt(s, settings.ranges)
    case Height(top) => s.(t := top)
    case Restart(top, syncStart) => Start(s, settings, top, syncStart)
  }

  // ---------- restarting ----------

  lemma TakeUpKeeps(s: State, ranges: Ranges)
    requires DiskFits(s, ranges) && TablesTell(s, ranges)
    ensures TablesFit(TakeUp(s, ranges).tables, TakeUp(s, ranges).history, ranges) && BlocksFit(s.blocks, TakeUp(s, ranges).history)
    ensures EntriesFit(s.savedN, s.bottom, TakeUp(s, ranges).history)
    ensures TakeUp(s, ranges).history == s.history.(a := TakeUp(s, ranges).history.a, active := TakeUp(s, ranges).rotor.index)
    ensures RotorFits(TakeUp(s, ranges).rotor, s.history.chain, s.history.b, TakeUp(s, ranges).history.a, ranges, s.history.first)
  {
    var h := s.history;
    TakeUpTables(s, ranges);
    BlocksSameChain(s.blocks, h, TakeUp(s, ranges).history);
  }

  lemma TakeUpTables(s: State, ranges: Ranges)
    requires TablesFit(s.tables, s.history, ranges) && TablesTell(s, ranges)
    ensures TablesFit(TakeUp(s, ranges).tables, TakeUp(s, ranges).history, ranges)
    ensures RotorFits(TakeUp(s, ranges).rotor, s.history.chain, s.history.b, TakeUp(s, ranges).history.a, ranges, s.history.first)
  {
    var h := s.history;
    Recovers(s.tables, h.active, h.chain, h.b, h.a, ranges, h.first);
  }

  lemma ResetFits(s: State, ranges: Ranges)
    requires TablesFit(s.tables, s.history, ranges) && BlocksFit(s.blocks, s.history) && AllSaved(s.saves, s.history.older, s.history.chain)
    ensures DiskFits(ResetDatabaseAndStop(s), ranges)
  {
    AllSavedReset(s.saves, s.history.older, s.history.chain);
    var h, h2 := s.history, ResetDatabaseAndStop(s).history;
    forall i: nat | i < |h2.older| ensures OlderAt(h2, i) {
      if i < |h.older| {
        assert OlderAt(h, i);
      } else {
        assert NumberedAt(h.chain, h.first, i - |h.older|);
      }
    }
    assert h2.older + Headers([]) == h2.older;
  }

  lemma BottomUnchanged(s: State, ranges: Ranges)
    requires DiskFits(s, ranges)
    ensures SaveBottomState(s) == s.(bottomTime := SaveBottomState(s).bottomTime)
    ensures SaveBottomState(s).bottomTime.Some? ==> s.bottomTime.Some? || s.history.chain != []
  {
    if s.history.chain == [] {
      BottomIsFirstStored(s.tables, s.history, ranges);
    } else {
      BottomSaved(s, s.history, ranges);
    }
  }

  lemma StartKeeps(s: State, settings: Settings, top: nat, syncStart: nat)
    requires Inv(s, settings.ranges) && Enabled(s, settings, Restart(top, syncStart))
    ensures Inv(Start(s, settings, top, syncStart), settings.ranges)
  {
    var ranges := settings.ranges;
    var halted := Halted(s);
    BottomUnchanged(halted, ranges);
    var bottomed := SaveBottomState(halted);
    TakeUpKeeps(bottomed, ranges);
    var up := TakeUp(bottomed, ranges);
    CheckPasses(up, up.history, ranges);
    if settings.syncEnabled && 0 < up.savedN < syncStart {
      ResetFits(up, ranges);
    } else {
      BeginKeeps(up, settings, top, syncStart);
    }
  }

  lemma BeginKeeps(up: State, settings: Settings, top: nat, syncStart: nat)
    requires DiskFits(up, settings.ranges) && SavesFit(up.saves) && !(settings.syncEnabled && 0 < up.savedN < syncStart)
    requires up.history.active == up.rotor.index && up.prepared == map[] && !up.failed && !up.stopped
    requires RotorFits(up.rotor, up.history.chain, up.history.b, up.history.a, settings.ranges, up.history.first)
    requires up.bottomTime.Some? ==> up.history.chain != []
    requires up.history.chain == [] ==> forall i :: 0 <= i < |up.blocks| ==> up.blocks[i].number <= CleanStart(settings, top, syncStart)
    ensures Inv(IndexerState.Begin(up, settings, top, syncStart), settings.ranges)
  {
    var n := IndexerState.Begin(up, settings, top, syncStart).n;
    if up.history.chain == [] {
      var h2 := up.history.(first := n + 1);
      assert Headers([]) == [];
      forall i: nat | i < |h2.older| ensures OlderAt(h2, i) {
        assert up.blocks[i] == h2.older[i];
      }
    }
  }

  // ---------- runs ----------

  lemma StepKeeps(s: State, settings: Settings, e: Event)
    requires Inv(s, settings.ranges) && Enabled(s, settings, e)
    ensures Inv(Apply(s, settings, e), settings.ranges)
  {
    var ranges := settings.ranges;
    match e
    case Completed(x, np2) => CompletedKeeps(s, ranges, x, np2);
    case Loop(top, np1) =>
      var s1 := s.(t := top);
      VolatileSame(s, s1, ranges);
      if s.n + settings.confirmations < top {
        var s2 := s1.(np1Hash := np1.hash);
        VolatileSame(s1, s2, ranges);
        TrySaveKeeps(s2, ranges);
        VolatileSame(TrySaveNp1Block(s2, ranges), MainLoop(s, settings, top, np1), ranges);
      } else {
        VolatileSame(s, MainLoop(s, settings, top, np1), ranges);
      }
    case Refresh(np1) => VolatileSame(s, MainLoopRefresh(s, np1), ranges);
    case Sync(np1, ahead) =>
      if s.n + settings.confirmations < s.t {
        var s2 := s.(np1Hash := np1.hash, processors := ProcessAll(Process(s.processors, np1), ahead));
        VolatileSame(s, s2, ranges);
        AttemptKeeps(s2, ranges);
      } else {
        VolatileSame(s, s.(isSyncing := false), ranges);
      }
    case TryAgain => AttemptKeeps(s, ranges);
    case Height(top) => VolatileSame(s, s.(t := top), ranges);
    case Restart(top, syncStart) => StartKeeps(s, settings, top, syncStart);
  }

  /** A database nothing was ever written to, and no indexer running. */
  const CLEAN := State(Tables([], []), [], 0, None, FRESH, 0, 0, 0, false, false, false, false, map[], [], None, false, true, [], History([], 1, [], 0, 0, 0))

  ghost predicate StepOf(settings: Settings, s: State, e: Event, s2: State) {
    s.rotor.index <= 1 ==> Enabled(s, settings, e) && s2 == Apply(s, settings, e)
  }

  ghost predicate Run(settings: Settings, events: seq<Event>, states: seq<State>) {
    && |states| == |events| + 1 && states[0] == CLEAN
    && forall k :: 0 <= k < |events| ==> StepOf(settings, states[k], events[k], states[k + 1])
  }

  lemma CleanFits(ranges: Ranges)
    ensures Inv(CLEAN, ranges)
  {
    assert Headers([]) == [];
    var none: seq<Block> := [];
    assert none[0..] == none && none[0..0] == none;
  }

  ghost predicate StepIsFine(settings: Settings, s: State, e: Event, s2: State) {
    Inv(s, settings.ranges) && StepOf(settings, s, e, s2) ==> Inv(s2, settings.ranges)
  }

  lemma StepsKeep(settings: Settings)
    ensures forall s, e, s2 :: StepIsFine(settings, s, e, s2)
  {
    forall s, e, s2 ensures StepIsFine(settings, s, e, s2) {
      if Inv(s, settings.ranges) && StepOf(settings, s, e, s2) {
        StepKeeps(s, settings, e);
      }
    }
  }

  /** Every state of every run satisfies the invariant. */
  lemma {:induction false} RunKeeps(settings: Settings, events: seq<Event>, states: seq<State>, k: nat)
    requires Run(settings, events, states) && k < |states|
    ensures forall j: nat :: j <= k ==> Inv(states[j], settings.ranges)
    decreases k
  {
    if k == 0 {
      CleanFits(settings.ranges);
    } else {
      RunKeeps(settings, events, states, k - 1);
      StepsKeep(settings);
      assert StepOf(settings, states[k - 1], events[k - 1], states[k - 1 + 1]);
      assert StepIsFine(settings, states[k - 1], events[k - 1], states[k]);
    }
  }

  // ---------- the promises ----------

  /**
   Ordered saving: in every run each call of `blockSave` got block N+1 with the hash expected at that
   moment, so its guard never fires; nor does the continuity check ever reset the database.
   */
  lemma SavesInOrder(settings: Settings, events: seq<Event>, states: seq<State>, k: nat)
    requires Run(settings, events, states) && k < |states|
    ensures !states[k].failed
    ensures forall i :: 0 <= i < |states[k].saves| ==> SaveFits(states[k].saves[i])
    ensures !HasGap(states[k])
  {
    RunKeeps(settings, events, states, k);
    CheckPasses(states[k], states[k].history, settings.ranges);
    forall i: nat | i < |states[k].saves| ensures SaveFits(states[k].saves[i]) {}
    if HasGap(states[k]) { TablesHaveNoGaps(states[k].tables, states[k].history, settings.ranges, states[k].bottom.value); }
  }

  /** The database stops being used only at a restart that finds it too far behind. */
  lemma StopsOnlyAtRestart(settings: Settings, events: seq<Event>, states: seq<State>, k: nat)
    requires Run(settings, events, states) && k < |events| && !states[k].stopped && states[k + 1].stopped
    ensures settings.syncEnabled && events[k].Restart? && 0 < states[k].savedN < events[k].syncStart
  {
    RunKeeps(settings, events, states, k);
    assert StepOf(settings, states[k], events[k], states[k + 1]);
    var s, ranges := states[k], settings.ranges;
    match events[k]
    case Completed(x, np2) => CompletedKeeps(s, ranges, x, np2);
    case Loop(top, np1) =>
      VolatileSame(s, s.(t := top, np1Hash := np1.hash), ranges);
      TrySaveKeeps(s.(t := top, np1Hash := np1.hash), ranges);
    case Sync(np1, ahead) =>
      var s2 := s.(np1Hash := np1.hash, processors := ProcessAll(Process(s.processors, np1), ahead));
      VolatileSame(s, s2, ranges);
      AttemptKeeps(s2, ranges);
    case TryAgain => AttemptKeeps(s, ranges);
    case Restart(top, syncStart) => RestartStops(s, settings, top, syncStart);
    case _ =>
  }

  lemma RestartStops(s: State, settings: Settings, top: nat, syncStart: nat)
    requires Inv(s, settings.ranges) && Enabled(s, settings, Restart(top, syncStart)) && Start(s, settings, top, syncStart).stopped
    ensures settings.syncEnabled && 0 < s.savedN < syncStart
  {
    BottomUnchanged(Halted(s), settings.ranges);
    TakeUpKeeps(SaveBottomState(Halted(s)), settings.ranges);
    var up := TakeUp(SaveBottomState(Halted(s)), settings.ranges);
    CheckPasses(up, up.history, settings.ranges);
  }

  /**
   What the tables hold, in every run: the blocks saved since the last clean start have consecutive
   numbers, the tables together have exactly the rows of those from the stored bottom on, each table a
   contiguous range of them.
   */
  lemma TablesAreContiguous(settings: Settings, events: seq<Event>, states: seq<State>, k: nat, r: Row)
    requires Run(settings, events, states) && k < |states|
    ensures var s, h := states[k], states[k].history;
            && h.b <= h.a <= |h.chain| && h.active <= 1 && (h.chain != [] ==> s.bottom == Some(h.first + h.b) && s.savedN + 1 == h.first + |h.chain|)
            && (forall j :: 0 <= j < |h.chain| ==> h.chain[j].number == h.first + j)
            && (r in s.tables.Get(h.active) <==> exists j :: h.a <= j < |h.chain| && r in BlockRows(h.chain[j]))
            && (r in s.tables.Get(1 - h.active) <==> exists j :: h.b <= j < h.a && r in BlockRows(h.chain[j]))
  {
    RunKeeps(settings, events, states, k);
    TablesHold(states[k], settings.ranges, r);
  }

  lemma TablesHold(s: State, ranges: Ranges, r: Row)
    requires DiskFits(s, ranges)
    ensures var h := s.history;
            && h.b <= h.a <= |h.chain| && h.active <= 1 && (h.chain != [] ==> s.bottom == Some(h.first + h.b) && s.savedN + 1 == h.first + |h.chain|)
            && (forall j :: 0 <= j < |h.chain| ==> h.chain[j].number == h.first + j)
            && (r in s.tables.Get(h.active) <==> exists j :: h.a <= j < |h.chain| && r in BlockRows(h.chain[j]))
            && (r in s.tables.Get(1 - h.active) <==> exists j :: h.b <= j < h.a && r in BlockRows(h.chain[j]))
  {
    var h := s.history;
    AllNumbers(h.chain, h.first);
    assert h.chain[h.a..|h.chain|] == h.chain[h.a..];
    PartRows(h.chain, h.a, |h.chain|, r);
    PartRows(h.chain, h.b, h.a, r);
  }

  lemma AllNumbers(chain: seq<Block>, first: nat)
    requires Numbered(chain, first)
    ensures forall j :: 0 <= j < |chain| ==> chain[j].number == first + j
  {
    forall j: nat | j < |chain| ensures chain[j].number == first + j {
      assert NumberedAt(chain, first, j);
    }
  }

  lemma PartRows(chain: seq<Block>, lo: nat, hi: nat, r: Row)
    requires lo <= hi <= |chain|
    ensures r in RowsOf(chain[lo..hi]) <==> exists j :: lo <= j < hi && r in BlockRows(chain[j])
  {
    RowsOfMember(chain[lo..hi], r);
    if j :| lo <= j < hi && r in BlockRows(chain[j]) {
      assert chain[lo..hi][j - lo] == chain[j];
    }
  }

  /**
   Retention, in every run and through restarts: every block saved since the last clean start is still
   stored, complete, if it is within the block range of the last one, or - with block times that never
   decrease - within the time range.
   */
  lemma RunsRetain(settings: Settings, events: seq<Event>, states: seq<State>, k: nat, j: nat)
    requires Run(settings, events, states) && k < |states|
    requires j < |states[k].history.chain| && InRange(states[k].history.chain, j, settings.ranges)
    ensures HasRows(states[k].tables, states[k].history.chain[j])
  {
    RunKeeps(settings, events, states, k);
    var s, h := states[k], states[k].history;
    Retained(s.tables, h.active, h.chain, h.b, h.a, settings.ranges, j);
  }
}
