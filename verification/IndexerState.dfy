/**
 The indexer as a value, and what its callbacks and loops do to it (`indexer.ts`, `indexerSync.ts`,
 `indexerToDB.ts`).  Each function is one stretch of the source between two points where it waits.
 The class in `Indexer.dfy` computes these functions.
 */
module IndexerState {
  import opened Continuity
  import opened Interlacing
  import opened Storage
  import opened Wrappers

  /** A block being processed, or already processed. */
  datatype Processor = Processor(number: nat, hash: nat)

  /** One call of `blockSave`: what N and the expected hash were, and the block it got. */
  datatype Save = Save(n: nat, expectedHash: nat, block: Block)

  /**
   A record for the proofs: the blocks saved since the last clean start, the number of the first, the
   headers from before, and where in the chain the two tables begin.
   */
  datatype History = History(chain: seq<Block>, first: nat, older: seq<BlockRow>, b: nat, a: nat, active: nat)

  datatype State = State(
    tables: Tables,
    blocks: seq<BlockRow>,
    /** The N saved in the database, 0 if there is none. */
    savedN: nat,
    bottom: Option<nat>,
    // from here on lost at a restart
    rotor: Rotor,
    n: nat,
    t: nat,
    np1Hash: nat,
    waitNp1: bool,
    refreshing: bool,
    /** The sync loop repeats its attempt to save N+1. */
    attempting: bool,
    isSyncing: bool,
    prepared: map<nat, seq<Block>>,
    processors: seq<Processor>,
    bottomTime: Option<nat>,
    failed: bool,
    stopped: bool,
    // records
    saves: seq<Save>,
    history: History)

  datatype Settings = Settings(ranges: Ranges, confirmations: nat, syncEnabled: bool)

  function Header(b: Block): BlockRow {
    BlockRow(b.number, b.hash, b.timestamp)
  }

  // ---------- bottom of the tables, continuity ----------

  /** The least block number in a table; a zero counts as nothing. */
  function LeastNumber(rows: seq<Row>): Option<nat> {
    if rows == [] || MinOf(Numbers(rows)) == 0 then None else Some(MinOf(Numbers(rows)))
  }

  function BottomOf(tables: Tables): Option<nat> {
    var m0, m1 := LeastNumber(tables.t0), LeastNumber(tables.t1);
    if m0 == None then m1 else if m1 == None then m0
    else if m0.value < m1.value then m0 else m1
  }

  function TimeOf(blocks: seq<BlockRow>, number: nat): Option<nat> {
    if blocks == [] then None
    else if blocks[0].number == number then Some(blocks[0].timestamp)
    else TimeOf(blocks[1..], number)
  }

  /** Saves the number of the first block still in the transaction tables. */
  function SaveBottomState(s: State): State {
    var bottom := BottomOf(s.tables);
    if bottom.None? then s
    else
      var time := TimeOf(s.blocks, bottom.value);
      if time.None? then s else s.(bottomTime := time, bottom := bottom)
  }

  function HasGap(s: State): bool {
    s.bottom.Some? && s.bottom.value != 0
    && (MissingIn(s.tables.t0, s.bottom.value) !in [None, Some(0)] || MissingIn(s.tables.t1, s.bottom.value) !in [None, Some(0)])
  }

  function ResetDatabaseAndStop(s: State): State {
    s.(tables := Tables([], []), savedN := 0, bottom := None, rotor := FRESH, stopped := true,
       history := History([], s.history.first + |s.history.chain|, s.blocks, 0, 0, 0))
  }

  function CheckDatabaseContinuous(s: State): State {
    if HasGap(s) then ResetDatabaseAndStop(s) else s
  }

  // ---------- saving ----------

  /** The database transaction. */
  function WriteBlock(s: State, x: Block): State {
    s.(tables := Written(s.tables, s.rotor.index, x), blocks := s.blocks + [Header(x)], savedN := s.n + 1, n := s.n + 1,
       saves := s.saves + [Save(s.n, s.np1Hash, x)],
       history := s.history.(chain := s.history.chain + [x]))
  }

  function Above(processors: seq<Processor>, number: nat): seq<Processor> {
    if processors == [] then []
    else Above(processors[..|processors| - 1], number)
         + if processors[|processors| - 1].number > number then [processors[|processors| - 1]] else []
  }

  function RotateTables(s: State, ranges: Ranges, x: Block): State
    requires s.rotor.index <= 1
  {
    var rotor := NextRotor(s.rotor, ranges, x.timestamp, x.number);
    if Rotates(s.rotor, x.timestamp, x.number) then
      CheckDatabaseContinuous(SaveBottomState(
        s.(rotor := rotor, tables := NextTables(s.rotor, s.tables, x.timestamp, x.number),
           history := s.history.(b := s.history.a, a := |s.history.chain|, active := rotor.index))))
    else s.(rotor := rotor)
  }

  function NeedsBottom(s: State): bool {
    s.bottomTime.None? || s.bottomTime.value == 0
  }

  /** Any block but N+1 is a failure. */
  function BlockSave(s: State, ranges: Ranges, x: Block): State
    requires s.rotor.index <= 1
  {
    if x.number != s.n + 1 then s.(failed := true)
    else
      var w := WriteBlock(s, x);
      var bottomed := if NeedsBottom(w) then SaveBottomState(w) else w;
      RotateTables(bottomed.(processors := Above(bottomed.processors, bottomed.n)), ranges, x)
  }

  // ---------- the callbacks and loops ----------

  function Prepared(prepared: map<nat, seq<Block>>, x: Block): map<nat, seq<Block>> {
    prepared[x.number := (if x.number in prepared then prepared[x.number] else []) + [x]]
  }

  predicate HasHash(processors: seq<Processor>, hash: nat) {
    exists i :: 0 <= i < |processors| && processors[i].hash == hash
  }

  /** Starts processing a block unless it is being processed. */
  function Process(processors: seq<Processor>, p: Processor): seq<Processor> {
    if HasHash(processors, p.hash) then processors else processors + [p]
  }

  /** A block has been processed; the one that is waited for is saved at once, others are kept. */
  function BlockCompleted(s: State, ranges: Ranges, x: Block, np2: Processor): State
    requires s.rotor.index <= 1
  {
    var isBlockNp1 := x.number == s.n + 1 && x.hash == s.np1Hash;
    if isBlockNp1 && s.waitNp1 then BlockSave(s, ranges, x).(waitNp1 := false)
    else
      var kept := s.(prepared := Prepared(s.prepared, x));
      if !s.isSyncing && isBlockNp1 then kept.(processors := Process(kept.processors, np2)) else kept
  }

  /** The first of the blocks with the hash. */
  function WithHash(blocks: seq<Block>, hash: nat): (r: Option<Block>)
    ensures r.Some? ==> r.value in blocks && r.value.hash == hash
    ensures r.None? ==> forall i :: 0 <= i < |blocks| ==> blocks[i].hash != hash
  {
    if blocks == [] then None
    else if blocks[0].hash == hash then Some(blocks[0])
    else
      assert blocks == [blocks[0]] + blocks[1..];
      WithHash(blocks[1..], hash)
  }

  function ReadyBlock(s: State): Option<Block> {
    if s.n + 1 in s.prepared then WithHash(s.prepared[s.n + 1], s.np1Hash) else None
  }

  predicate BeingProcessed(s: State) {
    Processor(s.n + 1, s.np1Hash) in s.processors
  }

  /** Saves block N+1 if it has been processed, and otherwise waits for it if it is being processed. */
  function TrySaveNp1Block(s: State, ranges: Ranges): State
    requires s.rotor.index <= 1
  {
    var ready := ReadyBlock(s);
    if ready.Some? then
      var saved := BlockSave(s, ranges, ready.value);
      saved.(prepared := saved.prepared - {s.n + 1})
    else if BeingProcessed(s) then s.(waitNp1 := true)
    else s
  }

  /** The main loop down to the attempt to save: `np1` is block N+1 as the chain has it now. */
  function MainLoop(s: State, settings: Settings, top: nat, np1: Processor): State
    requires s.rotor.index <= 1
  {
    var s1 := s.(t := top);
    var isNp1Confirmed := s.n + settings.confirmations < top;
    if !isNp1Confirmed && s.np1Hash == np1.hash then s1
    else if isNp1Confirmed then TrySaveNp1Block(s1.(np1Hash := np1.hash), settings.ranges).(refreshing := true)
    else s1.(np1Hash := np1.hash, processors := Process(s1.processors, np1))
  }

  /** The rest of the main loop, after the wait: reads block N+1 again and has it processed. */
  function MainLoopRefresh(s: State, np1: Processor): State {
    s.(np1Hash := np1.hash, refreshing := false, processors := Process(s.processors, np1))
  }

  function ProcessAll(processors: seq<Processor>, ps: seq<Processor>): seq<Processor> {
    if ps == [] then processors else Process(ProcessAll(processors, ps[..|ps| - 1]), ps[|ps| - 1])
  }

  /** One turn of the sync loop down to the first attempt to save; the attempt is repeated until it succeeds. */
  function SyncLoop(s: State, settings: Settings, np1: Processor, ahead: seq<Processor>): State
    requires s.rotor.index <= 1
  {
    if s.n + settings.confirmations >= s.t then s.(isSyncing := false)
    else Attempt(s.(np1Hash := np1.hash, processors := ProcessAll(Process(s.processors, np1), ahead)), settings.ranges)
  }

  /** One attempt of the sync loop to save N+1; it is repeated until there is something to save or to wait for. */
  function Attempt(s: State, ranges: Ranges): State
    requires s.rotor.index <= 1
  {
    TrySaveNp1Block(s, ranges).(attempting := ReadyBlock(s).None? && !BeingProcessed(s))
  }

  // ---------- starting ----------

  /** What is left when the process ends. */
  function Halted(s: State): State {
    s.(rotor := FRESH, n := 0, t := 0, np1Hash := 0, waitNp1 := false, refreshing := false, attempting := false, isSyncing := false,
       prepared := map[], processors := [], bottomTime := None, failed := false, stopped := false)
  }

  function TakeUp(s: State, ranges: Ranges): State {
    var h := s.history;
    var rotor := Initialized(s.tables, ranges);
    s.(rotor := rotor, history := h.(a := if h.a < |h.chain| then h.a else if h.chain == [] then 0 else h.b, active := rotor.index))
  }

  /**
   Starts on the database that is there.  One left by an earlier run is taken up where it ended, or
   reset if that is before the point where syncing would start; a clean one is begun at that point, or at
   the confirmed height if syncing is disabled.
   */
  function Start(s: State, settings: Settings, top: nat, syncStart: nat): State {
    Begin(CheckDatabaseContinuous(TakeUp(SaveBottomState(Halted(s)), settings.ranges)), settings, top, syncStart)
  }

  /** The N an indexer on a clean database starts with. */
  function CleanStart(settings: Settings, top: nat, syncStart: nat): nat {
    if settings.syncEnabled then syncStart else if top >= settings.confirmations then top - settings.confirmations else 0
  }

  function Begin(s: State, settings: Settings, top: nat, syncStart: nat): State {
    if s.stopped then s
    else if settings.syncEnabled && 0 < s.savedN < syncStart then ResetDatabaseAndStop(s)
    else
      var n := if s.savedN > 0 then s.savedN else CleanStart(settings, top, syncStart);
      s.(n := n, t := if settings.syncEnabled then top else s.t, isSyncing := settings.syncEnabled,
         history := if s.history.chain == [] then s.history.(first := n + 1) else s.history)
  }
}
