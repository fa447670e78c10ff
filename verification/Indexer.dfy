/**
 The indexer object (`indexer.ts`): its methods update its fields and the database, and compute the
 functions of `IndexerState`.  Also the search for the first block to sync (`indexerSync.ts`).
 */
module Indexers {
  import opened Continuity
  import opened IndexerState
  import opened Interlacing
  import opened Storage
  import opened Wrappers

  class Indexer {
    const db: Database
    const settings: Settings
    const interlace: InterlacingManager
    var N: nat
    var T: nat
    var blockNp1hash: nat
    /** Waiting for block N+1 to complete; the main loop takes no step meanwhile. */
    var waitNp1: bool
    /** Between the attempt to save N+1 and reading it again. */
    var refreshing: bool
    /** In the loop that repeats the attempt to save N+1 while syncing. */
    var attempting: bool
    var isSyncing: bool
    var preparedBlocks: map<nat, seq<Block>>
    var blockProcessors: seq<Processor>
    var bottomBlockTime: Option<nat>
    var failed: bool
    var stopped: bool
    ghost var saves: seq<Save>
    ghost var history: History

    ghost function State(): State
      reads this, interlace, db
    {
      IndexerState.State.State(db.tables, db.blocks, db.N, db.bottom, interlace.State(), N, T, blockNp1hash, waitNp1, refreshing, attempting, isSyncing,
                               preparedBlocks, blockProcessors, bottomBlockTime, failed, stopped, saves, history)
    }

    ghost predicate Valid()
      reads this, interlace, db
    {
      interlace.db == db && interlace.ranges == settings.ranges && !interlace.tableLock && interlace.index <= 1
    }

    /** A new process on the database `db`, with the records kept about it. */
    constructor (db: Database, settings: Settings, ghost saves: seq<Save>, ghost history: History)
      ensures Valid() && fresh(interlace) && this.db == db && this.settings == settings
      ensures State() == Halted(State()) && this.saves == saves && this.history == history
      ensures db.tables == old(db.tables) && db.blocks == old(db.blocks) && db.N == old(db.N) && db.bottom == old(db.bottom)
    {
      this.db := db;
      this.settings := settings;
      this.interlace := new InterlacingManager(settings.ranges, db);
      this.N, this.T, this.blockNp1hash := 0, 0, 0;
      this.waitNp1, this.refreshing, this.attempting, this.isSyncing := false, false, false, false;
      this.preparedBlocks, this.blockProcessors, this.bottomBlockTime := map[], [], None;
      this.failed, this.stopped := false, false;
      this.saves := saves;
      this.history := history;
    }

    method Start(top: nat, syncStart: nat)
      requires Valid() && State() == Halted(State())
      modifies this, interlace, db
      ensures Valid() && State() == IndexerState.Start(old(State()), settings, top, syncStart)
    {
      SaveBottomState();
      TakeUpTables();
      CheckDatabaseContinuous();
      Begin(top, syncStart);
    }

    method TakeUpTables()
      requires Valid() && interlace.State() == FRESH
      modifies `history, interlace
      ensures Valid() && State() == TakeUp(old(State()), settings.ranges)
    {
      interlace.Initialize();
      history := history.(a := if history.a < |history.chain| then history.a else if history.chain == [] then 0 else history.b,
                          active := interlace.index);
    }

    method Begin(top: nat, syncStart: nat)
      requires Valid()
      modifies this, interlace, db
      ensures Valid() && State() == IndexerState.Begin(old(State()), settings, top, syncStart)
    {
      if stopped {
        return;
      }
      if !settings.syncEnabled {
        N := if db.N > 0 then db.N else CleanStart(settings, top, syncStart);
      } else {
        if db.N > 0 && db.N < syncStart {
          ResetDatabaseAndStop();
          return;
        }
        N := if db.N > syncStart then db.N else syncStart;
        T := top;
      }
      isSyncing := settings.syncEnabled;
      history := if history.chain == [] then history.(first := N + 1) else history;
    }

    method SaveBottomState()
      requires Valid()
      modifies `bottomBlockTime, db`bottom
      ensures State() == IndexerState.SaveBottomState(old(State()))
    {
      var bottom := BottomOf(db.tables);
      if bottom.Some? {
        var time := FindTime(bottom.value);
        if time.Some? {
          bottomBlockTime := time;
          db.bottom := bottom;
        }
      }
    }

    method FindTime(number: nat) returns (time: Option<nat>)
      ensures time == TimeOf(db.blocks, number)
    {
      for i := 0 to |db.blocks|
        invariant TimeOf(db.blocks, number) == TimeOf(db.blocks[i..], number)
      {
        if db.blocks[i].number == number {
          return Some(db.blocks[i].timestamp);
        }
        assert db.blocks[i..][1..] == db.blocks[i + 1..];
      }
      time := None;
    }

    method CheckDatabaseContinuous()
      requires Valid()
      modifies this, interlace, db
      ensures Valid() && State() == IndexerState.CheckDatabaseContinuous(old(State()))
    {
      if db.bottom.None? || db.bottom.value == 0 {
        return;
      }
      var missing0, missing1 := MissingIn(db.tables.t0, db.bottom.value), MissingIn(db.tables.t1, db.bottom.value);
      if missing0.Some? && missing0.value != 0 {
        ResetDatabaseAndStop();
        return;
      }
      if missing1.Some? && missing1.value != 0 {
        ResetDatabaseAndStop();
      }
    }

    method ResetDatabaseAndStop()
      requires Valid()
      modifies this, interlace, db
      ensures Valid() && State() == IndexerState.ResetDatabaseAndStop(old(State()))
    {
      interlace.ResetAll();
      db.N := 0;
      db.bottom := None;
      stopped := true;
      history := History([], history.first + |history.chain|, db.blocks, 0, 0, 0);
    }

    /** Saves block N+1 with its transactions, and rotates the tables when it is time. */
    method BlockSave(block: Block) returns (ok: bool)
      requires Valid()
      modifies this, interlace, db
      ensures Valid() && State() == IndexerState.BlockSave(old(State()), settings.ranges, block)
      ensures ok == (block.number == old(N) + 1)
      ensures !ok ==> failed && N == old(N) && db.blocks == old(db.blocks) && db.tables == old(db.tables) && saves == old(saves)
    {
      if block.number != N + 1 {
        failed := true;
        return false;
      }
      WriteBlock(block);
      if bottomBlockTime.None? || bottomBlockTime.value == 0 {
        SaveBottomState();
      }
      ClearProcessorsUpTo(N);
      RotateTables(block);
      return true;
    }

    /** The database transaction: rows, header and the new N together. */
    method WriteBlock(block: Block)
      requires Valid() && block.number == N + 1
      modifies `N, `saves, `history, db
      ensures State() == IndexerState.WriteBlock(old(State()), block)
    {
      saves := saves + [Save(N, blockNp1hash, block)];
      history := history.(chain := history.chain + [block]);
      db.tables := Written(db.tables, interlace.index, block);
      db.blocks := db.blocks + [Header(block)];
      db.N := N + 1;
      N := N + 1;
    }

    method ClearProcessorsUpTo(number: nat)
      modifies `blockProcessors
      ensures blockProcessors == Above(old(blockProcessors), number)
    {
      var kept := [];
      for i := 0 to |blockProcessors|
        invariant blockProcessors == old(blockProcessors) && kept == Above(blockProcessors[..i], number)
      {
        assert blockProcessors[..i + 1][..i] == blockProcessors[..i];
        if blockProcessors[i].number > number {
          kept := kept + [blockProcessors[i]];
        }
      }
      assert blockProcessors[..|blockProcessors|] == blockProcessors;
      blockProcessors := kept;
    }

    method RotateTables(block: Block)
      requires Valid()
      modifies this, interlace, db
      ensures Valid() && State() == IndexerState.RotateTables(old(State()), settings.ranges, block)
    {
      var dropped := interlace.Update(block.timestamp, block.number);
      if dropped {
        history := history.(b := history.a, a := |history.chain|, active := interlace.index);
        SaveBottomState();
        CheckDatabaseContinuous();
      }
    }

    method BlockCompleted(block: Block, np2: Processor)
      requires Valid()
      modifies this, interlace, db
      ensures Valid() && State() == IndexerState.BlockCompleted(old(State()), settings.ranges, block, np2)
    {
      var isBlockNp1 := block.number == N + 1 && block.hash == blockNp1hash;
      if isBlockNp1 && waitNp1 {
        var ok := BlockSave(block);
        waitNp1 := false;
        return;
      }
      preparedBlocks := Prepared(preparedBlocks, block);
      if !isSyncing && isBlockNp1 {
        Process(np2);
      }
    }

    method Process(p: Processor)
      modifies `blockProcessors
      ensures blockProcessors == IndexerState.Process(old(blockProcessors), p)
    {
      for i := 0 to |blockProcessors|
        invariant blockProcessors == old(blockProcessors)
        invariant forall j :: 0 <= j < i ==> blockProcessors[j].hash != p.hash
      {
        if blockProcessors[i].hash == p.hash {
          return;
        }
      }
      blockProcessors := blockProcessors + [p];
    }

    /** Saves block N+1 if it has been processed, and otherwise waits for it if it is being processed. */
    method TrySaveNp1Block() returns (done: bool)
      requires Valid()
      modifies this, interlace, db
      ensures Valid() && State() == IndexerState.TrySaveNp1Block(old(State()), settings.ranges)
      ensures done == (ReadyBlock(old(State())).Some? || BeingProcessed(old(State())))
    {
      var np1 := N + 1;
      var ready := FindReady();
      if ready.Some? {
        var ok := BlockSave(ready.value);
        preparedBlocks := preparedBlocks - {np1};
        return true;
      }
      var inProcess := false;
      for i := 0 to |blockProcessors|
        invariant forall j :: 0 <= j < i ==> blockProcessors[j] != Processor(np1, blockNp1hash)
        invariant unchanged(this) && unchanged(interlace) && unchanged(db) && !inProcess
      {
        if blockProcessors[i].number == np1 && blockProcessors[i].hash == blockNp1hash {
          inProcess := true;
          break;
        }
      }
      if !inProcess {
        return false;
      }
      waitNp1 := true;
      return true;
    }

    /** The loop over the blocks kept under N+1. */
    method FindReady() returns (ready: Option<Block>)
      ensures ready == ReadyBlock(State())
    {
      if N + 1 in preparedBlocks {
        var kept := preparedBlocks[N + 1];
        for i := 0 to |kept|
          invariant WithHash(kept, blockNp1hash) == WithHash(kept[i..], blockNp1hash)
        {
          if kept[i].hash == blockNp1hash {
            return Some(kept[i]);
          }
          assert kept[i..][1..] == kept[i + 1..];
        }
      }
      ready := None;
    }

    method MainLoop(top: nat, np1: Processor)
      requires Valid()
      modifies this, interlace, db
      ensures Valid() && State() == IndexerState.MainLoop(old(State()), settings, top, np1)
    {
      T := top;
      var isNp1Confirmed := N + settings.confirmations < T;
      var isChangedNp1Hash := blockNp1hash != np1.hash;
      if !isNp1Confirmed && !isChangedNp1Hash {
        return;
      }
      blockNp1hash := np1.hash;
      if isNp1Confirmed {
        SaveConfirmed();
      } else {
        Process(np1);
      }
    }

    method SaveConfirmed()
      requires Valid()
      modifies this, interlace, db
      ensures Valid() && State() == IndexerState.TrySaveNp1Block(old(State()), settings.ranges).(refreshing := true)
    {
      var done := TrySaveNp1Block();
      refreshing := true;
    }

    method MainLoopRefresh(np1: Processor)
      requires Valid()
      modifies this
      ensures Valid() && State() == IndexerState.MainLoopRefresh(old(State()), np1)
    {
      blockNp1hash := np1.hash;
      refreshing := false;
      Process(np1);
    }

    method SyncLoop(np1: Processor, ahead: seq<Processor>)
      requires Valid()
      modifies this, interlace, db
      ensures Valid() && State() == IndexerState.SyncLoop(old(State()), settings, np1, ahead)
    {
      if N + settings.confirmations >= T {
        isSyncing := false;
        return;
      }
      Process(np1);
      ProcessEach(ahead);
      blockNp1hash := np1.hash;
      assert State() == old(State()).(np1Hash := np1.hash, processors := ProcessAll(IndexerState.Process(old(State()).processors, np1), ahead));
      Attempt();
    }

    method Attempt()
      requires Valid()
      modifies this, interlace, db
      ensures Valid() && State() == IndexerState.Attempt(old(State()), settings.ranges)
    {
      var done := TrySaveNp1Block();
      attempting := !done;
    }

    method ProcessEach(ahead: seq<Processor>)
      modifies `blockProcessors
      ensures blockProcessors == ProcessAll(old(blockProcessors), ahead)
    {
      for i := 0 to |ahead|
        invariant blockProcessors == ProcessAll(old(blockProcessors), ahead[..i])
      {
        assert ahead[..i + 1][..i] == ahead[..i];
        Process(ahead[i]);
      }
      assert ahead[..|ahead|] == ahead;
    }
  }

  // ---------- the first block to sync ----------

  /**
   The block whose successor is the first to be synced, found by bisection; `None` stands for a node
   that reports a bottom above its top.  `time` gives the times of blocks.
   Every block of the wanted period is synced but for two: the bottom block of a node that starts
   within the period, and a latest block that falls on the very start of it.
   */
  method GetSyncStartBlockNumber(time: nat -> int, latest: nat, bottomHeight: nat, syncStartTime: int) returns (r: Option<nat>)
    ensures time(latest) <= syncStartTime ==> r == Some(latest)
    ensures time(latest) > syncStartTime && time(bottomHeight) >= syncStartTime ==> r == Some(bottomHeight)
    ensures time(latest) > syncStartTime > time(bottomHeight) ==> (r.None? <==> bottomHeight > latest)
    ensures time(latest) > syncStartTime > time(bottomHeight) && r.Some? ==>
              exists b: nat :: IsTurningPoint(time, b, syncStartTime, bottomHeight, latest) && r.value == if b > bottomHeight then b - 1 else b
  {
    if time(latest) <= syncStartTime {
      return Some(latest);
    }
    if time(bottomHeight) >= syncStartTime {
      return Some(bottomHeight);
    }
    var top, bottom := latest, bottomHeight;
    if bottom > top {
      return None;
    }
    while top > bottom + 1
      invariant bottomHeight <= bottom < top <= latest
      invariant time(bottom) < syncStartTime <= time(top)
    {
      var mid := (top + bottom) / 2;
      if time(mid) < syncStartTime {
        bottom := mid;
      } else {
        top := mid;
      }
    }
    assert IsTurningPoint(time, bottom, syncStartTime, bottomHeight, latest);
    if bottom > bottomHeight {
      bottom := bottom - 1;
    }
    return Some(bottom);
  }

  /** Block `b` is before the wanted period, and the next one is in it. */
  ghost predicate IsTurningPoint(time: nat -> int, b: nat, syncStartTime: int, bottomHeight: nat, latest: nat) {
    bottomHeight <= b < latest && time(b) < syncStartTime <= time(b + 1)
  }

  ghost predicate TimesNonDecreasing(time: nat -> int) {
    forall i: nat, j: nat :: i <= j ==> time(i) <= time(j)
  }

  /** The turning point is unique, and syncing from it on - or from the block before - misses no block of the period. */
  lemma TurningPointCoversPeriod(time: nat -> int, b: nat, syncStartTime: int, bottomHeight: nat, latest: nat, x: nat)
    requires TimesNonDecreasing(time) && IsTurningPoint(time, b, syncStartTime, bottomHeight, latest)
    ensures time(x) >= syncStartTime <==> x > b
    ensures forall c: nat :: IsTurningPoint(time, c, syncStartTime, bottomHeight, latest) ==> c == b
  {
    assert x <= b ==> time(x) <= time(b);
    assert x >= b + 1 ==> time(b + 1) <= time(x);
  }
}
