/**
 When the loops save, and what becomes of the blocks that have been processed: nothing is saved before it
 is confirmed, no block is processed twice at a time, and none that was processed is lost before its number
 is saved.
 */
module ConfirmedSaves {
  import opened IndexerRuns
  import opened IndexerState
  import opened Interlacing
  import opened Storage
  import opened Wrappers

  // ---------- what a save leaves alone ----------

  ghost predicate SameLoops(s: State, s2: State) {
    && s2.t == s.t && s2.np1Hash == s.np1Hash && s2.waitNp1 == s.waitNp1 && s2.refreshing == s.refreshing
    && s2.attempting == s.attempting && s2.isSyncing == s.isSyncing && s2.prepared == s.prepared
  }

  lemma BottomFrame(s: State)
    ensures SaveBottomState(s) == s.(bottom := SaveBottomState(s).bottom, bottomTime := SaveBottomState(s).bottomTime)
  {}

  lemma CheckFrame(s: State)
    ensures var s2 := CheckDatabaseContinuous(s);
            SameLoops(s, s2) && s2.n == s.n && s2.saves == s.saves && s2.processors == s.processors
  {}

  lemma RotateFrame(s: State, ranges: Ranges, x: Block)
    requires s.rotor.index <= 1
    ensures var s2 := RotateTables(s, ranges, x);
            SameLoops(s, s2) && s2.n == s.n && s2.saves == s.saves && s2.processors == s.processors
  {
    if Rotates(s.rotor, x.timestamp, x.number) {
      var turned := Turned(s, ranges, x);
      BottomFrame(turned);
      CheckFrame(SaveBottomState(turned));
    }
  }

  lemma SaveFrame(s: State, ranges: Ranges, x: Block)
    requires s.rotor.index <= 1 && x.number == s.n + 1
    ensures var s2 := BlockSave(s, ranges, x);
            && SameLoops(s, s2) && s2.n == s.n + 1 && s2.saves == s.saves + [Save(s.n, s.np1Hash, x)]
            && s2.processors == Above(s.processors, s.n + 1)
  {
    var w := WriteBlock(s, x);
    BottomFrame(w);
    var bottomed := if NeedsBottom(w) then SaveBottomState(w) else w;
    RotateFrame(bottomed.(processors := Above(bottomed.processors, bottomed.n)), ranges, x);
  }

  // ---------- the processors ----------

  /** Of the blocks asked for, those that are not being processed yet are; each once. */
  ghost predicate Processed(before: seq<Processor>, asked: seq<Processor>, after: seq<Processor>) {
    && before <= after
    && (forall i :: 0 <= i < |asked| ==> HashIn(after, asked[i].hash))
    && forall i :: |before| <= i < |after| ==> after[i] in asked && !HashIn(after[..i], after[i].hash)
  }

  ghost predicate HashIn(processors: seq<Processor>, hash: nat) {
    exists p :: p in processors && p.hash == hash
  }

  ghost predicate Cleared(before: seq<Processor>, number: nat, after: seq<Processor>) {
    forall p :: p in after <==> p in before && p.number > number
  }

  /** No two processors work on the same block. */
  ghost predicate OncePerHash(processors: seq<Processor>) {
    forall i, j :: 0 <= i < j < |processors| ==> processors[i].hash != processors[j].hash
  }

  lemma HashIsIn(processors: seq<Processor>, hash: nat)
    requires HasHash(processors, hash)
    ensures HashIn(processors, hash)
  {
    if !HashIn(processors, hash) {
      forall i | 0 <= i < |processors| ensures processors[i].hash != hash {
        assert processors[i] in processors;
      }
    }
  }

  lemma ProcessOne(before: seq<Processor>, p: Processor)
    ensures Processed(before, [p], Process(before, p))
  {
    if HasHash(before, p.hash) {
      HashIsIn(before, p.hash);
    } else {
      var after := before + [p];
      assert p in after;
      assert after[..|before|] == before;
    }
  }

  lemma ProcessMore(before: seq<Processor>, asked: seq<Processor>, middle: seq<Processor>, p: Processor, after: seq<Processor>)
    requires Processed(before, asked, middle) && Processed(middle, [p], after)
    ensures Processed(before, asked + [p], after)
  {
    forall i | 0 <= i < |asked + [p]| ensures HashIn(after, (asked + [p])[i].hash) {
      if i < |asked| {
        assert (asked + [p])[i] == asked[i] && HashIn(middle, asked[i].hash);
        var q :| q in middle && q.hash == asked[i].hash;
        assert q in after;
      } else {
        assert [p][0] == p && HashIn(after, [p][0].hash);
      }
    }
    forall i | |before| <= i < |after| ensures after[i] in asked + [p] && !HashIn(after[..i], after[i].hash) {
      if i < |middle| { assert after[..i] == middle[..i] && after[i] == middle[i]; }
    }
  }

  lemma {:induction false} ProcessEach(before: seq<Processor>, p: Processor, ahead: seq<Processor>)
    ensures Processed(before, [p] + ahead, ProcessAll(Process(before, p), ahead))
    decreases |ahead|
  {
    if ahead == [] {
      ProcessOne(before, p);
      assert [p] + ahead == [p];
    } else {
      var front, last := ahead[..|ahead| - 1], ahead[|ahead| - 1];
      var middle := ProcessAll(Process(before, p), front);
      ProcessEach(before, p, front);
      ProcessOne(middle, last);
      ProcessMore(before, [p] + front, middle, last, Process(middle, last));
      assert [p] + ahead == [p] + front + [last];
    }
  }

  lemma {:induction false} AboveMeans(processors: seq<Processor>, number: nat)
    ensures Cleared(processors, number, Above(processors, number))
    ensures OncePerHash(processors) ==> OncePerHash(Above(processors, number))
  {
    if processors != [] {
      var front, last := processors[..|processors| - 1], processors[|processors| - 1];
      assert processors == front + [last];
      AboveMeans(front, number);
      var above := Above(front, number);
      forall i | OncePerHash(processors) && 0 <= i < |above| ensures above[i].hash != last.hash {
        assert above[i] in front;
        var j :| 0 <= j < |front| && front[j] == above[i];
        assert processors[j] == front[j] && processors[|front|] == last;
      }
      assert OncePerHash(processors) ==> OncePerHash(front);
    }
  }

  lemma ProcessedOnce(before: seq<Processor>, asked: seq<Processor>, after: seq<Processor>)
    requires Processed(before, asked, after) && OncePerHash(before)
    ensures OncePerHash(after)
  {
    forall i, j | 0 <= i < j < |after| ensures after[i].hash != after[j].hash {
      if j < |before| {
        assert before[i] == after[i] && before[j] == after[j];
      } else {
        assert after[..j][i] == after[i];
        assert after[i] in after[..j];
      }
    }
  }

  // ---------- one attempt to save ----------

  ghost predicate IsReady(prepared: map<nat, seq<Block>>, number: nat, hash: nat) {
    number in prepared && exists x :: x in prepared[number] && x.hash == hash
  }

  /** The first block kept under the number that has the hash. */
  ghost predicate IsFirstReady(prepared: map<nat, seq<Block>>, number: nat, hash: nat, x: Block) {
    number in prepared && exists i :: 0 <= i < |prepared[number]| && prepared[number][i] == x && x.hash == hash
                                      && forall j :: 0 <= j < i ==> prepared[number][j].hash != hash
  }

  /** Block `x` is saved as N+1, with `processors` the ones at work so far. */
  ghost predicate Adds(s: State, processors: seq<Processor>, s2: State, hash: nat, x: Block) {
    && s2.saves == s.saves + [Save(s.n, hash, x)] && s2.n == s.n + 1 && x.number == s.n + 1
    && Cleared(processors, s2.n, s2.processors) && !s2.waitNp1
  }

  /** Nothing is saved. */
  ghost predicate AddsNone(s: State, processors: seq<Processor>, s2: State) {
    s2.saves == s.saves && s2.n == s.n && s2.processors == processors && s2.prepared == s.prepared
  }

  /** An attempt saves exactly if N+1 has been processed with the hash, and otherwise waits exactly if it is being processed. */
  ghost predicate Attempted(s: State, processors: seq<Processor>, s2: State, hash: nat) {
    if IsReady(s.prepared, s.n + 1, hash) then
      (exists x :: IsFirstReady(s.prepared, s.n + 1, hash, x) && Adds(s, processors, s2, hash, x)) && s2.prepared == s.prepared - {s.n + 1}
    else
      AddsNone(s, processors, s2) && (s2.waitNp1 <==> Processor(s.n + 1, hash) in processors)
  }

  lemma {:induction false} WithHashIsFirst(blocks: seq<Block>, hash: nat) returns (i: nat)
    requires WithHash(blocks, hash).Some?
    ensures i < |blocks| && blocks[i] == WithHash(blocks, hash).value && blocks[i].hash == hash
    ensures forall j :: 0 <= j < i ==> blocks[j].hash != hash
  {
    if blocks[0].hash == hash {
      i := 0;
    } else {
      i := WithHashIsFirst(blocks[1..], hash);
      i := i + 1;
      forall j | 0 <= j < i ensures blocks[j].hash != hash {
        if j > 0 { assert blocks[1..][j - 1] == blocks[j]; }
      }
    }
  }

  lemma ReadyMeans(s: State)
    ensures ReadyBlock(s).Some? <==> IsReady(s.prepared, s.n + 1, s.np1Hash)
    ensures ReadyBlock(s).Some? ==> IsFirstReady(s.prepared, s.n + 1, s.np1Hash, ReadyBlock(s).value)
  {
    if ReadyBlock(s).Some? {
      var i := WithHashIsFirst(s.prepared[s.n + 1], s.np1Hash);
    }
  }

  /** What an attempt to save does, to processors that are distinct too. */
  ghost predicate Tried(s: State, s2: State) {
    && Attempted(s, s.processors, s2, s.np1Hash)
    && s2.t == s.t && s2.np1Hash == s.np1Hash && s2.refreshing == s.refreshing && s2.attempting == s.attempting && s2.isSyncing == s.isSyncing
    && (OncePerHash(s.processors) ==> OncePerHash(s2.processors))
  }

  lemma TrySaveMeans(s: State, ranges: Ranges)
    requires s.rotor.index <= 1 && PreparedFit(s.prepared) && !s.waitNp1
    ensures Tried(s, TrySaveNp1Block(s, ranges))
  {
    ReadyMeans(s);
    if ReadyBlock(s).Some? {
      ReadyIsNext(s);
      SavesReady(s, ranges, ReadyBlock(s).value);
    } else {
      WaitsOrNot(s, ranges);
    }
  }

  lemma SavesReady(s: State, ranges: Ranges, x: Block)
    requires s.rotor.index <= 1 && !s.waitNp1 && ReadyBlock(s) == Some(x) && x.number == s.n + 1
    requires IsFirstReady(s.prepared, s.n + 1, s.np1Hash, x)
    ensures Tried(s, TrySaveNp1Block(s, ranges))
  {
    SaveFrame(s, ranges, x);
    AboveMeans(s.processors, s.n + 1);
    var saved := BlockSave(s, ranges, x);
    ReadyIsAdded(s, saved, saved.(prepared := saved.prepared - {s.n + 1}), x);
  }

  lemma WaitsOrNot(s: State, ranges: Ranges)
    requires s.rotor.index <= 1 && !s.waitNp1 && ReadyBlock(s).None? && !IsReady(s.prepared, s.n + 1, s.np1Hash)
    ensures Tried(s, TrySaveNp1Block(s, ranges))
  {}

  lemma ReadyIsAdded(s: State, saved: State, s2: State, x: Block)
    requires IsFirstReady(s.prepared, s.n + 1, s.np1Hash, x) && x.number == s.n + 1 && !s.waitNp1
    requires SameLoops(s, saved) && saved.n == s.n + 1 && saved.saves == s.saves + [Save(s.n, s.np1Hash, x)]
    requires Cleared(s.processors, s.n + 1, saved.processors)
    requires s2 == saved.(prepared := saved.prepared - {s.n + 1})
    ensures Attempted(s, s.processors, s2, s.np1Hash)
  {
    assert Adds(s, s.processors, s2, s.np1Hash, x);
    assert IsReady(s.prepared, s.n + 1, s.np1Hash);
  }

  // ---------- the steps ----------

  /** Whatever is waited for, or tried again, is confirmed; only the sync loop tries again. */
  ghost predicate Waits(s: State, confirmations: nat) {
    !s.stopped ==> && (s.waitNp1 || s.attempting ==> s.n + confirmations < s.t)
                   && (s.attempting ==> s.isSyncing && !s.waitNp1)
  }

  /** A turn of the main loop that found the height `top` and the block `np1` on the chain. */
  ghost predicate LoopTurn(s: State, s2: State, confirmations: nat, top: nat, np1: Processor) {
    && s2.t == top && s2.np1Hash == np1.hash && s2.isSyncing == s.isSyncing && s2.attempting == s.attempting
    && (s2.refreshing <==> s.n + confirmations < top)
    && if s.n + confirmations < top then Attempted(s, s.processors, s2, np1.hash)
       else AddsNone(s, s2.processors, s2) && !s2.waitNp1
            && Processed(s.processors, if s.np1Hash == np1.hash then [] else [np1], s2.processors)
  }

  /** A turn of the sync loop; it ends syncing if N+1 is not confirmed. */
  ghost predicate SyncTurn(s: State, s2: State, confirmations: nat, np1: Processor, ahead: seq<Processor>) {
    && s2.t == s.t && (s2.isSyncing <==> s.n + confirmations < s.t)
    && if s.n + confirmations < s.t then
         && s2.np1Hash == np1.hash
         && (exists processors :: Processed(s.processors, [np1] + ahead, processors) && Attempted(s, processors, s2, np1.hash))
         && (s2.attempting <==> s2.saves == s.saves && !s2.waitNp1)
       else AddsNone(s, s.processors, s2) && !s2.waitNp1 && !s2.attempting
  }

  ghost predicate TryTurn(s: State, s2: State) {
    && s2.t == s.t && s2.isSyncing == s.isSyncing && s2.np1Hash == s.np1Hash && Attempted(s, s.processors, s2, s.np1Hash)
    && (s2.attempting <==> s2.saves == s.saves && !s2.waitNp1)
  }

  /** The block that is waited for is saved; any other is kept behind those with its number. */
  ghost predicate Completion(s: State, s2: State, x: Block, np2: Processor) {
    && s2.t == s.t && s2.isSyncing == s.isSyncing && s2.np1Hash == s.np1Hash && s2.attempting == s.attempting && s2.refreshing == s.refreshing
    && var isNp1 := x.number == s.n + 1 && x.hash == s.np1Hash;
       if isNp1 && s.waitNp1 then Adds(s, s.processors, s2, s.np1Hash, x) && s2.prepared == s.prepared
       else
         && s2.saves == s.saves && s2.n == s.n && s2.waitNp1 == s.waitNp1
         && Processed(s.processors, if isNp1 && !s.isSyncing then [np2] else [], s2.processors)
         && KeptLast(s.prepared, s2.prepared, x)
  }

  ghost predicate KeptLast(prepared: map<nat, seq<Block>>, prepared2: map<nat, seq<Block>>, x: Block) {
    && x.number in prepared2 && prepared2[x.number] != [] && prepared2[x.number][|prepared2[x.number]| - 1] == x
    && prepared2[x.number][..|prepared2[x.number]| - 1] == (if x.number in prepared then prepared[x.number] else [])
    && forall k :: k != x.number ==> (k in prepared2 <==> k in prepared) && (k in prepared ==> prepared2[k] == prepared[k])
  }

  lemma ProcessedNone(processors: seq<Processor>)
    ensures Processed(processors, [], processors)
  {}

  lemma LoopMeans(s: State, settings: Settings, top: nat, np1: Processor)
    requires Inv(s, settings.ranges) && Enabled(s, settings, Loop(top, np1))
    ensures LoopTurn(s, MainLoop(s, settings, top, np1), settings.confirmations, top, np1)
    ensures OncePerHash(s.processors) ==> OncePerHash(MainLoop(s, settings, top, np1).processors)
  {
    var s1 := s.(t := top, np1Hash := np1.hash);
    TrySaveMeans(s1, settings.ranges);
    ProcessOne(s.processors, np1);
    ProcessedNone(s.processors);
    if OncePerHash(s.processors) { ProcessedOnce(s.processors, [np1], Process(s.processors, np1)); }
    if s.n + settings.confirmations < top { AttemptedFrom(s, s1, s.processors, TrySaveNp1Block(s1, settings.ranges), MainLoop(s, settings, top, np1), np1.hash); }
  }

  /** What an attempt does, with fields changed before and after that do not matter to it. */
  lemma AttemptedFrom(s: State, s1: State, processors: seq<Processor>, s2: State, s3: State, hash: nat)
    requires Attempted(s1, processors, s2, hash)
    requires s1.saves == s.saves && s1.n == s.n && s1.prepared == s.prepared
    requires s3.saves == s2.saves && s3.n == s2.n && s3.prepared == s2.prepared && s3.processors == s2.processors && s3.waitNp1 == s2.waitNp1
    ensures Attempted(s, processors, s3, hash)
  {
    if IsReady(s.prepared, s.n + 1, hash) {
      var x :| IsFirstReady(s1.prepared, s1.n + 1, hash, x) && Adds(s1, processors, s2, hash, x);
      assert Adds(s, processors, s3, hash, x);
    }
  }

  lemma AttemptMeans(s: State, ranges: Ranges)
    requires s.rotor.index <= 1 && PreparedFit(s.prepared) && !s.waitNp1
    ensures var s2 := Attempt(s, ranges);
            && Attempted(s, s.processors, s2, s.np1Hash)
            && s2.t == s.t && s2.np1Hash == s.np1Hash && s2.isSyncing == s.isSyncing
            && (s2.attempting <==> s2.saves == s.saves && !s2.waitNp1)
            && (OncePerHash(s.processors) ==> OncePerHash(s2.processors))
  {
    TrySaveMeans(s, ranges);
    ReadyMeans(s);
    AttemptedFrom(s, s, s.processors, TrySaveNp1Block(s, ranges), Attempt(s, ranges), s.np1Hash);
  }

  lemma SyncMeans(s: State, settings: Settings, np1: Processor, ahead: seq<Processor>)
    requires Inv(s, settings.ranges) && Enabled(s, settings, Sync(np1, ahead))
    ensures SyncTurn(s, SyncLoop(s, settings, np1, ahead), settings.confirmations, np1, ahead)
    ensures OncePerHash(s.processors) ==> OncePerHash(SyncLoop(s, settings, np1, ahead).processors)
  {
    var processors := ProcessAll(Process(s.processors, np1), ahead);
    var s1 := s.(np1Hash := np1.hash, processors := processors);
    AttemptMeans(s1, settings.ranges);
    ProcessEach(s.processors, np1, ahead);
    if OncePerHash(s.processors) { ProcessedOnce(s.processors, [np1] + ahead, processors); }
    AttemptedFrom(s, s1, processors, Attempt(s1, settings.ranges), Attempt(s1, settings.ranges), np1.hash);
  }

  lemma CompletedMeans(s: State, ranges: Ranges, x: Block, np2: Processor)
    requires Inv(s, ranges) && !s.stopped
    ensures Completion(s, BlockCompleted(s, ranges, x, np2), x, np2)
    ensures OncePerHash(s.processors) ==> OncePerHash(BlockCompleted(s, ranges, x, np2).processors)
  {
    if x.number == s.n + 1 && x.hash == s.np1Hash && s.waitNp1 {
      AwaitedMeans(s, ranges, x, np2);
    } else {
      KeptMeans(s, ranges, x, np2);
    }
  }

  lemma AwaitedMeans(s: State, ranges: Ranges, x: Block, np2: Processor)
    requires s.rotor.index <= 1 && x.number == s.n + 1 && x.hash == s.np1Hash && s.waitNp1
    ensures Completion(s, BlockCompleted(s, ranges, x, np2), x, np2)
    ensures OncePerHash(s.processors) ==> OncePerHash(BlockCompleted(s, ranges, x, np2).processors)
  {
    SaveFrame(s, ranges, x);
    AboveMeans(s.processors, s.n + 1);
  }

  lemma KeptMeans(s: State, ranges: Ranges, x: Block, np2: Processor)
    requires s.rotor.index <= 1 && !(x.number == s.n + 1 && x.hash == s.np1Hash && s.waitNp1)
    ensures Completion(s, BlockCompleted(s, ranges, x, np2), x, np2)
    ensures OncePerHash(s.processors) ==> OncePerHash(BlockCompleted(s, ranges, x, np2).processors)
  {
    KeepsLast(s.prepared, x);
    if !s.isSyncing && x.number == s.n + 1 && x.hash == s.np1Hash {
      ProcessOne(s.processors, np2);
      if OncePerHash(s.processors) { ProcessedOnce(s.processors, [np2], Process(s.processors, np2)); }
      KeptCompletion(s, Prepared(s.prepared, x), Process(s.processors, np2), x, np2, [np2]);
    } else {
      ProcessedNone(s.processors);
      KeptCompletion(s, Prepared(s.prepared, x), s.processors, x, np2, []);
    }
  }

  lemma KeptCompletion(s: State, prepared: map<nat, seq<Block>>, processors: seq<Processor>, x: Block, np2: Processor, asked: seq<Processor>)
    requires !(x.number == s.n + 1 && x.hash == s.np1Hash && s.waitNp1) && KeptLast(s.prepared, prepared, x)
    requires asked == if x.number == s.n + 1 && x.hash == s.np1Hash && !s.isSyncing then [np2] else []
    requires Processed(s.processors, asked, processors)
    ensures Completion(s, s.(prepared := prepared, processors := processors), x, np2)
  {}

  lemma KeepsLast(prepared: map<nat, seq<Block>>, x: Block)
    ensures KeptLast(prepared, Prepared(prepared, x), x)
  {}

  lemma RefreshMeans(s: State, np1: Processor)
    ensures var s2 := MainLoopRefresh(s, np1);
            && s2.np1Hash == np1.hash && !s2.refreshing && Processed(s.processors, [np1], s2.processors)
            && s2.saves == s.saves && s2.n == s.n && s2.t == s.t && s2.prepared == s.prepared
            && s2.waitNp1 == s.waitNp1 && s2.attempting == s.attempting && s2.isSyncing == s.isSyncing
            && (OncePerHash(s.processors) ==> OncePerHash(s2.processors))
  {
    ProcessOne(s.processors, np1);
    if OncePerHash(s.processors) { ProcessedOnce(s.processors, [np1], Process(s.processors, np1)); }
  }

  /** A restart goes on after the last block saved, or begins a clean database; it resets one that is too far behind. */
  ghost predicate Restarted(s: State, s2: State, settings: Settings, top: nat, syncStart: nat) {
    && s2.saves == s.saves && s2.blocks == s.blocks && s2.prepared == map[] && s2.processors == []
    && !s2.waitNp1 && !s2.refreshing && !s2.attempting
    && (s2.stopped <==> settings.syncEnabled && 0 < s.savedN < syncStart)
    && if s2.stopped then s2.tables == Tables([], []) && s2.savedN == 0 && s2.bottom == None
       else
         && s2.tables == s.tables && s2.savedN == s.savedN && s2.isSyncing == settings.syncEnabled
         && s2.n == (if s.savedN > 0 then s.savedN else if settings.syncEnabled then syncStart else top - settings.confirmations)
         && s2.t == (if settings.syncEnabled then top else 0)
  }

  lemma RestartMeans(s: State, settings: Settings, top: nat, syncStart: nat)
    requires Inv(s, settings.ranges) && Enabled(s, settings, Restart(top, syncStart))
    ensures Restarted(s, Start(s, settings, top, syncStart), settings, top, syncStart)
  {
    BottomUnchanged(Halted(s), settings.ranges);
    var bottomed := SaveBottomState(Halted(s));
    TakeUpKeeps(bottomed, settings.ranges);
    var up := TakeUp(bottomed, settings.ranges);
    CheckPasses(up, up.history, settings.ranges);
  }

  // ---------- runs ----------

  lemma StepWaits(s: State, settings: Settings, e: Event)
    requires Inv(s, settings.ranges) && Enabled(s, settings, e) && Waits(s, settings.confirmations) && OncePerHash(s.processors)
    ensures Waits(Apply(s, settings, e), settings.confirmations) && OncePerHash(Apply(s, settings, e).processors)
  {
    match e
    case Completed(x, np2) =>
      CompletedKeeps(s, settings.ranges, x, np2);
      CompletedMeans(s, settings.ranges, x, np2);
    case Loop(top, np1) => LoopMeans(s, settings, top, np1);
    case Refresh(np1) => RefreshMeans(s, np1);
    case Sync(np1, ahead) => SyncMeans(s, settings, np1, ahead);
    case TryAgain => AttemptMeans(s, settings.ranges);
    case Height(top) =>
    case Restart(top, syncStart) => RestartMeans(s, settings, top, syncStart);
  }

  ghost predicate WaitsBefore(settings: Settings, s: State, e: Event, s2: State) {
    && Inv(s, settings.ranges) && Enabled(s, settings, e) && s2 == Apply(s, settings, e)
    && Waits(s, settings.confirmations) && OncePerHash(s.processors)
  }

  ghost predicate TurnIsFine(settings: Settings, s: State, e: Event, s2: State) {
    Inv(s, settings.ranges) && StepOf(settings, s, e, s2) && Waits(s, settings.confirmations) && OncePerHash(s.processors) ==>
      WaitsBefore(settings, s, e, s2) && Waits(s2, settings.confirmations) && OncePerHash(s2.processors)
  }

  lemma TurnsAreFine(settings: Settings)
    ensures forall s, e, s2 :: TurnIsFine(settings, s, e, s2)
  {
    forall s, e, s2 ensures TurnIsFine(settings, s, e, s2) {
      if Inv(s, settings.ranges) && StepOf(settings, s, e, s2) && Waits(s, settings.confirmations) && OncePerHash(s.processors) {
        StepWaits(s, settings, e);
      }
    }
  }

  lemma {:induction false} RunWaits(settings: Settings, events: seq<Event>, states: seq<State>, k: nat)
    requires Run(settings, events, states) && k < |states|
    ensures Waits(states[k], settings.confirmations) && OncePerHash(states[k].processors)
  {
    if k > 0 {
      RunWaits(settings, events, states, k - 1);
      RunKeeps(settings, events, states, k - 1);
      TurnsAreFine(settings);
      assert StepOf(settings, states[k - 1], events[k - 1], states[k - 1 + 1]);
      assert TurnIsFine(settings, states[k - 1], events[k - 1], states[k]);
    }
  }

  /** Every step of every run starts from a state with these invariants. */
  lemma RunSteps(settings: Settings, events: seq<Event>, states: seq<State>, k: nat)
    requires Run(settings, events, states) && k < |events|
    ensures WaitsBefore(settings, states[k], events[k], states[k + 1])
  {
    RunWaits(settings, events, states, k);
    RunKeeps(settings, events, states, k);
    TurnsAreFine(settings);
    assert StepOf(settings, states[k], events[k], states[k + 1]);
    assert TurnIsFine(settings, states[k], events[k], states[k + 1]);
  }

  /** No block is processed twice at a time, in any run. */
  lemma NotTwiceAtATime(settings: Settings, events: seq<Event>, states: seq<State>, k: nat, i: nat, j: nat)
    requires Run(settings, events, states) && k < |states| && i < j < |states[k].processors|
    ensures states[k].processors[i].hash != states[k].processors[j].hash
  {
    RunWaits(settings, events, states, k);
  }

  /** In every run only a confirmed block is waited for. */
  lemma WaitsAreConfirmed(settings: Settings, events: seq<Event>, states: seq<State>, k: nat)
    requires Run(settings, events, states) && k < |states|
    requires !states[k].stopped && (states[k].waitNp1 || states[k].attempting)
    ensures states[k].n + settings.confirmations < states[k].t
  {
    RunWaits(settings, events, states, k);
  }

  /** One block is saved, N+1, with the confirmations wanted below the height last seen. */
  ghost predicate SavedConfirmed(s: State, s2: State, confirmations: nat) {
    && |s2.saves| == |s.saves| + 1 && s2.saves[..|s.saves|] == s.saves && s2.n == s.n + 1
    && s2.saves[|s.saves|].block.number == s2.n && s2.n + confirmations <= s2.t
  }

  /** In every run a step saves at most one block, N+1, and that one has the confirmations wanted below the height last seen. */
  lemma SavesAreConfirmed(settings: Settings, events: seq<Event>, states: seq<State>, k: nat)
    requires Run(settings, events, states) && k < |events| && states[k + 1].saves != states[k].saves
    ensures SavedConfirmed(states[k], states[k + 1], settings.confirmations)
  {
    RunSteps(settings, events, states, k);
    StepSavesConfirmed(states[k], settings, events[k], states[k + 1]);
  }

  lemma StepSavesConfirmed(s: State, settings: Settings, e: Event, s2: State)
    requires WaitsBefore(settings, s, e, s2)
    ensures s2.saves == s.saves || SavedConfirmed(s, s2, settings.confirmations)
  {
    match e
    case Completed(x, np2) => CompletedMeans(s, settings.ranges, x, np2);
    case Loop(top, np1) => LoopMeans(s, settings, top, np1);
    case Refresh(np1) =>
    case Sync(np1, ahead) => SyncMeans(s, settings, np1, ahead);
    case TryAgain => AttemptMeans(s, settings.ranges);
    case Height(top) =>
    case Restart(top, syncStart) => RestartMeans(s, settings, top, syncStart);
  }

  /**
   In every run a turn of the main loop saves exactly if N+1 is confirmed at the height it finds and was
   processed with the hash it finds; it then saves the first such block.  It waits exactly if N+1 is
   confirmed and still being processed.  If N+1 is not confirmed it is processed once more when its hash
   has changed.
   */
  lemma LoopSavesIff(settings: Settings, events: seq<Event>, states: seq<State>, k: nat)
    requires Run(settings, events, states) && k < |events| && events[k].Loop?
    ensures var s, s2, np1, top := states[k], states[k + 1], events[k].np1, events[k].top;
            var confirmed, ready := s.n + settings.confirmations < top, IsReady(s.prepared, s.n + 1, np1.hash);
            && (s2.saves != s.saves <==> confirmed && ready)
            && (s2.waitNp1 <==> confirmed && !ready && Processor(s.n + 1, np1.hash) in s.processors)
            && LoopTurn(s, s2, settings.confirmations, top, np1)
  {
    RunSteps(settings, events, states, k);
    LoopMeans(states[k], settings, events[k].top, events[k].np1);
  }

  /** So does a turn of the sync loop, at the height it goes by; it ends syncing exactly if N+1 is not confirmed. */
  lemma SyncSavesIff(settings: Settings, events: seq<Event>, states: seq<State>, k: nat)
    requires Run(settings, events, states) && k < |events| && events[k].Sync?
    ensures var s, s2, np1 := states[k], states[k + 1], events[k].np1;
            && (s2.saves != s.saves <==> s.n + settings.confirmations < s.t && IsReady(s.prepared, s.n + 1, np1.hash))
            && SyncTurn(s, s2, settings.confirmations, np1, events[k].ahead)
  {
    RunSteps(settings, events, states, k);
    SyncMeans(states[k], settings, events[k].np1, events[k].ahead);
  }

  /** And a repeated attempt of the sync loop. */
  lemma TryAgainSavesIff(settings: Settings, events: seq<Event>, states: seq<State>, k: nat)
    requires Run(settings, events, states) && k < |events| && events[k].TryAgain?
    ensures states[k + 1].saves != states[k].saves <==> IsReady(states[k].prepared, states[k].n + 1, states[k].np1Hash)
    ensures TryTurn(states[k], states[k + 1])
  {
    RunSteps(settings, events, states, k);
    AttemptMeans(states[k], settings.ranges);
  }

  /** In every run a block that has been processed is saved at once exactly if it is the one waited for, and kept otherwise. */
  lemma CompletedSavesIff(settings: Settings, events: seq<Event>, states: seq<State>, k: nat)
    requires Run(settings, events, states) && k < |events| && events[k].Completed?
    ensures var s, s2, x := states[k], states[k + 1], events[k].x;
            && (s2.saves != s.saves <==> s.waitNp1 && x.number == s.n + 1 && x.hash == s.np1Hash)
            && Completion(s, s2, x, events[k].np2)
  {
    RunSteps(settings, events, states, k);
    CompletedMeans(states[k], settings.ranges, events[k].x, events[k].np2);
  }

  /** In every run what has been processed is kept until a block with its number is saved, or the process ends. */
  lemma ProcessedIsKept(settings: Settings, events: seq<Event>, states: seq<State>, k: nat, number: nat)
    requires Run(settings, events, states) && k < |events| && !events[k].Restart? && number in states[k].prepared
    ensures (number in states[k + 1].prepared && states[k].prepared[number] <= states[k + 1].prepared[number])
            || (number == states[k + 1].n == states[k].n + 1 && states[k + 1].saves != states[k].saves)
  {
    RunSteps(settings, events, states, k);
    StepKeepsProcessed(states[k], settings, events[k], states[k + 1], number);
  }

  lemma StepKeepsProcessed(s: State, settings: Settings, e: Event, s2: State, number: nat)
    requires WaitsBefore(settings, s, e, s2) && !e.Restart? && number in s.prepared
    ensures (number in s2.prepared && s.prepared[number] <= s2.prepared[number]) || (number == s2.n == s.n + 1 && s2.saves != s.saves)
  {
    match e
    case Completed(x, np2) => CompletedMeans(s, settings.ranges, x, np2);
    case Loop(top, np1) => LoopMeans(s, settings, top, np1);
    case Refresh(np1) =>
    case Sync(np1, ahead) => SyncMeans(s, settings, np1, ahead);
    case TryAgain => AttemptMeans(s, settings.ranges);
    case Height(top) =>
  }

  /** In every run a restart goes on after the last block saved; see `Restarted`. */
  lemma RestartGoesOn(settings: Settings, events: seq<Event>, states: seq<State>, k: nat)
    requires Run(settings, events, states) && k < |events| && events[k].Restart?
    ensures Restarted(states[k], states[k + 1], settings, events[k].top, events[k].syncStart)
  {
    RunSteps(settings, events, states, k);
    RestartMeans(states[k], settings, events[k].top, events[k].syncStart);
  }
}
