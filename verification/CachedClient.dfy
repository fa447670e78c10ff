/**
 The cache in front of a chain client (`CachedMccClient.ts`).  The client's answers are given; the
 cleanup a call schedules is a later step of its own.
 */
module CachedClients {
  import opened Queues
  import opened Wrappers

  datatype Transaction = Transaction(id: nat, content: nat)
  datatype Block = Block(hash: nat, number: nat)

  datatype Settings = Settings(transactionCacheSize: nat, blockCacheSize: nat, cleanupChunkSize: nat)

  /** The answers of the client; a block found by number is the one found by its hash. */
  datatype Client = Client(transaction: nat -> Option<Transaction>, blockByHash: nat -> Option<Block>, blockByNumber: nat -> Option<Block>)

  ghost predicate Coherent(client: Client) {
    forall n: nat :: client.blockByNumber(n).Some? ==> client.blockByHash(client.blockByNumber(n).value.hash) == client.blockByNumber(n)
  }

  ghost predicate NoRepeats(s: seq<nat>) {
    forall i: nat, j: nat :: i < j < |s| ==> Differ(s, i, j)
  }

  ghost predicate Differ(s: seq<nat>, i: nat, j: nat)
    requires i < |s| && j < |s|
  {
    s[i] != s[j]
  }

  /** The keys are those of the queue, each cached under the client's answer. */
  ghost predicate TransactionsFit(cache: map<nat, Option<Transaction>>, keys: seq<nat>, client: Client) {
    && NoRepeats(keys)
    && (forall k :: k in cache <==> k in keys)
    && forall k :: k in cache ==> cache[k] == client.transaction(k)
  }

  ghost predicate BlocksFit(cache: map<nat, Option<Block>>, keys: seq<nat>, client: Client) {
    && (forall k :: k in cache ==> k in keys)
    && forall k :: k in cache ==> cache[k] == client.blockByHash(k)
  }

  /**
   The sizes of the two caches against their bounds: how far they may be over depends on how many
   insertions were counted since the last cleanup.
   */
  ghost predicate Bounded(settings: Settings, scheduled: bool, counter: nat, transactions: nat, blocks: nat) {
    var slack := if scheduled then 2 * settings.cleanupChunkSize else settings.cleanupChunkSize + counter;
    && (scheduled ==> counter == 0) && counter < settings.cleanupChunkSize
    && transactions < settings.transactionCacheSize + slack
    && blocks < settings.blockCacheSize + slack
  }

  /** What counting one insertion does to the counter and the schedule. */
  ghost predicate OneCounted(settings: Settings, scheduled: bool, counter: nat, scheduled': bool, counter': nat) {
    if settings.cleanupChunkSize == 0 then scheduled' == scheduled && counter' == counter
    else if counter + 1 >= settings.cleanupChunkSize then scheduled' && counter' == 0
    else scheduled' == scheduled && counter' == counter + 1
  }

  /** The last `k` of a queue. */
  ghost function Newest(queue: seq<nat>, k: nat): seq<nat> {
    if |queue| <= k then queue else queue[|queue| - k..]
  }

  /** A queue is cut down to its size only once it has grown a chunk beyond. */
  ghost function Cleaned(settings: Settings, queue: seq<nat>, size: nat): seq<nat> {
    if settings.blockCacheSize > 0 && |queue| >= size + settings.cleanupChunkSize then Newest(queue, size) else queue
  }

  /**
   What is cached, and the queues of the keys; and when cleanups are due, all transactions ever inserted
   in that order, how many of them were evicted, and whether so far every scheduled cleanup ran before
   the next insertion.
   */
  datatype Caches = Caches(
    transactions: map<nat, Option<Transaction>>, transactionKeys: seq<nat>, blocks: map<nat, Option<Block>>, blockKeys: seq<nat>,
    counter: nat, scheduled: bool, inserted: seq<nat>, evicted: nat, timely: bool)

  /** The queue is what was inserted and not evicted, and the last ones never were. */
  ghost predicate KeepsLast(s: Caches, settings: Settings) {
    && s.evicted <= |s.inserted| && s.transactionKeys == s.inserted[s.evicted..]
    && (s.evicted > 0 ==> |s.inserted| - s.evicted >= settings.transactionCacheSize)
  }

  ghost predicate Fits(s: Caches, client: Client, settings: Settings) {
    && TransactionsFit(s.transactions, s.transactionKeys, client)
    && BlocksFit(s.blocks, s.blockKeys, client)
    && KeepsLast(s, settings)
    && (s.timely && settings.cleanupChunkSize > 0 && settings.blockCacheSize > 0 ==>
          Bounded(settings, s.scheduled, s.counter, |s.transactionKeys|, |s.blockKeys|))
    && (settings.cleanupChunkSize == 0 ==> !s.scheduled)
    && (NeverCleans(settings) ==> s.evicted == 0)
  }

  /** Without a chunk size no cleanup is ever scheduled; without a block cache size none does anything. */
  predicate NeverCleans(settings: Settings) {
    settings.cleanupChunkSize == 0 || settings.blockCacheSize == 0
  }

  class CachedMccClient {
    const client: Client
    const settings: Settings
    var transactionCache: map<nat, Option<Transaction>>
    const transactionCleanupQueue: Queue<nat>
    var blockCache: map<nat, Option<Block>>
    const blockCleanupQueue: Queue<nat>
    var cleanupCheckCounter: nat
    /** A cleanup has been scheduled and has not run yet. */
    var cleanupScheduled: bool
    ghost var inserted: seq<nat>
    ghost var evicted: nat
    ghost var timely: bool

    ghost predicate QueuesValid()
      reads this, transactionCleanupQueue, blockCleanupQueue
    {
      transactionCleanupQueue != blockCleanupQueue && transactionCleanupQueue.Valid() && blockCleanupQueue.Valid()
    }

    ghost function Snap(): Caches
      requires QueuesValid()
      reads this, transactionCleanupQueue, blockCleanupQueue
    {
      Caches(transactionCache, transactionCleanupQueue.Contents(), blockCache, blockCleanupQueue.Contents(),
             cleanupCheckCounter, cleanupScheduled, inserted, evicted, timely)
    }

    ghost predicate Valid()
      reads this, transactionCleanupQueue, blockCleanupQueue
    {
      QueuesValid() && Coherent(client) && Fits(Snap(), client, settings)
    }

    constructor (client: Client, settings: Settings)
      requires Coherent(client)
      ensures Valid() && transactionCache == map[] && blockCache == map[] && inserted == [] && timely
      ensures this.client == client && this.settings == settings
    {
      this.client := client;
      this.settings := settings;
      this.transactionCache := map[];
      this.transactionCleanupQueue := new Queue();
      this.blockCache := map[];
      this.blockCleanupQueue := new Queue();
      this.cleanupCheckCounter := 0;
      this.cleanupScheduled := false;
      this.inserted := [];
      this.evicted := 0;
      this.timely := true;
    }

    /** The client's answer, from the cache if it is there. */
    method GetTransaction(txId: nat) returns (r: Option<Transaction>)
      requires Valid()
      modifies this, transactionCleanupQueue
      ensures Valid() && r == client.transaction(txId) && txId in transactionCache
      ensures txId in old(transactionCache) ==> inserted == old(inserted) && timely == old(timely)
      ensures txId !in old(transactionCache) ==> inserted == old(inserted) + [txId] && timely == (old(timely) && !old(cleanupScheduled))
    {
      if txId in transactionCache {
        return transactionCache[txId];
      }
      r := client.transaction(txId);
      CacheTransaction(txId, r);
    }

    method CacheTransaction(txId: nat, r: Option<Transaction>)
      requires Valid() && txId !in transactionCache && r == client.transaction(txId)
      modifies this, transactionCleanupQueue
      ensures Valid() && txId in transactionCache
      ensures inserted == old(inserted) + [txId] && timely == (old(timely) && !old(cleanupScheduled))
    {
      timely := timely && !cleanupScheduled;
      InsertTransaction(txId, r);
      CheckAndCleanup();
      InsertedFits(old(Snap()), Snap(), client, settings, txId);
    }

    method InsertTransaction(txId: nat, r: Option<Transaction>)
      requires QueuesValid()
      modifies `transactionCache, `inserted, transactionCleanupQueue
      ensures QueuesValid()
      ensures Snap() == old(Snap()).(transactions := old(transactionCache)[txId := r], inserted := old(inserted) + [txId],
                                     transactionKeys := old(Snap()).transactionKeys + [txId])
    {
      transactionCache := transactionCache[txId := r];
      transactionCleanupQueue.Push(txId);
      inserted := inserted + [txId];
    }

    /** Blocks are cached by their hash only. */
    method GetBlockByHash(hash: nat) returns (r: Option<Block>)
      requires Valid()
      modifies this, blockCleanupQueue
      ensures Valid() && r == client.blockByHash(hash) && inserted == old(inserted)
      ensures timely == (old(timely) && (hash in old(blockCache) || !old(cleanupScheduled)))
    {
      if hash in blockCache {
        return blockCache[hash];
      }
      r := client.blockByHash(hash);
      CacheBlock(hash, r);
    }

    /** By number the client is always asked, and the answer cached under its hash. */
    method GetBlockByNumber(number: nat) returns (r: Option<Block>)
      requires Valid()
      modifies this, blockCleanupQueue
      ensures Valid() && r == client.blockByNumber(number) && inserted == old(inserted)
      ensures timely == (old(timely) && (r.None? || !old(cleanupScheduled)))
    {
      r := client.blockByNumber(number);
      if r.None? {
        return;
      }
      CacheBlock(r.value.hash, r);
    }

    method CacheBlock(hash: nat, block: Option<Block>)
      requires Valid() && block == client.blockByHash(hash)
      modifies this, blockCleanupQueue
      ensures Valid() && inserted == old(inserted) && timely == (old(timely) && !old(cleanupScheduled))
      ensures hash in blockCache && blockCleanupQueue.Contents() == old(blockCleanupQueue.Contents()) + [hash]
    {
      timely := timely && !cleanupScheduled;
      InsertBlock(hash, block);
      CheckAndCleanup();
      BlockInsertedFits(old(Snap()), Snap(), client, settings, hash);
    }

    method InsertBlock(hash: nat, block: Option<Block>)
      requires QueuesValid()
      modifies `blockCache, blockCleanupQueue
      ensures QueuesValid()
      ensures Snap() == old(Snap()).(blocks := old(blockCache)[hash := block], blockKeys := old(Snap()).blockKeys + [hash])
    {
      blockCache := blockCache[hash := block];
      blockCleanupQueue.Push(hash);
    }

    /** Counts insertions, and schedules a cleanup after each chunk of them. */
    method CheckAndCleanup()
      requires QueuesValid()
      modifies `cleanupCheckCounter, `cleanupScheduled
      ensures QueuesValid() && Snap() == old(Snap()).(counter := Snap().counter, scheduled := Snap().scheduled)
      ensures OneCounted(settings, old(cleanupScheduled), old(cleanupCheckCounter), cleanupScheduled, cleanupCheckCounter)
    {
      if settings.cleanupChunkSize == 0 {
        return;
      }
      cleanupCheckCounter := cleanupCheckCounter + 1;
      if cleanupCheckCounter >= settings.cleanupChunkSize {
        cleanupCheckCounter := 0;
        cleanupScheduled := true;
      }
    }

    /** The scheduled cleanup; without a block cache size neither cache is ever cleaned. */
    method Cleanup()
      requires Valid() && cleanupScheduled
      modifies this, transactionCleanupQueue, blockCleanupQueue
      ensures Valid() && !cleanupScheduled && inserted == old(inserted) && timely == old(timely)
      ensures blockCleanupQueue.Contents() ==
                Cleaned(settings, old(blockCleanupQueue.Contents()), settings.blockCacheSize)
      ensures transactionCleanupQueue.Contents() ==
                Cleaned(settings, old(transactionCleanupQueue.Contents()), settings.transactionCacheSize)
    {
      if settings.blockCacheSize == 0 {
        cleanupScheduled := false;
        return;
      }
      if blockCleanupQueue.Size() >= settings.blockCacheSize + settings.cleanupChunkSize {
        EvictBlocks();
      }
      if transactionCleanupQueue.Size() >= settings.transactionCacheSize + settings.cleanupChunkSize {
        EvictTransactions();
      }
      cleanupScheduled := false;
      CleanedFits(old(Snap()), Snap(), client, settings);
    }

    method EvictBlocks()
      requires QueuesValid() && BlocksFit(blockCache, blockCleanupQueue.Contents(), client)
      modifies `blockCache, blockCleanupQueue
      ensures QueuesValid() && BlocksFit(blockCache, blockCleanupQueue.Contents(), client)
      ensures Snap() == old(Snap()).(blocks := blockCache, blockKeys := Newest(old(Snap()).blockKeys, settings.blockCacheSize))
    {
      while blockCleanupQueue.Size() > settings.blockCacheSize
        invariant QueuesValid() && BlocksFit(blockCache, blockCleanupQueue.Contents(), client)
        invariant Snap() == old(Snap()).(blocks := blockCache, blockKeys := Snap().blockKeys)
        invariant Newest(Snap().blockKeys, settings.blockCacheSize) == Newest(old(Snap()).blockKeys, settings.blockCacheSize)
        decreases |blockCleanupQueue.Contents()|
      {
        ghost var keys := blockCleanupQueue.Contents();
        var first := blockCleanupQueue.Shift();
        assert keys == [first.value] + keys[1..];
        blockCache := blockCache - {first.value};
      }
    }

    method EvictTransactions()
      requires QueuesValid() && KeepsLast(Snap(), settings)
      requires TransactionsFit(transactionCache, transactionCleanupQueue.Contents(), client)
      modifies `transactionCache, `evicted, transactionCleanupQueue
      ensures QueuesValid() && KeepsLast(Snap(), settings)
      ensures TransactionsFit(transactionCache, transactionCleanupQueue.Contents(), client)
      ensures Snap() == old(Snap()).(transactions := transactionCache, evicted := evicted,
                                     transactionKeys := Newest(old(Snap()).transactionKeys, settings.transactionCacheSize))
    {
      while transactionCleanupQueue.Size() > settings.transactionCacheSize
        invariant QueuesValid() && KeepsLast(Snap(), settings)
        invariant TransactionsFit(transactionCache, transactionCleanupQueue.Contents(), client)
        invariant Snap() == old(Snap()).(transactions := transactionCache, evicted := evicted, transactionKeys := Snap().transactionKeys)
        invariant Newest(Snap().transactionKeys, settings.transactionCacheSize) == Newest(old(Snap()).transactionKeys, settings.transactionCacheSize)
        decreases |transactionCleanupQueue.Contents()|
      {
        ghost var before := Snap();
        EvictFirst();
        FirstEvictedFits(before, Snap(), client, settings);
      }
    }

    method EvictFirst()
      requires QueuesValid() && transactionCleanupQueue.Contents() != []
      modifies `transactionCache, `evicted, transactionCleanupQueue
      ensures QueuesValid() && FirstEvicted(old(Snap()), Snap())
    {
      var first := transactionCleanupQueue.Shift();
      transactionCache := transactionCache - {first.value};
      evicted := evicted + 1;
    }
  }

  ghost predicate FirstEvicted(s: Caches, t: Caches) {
    && s.transactionKeys != []
    && t == s.(transactions := s.transactions - {s.transactionKeys[0]}, transactionKeys := s.transactionKeys[1..], evicted := s.evicted + 1)
  }

  lemma FirstEvictedFits(s: Caches, t: Caches, client: Client, settings: Settings)
    requires TransactionsFit(s.transactions, s.transactionKeys, client) && KeepsLast(s, settings)
    requires |s.transactionKeys| > settings.transactionCacheSize && FirstEvicted(s, t)
    ensures TransactionsFit(t.transactions, t.transactionKeys, client) && KeepsLast(t, settings)
    ensures Newest(t.transactionKeys, settings.transactionCacheSize) == Newest(s.transactionKeys, settings.transactionCacheSize)
  {
    EvictOne(s.transactions, s.transactionKeys, client);
    assert s.inserted[s.evicted..][1..] == s.inserted[s.evicted + 1..];
  }

  lemma InsertedFits(s: Caches, t: Caches, client: Client, settings: Settings, k: nat)
    requires Fits(s, client, settings) && k !in s.transactions
    requires t == s.(transactions := s.transactions[k := client.transaction(k)], transactionKeys := s.transactionKeys + [k],
                     inserted := s.inserted + [k], timely := s.timely && !s.scheduled, counter := t.counter, scheduled := t.scheduled)
    requires OneCounted(settings, s.scheduled, s.counter, t.scheduled, t.counter)
    ensures Fits(t, client, settings)
  {
    InsertOne(s.transactions, s.transactionKeys, client, k);
    assert (s.inserted + [k])[s.evicted..] == s.inserted[s.evicted..] + [k];
  }

  lemma BlockInsertedFits(s: Caches, t: Caches, client: Client, settings: Settings, k: nat)
    requires Fits(s, client, settings)
    requires t == s.(blocks := s.blocks[k := client.blockByHash(k)], blockKeys := s.blockKeys + [k],
                     timely := s.timely && !s.scheduled, counter := t.counter, scheduled := t.scheduled)
    requires OneCounted(settings, s.scheduled, s.counter, t.scheduled, t.counter)
    ensures Fits(t, client, settings)
  {}

  lemma CleanedFits(s: Caches, t: Caches, client: Client, settings: Settings)
    requires Fits(s, client, settings) && s.scheduled && settings.blockCacheSize > 0
    requires TransactionsFit(t.transactions, t.transactionKeys, client) && BlocksFit(t.blocks, t.blockKeys, client) && KeepsLast(t, settings)
    requires t == s.(transactions := t.transactions, transactionKeys := Cleaned(settings, s.transactionKeys, settings.transactionCacheSize),
                     blocks := t.blocks, blockKeys := Cleaned(settings, s.blockKeys, settings.blockCacheSize),
                     evicted := t.evicted, scheduled := false)
    ensures Fits(t, client, settings)
  {}

  lemma InsertOne(cache: map<nat, Option<Transaction>>, keys: seq<nat>, client: Client, k: nat)
    requires TransactionsFit(cache, keys, client) && k !in cache
    ensures TransactionsFit(cache[k := client.transaction(k)], keys + [k], client)
  {
    forall i: nat, j: nat | i < j < |keys + [k]| ensures Differ(keys + [k], i, j) {
      if j < |keys| { assert Differ(keys, i, j); } else { assert keys[i] in keys; }
    }
  }

  lemma EvictOne(cache: map<nat, Option<Transaction>>, keys: seq<nat>, client: Client)
    requires TransactionsFit(cache, keys, client) && keys != []
    ensures TransactionsFit(cache - {keys[0]}, keys[1..], client)
  {
    assert keys == [keys[0]] + keys[1..];
    forall i: nat, j: nat | i < j < |keys[1..]| ensures Differ(keys[1..], i, j) {
      assert Differ(keys, i + 1, j + 1);
    }
    forall j: nat | 0 < j < |keys| ensures keys[j] != keys[0] {
      assert Differ(keys, 0, j);
    }
  }

  /** Every cached entry is the client's answer for its key, and the transaction cache has the keys of its queue, without repeats. */
  lemma CacheAgrees(c: CachedMccClient, k: nat)
    requires c.Valid()
    ensures k in c.transactionCache ==> c.transactionCache[k] == c.client.transaction(k)
    ensures k in c.blockCache ==> c.blockCache[k] == c.client.blockByHash(k) && k in c.blockCleanupQueue.Contents()
    ensures k in c.transactionCache <==> k in c.transactionCleanupQueue.Contents()
    ensures multiset(c.transactionCleanupQueue.Contents())[k] <= 1
  {
    NoRepeatsOnce(c.transactionCleanupQueue.Contents(), k);
  }

  lemma {:induction false} NoRepeatsOnce(s: seq<nat>, k: nat)
    requires NoRepeats(s)
    ensures multiset(s)[k] <= 1
  {
    if s != [] {
      var rest := s[1..];
      assert s == [s[0]] + rest;
      forall i: nat, j: nat | i < j < |rest| ensures Differ(rest, i, j) {
        assert Differ(s, i + 1, j + 1);
      }
      NoRepeatsOnce(rest, k);
      forall j: nat | j < |rest| ensures rest[j] != s[0] {
        assert Differ(s, 0, j + 1);
      }
    }
  }

  /** A transaction is still cached as long as fewer than `transactionCacheSize` have been inserted after it. */
  lemma RecentSurvive(c: CachedMccClient, i: nat)
    requires c.Valid() && i < |c.inserted| && |c.inserted| - 1 - i < c.settings.transactionCacheSize
    ensures c.inserted[i] in c.transactionCache
  {
    assert i >= c.evicted;
    assert c.transactionCleanupQueue.Contents()[i - c.evicted] == c.inserted[i];
  }

  /** With every cleanup run before the next insertion, no cache exceeds its size by two chunks or more. */
  lemma CachesBounded(c: CachedMccClient)
    requires c.Valid() && c.timely && c.settings.cleanupChunkSize > 0 && c.settings.blockCacheSize > 0
    ensures |c.transactionCache| <= c.settings.transactionCacheSize + 2 * c.settings.cleanupChunkSize - 1
    ensures |c.blockCache| <= c.settings.blockCacheSize + 2 * c.settings.cleanupChunkSize - 1
  {
    KeysBounded(c.transactionCache.Keys, c.transactionCleanupQueue.Contents());
    KeysBounded(c.blockCache.Keys, c.blockCleanupQueue.Contents());
  }

  /** In all other settings the transaction cache grows without bound: it holds all that was ever inserted. */
  lemma CacheGrows(c: CachedMccClient)
    requires c.Valid() && (c.settings.cleanupChunkSize == 0 || c.settings.blockCacheSize == 0)
    ensures |c.transactionCache| == |c.inserted| && (forall i :: 0 <= i < |c.inserted| ==> c.inserted[i] in c.transactionCache)
  {
    assert c.inserted[0..] == c.inserted;
    KeysCounted(c.transactionCache.Keys, c.transactionCleanupQueue.Contents());
  }

  lemma {:induction false} KeysCounted(keys: set<nat>, queue: seq<nat>)
    requires NoRepeats(queue) && forall k :: k in keys <==> k in queue
    ensures |keys| == |queue|
    decreases |queue|
  {
    if queue == [] {
      assert keys == {};
    } else {
      var rest := queue[1..];
      assert queue == [queue[0]] + rest;
      forall i: nat, j: nat | i < j < |rest| ensures Differ(rest, i, j) {
        assert Differ(queue, i + 1, j + 1);
      }
      forall j: nat | j < |rest| ensures rest[j] != queue[0] {
        assert Differ(queue, 0, j + 1);
      }
      KeysCounted(keys - {queue[0]}, rest);
    }
  }

  lemma {:induction false} KeysBounded(keys: set<nat>, queue: seq<nat>)
    requires forall k :: k in keys ==> k in queue
    ensures |keys| <= |queue|
    decreases |queue|
  {
    if queue == [] {
      assert keys == {};
    } else {
      assert queue == [queue[0]] + queue[1..];
      KeysBounded(keys - {queue[0]}, queue[1..]);
    }
  }
}
