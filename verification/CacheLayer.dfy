/**
 * Reading the chain's columns through caches: whatever is looked up, written or collected, a lookup
 * answers as the bare database would (core/src/db/db.rs, core/src/blockchain/blockchain.rs).
 */
module CacheLayer {
  import opened Basics
  import opened CacheManagement

  /** A key of one of the cached columns, which is also its id in the cache manager. */
  datatype Key = Header(hash: Hash) | Body(hash: Hash) | Details(hash: Hash) | Number(number: nat)
    | TxAddress(hash: Hash) | Receipts(hash: Hash)

  /** An encoded value. */
  type Value = seq<nat>

  type Columns = map<Key, Value>

  /** A write batch: puts and deletions. */
  type Batch = map<Key, Option<Value>>

  /** The best block is kept in memory whole. */
  datatype Best = Best(hash: Hash, header: Value, body: Value)

  /** What one `insert_block` prepares. */
  datatype Update = Update(header: Value, body: Value, receipts: Columns, replaced: Columns, addresses: Batch,
                           best: bool)

  function Get(db: Columns, k: Key): Option<Value> {
    if k in db then Some(db[k]) else None
  }

  /** Writing a batch to the database. */
  function Written(db: Columns, batch: Batch): Columns {
    (db + map k | k in batch && batch[k].Some? :: batch[k].value) - set k | k in batch && batch[k].None?
  }

  lemma WrittenAt(db: Columns, batch: Batch, k: Key)
    ensures Get(Written(db, batch), k) == if k in batch then batch[k] else Get(db, k)
  {
  }

  function Puts(values: Columns): Batch {
    map k | k in values :: Some(values[k])
  }

  /** The batch of an update to the block `hash`: its header and body, and the staged extras. */
  function BatchOf(hash: Hash, u: Update): Batch {
    map[Header(hash) := Some(u.header), Body(hash) := Some(u.body)] + Puts(u.receipts) + Puts(u.replaced) + u.addresses
  }

  /** Each part of the update belongs to its columns; headers and bodies are determined by their hash. */
  ghost predicate Proper(db: Columns, hash: Hash, u: Update) {
    && (forall k :: k in u.receipts ==> k.Receipts?)
    && (forall k :: k in u.replaced ==> k.Details? || k.Number?)
    && (forall k :: k in u.addresses ==> k.TxAddress?)
    && (Header(hash) in db ==> db[Header(hash)] == u.header)
    && (Body(hash) in db ==> db[Body(hash)] == u.body)
  }

  /** Everything held in memory is what the database holds. */
  ghost predicate Coherent(db: Columns, cache: Columns, best: Best) {
    && (forall k :: k in cache ==> Get(db, k) == Some(cache[k]))
    && Get(db, Header(best.hash)) == Some(best.header)
    && Get(db, Body(best.hash)) == Some(best.body)
  }

  /** The caches after `prepare_update` dropped the receipts and `commit` published the rest. */
  function Published(cache: Columns, u: Update): Columns {
    Written(cache - u.receipts.Keys + u.replaced, u.addresses)
  }

  function NextBest(best: Best, hash: Hash, u: Update): Best {
    if u.best then Best(hash, u.header, u.body) else best
  }

  /** What the batch says about a key depends on the key's column only. */
  lemma BatchAt(hash: Hash, u: Update, k: Key)
    ensures (k in u.addresses ==> k in BatchOf(hash, u) && BatchOf(hash, u)[k] == u.addresses[k])
    ensures (k !in u.addresses && k in u.replaced ==>
             k in BatchOf(hash, u) && BatchOf(hash, u)[k] == Some(u.replaced[k]))
    ensures (k !in u.addresses && k !in u.replaced && k in u.receipts ==>
             k in BatchOf(hash, u) && BatchOf(hash, u)[k] == Some(u.receipts[k]))
    ensures k !in u.addresses && k !in u.replaced && k !in u.receipts ==>
              && (k in BatchOf(hash, u) <==> k == Header(hash) || k == Body(hash))
              && (k == Header(hash) ==> BatchOf(hash, u)[k] == Some(u.header))
              && (k == Body(hash) ==> BatchOf(hash, u)[k] == Some(u.body))
  {
  }

  lemma PublishedAt(cache: Columns, u: Update, k: Key)
    ensures Get(Published(cache, u), k) ==
            if k in u.addresses then u.addresses[k]
            else if k in u.replaced then Some(u.replaced[k])
            else if k in u.receipts then None
            else Get(cache, k)
  {
    WrittenAt(cache - u.receipts.Keys + u.replaced, u.addresses, k);
  }

  function PutKeys(batch: Batch): set<Key> {
    set k | k in batch && batch[k].Some?
  }

  lemma PublishedKeys(cache: Columns, u: Update)
    ensures Published(cache, u).Keys <= cache.Keys + u.replaced.Keys + PutKeys(u.addresses)
  {
  }

  /** One key: in memory, if at all, as in the database. */
  lemma KeyCoherent(db: Columns, cache: Columns, hash: Hash, u: Update, k: Key)
    requires Proper(db, hash, u) && (k in cache ==> Get(db, k) == Some(cache[k]))
    ensures Get(Published(cache, u), k).Some? ==> Get(Written(db, BatchOf(hash, u)), k) == Get(Published(cache, u), k)
  {
    PublishedAt(cache, u, k);
    BatchAt(hash, u, k);
    WrittenAt(db, BatchOf(hash, u), k);
  }

  /** The header or body of any block is kept, or is the one being written. */
  lemma ContentKept(db: Columns, hash: Hash, u: Update, k: Key)
    requires Proper(db, hash, u) && (k.Header? || k.Body?)
    ensures k in db ==> Get(Written(db, BatchOf(hash, u)), k) == Get(db, k)
    ensures k == Header(hash) ==> Get(Written(db, BatchOf(hash, u)), k) == Some(u.header)
    ensures k == Body(hash) ==> Get(Written(db, BatchOf(hash, u)), k) == Some(u.body)
  {
    BatchAt(hash, u, k);
    WrittenAt(db, BatchOf(hash, u), k);
  }

  /** A whole round keeps memory and database in step. */
  lemma RoundCoherent(db: Columns, cache: Columns, best: Best, hash: Hash, u: Update)
    requires Coherent(db, cache, best) && Proper(db, hash, u)
    ensures Coherent(Written(db, BatchOf(hash, u)), Published(cache, u), NextBest(best, hash, u))
    ensures NextBest(best, hash, u).hash == if u.best then hash else best.hash
  {
    var db', cache' := Written(db, BatchOf(hash, u)), Published(cache, u);
    forall k | k in cache'
      ensures Get(db', k) == Some(cache'[k])
    {
      KeyCoherent(db, cache, hash, u, k);
    }
    ContentKept(db, hash, u, Header(NextBest(best, hash, u).hash));
    ContentKept(db, hash, u, Body(NextBest(best, hash, u).hash));
  }

  // ---------------------------------------------------------------------------------------------
  // Runs

  /** The database and what is held in memory of it. */
  datatype Memory = Memory(db: Columns, cache: Columns, best: Best)

  datatype Event = Lookup(key: Key) | RoundOf(hash: Hash, update: Update) | Collect(keys: set<Key>)

  /** The best block's header and body are answered from memory. */
  predicate OfBest(m: Memory, k: Key) {
    (k.Header? || k.Body?) && k.hash == m.best.hash
  }

  /** What a lookup answers: from the cache, from the best block, or from the database. */
  function Answer(m: Memory, k: Key): Option<Value> {
    if k in m.cache then Some(m.cache[k])
    else if OfBest(m, k) then Some(if k.Header? then m.best.header else m.best.body)
    else Get(m.db, k)
  }

  function After(m: Memory, e: Event): Memory {
    match e
    case Lookup(k) => if k !in m.cache && !OfBest(m, k) && k in m.db then m.(cache := m.cache[k := m.db[k]]) else m
    case RoundOf(hash, u) => Memory(Written(m.db, BatchOf(hash, u)), Published(m.cache, u), NextBest(m.best, hash, u))
    case Collect(keys) => m.(cache := m.cache - keys)
  }

  /** The bare database, which only rounds change. */
  function DbAfter(db: Columns, es: seq<Event>): Columns {
    if es == [] then db
    else
      var before := DbAfter(db, es[..|es| - 1]);
      match es[|es| - 1]
      case RoundOf(hash, u) => Written(before, BatchOf(hash, u))
      case _ => before
  }

  function MemoryAfter(m: Memory, es: seq<Event>): Memory {
    if es == [] then m else After(MemoryAfter(m, es[..|es| - 1]), es[|es| - 1])
  }

  /** Every round of the run is proper for the database it meets. */
  ghost predicate ProperRun(db: Columns, es: seq<Event>) {
    es == [] ||
    (&& ProperRun(db, es[..|es| - 1])
     && (es[|es| - 1].RoundOf? ==> Proper(DbAfter(db, es[..|es| - 1]), es[|es| - 1].hash, es[|es| - 1].update)))
  }

  lemma AfterCoherent(m: Memory, e: Event)
    requires Coherent(m.db, m.cache, m.best) && (e.RoundOf? ==> Proper(m.db, e.hash, e.update))
    ensures var m' := After(m, e); Coherent(m'.db, m'.cache, m'.best)
  {
    if e.RoundOf? {
      RoundCoherent(m.db, m.cache, m.best, e.hash, e.update);
    }
  }

  /** After any interleaving of lookups, rounds and collections, every lookup answers as the bare database would. */
  lemma {:induction false} CacheTransparent(m: Memory, es: seq<Event>, k: Key)
    requires Coherent(m.db, m.cache, m.best) && ProperRun(m.db, es)
    ensures var m' := MemoryAfter(m, es);
            && Coherent(m'.db, m'.cache, m'.best) && m'.db == DbAfter(m.db, es)
            && Answer(m', k) == Get(DbAfter(m.db, es), k)
    decreases |es|
  {
    if es != [] {
      CacheTransparent(m, es[..|es| - 1], k);
      AfterCoherent(MemoryAfter(m, es[..|es| - 1]), es[|es| - 1]);
    }
  }

  class CachedChain {
    var db: Columns
    var cache: Columns
    var best: Best
    const manager: CacheManager<Key>

    /** What is cached is what the database holds, and the manager can collect all of it. */
    ghost predicate Valid()
      reads this, manager
    {
      manager.Valid() && Coherent(db, cache, best) && cache.Keys <= Union(manager.cacheUsage)
    }

    function Contents(): Memory
      reads this
    {
      Memory(db, cache, best)
    }

    constructor (db: Columns, best: Best, prefCacheSize: nat, maxCacheSize: nat)
      requires Get(db, Header(best.hash)) == Some(best.header) && Get(db, Body(best.hash)) == Some(best.body)
      ensures Valid() && this.db == db && this.best == best && fresh(manager)
    {
      this.db, this.best, this.cache := db, best, map[];
      manager := new CacheManager(prefCacheSize, maxCacheSize, 400);
    }

    /** `read_with_cache`: fill the cache on a miss. */
    method ReadWithCache(k: Key) returns (r: Option<Value>)
      requires Coherent(db, cache, best)
      modifies this`cache
      ensures Coherent(db, cache, best) && r == Get(db, k)
      ensures cache == if k in db && k !in old(cache) then old(cache)[k := db[k]] else old(cache)
    {
      if k in cache {
        return Some(cache[k]);
      }
      r := Get(db, k);
      if r.Some? {
        cache := cache[k := r.value];
      }
    }

    /** Details, numbers, addresses and receipts go through `read_with_cache`; the use is noted. */
    method LookupExtra(k: Key) returns (r: Option<Value>)
      requires Valid() && !k.Header? && !k.Body?
      modifies this`cache, manager
      ensures Valid() && r == Get(db, k) && r == Answer(old(Contents()), k)
              && Contents() == After(old(Contents()), Lookup(k))
    {
      r := ReadWithCache(k);
      manager.NoteUsed(k);
    }

    /** `block_header_data` and `block_body`: cache, then the best block, then the database. */
    method LookupContent(k: Key) returns (r: Option<Value>)
      requires Valid() && (k.Header? || k.Body?)
      modifies this`cache, manager
      ensures Valid() && r == Get(db, k) && r == Answer(old(Contents()), k)
              && Contents() == After(old(Contents()), Lookup(k))
    {
      if k in cache {
        return Some(cache[k]);
      }
      if k.hash == best.hash {
        return Some(if k.Header? then best.header else best.body);
      }
      r := Get(db, k);
      if r.Some? {
        cache := cache[k := r.value];
      }
      manager.NoteUsed(k);
    }

    /** One round of `insert_block`, the database write and `commit`, as one step. */
    method Round(hash: Hash, u: Update)
      requires Valid() && Proper(db, hash, u)
      modifies this, manager
      ensures Valid() && Contents() == After(old(Contents()), RoundOf(hash, u))
    {
      PublishedKeys(cache, u);
      WriteAndPublish(hash, u);
      NoteAll(u.replaced.Keys);
      NoteAll(PutKeys(u.addresses));
    }

    method WriteAndPublish(hash: Hash, u: Update)
      requires Coherent(db, cache, best) && Proper(db, hash, u)
      modifies this
      ensures Coherent(db, cache, best) && cache == Published(old(cache), u)
      ensures db == Written(old(db), BatchOf(hash, u)) && best == NextBest(old(best), hash, u)
    {
      RoundCoherent(db, cache, best, hash, u);
      var batch, receiptsCache, pending, pendingAddresses := PrepareUpdate(hash, u, cache);
      db := Written(db, batch);
      if u.best {
        best := Best(hash, u.header, u.body);
      }
      // commit
      cache := Written(receiptsCache + pending, pendingAddresses);
    }

    method NoteAll(keys: set<Key>)
      requires manager.Valid()
      modifies manager
      ensures manager.Valid() && Union(manager.cacheUsage) == old(Union(manager.cacheUsage)) + keys
    {
      var rest := keys;
      while rest != {}
        invariant rest <= keys && manager.Valid()
        invariant Union(manager.cacheUsage) == old(Union(manager.cacheUsage)) + (keys - rest)
        decreases |rest|
      {
        var k :| k in rest;
        manager.NoteUsed(k);
        rest := rest - {k};
      }
    }

    /** `collect_garbage`: what the manager hands over leaves the caches, and nothing else. */
    method CollectGarbage(currentSize: nat, sizeAfter: set<Key> -> nat)
      requires Valid()
      modifies this`cache, manager
      ensures Valid()
      ensures Contents() == After(old(Contents()), Collect(old(Union(manager.cacheUsage)) - Union(manager.cacheUsage)))
    {
      var evicted := manager.CollectGarbage(currentSize, sizeAfter);
      Forget(evicted);
      assert Union(evicted) == old(Union(manager.cacheUsage)) - Union(manager.cacheUsage);
    }

    method Forget(evicted: seq<set<Key>>)
      requires Coherent(db, cache, best)
      modifies `cache
      ensures Coherent(db, cache, best) && cache == old(cache) - Union(evicted)
    {
      for i := 0 to |evicted|
        invariant Coherent(db, cache, best) && cache == old(cache) - Union(evicted[..i])
      {
        assert evicted[..i + 1] == evicted[..i] + [evicted[i]];
        UnionGrow(evicted[..i], evicted[i]);
        MapRemoveTwice(old(cache), Union(evicted[..i]), evicted[i]);
        cache := cache - evicted[i];
      }
      assert evicted[..|evicted|] == evicted;
    }
  }

  /** `prepare_update`: everything goes to the batch; receipts leave their cache, the rest is staged. */
  method PrepareUpdate(hash: Hash, u: Update, cache: Columns)
    returns (batch: Batch, receiptsCache: Columns, pending: Columns, pendingAddresses: Batch)
    ensures batch == BatchOf(hash, u) && receiptsCache == cache - u.receipts.Keys
    ensures pending == u.replaced && pendingAddresses == u.addresses
  {
    batch := map[Header(hash) := Some(u.header), Body(hash) := Some(u.body)];
    batch, receiptsCache := ExtendRemovingCached(batch, cache, u.receipts);
    batch, pending := ExtendWithCache(batch, map[], u.replaced);
    batch, pendingAddresses := ExtendWithOptionCache(batch, map[], u.addresses);
  }

  /** One more of the values is written over `m`. */
  lemma AddOne<V>(m: map<Key, V>, values: map<Key, V>, rest: set<Key>, k: Key)
    requires k in values && k in rest
    ensures (m + (values - rest))[k := values[k]] == m + (values - (rest - {k}))
  {
  }

  /** One more of the values is put into the batch. */
  lemma PutOne(batch: Batch, values: Columns, rest: set<Key>, k: Key)
    requires k in values && k in rest
    ensures (batch + Puts(values - rest))[k := Some(values[k])] == batch + Puts(values - (rest - {k}))
  {
  }

  lemma DropOne(m: Columns, keys: set<Key>, rest: set<Key>, k: Key)
    requires k in keys && k in rest
    ensures m - (keys - rest) - {k} == m - (keys - (rest - {k}))
  {
  }

  /** Nothing is written while everything remains, and everything once nothing remains. */
  lemma Ends(batch: Batch, values: Columns)
    ensures batch + Puts(values - values.Keys) == batch && values - {} == values
  {
  }

  lemma EndsPlain<V>(m: map<Key, V>, values: map<Key, V>)
    ensures m + (values - values.Keys) == m && values - {} == values
  {
  }

  lemma EndsDropped(m: Columns, keys: set<Key>)
    ensures m - (keys - keys) == m && keys - {} == keys
  {
  }

  /** `extend_with_cache` with `Overwrite`: every value goes to the batch and to the cache. */
  method ExtendWithCache(batch: Batch, cache: Columns, values: Columns) returns (batch': Batch, cache': Columns)
    ensures batch' == batch + Puts(values) && cache' == cache + values
  {
    batch', cache' := batch, cache;
    var rest := values.Keys;
    Ends(batch, values);
    EndsPlain(cache, values);
    while rest != {}
      invariant rest <= values.Keys
      invariant batch' == batch + Puts(values - rest) && cache' == cache + (values - rest)
      decreases |rest|
    {
      var k :| k in rest;
      PutOne(batch, values, rest, k);
      AddOne(cache, values, rest, k);
      batch', cache' := batch'[k := Some(values[k])], cache'[k := values[k]];
      rest := rest - {k};
    }
  }

  /** `extend_with_cache` with `Remove`: every value goes to the batch and leaves the cache. */
  method ExtendRemovingCached(batch: Batch, cache: Columns, values: Columns) returns (batch': Batch, cache': Columns)
    ensures batch' == batch + Puts(values) && cache' == cache - values.Keys
  {
    batch', cache' := batch, cache;
    var rest := values.Keys;
    Ends(batch, values);
    EndsDropped(cache, values.Keys);
    while rest != {}
      invariant rest <= values.Keys
      invariant batch' == batch + Puts(values - rest) && cache' == cache - (values.Keys - rest)
      decreases |rest|
    {
      var k :| k in rest;
      PutOne(batch, values, rest, k);
      DropOne(cache, values.Keys, rest, k);
      batch', cache' := batch'[k := Some(values[k])], cache' - {k};
      rest := rest - {k};
    }
  }

  /** `extend_with_option_cache` with `Overwrite`, the only policy it is used with. */
  method ExtendWithOptionCache(batch: Batch, cache: Batch, values: Batch) returns (batch': Batch, cache': Batch)
    ensures batch' == batch + values && cache' == cache + values
  {
    batch', cache' := batch, cache;
    var rest := values.Keys;
    EndsPlain(batch, values);
    EndsPlain(cache, values);
    while rest != {}
      invariant rest <= values.Keys
      invariant batch' == batch + (values - rest) && cache' == cache + (values - rest)
      decreases |rest|
    {
      var k :| k in rest;
      AddOne(batch, values, rest, k);
      AddOne(cache, values, rest, k);
      batch', cache' := batch'[k := values[k]], cache'[k := values[k]];
      rest := rest - {k};
    }
  }
}
