/**
 * The account cache shared by all state databases, across forks: what `sync_cache` does to it and when
 * `is_allowed` lets a reader use it (core/src/db/state_db.rs).
 */
module StateCache {
  import opened Basics

  datatype Account = Account(id: nat)

  /** The accounts changed in one recently committed block. */
  datatype BlockChanges = BlockChanges(number: nat, hash: Hash, parent: Hash, accounts: set<Address>, isCanon: bool)

  /** A buffered item of a state database's local cache. */
  datatype CacheQueueItem = CacheQueueItem(address: Address, account: Option<Account>, modified: bool)

  /** The shared cache: accounts at the canonical tip, and recent modifications, newest number first. */
  datatype Cache = Cache(accounts: map<Address, Option<Account>>, modifications: seq<BlockChanges>)

  /** On top of which block a state database was created, and which block it has journaled, if any. */
  datatype Handle = Handle(parentHash: Option<Hash>, commitHash: Option<Hash>, commitNumber: Option<nat>)

  const STATE_CACHE_BLOCKS: nat := 12

  /** `m.hash == hash` first holds at this position; the length of the list if nowhere. */
  function FindHash(ms: seq<BlockChanges>, hash: Hash): (i: nat)
    ensures i <= |ms|
    ensures i < |ms| ==> ms[i].hash == hash
    ensures forall j :: 0 <= j < i ==> ms[j].hash != hash
  {
    if ms == [] || ms[0].hash == hash then 0 else 1 + FindHash(ms[1..], hash)
  }

  /** Progress of the purge loops of `sync_cache`. */
  datatype Purge = Purge(clear: bool, cache: Cache)

  /** One turn of a purge loop: flag the block and drop its accounts, or give up if it is not listed. */
  function PurgeBlock(p: Purge, hash: Hash, canon: bool): Purge {
    if p.clear then p
    else
      var i := FindHash(p.cache.modifications, hash);
      if i < |p.cache.modifications| then
        var m := p.cache.modifications[i];
        Purge(false, Cache(p.cache.accounts - m.accounts, p.cache.modifications[i := m.(isCanon := canon)]))
      else p.(clear := true)
  }

  function PurgeBlocks(p: Purge, hashes: seq<Hash>, canon: bool): Purge {
    if hashes == [] then p else PurgeBlock(PurgeBlocks(p, hashes[..|hashes| - 1], canon), hashes[|hashes| - 1], canon)
  }

  /** The enacted blocks other than the committing one. */
  function Others(hashes: seq<Hash>, commitHash: Option<Hash>): seq<Hash> {
    if hashes == [] then []
    else
      var n := |hashes| - 1;
      Others(hashes[..n], commitHash) + if commitHash == Some(hashes[n]) then [] else [hashes[n]]
  }

  /** First half of `sync_cache`: purge what the reorganisation touched, or wipe everything. */
  function Purged(cache: Cache, enacted: seq<Hash>, retracted: seq<Hash>, commitHash: Option<Hash>): Cache {
    var p := PurgeBlocks(PurgeBlocks(Purge(false, cache), Others(enacted, commitHash), true), retracted, false);
    if p.clear then Cache(map[], []) else p.cache
  }

  /** Where a block of this number goes: before the first lower one. */
  function InsertAt(ms: seq<BlockChanges>, number: nat): (i: nat)
    ensures i <= |ms|
    ensures forall j :: 0 <= j < i ==> ms[j].number >= number
    ensures i < |ms| ==> ms[i].number < number
  {
    if ms == [] || ms[0].number < number then 0 else 1 + InsertAt(ms[1..], number)
  }

  /** The list with the oldest entry dropped when it is full. */
  function Trimmed(ms: seq<BlockChanges>): seq<BlockChanges> {
    if |ms| == STATE_CACHE_BLOCKS then ms[..|ms| - 1] else ms
  }

  function Inserted(ms: seq<BlockChanges>, m: BlockChanges): seq<BlockChanges> {
    var i := InsertAt(ms, m.number);
    ms[..i] + [m] + ms[i..]
  }

  function ModifiedIn(local: seq<CacheQueueItem>): set<Address> {
    set item | item in local && item.modified :: item.address
  }

  /**
   * What draining the local cache into the shared one may leave. Only addresses that were there before
   * or are in the local cache appear; a value is the old one, kept, or the new one. Insertion into the
   * LRU may evict anything.
   */
  ghost predicate Drained(accounts: map<Address, Option<Account>>, local: seq<CacheQueueItem>,
                          accounts': map<Address, Option<Account>>) {
    forall a :: a in accounts' ==>
      || (&& a in accounts && accounts'[a] == accounts[a]
          && forall item :: item in local && item.address == a ==> !item.modified)
      || (exists item :: item in local && item.address == a && accounts'[a] == item.account)
  }

  /** The three fields that must be set for a commit to be propagated. */
  predicate Commits(h: Handle) {
    h.parentHash.Some? && h.commitHash.Some? && h.commitNumber.Some?
  }

  /** `sync_cache` as a relation between the shared cache before and after. */
  ghost predicate Synced(cache: Cache, h: Handle, local: seq<CacheQueueItem>, enacted: seq<Hash>, retracted: seq<Hash>,
                         isBest: bool, cache': Cache) {
    var purged := Purged(cache, enacted, retracted, h.commitHash);
    if Commits(h) then
      && (if isBest then Drained(purged.accounts, local, cache'.accounts) else cache'.accounts == purged.accounts)
      && cache'.modifications == Inserted(Trimmed(purged.modifications),
           BlockChanges(h.commitNumber.value, h.commitHash.value, h.parentHash.value, ModifiedIn(local), isBest))
    else cache' == purged
  }

  /** The loop of `is_allowed`, from some position of the list on. */
  function AllowedFrom(addr: Address, parent: Hash, ms: seq<BlockChanges>): bool
    decreases |ms|
  {
    if ms == [] then false
    else if ms[0].hash == parent && ms[0].isCanon then true
    else if addr in ms[0].accounts then false
    else AllowedFrom(addr, if ms[0].hash == parent then ms[0].parent else parent, ms[1..])
  }

  /** `is_allowed`. */
  function IsAllowed(addr: Address, parent: Option<Hash>, ms: seq<BlockChanges>): bool {
    parent.Some? && (ms == [] || AllowedFrom(addr, parent.value, ms))
  }

  /** `get_cached_account` of a state database created on top of `parent`. */
  function CachedAccount(cache: Cache, parent: Option<Hash>, addr: Address): Option<Option<Account>> {
    if IsAllowed(addr, parent, cache.modifications) && addr in cache.accounts then Some(cache.accounts[addr]) else None
  }
}
