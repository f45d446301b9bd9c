/**
 * The state database object: its local cache, the shared account cache behind it, and the loops of
 * `sync_cache` and `is_allowed` (core/src/db/state_db.rs).
 */
module StateDatabase {
  import opened Basics
  import opened StateCache
  import opened AccountLru

  /** The account cache that all state databases of a client share. */
  class AccountCache {
    var accounts: Lru
    var modifications: seq<BlockChanges>

    function Contents(): Cache
      reads this
    {
      Cache(accounts.entries, modifications)
    }

    /** The LRU is in order and within its capacity, and the list of modifications within its bound. */
    ghost predicate Valid()
      reads this
    {
      Orderly(accounts) && |modifications| <= STATE_CACHE_BLOCKS
    }

    constructor (capacity: nat)
      ensures Valid() && Contents() == Cache(map[], []) && accounts.capacity == capacity
    {
      accounts := Lru(capacity, [], map[]);
      modifications := [];
    }

    /** One turn of a purge loop. */
    method PurgeOne(hash: Hash, canon: bool, clear: bool) returns (clear': bool)
      requires Valid()
      modifies this
      ensures Valid() && accounts.capacity == old(accounts.capacity)
      ensures Purge(clear', Contents()) == PurgeBlock(Purge(clear, old(Contents())), hash, canon)
    {
      clear' := clear;
      if !clear {
        var i := 0;
        while i < |modifications| && modifications[i].hash != hash
          invariant 0 <= i <= |modifications| && modifications == old(modifications) && accounts == old(accounts)
          invariant forall j :: 0 <= j < i ==> modifications[j].hash != hash
        {
          i := i + 1;
        }
        assert i == FindHash(modifications, hash);
        if i < |modifications| {
          var m := modifications[i];
          modifications := modifications[i := m.(isCanon := canon)];
          RemoveOrderly(accounts, m.accounts);
          accounts := Remove(accounts, m.accounts);
        } else {
          clear' := true;
        }
      }
    }
  }

  class StateDB {
    const shared: AccountCache
    var localCache: seq<CacheQueueItem>
    var parentHash: Option<Hash>
    var commitHash: Option<Hash>
    var commitNumber: Option<nat>

    function View(): Handle
      reads this
    {
      Handle(parentHash, commitHash, commitNumber)
    }

    /** `boxed_clone_canon` with a parent, `boxed_clone` without: the cache is shared, the rest starts afresh. */
    constructor (shared: AccountCache, parent: Option<Hash>)
      ensures this.shared == shared && localCache == [] && View() == Handle(parent, None, None)
    {
      this.shared := shared;
      localCache, parentHash, commitHash, commitNumber := [], parent, None, None;
    }

    method JournalUnder(number: nat, hash: Hash)
      modifies this`commitHash, this`commitNumber
      ensures View() == old(View()).(commitHash := Some(hash), commitNumber := Some(number))
    {
      commitHash := Some(hash);
      commitNumber := Some(number);
    }

    method AddToAccountCache(address: Address, account: Option<Account>, modified: bool)
      modifies this`localCache
      ensures localCache == old(localCache) + [CacheQueueItem(address, account, modified)]
    {
      localCache := localCache + [CacheQueueItem(address, account, modified)];
    }

    /**
     * `sync_cache`: purge, then, if this database is committing, drain the local cache into the shared
     * one (only for the new best block) and list the block's modifications by number. The ghost result
     * is the LRU between the two halves.
     */
    method SyncCache(enacted: seq<Hash>, retracted: seq<Hash>, isBest: bool) returns (ghost purged: Lru)
      requires shared.Valid()
      modifies this`localCache, shared
      ensures shared.Valid() && shared.accounts.capacity == old(shared.accounts.capacity)
      ensures Synced(old(shared.Contents()), View(), old(localCache), enacted, retracted, isBest, shared.Contents())
      ensures purged.entries == Purged(old(shared.Contents()), enacted, retracted, commitHash).accounts
      ensures shared.accounts == if Commits(View()) && isBest then DrainItems(purged, old(localCache)) else purged
      ensures localCache == if Commits(View()) then [] else old(localCache)
    {
      PurgeCache(enacted, retracted);
      purged := shared.accounts;
      if commitNumber.Some? && commitHash.Some? && parentHash.Some? {
        if |shared.modifications| == STATE_CACHE_BLOCKS {
          shared.modifications := shared.modifications[..|shared.modifications| - 1];
        }
        var modifications := DrainLocal(isBest);
        DrainItemsDrained(purged, localCache);
        DrainItemsOrderly(purged, localCache);
        localCache := [];
        var changes := BlockChanges(commitNumber.value, commitHash.value, parentHash.value, modifications, isBest);
        var at := InsertionPoint(shared.modifications, commitNumber.value);
        shared.modifications := shared.modifications[..at] + [changes] + shared.modifications[at..];
      }
    }

    /** The first loop of `sync_cache`: collect what was modified; the new best block's entries go to the shared LRU. */
    method DrainLocal(isBest: bool) returns (modifications: set<Address>)
      modifies shared`accounts
      ensures modifications == ModifiedIn(localCache)
      ensures shared.accounts == if isBest then DrainItems(old(shared.accounts), localCache) else old(shared.accounts)
    {
      modifications := {};
      for i := 0 to |localCache|
        invariant modifications == ModifiedIn(localCache[..i])
        invariant shared.accounts ==
                  if isBest then DrainItems(old(shared.accounts), localCache[..i]) else old(shared.accounts)
      {
        var item := localCache[i];
        assert localCache[..i + 1] == localCache[..i] + [item];
        assert localCache[..i + 1][..i] == localCache[..i];
        if item.modified {
          modifications := modifications + {item.address};
        }
        if isBest {
          shared.accounts := DrainItem(shared.accounts, item);
        }
      }
      assert localCache[..|localCache|] == localCache;
    }

    /** The second loop: the place before the first block of a lower number. */
    method InsertionPoint(modifications: seq<BlockChanges>, number: nat) returns (at: nat)
      ensures at == InsertAt(modifications, number)
    {
      at := 0;
      while at < |modifications| && modifications[at].number >= number
        invariant 0 <= at <= |modifications|
        invariant forall j :: 0 <= j < at ==> modifications[j].number >= number
      {
        at := at + 1;
      }
    }

    /** `is_allowed`: walk the list, following the parent through unflagged blocks. */
    method IsAllowedIn(addr: Address, modifications: seq<BlockChanges>) returns (r: bool)
      ensures r == IsAllowed(addr, parentHash, modifications)
    {
      if parentHash.None? {
        return false;
      }
      var parent := parentHash.value;
      if |modifications| == 0 {
        return true;
      }
      for i := 0 to |modifications|
        invariant AllowedFrom(addr, parentHash.value, modifications) == AllowedFrom(addr, parent, modifications[i..])
      {
        var m := modifications[i];
        assert modifications[i..][0] == m && modifications[i..][1..] == modifications[i + 1..];
        if m.hash == parent {
          if m.isCanon {
            return true;
          }
          parent := m.parent;
        }
        if addr in m.accounts {
          return false;
        }
      }
      r := false;
    }

    /** `get_cached_account`. */
    method GetCachedAccount(addr: Address) returns (r: Option<Option<Account>>)
      requires shared.Valid()
      modifies shared`accounts
      ensures shared.Valid() && shared.accounts.capacity == old(shared.accounts.capacity)
      ensures r == CachedAccount(old(shared.Contents()), parentHash, addr)
      ensures shared.Contents() == old(shared.Contents())
    {
      var allowed := IsAllowedIn(addr, shared.modifications);
      if !allowed {
        return None;
      }
      r := if addr in shared.accounts.entries then Some(shared.accounts.entries[addr]) else None;
      TouchOrderly(shared.accounts, addr);
      shared.accounts := Touch(shared.accounts, addr);
    }

    /** The purge loops of `sync_cache`, and the wipe when one of them gave up. */
    method PurgeCache(enacted: seq<Hash>, retracted: seq<Hash>)
      requires shared.Valid()
      modifies shared
      ensures shared.Valid() && shared.accounts.capacity == old(shared.accounts.capacity)
      ensures shared.Contents() == Purged(old(shared.Contents()), enacted, retracted, commitHash)
    {
      var clear := PurgeEnacted(enacted);
      clear := PurgeRetracted(retracted, clear);
      if clear {
        shared.accounts := Lru(shared.accounts.capacity, [], map[]);
        shared.modifications := [];
      }
    }

    method PurgeEnacted(enacted: seq<Hash>) returns (clear: bool)
      requires shared.Valid()
      modifies shared
      ensures shared.Valid() && shared.accounts.capacity == old(shared.accounts.capacity)
      ensures Purge(clear, shared.Contents()) ==
              PurgeBlocks(Purge(false, old(shared.Contents())), Others(enacted, commitHash), true)
    {
      clear := false;
      for i := 0 to |enacted|
        invariant shared.Valid() && shared.accounts.capacity == old(shared.accounts.capacity)
        invariant Purge(clear, shared.Contents()) ==
                  PurgeBlocks(Purge(false, old(shared.Contents())), Others(enacted[..i], commitHash), true)
      {
        OthersGrow(enacted[..i], enacted[i], commitHash);
        assert enacted[..i] + [enacted[i]] == enacted[..i + 1];
        if commitHash != Some(enacted[i]) {
          clear := shared.PurgeOne(enacted[i], true, clear);
        }
      }
      assert enacted[..|enacted|] == enacted;
    }

    method PurgeRetracted(retracted: seq<Hash>, cleared: bool) returns (clear: bool)
      requires shared.Valid()
      modifies shared
      ensures shared.Valid() && shared.accounts.capacity == old(shared.accounts.capacity)
      ensures Purge(clear, shared.Contents()) == PurgeBlocks(Purge(cleared, old(shared.Contents())), retracted, false)
    {
      clear := cleared;
      for i := 0 to |retracted|
        invariant shared.Valid() && shared.accounts.capacity == old(shared.accounts.capacity)
        invariant Purge(clear, shared.Contents()) ==
                  PurgeBlocks(Purge(cleared, old(shared.Contents())), retracted[..i], false)
      {
        clear := shared.PurgeOne(retracted[i], false, clear);
        assert retracted[..i + 1][..i] == retracted[..i];
      }
      assert retracted[..|retracted|] == retracted;
    }
  }

  /** The filter of the first purge loop, one block further. */
  lemma OthersGrow(hashes: seq<Hash>, hash: Hash, commitHash: Option<Hash>)
    ensures var others, others' := Others(hashes, commitHash), Others(hashes + [hash], commitHash);
            if commitHash == Some(hash) then others' == others
            else others' == others + [hash] && others'[..|others'| - 1] == others
  {
    assert (hashes + [hash])[..|hashes|] == hashes;
  }
}
