/**
 * That the shared cache serves: which readers may use it.
 */
module CacheService {
  import opened Basics
  import opened StateCache
  import opened StateCoherence

  // ---------------------------------------------------------------------------------------------
  // Who may read

  /** Entries of other blocks are passed if and only if they do not modify the account. */
  lemma {:induction false} AllowedPast(addr: Address, parent: Hash, others: seq<BlockChanges>, rest: seq<BlockChanges>)
    requires forall i :: 0 <= i < |others| ==> others[i].hash != parent
    ensures AllowedFrom(addr, parent, others + rest) <==>
            (forall i :: 0 <= i < |others| ==> addr !in others[i].accounts) && AllowedFrom(addr, parent, rest)
    decreases |others|
  {
    if others == [] {
      assert others + rest == rest;
    } else {
      assert (others + rest)[0] == others[0] && (others + rest)[1..] == others[1..] + rest;
      AllowedPast(addr, parent, others[1..], rest);
      if addr !in others[0].accounts {
        assert forall i :: 0 < i < |others| ==> others[i] == others[1..][i - 1];
      }
    }
  }

  /** An account is modified by a listed block of at least this number. */
  ghost predicate ModifiedFrom(ms: seq<BlockChanges>, number: nat, addr: Address) {
    exists i :: 0 <= i < |ms| && ms[i].number >= number && addr in ms[i].accounts
  }

  /**
   * Once a new best block is listed, a reader on top of it may use the cache for an account if and only
   * if no block of its height or above modifies that account.
   */
  lemma TipAllowedIff(ms: seq<BlockChanges>, m: BlockChanges, addr: Address)
    requires Sorted(ms) && m.isCanon && !Listed(ms, m.hash)
    ensures IsAllowed(addr, Some(m.hash), Inserted(ms, m)) <==> !ModifiedFrom(ms, m.number, addr)
  {
    var i := InsertAt(ms, m.number);
    var others, rest := ms[..i], [m] + ms[i..];
    assert Inserted(ms, m) == others + rest;
    AllowedPast(addr, m.hash, others, rest);
    assert AllowedFrom(addr, m.hash, rest);
    if ModifiedFrom(ms, m.number, addr) {
      var j :| 0 <= j < |ms| && ms[j].number >= m.number && addr in ms[j].accounts;
      assert j < i;
      assert others[j] == ms[j];
    } else {
      forall j | 0 <= j < |others|
        ensures addr !in others[j].accounts
      {
        assert others[j] == ms[j];
      }
    }
  }

  /** In particular, when the chain only grows, readers on the new tip may use all of the cache. */
  lemma HighestTipServed(ms: seq<BlockChanges>, m: BlockChanges, accounts: map<Address, Option<Account>>, addr: Address)
    requires Sorted(ms) && m.isCanon && !Listed(ms, m.hash) && forall i :: 0 <= i < |ms| ==> ms[i].number < m.number
    ensures CachedAccount(Cache(accounts, Inserted(ms, m)), Some(m.hash), addr) ==
            if addr in accounts then Some(accounts[addr]) else None
  {
    TipAllowedIff(ms, m, addr);
  }

  /** An insertion keeps the list within its bound, and the block just committed is in it. */
  lemma ListBounded(ms: seq<BlockChanges>, m: BlockChanges)
    requires |ms| <= STATE_CACHE_BLOCKS && 0 < STATE_CACHE_BLOCKS
    ensures |Inserted(Trimmed(ms), m)| <= STATE_CACHE_BLOCKS && Listed(Inserted(Trimmed(ms), m), m.hash)
  {
    var trimmed := Trimmed(ms);
    assert Inserted(trimmed, m)[InsertAt(trimmed, m.number)] == m;
  }

  /** A reader on an unlisted block may never use a non-empty list. */
  lemma UnlistedRefused(ms: seq<BlockChanges>, parent: Hash, addr: Address)
    requires ms != [] && !Listed(ms, parent)
    ensures !IsAllowed(addr, Some(parent), ms)
  {
    AllowedPast(addr, parent, ms, []);
    assert ms + [] == ms;
  }

  /** No entry of the list modifies the account. */
  ghost predicate NoneModifies(ms: seq<BlockChanges>, addr: Address) {
    forall i :: 0 <= i < |ms| ==> addr !in ms[i].accounts
  }

  /**
   * A reader on a side block whose parent is canonical may use the cache for an account if and only if
   * neither the side block nor any block listed before the parent modifies it.
   */
  lemma SideReaderAllowedIff(above: seq<BlockChanges>, side: BlockChanges, between: seq<BlockChanges>,
                             parent: BlockChanges, rest: seq<BlockChanges>, addr: Address)
    requires !side.isCanon && parent.isCanon && side.parent == parent.hash
    requires (forall i :: 0 <= i < |above| ==> above[i].hash != side.hash)
    requires (forall i :: 0 <= i < |between| ==> between[i].hash != parent.hash)
    ensures IsAllowed(addr, Some(side.hash), above + ([side] + (between + ([parent] + rest)))) <==>
            NoneModifies(above, addr) && addr !in side.accounts && NoneModifies(between, addr)
  {
    var low := between + ([parent] + rest);
    AllowedPast(addr, side.hash, above, [side] + low);
    AllowedPast(addr, parent.hash, between, [parent] + rest);
    assert ([side] + low)[1..] == low && ([side] + low)[0] == side;
    assert AllowedFrom(addr, parent.hash, [parent] + rest);
  }

  // ---------------------------------------------------------------------------------------------
  // What a purge keeps

  /** None of the listed entries of `hashes` modifies `addr`. */
  ghost predicate Unmodified(ms: seq<BlockChanges>, hashes: seq<Hash>, addr: Address) {
    forall i :: 0 <= i < |ms| && ms[i].hash in hashes ==> addr !in ms[i].accounts
  }

  /** The same entries, flags aside. */
  ghost predicate SameEntries(ms: seq<BlockChanges>, ms': seq<BlockChanges>) {
    |ms| == |ms'| && forall i :: 0 <= i < |ms| ==> ms'[i].(isCanon := ms[i].isCanon) == ms[i]
  }

  /** A purge of listed blocks that leave an account alone keeps it, and keeps the list. */
  lemma {:induction false} PurgeBlocksKeep(cache: Cache, hashes: seq<Hash>, canon: bool, addr: Address)
    requires forall h :: h in hashes ==> Listed(cache.modifications, h)
    requires addr in cache.accounts && Unmodified(cache.modifications, hashes, addr)
    ensures var p := PurgeBlocks(Purge(false, cache), hashes, canon);
            && !p.clear && SameEntries(cache.modifications, p.cache.modifications)
            && addr in p.cache.accounts && p.cache.accounts[addr] == cache.accounts[addr]
    decreases |hashes|
  {
    if hashes != [] {
      var n := |hashes| - 1;
      var rest, h := hashes[..n], hashes[n];
      assert h in hashes && forall x :: x in rest ==> x in hashes;
      PurgeBlocksKeep(cache, rest, canon, addr);
      var p := PurgeBlocks(Purge(false, cache), rest, canon);
      var i :| 0 <= i < |cache.modifications| && cache.modifications[i].hash == h;
      assert p.cache.modifications[i].hash == h;
    }
  }

  /**
   * A reorganisation over blocks that are all listed keeps every cached account that none of them modifies;
   * over a block that is not listed it keeps nothing.
   */
  lemma PurgeKeeps(cache: Cache, enacted: seq<Hash>, retracted: seq<Hash>, commitHash: Option<Hash>, addr: Address)
    requires addr in cache.accounts
    requires forall h :: h in enacted && commitHash != Some(h) ==> Listed(cache.modifications, h)
    requires forall h :: h in retracted ==> Listed(cache.modifications, h)
    requires Unmodified(cache.modifications, Others(enacted, commitHash), addr)
    requires Unmodified(cache.modifications, retracted, addr)
    ensures var purged := Purged(cache, enacted, retracted, commitHash);
            && addr in purged.accounts && purged.accounts[addr] == cache.accounts[addr]
            && SameEntries(cache.modifications, purged.modifications)
  {
    OthersIn(enacted, commitHash);
    PurgeBlocksKeep(cache, Others(enacted, commitHash), true, addr);
    var p := PurgeBlocks(Purge(false, cache), Others(enacted, commitHash), true);
    forall h | h in retracted
      ensures Listed(p.cache.modifications, h)
    {
      var i :| 0 <= i < |cache.modifications| && cache.modifications[i].hash == h;
      assert p.cache.modifications[i].hash == h;
    }
    forall i | 0 <= i < |p.cache.modifications| && p.cache.modifications[i].hash in retracted
      ensures addr !in p.cache.modifications[i].accounts
    {
      assert cache.modifications[i].hash in retracted;
    }
    PurgeBlocksKeep(p.cache, retracted, false, addr);
  }

  lemma {:induction false} OthersIn(hashes: seq<Hash>, commitHash: Option<Hash>)
    ensures forall h :: h in Others(hashes, commitHash) ==> h in hashes && commitHash != Some(h)
    decreases |hashes|
  {
    if hashes != [] {
      OthersIn(hashes[..|hashes| - 1], commitHash);
    }
  }

  /** A retracted block that is not listed wipes the cache. */
  lemma UnlistedWipes(cache: Cache, retracted: seq<Hash>, h: Hash)
    requires h in retracted && !Listed(cache.modifications, h)
    ensures Purged(cache, [], retracted, None) == Cache(map[], [])
  {
    PurgeBlocksEffect(cache, retracted, false);
  }
}
