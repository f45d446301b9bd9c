/**
 * Cache coherence: over every sequence of block commits, side branches, reorganisations and evictions,
 * an account the shared cache hands to a reader on top of any block is the account of that block's
 * own state.
 */
module StateCoherence {
  import opened Basics
  import opened BlockTree
  import opened Chain
  import opened ChainInvariant
  import opened StateCache

  /** The state after each block, and the accounts each block's execution recorded as modified. */
  datatype World = World(state: (Hash, Address) -> Option<Account>, modified: Hash -> set<Address>)

  /** Outside its modified set, a block leaves every account as its parent had it. */
  ghost predicate Covers(w: World, h: Hash, parent: Hash) {
    forall a :: a !in w.modified(h) ==> w.state(h, a) == w.state(parent, a)
  }

  ghost predicate WorldCovers(w: World, t: Tree) {
    forall h :: h in t.details && h != t.genesis ==> Covers(w, h, t.details[h].parent)
  }

  // ---------------------------------------------------------------------------------------------
  // The invariant

  ghost predicate Sorted(ms: seq<BlockChanges>) {
    forall i, j :: 0 <= i < j < |ms| ==> ms[i].number >= ms[j].number
  }

  /** The entry describes a known block. */
  ghost predicate Describes(w: World, t: Tree, m: BlockChanges) {
    && m.hash in t.details && m.hash != t.genesis
    && m.number == t.details[m.hash].number
    && m.parent == t.details[m.hash].parent
    && m.accounts == w.modified(m.hash)
  }

  ghost predicate AllDescribe(w: World, t: Tree, ms: seq<BlockChanges>) {
    forall i :: 0 <= i < |ms| ==> Describes(w, t, ms[i])
  }

  /** Position `i` is the first of its hash. */
  ghost predicate First(ms: seq<BlockChanges>, i: nat)
    requires i < |ms|
  {
    forall j :: 0 <= j < i ==> ms[j].hash != ms[i].hash
  }

  ghost predicate Listed(ms: seq<BlockChanges>, h: Hash) {
    exists i :: 0 <= i < |ms| && ms[i].hash == h
  }

  /** Every block of the path above height `n` is listed. */
  ghost predicate ListedAbove(ms: seq<BlockChanges>, path: seq<Hash>, n: nat) {
    forall k :: n < k < |path| ==> Listed(ms, path[k])
  }

  /** Entry `i`, if flagged, is a block of the path, comes first, and nothing above it is missing. */
  ghost predicate FlagSound(ms: seq<BlockChanges>, path: seq<Hash>, i: nat)
    requires i < |ms|
  {
    ms[i].isCanon ==> ms[i].hash in path && First(ms, i) && ListedAbove(ms, path, ms[i].number)
  }

  ghost predicate FlagsSound(ms: seq<BlockChanges>, path: seq<Hash>) {
    forall i :: 0 <= i < |ms| ==> FlagSound(ms, path, i)
  }

  /** The cached accounts are those of the block `tip`. */
  ghost predicate AccountsOf(w: World, tip: Hash, accounts: map<Address, Option<Account>>) {
    forall a :: a in accounts ==> accounts[a] == w.state(tip, a)
  }

  ghost predicate Coherent(w: World, t: Tree, tip: Hash, cache: Cache)
    requires Rooted(t) && tip in t.details
  {
    && Sorted(cache.modifications)
    && AllDescribe(w, t, cache.modifications)
    && FlagsSound(cache.modifications, Path(t, tip))
    && AccountsOf(w, tip, cache.accounts)
    && (cache.modifications == [] ==> cache.accounts == map[])
  }

  // ---------------------------------------------------------------------------------------------
  // Readers

  /** Going up a path along which an account is not modified does not change it. */
  lemma {:induction false} StateAlong(w: World, t: Tree, h: Hash, n: nat, a: Address)
    requires Rooted(t) && h in t.details && n <= t.details[h].number && WorldCovers(w, t)
    requires forall k :: n < k <= t.details[h].number ==> a !in w.modified(Path(t, h)[k])
    ensures w.state(h, a) == w.state(Path(t, h)[n], a)
    decreases t.details[h].number
  {
    var p, m := Path(t, h), t.details[h].number;
    if n < m {
      var parent := t.details[h].parent;
      assert p == Path(t, parent) + [h];
      assert Covers(w, h, parent);
      assert a !in w.modified(p[m]);
      forall k | n < k <= t.details[parent].number
        ensures a !in w.modified(Path(t, parent)[k])
      {
        assert Path(t, parent)[k] == p[k];
      }
      StateAlong(w, t, parent, n, a);
      assert Path(t, parent)[n] == p[n];
    }
  }

  /** A flagged entry whose earlier entries do not modify the account has the tip's account. */
  lemma FlaggedState(w: World, t: Tree, tip: Hash, ms: seq<BlockChanges>, i: nat, a: Address)
    requires Rooted(t) && tip in t.details && WorldCovers(w, t)
    requires Sorted(ms) && AllDescribe(w, t, ms) && FlagsSound(ms, Path(t, tip))
    requires i < |ms| && ms[i].isCanon && forall j :: 0 <= j < i ==> a !in ms[j].accounts
    ensures w.state(ms[i].hash, a) == w.state(tip, a)
  {
    var p, n := Path(t, tip), ms[i].number;
    assert FlagSound(ms, p, i) && Describes(w, t, ms[i]);
    PathPosition(t, tip, ms[i].hash);
    forall k | n < k <= t.details[tip].number
      ensures a !in w.modified(p[k])
    {
      assert Listed(ms, p[k]);
      var j :| 0 <= j < |ms| && ms[j].hash == p[k];
      assert Describes(w, t, ms[j]);
      PathPrefix(t, tip, k);
      assert j < i;
    }
    StateAlong(w, t, tip, n, a);
  }

  lemma {:induction false} AllowedSound(w: World, t: Tree, tip: Hash, ms: seq<BlockChanges>, i: nat, a: Address,
                                        parent: Hash)
    requires Rooted(t) && tip in t.details && WorldCovers(w, t)
    requires Sorted(ms) && AllDescribe(w, t, ms) && FlagsSound(ms, Path(t, tip))
    requires i <= |ms| && (forall j :: 0 <= j < i ==> a !in ms[j].accounts) && AllowedFrom(a, parent, ms[i..])
    ensures parent in t.details && w.state(parent, a) == w.state(tip, a)
    decreases |ms| - i
  {
    var m := ms[i];
    assert ms[i..][0] == m && ms[i..][1..] == ms[i + 1..];
    assert Describes(w, t, m);
    if m.hash == parent && m.isCanon {
      FlaggedState(w, t, tip, ms, i, a);
    } else {
      AllowedSound(w, t, tip, ms, i + 1, a, if m.hash == parent then m.parent else parent);
      if m.hash == parent {
        assert Covers(w, m.hash, m.parent);
      }
    }
  }

  /** In a coherent cache, whatever a reader on top of `parent` is given is the account of `parent`'s own state. */
  lemma ReaderSound(w: World, t: Tree, tip: Hash, cache: Cache, parent: Hash, a: Address)
    requires Rooted(t) && tip in t.details && WorldCovers(w, t) && Coherent(w, t, tip, cache)
    requires CachedAccount(cache, Some(parent), a).Some?
    ensures parent in t.details && CachedAccount(cache, Some(parent), a) == Some(w.state(parent, a))
  {
    assert cache.modifications[0..] == cache.modifications;
    AllowedSound(w, t, tip, cache.modifications, 0, a, parent);
  }

  // ---------------------------------------------------------------------------------------------
  // Purging

  /** The flag of entry `i` after the first entry of each of `hashes` was set to `canon`. */
  ghost function FlagAfter(ms: seq<BlockChanges>, hashes: seq<Hash>, canon: bool, i: nat): bool
    requires i < |ms|
  {
    if ms[i].hash in hashes && First(ms, i) then canon else ms[i].isCanon
  }

  /** Same entries, flags set for `hashes`. */
  ghost predicate Reflagged(ms: seq<BlockChanges>, hashes: seq<Hash>, canon: bool, ms': seq<BlockChanges>) {
    && |ms'| == |ms|
    && forall i :: 0 <= i < |ms| ==> ms'[i] == ms[i].(isCanon := FlagAfter(ms, hashes, canon, i))
  }

  /** What remains of the accounts when those of the first entries of `hashes` are dropped. */
  ghost predicate Dropped(ms: seq<BlockChanges>, hashes: seq<Hash>, accounts: map<Address, Option<Account>>,
                          accounts': map<Address, Option<Account>>) {
    forall a :: a in accounts' ==>
      && a in accounts && accounts'[a] == accounts[a]
      && forall i :: 0 <= i < |ms| && ms[i].hash in hashes && First(ms, i) ==> a !in ms[i].accounts
  }

  lemma FindHashFirst(ms: seq<BlockChanges>, ms': seq<BlockChanges>, hash: Hash)
    requires |ms| == |ms'| && forall i :: 0 <= i < |ms| ==> ms'[i].hash == ms[i].hash
    ensures FindHash(ms', hash) < |ms| ==> First(ms, FindHash(ms', hash)) && ms[FindHash(ms', hash)].hash == hash
    ensures FindHash(ms', hash) == |ms| <==> !Listed(ms, hash)
    ensures forall i :: 0 <= i < |ms| && ms[i].hash == hash && First(ms, i) ==> FindHash(ms', hash) == i
  {
    var f := FindHash(ms', hash);
    if f < |ms| {
      assert ms[f].hash == hash;
    }
  }

  /** A purge loop that does not give up found every block, flagged it and dropped its accounts. */
  lemma {:induction false} PurgeBlocksEffect(cache: Cache, hashes: seq<Hash>, canon: bool)
    ensures var p := PurgeBlocks(Purge(false, cache), hashes, canon);
            !p.clear ==>
              && Reflagged(cache.modifications, hashes, canon, p.cache.modifications)
              && Dropped(cache.modifications, hashes, cache.accounts, p.cache.accounts)
              && forall h :: h in hashes ==> Listed(cache.modifications, h)
  {
    var ms := cache.modifications;
    if hashes != [] {
      var n := |hashes| - 1;
      var rest, h := hashes[..n], hashes[n];
      assert hashes == rest + [h];
      PurgeBlocksEffect(cache, rest, canon);
      var p := PurgeBlocks(Purge(false, cache), rest, canon);
      var p' := PurgeBlocks(Purge(false, cache), hashes, canon);
      if !p'.clear {
        FindHashFirst(ms, p.cache.modifications, h);
        var f := FindHash(p.cache.modifications, h);
        forall i | 0 <= i < |ms|
          ensures p'.cache.modifications[i] == ms[i].(isCanon := FlagAfter(ms, hashes, canon, i))
        {
        }
      }
    }
  }

  /** Position and number of the blocks of a path agree. */
  ghost predicate Heights(t: Tree, path: seq<Hash>) {
    forall k :: 0 <= k < |path| ==> path[k] in t.details && t.details[path[k]].number == k
  }

  lemma PathHeights(t: Tree, h: Hash)
    requires Rooted(t) && h in t.details
    ensures Heights(t, Path(t, h))
  {
    forall k | 0 <= k < |Path(t, h)|
      ensures Path(t, h)[k] in t.details && t.details[Path(t, h)[k]].number == k
    {
      PathPrefix(t, h, k);
    }
  }

  /** Entry `i` is sound for `path'` too, if it was for `path` and what is above it stays listed. */
  lemma FlagSoundStep(ms: seq<BlockChanges>, path: seq<Hash>, i: nat, ms': seq<BlockChanges>, path': seq<Hash>, i': nat)
    requires i < |ms| && i' < |ms'| && FlagSound(ms, path, i) && ms[i].isCanon
    requires ms'[i'].hash == ms[i].hash && ms'[i'].number == ms[i].number
    requires First(ms', i') && ms[i].hash in path'
    requires forall k :: ms[i].number < k < |path'| ==> Listed(ms', path'[k]) || (k < |path| && path[k] == path'[k])
    requires forall h :: Listed(ms, h) ==> Listed(ms', h)
    ensures FlagSound(ms', path', i')
  {
    forall k | ms[i].number < k < |path'|
      ensures Listed(ms', path'[k])
    {
      if k < |path| && path[k] == path'[k] {
        assert Listed(ms, path[k]);
      }
    }
  }

  /** Dropping the oldest entry of a full list keeps the flags sound: nothing kept is below it. */
  lemma TrimSound(w: World, t: Tree, ms: seq<BlockChanges>, path: seq<Hash>)
    requires Sorted(ms) && AllDescribe(w, t, ms) && Heights(t, path) && FlagsSound(ms, path)
    ensures var ms' := Trimmed(ms); Sorted(ms') && AllDescribe(w, t, ms') && FlagsSound(ms', path)
  {
    var ms' := Trimmed(ms);
    if |ms| == STATE_CACHE_BLOCKS {
      var last := |ms| - 1;
      forall i | 0 <= i < |ms'|
        ensures FlagSound(ms', path, i)
      {
        assert FlagSound(ms, path, i);
        if ms[i].isCanon {
          forall k | ms[i].number < k < |path|
            ensures Listed(ms', path[k])
          {
            assert Listed(ms, path[k]);
            var j :| 0 <= j < |ms| && ms[j].hash == path[k];
            assert Describes(w, t, ms[j]) && ms[j].number == k;
            assert ms[i].number >= ms[last].number;
            assert ms'[j].hash == path[k];
          }
        }
      }
    }
  }

  lemma InsertedAt(ms: seq<BlockChanges>, m: BlockChanges)
    ensures var i, ms' := InsertAt(ms, m.number), Inserted(ms, m);
            && |ms'| == |ms| + 1 && ms'[i] == m
            && (forall j :: 0 <= j < i ==> ms'[j] == ms[j])
            && (forall j :: i < j < |ms'| ==> ms'[j] == ms[j - 1])
    ensures forall h :: Listed(ms, h) ==> Listed(Inserted(ms, m), h)
    ensures Listed(Inserted(ms, m), m.hash)
  {
    var i, ms' := InsertAt(ms, m.number), Inserted(ms, m);
    forall h | Listed(ms, h)
      ensures Listed(ms', h)
    {
      var j :| 0 <= j < |ms| && ms[j].hash == h;
      assert ms'[if j < i then j else j + 1].hash == h;
    }
    assert ms'[i].hash == m.hash;
  }

  lemma InsertSorted(w: World, t: Tree, ms: seq<BlockChanges>, m: BlockChanges)
    requires Sorted(ms) && AllDescribe(w, t, ms) && Describes(w, t, m)
    ensures Sorted(Inserted(ms, m)) && AllDescribe(w, t, Inserted(ms, m))
  {
    var at, ms' := InsertAt(ms, m.number), Inserted(ms, m);
    InsertedAt(ms, m);
    forall i | 0 <= i < |ms'|
      ensures Describes(w, t, ms'[i])
    {
      assert ms'[i] == if i == at then m else if i < at then ms[i] else ms[i - 1];
    }
    InsertOrdered(ms, m);
  }

  lemma InsertOrdered(ms: seq<BlockChanges>, m: BlockChanges)
    requires Sorted(ms)
    ensures Sorted(Inserted(ms, m))
  {
    var at, ms' := InsertAt(ms, m.number), Inserted(ms, m);
    forall i, j | 0 <= i < j < |ms'|
      ensures ms'[i].number >= ms'[j].number
    {
      if i < at <= j {
        assert ms'[i] == ms[i];
      } else if i == at {
        assert ms'[j] == ms[j - 1] && (j - 1 == at || ms[at].number >= ms[j - 1].number);
      }
    }
  }

  /**
   * Listing the committed block keeps the flags sound, whether it is the new end of the path (flagged,
   * and not listed before) or not part of it (not flagged).
   */
  lemma InsertSound(w: World, t: Tree, ms: seq<BlockChanges>, path: seq<Hash>, m: BlockChanges)
    requires Sorted(ms) && AllDescribe(w, t, ms) && FlagsSound(ms, path) && Describes(w, t, m)
    requires m.isCanon ==> m.number == |path| && !Listed(ms, m.hash)
    ensures FlagsSound(Inserted(ms, m), if m.isCanon then path + [m.hash] else path)
  {
    var at, ms', path' := InsertAt(ms, m.number), Inserted(ms, m), if m.isCanon then path + [m.hash] else path;
    InsertedAt(ms, m);
    forall i | 0 <= i < |ms'|
      ensures FlagSound(ms', path', i)
    {
      if i == at {
        if m.isCanon {
          assert path'[|path|] == m.hash;
          assert forall j :: 0 <= j < at ==> ms'[j].hash != m.hash;
        }
      } else {
        var i0 := if i < at then i else i - 1;
        assert FlagSound(ms, path, i0);
        if ms[i0].isCanon {
          assert First(ms', i) by {
            forall j | 0 <= j < i
              ensures ms'[j].hash != ms'[i].hash
            {
              if j == at {
                assert Describes(w, t, ms[i0]);
              }
            }
          }
          FlagSoundStep(ms, path, i0, ms', path', i);
        }
      }
    }
  }

  /** Flags after a successful purge: entered blocks on, left blocks off, the rest as they were. */
  lemma ReorgSound(ms: seq<BlockChanges>, common: seq<Hash>, left: seq<Hash>, entered: seq<Hash>, retracted: seq<Hash>,
                   ms1: seq<BlockChanges>, ms2: seq<BlockChanges>)
    requires FlagsSound(ms, common + left)
    requires forall h :: h in retracted <==> h in left
    requires forall h :: h in left ==> h !in common && h !in entered
    requires Reflagged(ms, entered, true, ms1) && Reflagged(ms1, retracted, false, ms2)
    requires forall h :: h in entered ==> Listed(ms, h)
    requires forall i :: 0 <= i < |ms| && ms[i].hash in entered ==> |common| <= ms[i].number
    ensures FlagsSound(ms2, common + entered)
    ensures forall i :: 0 <= i < |ms2| && First(ms2, i) ==>
            (ms2[i].hash in entered ==> ms2[i].isCanon) && (ms2[i].hash in left ==> !ms2[i].isCanon)
  {
    var path, path' := common + left, common + entered;
    forall h | Listed(ms, h)
      ensures Listed(ms2, h)
    {
      var j :| 0 <= j < |ms| && ms[j].hash == h;
      assert ms2[j].hash == h;
    }
    forall i | 0 <= i < |ms2|
      ensures FlagSound(ms2, path', i)
    {
      assert FlagSound(ms, path, i);
      assert First(ms, i) <==> First(ms1, i);
      assert First(ms, i) <==> First(ms2, i);
      if ms2[i].isCanon {
        forall k | |common| <= k < |path'|
          ensures Listed(ms2, path'[k])
        {
          assert path'[k] == entered[k - |common|];
          assert Listed(ms, path'[k]);
        }
        if ms[i].hash in entered && First(ms, i) {
          assert ListedAbove(ms2, path', ms[i].number);
        } else {
          assert ms[i].hash in path && First(ms, i);
          FlagSoundStep(ms, path, i, ms2, path', i);
        }
      }
    }
    forall i | 0 <= i < |ms2| && First(ms2, i)
      ensures (ms2[i].hash in entered ==> ms2[i].isCanon) && (ms2[i].hash in left ==> !ms2[i].isCanon)
    {
      assert First(ms, i);
      assert First(ms1, i);
    }
  }

  /** An account that survives the purge is modified on neither leg, so the new parent has it too. */
  lemma PurgedAccounts(w: World, t: Tree, tip: Hash, parent: Hash, ms: seq<BlockChanges>, a: Address)
    requires Rooted(t) && tip in t.details && parent in t.details && WorldCovers(w, t) && AllDescribe(w, t, ms)
    requires forall h :: h in Leg(t, tip, parent) || h in Leg(t, parent, tip) ==> Listed(ms, h)
    requires forall i :: 0 <= i < |ms| && First(ms, i) &&
                         (ms[i].hash in Leg(t, tip, parent) || ms[i].hash in Leg(t, parent, tip)) ==>
                           a !in ms[i].accounts
    ensures w.state(tip, a) == w.state(parent, a)
  {
    ForkShared(t, tip, parent);
    var k := Fork(t, tip, parent);
    forall h | h in Leg(t, tip, parent) || h in Leg(t, parent, tip)
      ensures a !in w.modified(h)
    {
      FindHashFirst(ms, ms, h);
      assert Describes(w, t, ms[FindHash(ms, h)]);
    }
    LegUnmodified(w, t, tip, parent, a);
    LegUnmodified(w, t, parent, tip, a);
    PrefixAgrees(Path(t, tip), Path(t, parent), k);
  }

  /** If no block of the leg modifies `a`, its tip has the account of the fork. */
  lemma LegUnmodified(w: World, t: Tree, tip: Hash, other: Hash, a: Address)
    requires Rooted(t) && tip in t.details && other in t.details && WorldCovers(w, t)
    requires forall h :: h in Leg(t, tip, other) ==> a !in w.modified(h)
    ensures w.state(tip, a) == w.state(Path(t, tip)[Fork(t, tip, other) - 1], a)
  {
    var p, k := Path(t, tip), Fork(t, tip, other);
    forall n | k - 1 < n <= t.details[tip].number
      ensures a !in w.modified(p[n])
    {
      SuffixAt(p, k, n);
    }
    StateAlong(w, t, tip, k - 1, a);
  }

  /** What the purge leaves for a commit on top of `parent`. */
  ghost predicate Ready(w: World, t: Tree, parent: Hash, cache: Cache)
    requires Rooted(t) && parent in t.details
  {
    && Sorted(cache.modifications)
    && AllDescribe(w, t, cache.modifications)
    && FlagsSound(cache.modifications, Path(t, parent))
    && AccountsOf(w, parent, cache.accounts)
  }

  /** First entries of enacted blocks are flagged, first entries of retracted ones are not. */
  ghost predicate FlagsAgree(ms: seq<BlockChanges>, enacted: seq<Hash>, retracted: seq<Hash>) {
    forall i :: 0 <= i < |ms| && First(ms, i) ==>
      (ms[i].hash in enacted ==> ms[i].isCanon) && (ms[i].hash in retracted ==> !ms[i].isCanon)
  }

  lemma ReorgReady(w: World, t: Tree, tip: Hash, parent: Hash, cache: Cache, cache1: Cache, cache2: Cache)
    requires Rooted(t) && tip in t.details && parent in t.details && WorldCovers(w, t) && Coherent(w, t, tip, cache)
    requires var left, entered, ms := Leg(t, tip, parent), Leg(t, parent, tip), cache.modifications;
             && Reflagged(ms, entered, true, cache1.modifications)
             && Reflagged(cache1.modifications, Reversed(left), false, cache2.modifications)
             && Dropped(ms, entered, cache.accounts, cache1.accounts)
             && Dropped(cache1.modifications, Reversed(left), cache1.accounts, cache2.accounts)
             && (forall h :: h in entered ==> Listed(ms, h))
             && (forall h :: h in Reversed(left) ==> Listed(cache1.modifications, h))
    ensures Ready(w, t, parent, cache2)
    ensures FlagsAgree(cache2.modifications, Leg(t, parent, tip), Reversed(Leg(t, tip, parent)))
  {
    var left, entered, ms := Leg(t, tip, parent), Leg(t, parent, tip), cache.modifications;
    var ms1 := cache1.modifications;
    ReversedSame(left);
    PathsCut(t, tip, parent);
    LegsApart(t, tip, parent);
    forall i | 0 <= i < |ms| && ms[i].hash in entered
      ensures Fork(t, tip, parent) <= ms[i].number
    {
      assert Describes(w, t, ms[i]);
      EnteredHeight(t, parent, tip, ms[i].hash);
      ForkShared(t, tip, parent);
    }
    ReorgSound(ms, Path(t, tip)[..Fork(t, tip, parent)], left, entered, Reversed(left), ms1, cache2.modifications);
    forall h | h in left
      ensures Listed(ms, h)
    {
      var j :| 0 <= j < |ms1| && ms1[j].hash == h;
      assert ms[j].hash == h;
    }
    forall a | a in cache2.accounts
      ensures cache2.accounts[a] == w.state(parent, a)
    {
      forall i | 0 <= i < |ms| && First(ms, i) && (ms[i].hash in left || ms[i].hash in entered)
        ensures a !in ms[i].accounts
      {
        assert First(ms1, i);
      }
      PurgedAccounts(w, t, tip, parent, ms, a);
    }
  }

  lemma EnteredHeight(t: Tree, a: Hash, b: Hash, h: Hash)
    requires Rooted(t) && a in t.details && b in t.details && h in Leg(t, a, b)
    ensures h in t.details && t.details[h].number >= Fork(t, a, b)
  {
    var i :| 0 <= i < |Leg(t, a, b)| && Leg(t, a, b)[i] == h;
    assert Path(t, a)[Fork(t, a, b) + i] == h;
    PathPrefix(t, a, Fork(t, a, b) + i);
  }

  lemma {:induction false} OthersSame(hs: seq<Hash>, commitHash: Option<Hash>)
    requires commitHash.Some? ==> commitHash.value !in hs
    ensures Others(hs, commitHash) == hs
  {
    if hs != [] {
      var n := |hs| - 1;
      assert hs == hs[..n] + [hs[n]];
      OthersSame(hs[..n], commitHash);
    }
  }

  lemma OthersOfRoute(hs: seq<Hash>, hash: Hash)
    requires hash !in hs
    ensures Others(hs + [hash], Some(hash)) == hs
  {
    assert (hs + [hash])[..|hs|] == hs;
    OthersSame(hs, Some(hash));
  }

  // ---------------------------------------------------------------------------------------------
  // Commits

  /** A state database created on top of `b`'s parent that has journaled `b`. */
  function Journaled(b: Block): Handle {
    Handle(Some(b.parent), Some(b.hash), Some(b.number))
  }

  /** A reorganisation leaves the cache ready for the commit of the new best block. */
  lemma HeavierPurged(w: World, t: Tree, tip: Hash, b: Block, cache: Cache)
    requires Rooted(t) && tip in t.details && Fresh(t, b) && WorldCovers(w, t) && Coherent(w, t, tip, cache)
    ensures var left, entered := Leg(t, tip, b.parent), Leg(t, b.parent, tip);
            var purged := Purged(cache, entered + [b.hash], Reversed(left), Some(b.hash));
            Ready(w, t, b.parent, purged) && FlagsAgree(purged.modifications, entered, Reversed(left))
  {
    var left, entered := Leg(t, tip, b.parent), Leg(t, b.parent, tip);
    LegKnown(t, b.parent, tip);
    OthersOfRoute(entered, b.hash);
    var p1 := PurgeBlocks(Purge(false, cache), entered, true);
    var p2 := PurgeBlocks(p1, Reversed(left), false);
    PurgeBlocksEffect(cache, entered, true);
    if p1.clear {
      ClearStays(p1, Reversed(left), false);
    } else {
      assert p1 == Purge(false, p1.cache);
      PurgeBlocksEffect(p1.cache, Reversed(left), false);
      if !p2.clear {
        ReorgReady(w, t, tip, b.parent, cache, p1.cache, p2.cache);
      }
    }
  }

  lemma {:induction false} ClearStays(p: Purge, hashes: seq<Hash>, canon: bool)
    requires p.clear
    ensures PurgeBlocks(p, hashes, canon).clear
  {
    if hashes != [] {
      ClearStays(p, hashes[..|hashes| - 1], canon);
    }
  }

  /**
   * The local cache of a committing state database: every value is that of the block's own state, and
   * the modified items are the block's modified accounts, which cover all it changed.
   */
  ghost predicate LocalOf(w: World, b: Block, local: seq<CacheQueueItem>) {
    && (forall item :: item in local ==> item.account == w.state(b.hash, item.address))
    && ModifiedIn(local) == w.modified(b.hash)
    && Covers(w, b.hash, b.parent)
  }

  lemma GrowDescribes(w: World, t: Tree, b: Block, ms: seq<BlockChanges>)
    requires Rooted(t) && Fresh(t, b) && AllDescribe(w, t, ms)
    ensures AllDescribe(w, Grow(t, b), ms) && !Listed(ms, b.hash)
  {
    GrowRooted(t, b);
    forall i | 0 <= i < |ms|
      ensures Describes(w, Grow(t, b), ms[i]) && ms[i].hash != b.hash
    {
      assert Describes(w, t, ms[i]);
    }
  }

  lemma GrowCovers(w: World, t: Tree, b: Block)
    requires Rooted(t) && Fresh(t, b) && WorldCovers(w, t) && Covers(w, b.hash, b.parent)
    ensures WorldCovers(w, Grow(t, b))
  {
    GrowRooted(t, b);
    var t' := Grow(t, b);
    forall h | h in t'.details && h != t'.genesis
      ensures Covers(w, h, t'.details[h].parent)
    {
      if h != b.hash {
        assert Covers(w, h, t.details[h].parent);
      }
    }
  }

  /** Draining the local cache of the new tip moves the shared accounts from its parent's state to its own. */
  lemma DrainedAccounts(w: World, b: Block, local: seq<CacheQueueItem>, accounts: map<Address, Option<Account>>,
                        accounts': map<Address, Option<Account>>)
    requires LocalOf(w, b, local) && AccountsOf(w, b.parent, accounts) && Drained(accounts, local, accounts')
    ensures AccountsOf(w, b.hash, accounts')
  {
    forall a | a in accounts'
      ensures accounts'[a] == w.state(b.hash, a)
    {
      if item :| item in local && item.address == a && accounts'[a] == item.account {
      } else {
        assert a !in ModifiedIn(local);
      }
    }
  }

  function ChangesOf(w: World, b: Block, isCanon: bool): BlockChanges {
    BlockChanges(b.number, b.hash, b.parent, w.modified(b.hash), isCanon)
  }

  /** Committing the new best block on a ready cache makes it coherent with that block as the tip. */
  lemma CommitBest(w: World, t: Tree, b: Block, purged: Cache, local: seq<CacheQueueItem>,
                   accounts': map<Address, Option<Account>>)
    requires Rooted(t) && Fresh(t, b) && Ready(w, t, b.parent, purged) && LocalOf(w, b, local)
    requires Drained(purged.accounts, local, accounts')
    ensures Rooted(Grow(t, b))
    ensures Coherent(w, Grow(t, b), b.hash,
                     Cache(accounts', Inserted(Trimmed(purged.modifications), ChangesOf(w, b, true))))
  {
    var t', ms, m := Grow(t, b), purged.modifications, ChangesOf(w, b, true);
    var path := Path(t, b.parent);
    GrowRooted(t, b);
    GrowPath(t, b);
    PathFrame(t, t', b.parent);
    GrowDescribes(w, t, b, ms);
    PathHeights(t', b.parent);
    TrimSound(w, t', ms, path);
    assert Describes(w, t', m);
    assert !Listed(Trimmed(ms), b.hash);
    InsertSorted(w, t', Trimmed(ms), m);
    InsertSound(w, t', Trimmed(ms), path, m);
    DrainedAccounts(w, b, local, purged.accounts, accounts');
  }

  /** Committing any other block, new or known, only lists it, unflagged. */
  lemma CommitSide(w: World, t: Tree, tip: Hash, b: Block, cache: Cache)
    requires Rooted(t) && tip in t.details && Coherent(w, t, tip, cache) && Describes(w, t, ChangesOf(w, b, false))
    ensures Coherent(w, t, tip, Cache(cache.accounts, Inserted(Trimmed(cache.modifications), ChangesOf(w, b, false))))
  {
    var ms, m := cache.modifications, ChangesOf(w, b, false);
    PathHeights(t, tip);
    TrimSound(w, t, ms, Path(t, tip));
    InsertSorted(w, t, Trimmed(ms), m);
    InsertSound(w, t, Trimmed(ms), Path(t, tip), m);
  }

  /** Growing the tree beside the tip leaves the cache coherent. */
  lemma GrowCoherent(w: World, t: Tree, tip: Hash, b: Block, cache: Cache)
    requires Rooted(t) && tip in t.details && Fresh(t, b) && Coherent(w, t, tip, cache)
    ensures Rooted(Grow(t, b)) && Coherent(w, Grow(t, b), tip, cache)
  {
    GrowRooted(t, b);
    PathFrame(t, Grow(t, b), tip);
    GrowDescribes(w, t, b, cache.modifications);
  }

  /** Syncing once more for the same route changes no flag: it wipes everything or only drops accounts. */
  lemma ResyncCoherent(w: World, t: Tree, tip: Hash, cache: Cache, enacted: seq<Hash>, retracted: seq<Hash>)
    requires Rooted(t) && tip in t.details && Coherent(w, t, tip, cache)
    requires FlagsAgree(cache.modifications, enacted, retracted)
    ensures Coherent(w, t, tip, Purged(cache, enacted, retracted, None))
  {
    OthersSame(enacted, None);
    var p1 := PurgeBlocks(Purge(false, cache), enacted, true);
    var p2 := PurgeBlocks(p1, retracted, false);
    PurgeBlocksEffect(cache, enacted, true);
    if p1.clear {
      ClearStays(p1, retracted, false);
    } else {
      assert p1 == Purge(false, p1.cache);
      assert p1.cache.modifications == cache.modifications;
      PurgeBlocksEffect(p1.cache, retracted, false);
      if !p2.clear {
        assert p2.cache.modifications == cache.modifications;
      }
    }
  }

  /** After the commit the flags agree with the whole route, the new block included. */
  lemma FlagsAgreeAfter(ms: seq<BlockChanges>, entered: seq<Hash>, retracted: seq<Hash>, m: BlockChanges)
    requires FlagsAgree(ms, entered, retracted) && m.isCanon && !Listed(ms, m.hash)
    requires m.hash !in retracted && m.hash !in entered
    ensures FlagsAgree(Inserted(Trimmed(ms), m), entered + [m.hash], retracted)
  {
    var kept, at := Trimmed(ms), InsertAt(Trimmed(ms), m.number);
    var ms' := Inserted(kept, m);
    InsertedAt(kept, m);
    forall i | 0 <= i < |ms'| && First(ms', i)
      ensures (ms'[i].hash in entered + [m.hash] ==> ms'[i].isCanon) && (ms'[i].hash in retracted ==> !ms'[i].isCanon)
    {
      if i != at {
        var i0 := if i < at then i else i - 1;
        FirstBefore(ms, kept, m, i, i0);
        assert ms[i0].hash != m.hash;
      }
    }
  }

  /** What comes first after an insertion came first before it. */
  lemma FirstBefore(ms: seq<BlockChanges>, kept: seq<BlockChanges>, m: BlockChanges, i: nat, i0: nat)
    requires kept <= ms && i0 < |kept| && i < |Inserted(kept, m)| && First(Inserted(kept, m), i)
    requires i == if i0 < InsertAt(kept, m.number) then i0 else i0 + 1
    ensures First(ms, i0) && Inserted(kept, m)[i] == ms[i0]
  {
    var at, ms' := InsertAt(kept, m.number), Inserted(kept, m);
    forall j | 0 <= j < i0
      ensures ms[j].hash != ms[i0].hash
    {
      assert ms'[if j < at then j else j + 1] == ms[j];
    }
  }

  // ---------------------------------------------------------------------------------------------
  // Whole runs

  /** The chain and the shared cache of a running client. */
  datatype Node = Node(chain: Chain, cache: Cache)

  datatype Event =
    | Commit(block: Block, local: seq<CacheQueueItem>, sealed: bool)  // `commit_block`; a sealed block is synced twice
    | Evict(addresses: set<Address>)                                  // LRU eviction at any time

  /** `is_canon` of `commit_block`. */
  predicate IsCanon(route: ImportRoute, hash: Hash) {
    route.enacted != [] && route.enacted[|route.enacted| - 1] == hash
  }

  ghost predicate Step(w: World, n: Node, e: Event, n': Node) {
    match e
    case Commit(b, local, sealed) =>
      && WellFormed(n.chain) && Importable(n.chain, b) && LocalOf(w, b, local)
      && n'.chain == Round(n.chain, b)
      && var route := RoundRoute(n.chain, b);
      && exists mid ::
        && Synced(n.cache, Journaled(b), local, route.enacted, route.retracted, IsCanon(route, b.hash), mid)
                       && n'.cache == if sealed then Purged(mid, route.enacted, route.retracted, None) else mid
    case Evict(addresses) =>
      n' == n.(cache := Cache(n.cache.accounts - addresses, n.cache.modifications))
  }

  ghost predicate Consistent(w: World, n: Node) {
    Valid(n.chain) && WorldCovers(w, n.chain.tree) && Coherent(w, n.chain.tree, n.chain.best.hash, n.cache)
  }

  lemma CommitHeavierCache(w: World, t: Tree, tip: Hash, b: Block, cache: Cache, local: seq<CacheQueueItem>, mid: Cache)
    requires Rooted(t) && tip in t.details && Fresh(t, b) && WorldCovers(w, t) && Coherent(w, t, tip, cache)
             && LocalOf(w, b, local)
    requires Synced(cache, Journaled(b), local, Leg(t, b.parent, tip) + [b.hash], Reversed(Leg(t, tip, b.parent)), true,
                    mid)
    ensures Rooted(Grow(t, b)) && Coherent(w, Grow(t, b), b.hash, mid)
    ensures FlagsAgree(mid.modifications, Leg(t, b.parent, tip) + [b.hash], Reversed(Leg(t, tip, b.parent)))
  {
    var left, entered := Leg(t, tip, b.parent), Leg(t, b.parent, tip);
    var purged := Purged(cache, entered + [b.hash], Reversed(left), Some(b.hash));
    HeavierPurged(w, t, tip, b, cache);
    CommitBest(w, t, b, purged, local, mid.accounts);
    GrowDescribes(w, t, b, purged.modifications);
    LegKnown(t, b.parent, tip);
    LegKnown(t, tip, b.parent);
    ReversedSame(left);
    FlagsAgreeAfter(purged.modifications, entered, Reversed(left), ChangesOf(w, b, true));
  }

  lemma CommitHeavier(w: World, n: Node, b: Block, local: seq<CacheQueueItem>, mid: Cache)
    requires Consistent(w, n) && Importable(n.chain, b) && LocalOf(w, b, local)
    requires b.hash !in n.chain.blocks && NewDifficulty(n.chain.tree, b) > n.chain.best.totalDifficulty
    requires var route := RoundRoute(n.chain, b);
             Synced(n.cache, Journaled(b), local, route.enacted, route.retracted, IsCanon(route, b.hash), mid)
    ensures Consistent(w, Node(Round(n.chain, b), mid))
    ensures FlagsAgree(mid.modifications, RoundRoute(n.chain, b).enacted, RoundRoute(n.chain, b).retracted)
  {
    var c := n.chain;
    RoundValid(c, b);
    RoundTree(c, b);
    HeavierRound(c, b);
    LastEnacted(Leg(c.tree, b.parent, c.best.hash), b.hash, RoundRoute(c, b));
    CommitHeavierCache(w, c.tree, c.best.hash, b, n.cache, local, mid);
    GrowCovers(w, c.tree, b);
  }

  lemma LastEnacted(leg: seq<Hash>, hash: Hash, route: ImportRoute)
    requires route.enacted == leg + [hash]
    ensures IsCanon(route, hash)
  {
  }

  lemma CommitOther(w: World, n: Node, b: Block, local: seq<CacheQueueItem>, mid: Cache)
    requires Consistent(w, n) && Importable(n.chain, b) && LocalOf(w, b, local)
    requires b.hash in n.chain.blocks || NewDifficulty(n.chain.tree, b) <= n.chain.best.totalDifficulty
    requires var route := RoundRoute(n.chain, b);
             Synced(n.cache, Journaled(b), local, route.enacted, route.retracted, IsCanon(route, b.hash), mid)
    ensures RoundRoute(n.chain, b).enacted == [] && RoundRoute(n.chain, b).retracted == []
    ensures Consistent(w, Node(Round(n.chain, b), mid))
  {
    var t, tip := n.chain.tree, n.chain.best.hash;
    KnownIffChild(n.chain, b);
    RoundValid(n.chain, b);
    if b.hash in n.chain.blocks {
      assert DetailsOf(t, n.chain.blocks, b.hash);
      assert Describes(w, t, ChangesOf(w, b, false));
      CommitSide(w, t, tip, b, n.cache);
    } else {
      LighterRound(n.chain, b);
      RoundTree(n.chain, b);
      GrowCoherent(w, t, tip, b, n.cache);
      GrowCovers(w, t, b);
      assert Describes(w, Grow(t, b), ChangesOf(w, b, false));
      CommitSide(w, Grow(t, b), tip, b, n.cache);
    }
  }

  /** Every step keeps the node consistent. */
  lemma StepConsistent(w: World, n: Node, e: Event, n': Node)
    requires Consistent(w, n) && Step(w, n, e, n')
    ensures Consistent(w, n')
  {
    match e
    case Commit(b, local, sealed) =>
      var route := RoundRoute(n.chain, b);
      var mid :| && Synced(n.cache, Journaled(b), local, route.enacted, route.retracted, IsCanon(route, b.hash), mid)
                 && n'.cache == if sealed then Purged(mid, route.enacted, route.retracted, None) else mid;
      if b.hash in n.chain.blocks || NewDifficulty(n.chain.tree, b) <= n.chain.best.totalDifficulty {
        CommitOther(w, n, b, local, mid);
      } else {
        CommitHeavier(w, n, b, local, mid);
        ResyncCoherent(w, n'.chain.tree, n'.chain.best.hash, mid, route.enacted, route.retracted);
      }
    case Evict(_) =>
  }

  /** A run of the client: consecutive nodes related by the events between them. */
  ghost predicate NodeRun(w: World, ns: seq<Node>, es: seq<Event>) {
    && |ns| == |es| + 1
    && forall i {:trigger es[i]} :: 0 <= i < |es| ==> Step(w, ns[i], es[i], ns[i + 1])
  }

  lemma StepOf(w: World, ns: seq<Node>, es: seq<Event>, i: nat)
    requires NodeRun(w, ns, es) && i < |es|
    ensures Step(w, ns[i], es[i], ns[i + 1])
  {
    var e := es[i];
  }

  lemma {:induction false} RunConsistent(w: World, ns: seq<Node>, es: seq<Event>, i: nat)
    requires NodeRun(w, ns, es) && Consistent(w, ns[0]) && i < |ns|
    ensures Consistent(w, ns[i])
  {
    if i > 0 {
      StepOf(w, ns, es, i - 1);
      RunConsistent(w, ns, es, i - 1);
      StepConsistent(w, ns[i - 1], es[i - 1], ns[i]);
    }
  }

  ghost predicate StartsAt(n: Node, genesis: Block) {
    ValidGenesis(genesis) && n == Node(InitialChain(genesis), Cache(map[], []))
  }

  /**
   * At every moment of every run from the genesis block, a reader created on top of any block gets
   * from the shared cache either nothing or the account of that block's own state.
   */
  lemma CacheCoherence(w: World, genesis: Block, ns: seq<Node>, es: seq<Event>, i: nat, parent: Hash, a: Address)
    requires NodeRun(w, ns, es) && StartsAt(ns[0], genesis) && i < |ns|
    ensures CachedAccount(ns[i].cache, None, a) == None
    ensures CachedAccount(ns[i].cache, Some(parent), a).None? ||
            (parent in ns[i].chain.tree.details
             && CachedAccount(ns[i].cache, Some(parent), a) == Some(w.state(parent, a)))
  {
    InitialValid(genesis);
    RunConsistent(w, ns, es, i);
    if CachedAccount(ns[i].cache, Some(parent), a).Some? {
      ReaderSound(w, ns[i].chain.tree, ns[i].chain.best.hash, ns[i].cache, parent, a);
    }
  }
}
