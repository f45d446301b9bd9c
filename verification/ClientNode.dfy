/**
 * The client around the chain and the state cache: committing a block, importing a locally sealed one,
 * and the last hashes (core/src/client/client.rs).
 */
module ClientNode {
  import opened Basics
  import opened BlockTree
  import opened Chain
  import opened BlockChainStore
  import opened StateCache
  import opened StateDatabase
  import opened StateCoherence
  import LastHashes

  class Client {
    const chain: BlockChain
    const shared: AccountCache
    var lastHashes: seq<Hash>

    constructor (genesis: Block, capacity: nat)
      requires ValidGenesis(genesis)
      ensures chain.Idle() && shared.Valid() && StartsAt(Now(), genesis) && lastHashes == []
      ensures fresh(chain) && fresh(shared)
    {
      chain := new BlockChain(genesis);
      shared := new AccountCache(capacity);
      lastHashes := [];
    }

    /** The chain and the shared cache, as the coherence argument sees them. */
    ghost function Now(): Node
      reads chain, shared
    {
      Node(chain.Published(), shared.Contents())
    }

    /** `build_last_hashes`: from the cache, or by walking the parents, which replaces the cache. */
    method BuildLastHashes(parent: Hash) returns (r: seq<Hash>)
      modifies this`lastHashes
      ensures r == LastHashes.Answer(old(lastHashes), Tree(chain.genesis, chain.details), parent)
      ensures lastHashes == if LastHashes.Hit(old(lastHashes), parent) then old(lastHashes) else r
    {
      if |lastHashes| > 0 && lastHashes[0] == parent {
        return LastHashes.Resized(lastHashes);
      }
      r := WalkParents(parent);
      lastHashes := r;
    }

    method WalkParents(parent: Hash) returns (r: seq<Hash>)
      ensures r == LastHashes.Ancestry(Tree(chain.genesis, chain.details), parent, LastHashes.WINDOW)
    {
      ghost var t := Tree(chain.genesis, chain.details);
      r := LastHashes.Zeros(LastHashes.WINDOW);
      r := r[0 := parent];
      LastHashes.WalkStarts(t, parent);
      var i := 0;
      while i < LastHashes.WINDOW - 1 && r[i] in chain.details
        invariant 0 <= i < LastHashes.WINDOW && LastHashes.Walked(t, parent, r, i)
      {
        LastHashes.WalkSteps(t, parent, r, i);
        r := r[i + 1 := chain.details[r[i]].parent];
        i := i + 1;
      }
      LastHashes.WalkEnds(t, parent, r, i);
    }

    method UpdateLastHashes(parent: Hash, hash: Hash)
      modifies this`lastHashes
      ensures lastHashes == LastHashes.Updated(old(lastHashes), parent, hash)
    {
      if |lastHashes| > 0 && lastHashes[0] == parent {
        if |lastHashes| > LastHashes.WINDOW - 1 {
          lastHashes := lastHashes[..|lastHashes| - 1];
        }
        lastHashes := [hash] + lastHashes;
      }
    }

    /** `commit_block`: journal, insert, sync the shared cache with the route, publish, note the hash. */
    method CommitBlock(ghost w: World, db: StateDB, b: Block) returns (route: ImportRoute)
      requires WellFormed(chain.Published()) && chain.Idle() && Importable(chain.Published(), b)
      requires shared.Valid() && db.shared == shared && db.parentHash == Some(b.parent) && LocalOf(w, b, db.localCache)
      modifies this`lastHashes, chain, shared, db
      ensures Step(w, old(Now()), Event.Commit(b, old(db.localCache), false), Now())
      ensures route == RoundRoute(old(chain.Published()), b) && chain.Idle() && shared.Valid()
      ensures lastHashes == LastHashes.Updated(old(lastHashes), b.parent, b.hash)
    {
      ghost var n, local := Now(), db.localCache;
      db.JournalUnder(b.number, b.hash);
      route := chain.InsertBlock(b);
      var isCanon := |route.enacted| > 0 && route.enacted[|route.enacted| - 1] == b.hash;
      var _ := db.SyncCache(route.enacted, route.retracted, isCanon);
      ghost var mid := shared.Contents();
      assert Synced(n.cache, Journaled(b), local, route.enacted, route.retracted, IsCanon(route, b.hash), mid);
      chain.CommitStaged(b);
      UpdateLastHashes(b.parent, b.hash);
    }

    /** `import_sealed_block`: the database all others are cloned from syncs once more for the same route. */
    method ImportSealedBlock(ghost w: World, db: StateDB, master: StateDB, b: Block) returns (route: ImportRoute)
      requires WellFormed(chain.Published()) && chain.Idle() && Importable(chain.Published(), b)
      requires shared.Valid() && db.shared == shared && db.parentHash == Some(b.parent) && LocalOf(w, b, db.localCache)
      requires master != db && master.shared == shared && master.View() == Handle(None, None, None)
      modifies this`lastHashes, chain, shared, db, master
      ensures Step(w, old(Now()), Event.Commit(b, old(db.localCache), true), Now())
      ensures route == RoundRoute(old(chain.Published()), b) && chain.Idle() && shared.Valid()
      ensures lastHashes == LastHashes.Updated(old(lastHashes), b.parent, b.hash)
    {
      ghost var n, local := Now(), db.localCache;
      route := CommitBlock(w, db, b);
      ghost var mid :| Synced(n.cache, Journaled(b), local, route.enacted, route.retracted, IsCanon(route, b.hash), mid)
        && shared.Contents() == mid;
      var _ := master.SyncCache(route.enacted, route.retracted, false);
      assert shared.Contents() == Purged(mid, route.enacted, route.retracted, None);
    }
  }
}
