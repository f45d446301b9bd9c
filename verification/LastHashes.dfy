/**
 * The hashes of the last 256 blocks that a contract can ask for, and the cache of them that the client
 * keeps (core/src/client/client.rs, core/src/executor/fvm_externality.rs, `blockhash`).
 */
module LastHashes {
  import opened Basics
  import opened BlockTree
  import opened Chain
  import opened ChainInvariant

  const WINDOW: nat := 256

  function Zeros(n: nat): (z: seq<Hash>)
    ensures |z| == n
  {
    seq(n, i => ZERO_HASH)
  }

  /** The uncached walk: `h`, its parent, and so on, `n` hashes in all; zeros once a block is unknown. */
  function Ancestry(t: Tree, h: Hash, n: nat): (s: seq<Hash>)
    ensures |s| == n
    decreases n
  {
    if n == 0 then []
    else [h] + if h in t.details then Ancestry(t, t.details[h].parent, n - 1) else Zeros(n - 1)
  }

  /** `resize(256, default)`. */
  function Resized(hashes: seq<Hash>): (s: seq<Hash>)
    ensures |s| == WINDOW
  {
    if |hashes| >= WINDOW then hashes[..WINDOW] else hashes + Zeros(WINDOW - |hashes|)
  }

  /** The client answers from the cache when it starts at the block asked for. */
  predicate Hit(cached: seq<Hash>, parent: Hash) {
    cached != [] && cached[0] == parent
  }

  function Answer(cached: seq<Hash>, t: Tree, parent: Hash): seq<Hash> {
    if Hit(cached, parent) then Resized(cached) else Ancestry(t, parent, WINDOW)
  }

  /** `update_last_hashes`. */
  function Updated(cached: seq<Hash>, parent: Hash, hash: Hash): seq<Hash> {
    if Hit(cached, parent) then [hash] + (if |cached| > WINDOW - 1 then cached[..|cached| - 1] else cached)
    else cached
  }

  /** A block on top of the one the cache starts at makes the next question a hit, and moves the others back. */
  lemma UpdateHits(cached: seq<Hash>, parent: Hash, hash: Hash)
    requires Hit(cached, parent) && |cached| <= WINDOW
    ensures var updated := Updated(cached, parent, hash);
            && Hit(updated, hash) && |updated| == (if |cached| == 256 then 256 else |cached| + 1)
            && forall i :: 0 <= i < |updated| - 1 ==> updated[i + 1] == cached[i]
  {
  }

  /** The cache holds the walk from its first block, which is known (or the zero hash before the genesis). */
  ghost predicate CacheRight(t: Tree, cached: seq<Hash>) {
    && |cached| <= WINDOW
    && (cached != [] ==>
          && (cached[0] in t.details || cached[0] == ZERO_HASH)
          && Resized(cached) == Ancestry(t, cached[0], WINDOW))
  }

  /** The zero hash never becomes a block. */
  ghost predicate ZeroOutside(t: Tree) {
    ZERO_HASH !in t.details && t.genesis in t.details && t.details[t.genesis].parent == ZERO_HASH
  }

  /** Loop state of the walk: `r` is right up to `i` and the walk goes on from there; the rest is still zero. */
  ghost predicate Walked(t: Tree, parent: Hash, r: seq<Hash>, i: nat) {
    && |r| == WINDOW && i < WINDOW
    && r[..i] + Ancestry(t, r[i], WINDOW - i) == Ancestry(t, parent, WINDOW)
    && r[i + 1..] == Zeros(WINDOW - i - 1)
  }

  lemma WalkStarts(t: Tree, parent: Hash)
    ensures Walked(t, parent, Zeros(WINDOW)[0 := parent], 0)
  {
    var r := Zeros(WINDOW)[0 := parent];
    assert r[..0] == [] && r[1..] == Zeros(WINDOW - 1);
  }

  lemma WalkSteps(t: Tree, parent: Hash, r: seq<Hash>, i: nat)
    requires Walked(t, parent, r, i) && i + 1 < WINDOW && r[i] in t.details
    ensures Walked(t, parent, r[i + 1 := t.details[r[i]].parent], i + 1)
  {
    var next := t.details[r[i]].parent;
    assert Ancestry(t, r[i], WINDOW - i) == [r[i]] + Ancestry(t, next, WINDOW - i - 1);
    NextWritten(r, i, next);
    Associate(r[..i], [r[i]], Ancestry(t, next, WINDOW - i - 1));
    assert r[i + 1..][1..] == Zeros(WINDOW - i - 2);
  }

  lemma NextWritten<T>(r: seq<T>, i: nat, x: T)
    requires i + 1 < |r|
    ensures var r' := r[i + 1 := x];
            r'[..i + 1] == r[..i] + [r[i]] && r'[i + 1] == x && r'[i + 2..] == r[i + 1..][1..]
  {
  }

  lemma WalkEnds(t: Tree, parent: Hash, r: seq<Hash>, i: nat)
    requires Walked(t, parent, r, i) && (i + 1 == WINDOW || r[i] !in t.details)
    ensures r == Ancestry(t, parent, WINDOW)
  {
    assert Zeros(0) == [];
    assert r == r[..i] + ([r[i]] + r[i + 1..]);
  }

  /** Growing the tree does not change the walk from a known block. */
  lemma {:induction false} AncestryFrame(t: Tree, t': Tree, h: Hash, n: nat)
    requires Rooted(t) && Rooted(t') && Grown(t, t') && ZeroOutside(t) && ZeroOutside(t')
    requires h in t.details || h == ZERO_HASH
    ensures Ancestry(t', h, n) == Ancestry(t, h, n)
    decreases n
  {
    if n > 0 && h in t.details {
      AncestryFrame(t, t', t.details[h].parent, n - 1);
    }
  }

  /** A shorter walk is a prefix of a longer one. */
  lemma {:induction false} AncestryPrefix(t: Tree, h: Hash, n: nat, m: nat)
    requires n <= m
    ensures Ancestry(t, h, m)[..n] == Ancestry(t, h, n)
    decreases n
  {
    if n > 0 {
      var long := Ancestry(t, h, m);
      if h in t.details {
        AncestryPrefix(t, t.details[h].parent, n - 1, m - 1);
        assert long[..n] == [h] + Ancestry(t, t.details[h].parent, m - 1)[..n - 1];
      } else {
        assert long[..n] == [h] + Zeros(m - 1)[..n - 1];
        assert Zeros(m - 1)[..n - 1] == Zeros(n - 1);
      }
    }
  }

  /** Entry `i` of the walk from `h` is the ancestor of `h` that many blocks up. */
  lemma {:induction false} AncestryIsPath(t: Tree, h: Hash, n: nat, i: nat)
    requires Rooted(t) && h in t.details && i < n && i <= t.details[h].number
    ensures Ancestry(t, h, n)[i] == Path(t, h)[t.details[h].number - i]
    decreases n
  {
    if i > 0 {
      var parent := t.details[h].parent;
      AncestryIsPath(t, parent, n - 1, i - 1);
      ConsAt(h, Ancestry(t, parent, n - 1), i);
      SnocAt(Path(t, parent), h, t.details[h].number - i);
    }
  }

  lemma ResizedUpdated(cached: seq<Hash>, parent: Hash, hash: Hash)
    requires Hit(cached, parent) && |cached| <= WINDOW
    ensures Resized(Updated(cached, parent, hash)) == [hash] + Resized(cached)[..WINDOW - 1]
  {
    var u := Updated(cached, parent, hash);
    if |cached| < WINDOW - 1 {
      assert Zeros(WINDOW - |cached|)[..WINDOW - 1 - |cached|] == Zeros(WINDOW - 1 - |cached|);
      assert Resized(cached)[..WINDOW - 1] == cached + Zeros(WINDOW - 1 - |cached|);
    } else {
      assert Resized(cached)[..WINDOW - 1] == cached[..WINDOW - 1];
      assert |cached| == WINDOW - 1 ==> cached[..WINDOW - 1] == cached;
      assert u[..WINDOW] == u;
    }
  }

  /** Committing a block keeps the cache right. */
  lemma CommitKeepsRight(t: Tree, t': Tree, cached: seq<Hash>, parent: Hash, hash: Hash)
    requires Rooted(t) && Rooted(t') && Grown(t, t') && ZeroOutside(t) && ZeroOutside(t') && CacheRight(t, cached)
    requires hash in t'.details && t'.details[hash].parent == parent && parent in t.details
    ensures CacheRight(t', Updated(cached, parent, hash))
  {
    if cached != [] {
      AncestryFrame(t, t', cached[0], WINDOW);
      if cached[0] == parent {
        ResizedUpdated(cached, parent, hash);
        AncestryPrefix(t', parent, WINDOW - 1, WINDOW);
      }
    }
  }

  /** Building on a known block keeps the cache right; a hit equals the uncached walk. */
  lemma BuildKeepsRight(t: Tree, cached: seq<Hash>, parent: Hash)
    requires CacheRight(t, cached) && (parent in t.details || parent == ZERO_HASH)
    ensures Answer(cached, t, parent) == Ancestry(t, parent, WINDOW)
    ensures CacheRight(t, if Hit(cached, parent) then cached else Answer(cached, t, parent))
  {
    var walk := Ancestry(t, parent, WINDOW);
    assert walk[..WINDOW] == walk;
  }

  /**
   * Built on a block that is not known yet, the cache holds the block and zeros. Later the hit equals the
   * walk if and only if the block was known then, or still is not.
   */
  lemma HitRightIff(t: Tree, t': Tree, parent: Hash)
    requires Rooted(t) && Rooted(t') && Grown(t, t') && ZeroOutside(t) && ZeroOutside(t')
    ensures var cached := Ancestry(t, parent, WINDOW);
            Hit(cached, parent) &&
            (Answer(cached, t', parent) == Ancestry(t', parent, WINDOW) <==>
             parent in t.details || parent !in t'.details)
  {
    var cached := Ancestry(t, parent, WINDOW);
    assert cached[..WINDOW] == cached;
    if parent in t.details {
      AncestryFrame(t, t', parent, WINDOW);
    } else if parent in t'.details {
      assert parent != t.genesis;
      assert cached[1] == Zeros(WINDOW - 1)[0] == ZERO_HASH;
      assert Ancestry(t', parent, WINDOW)[1] == t'.details[parent].parent;
    }
  }

  // ---------------------------------------------------------------------------------------------
  // Whole runs

  datatype Event = Build(parent: Hash) | CommitBlock(block: Block)

  /** The chain and the cached hashes. */
  datatype Hashes = Hashes(chain: Chain, cached: seq<Hash>)

  /** What the client can be asked: hashes on top of a known block (or of nothing), and commits. */
  ghost predicate Possible(s: Hashes, e: Event) {
    match e
    case Build(parent) => parent in s.chain.tree.details || parent == ZERO_HASH
    case CommitBlock(b) => WellFormed(s.chain) && Importable(s.chain, b)
  }

  ghost function After(s: Hashes, e: Event): Hashes
    requires Possible(s, e)
  {
    match e
    case Build(parent) =>
      s.(cached := if Hit(s.cached, parent) then s.cached else Answer(s.cached, s.chain.tree, parent))
    case CommitBlock(b) => Hashes(Round(s.chain, b), Updated(s.cached, b.parent, b.hash))
  }

  ghost predicate PossibleRun(s: Hashes, es: seq<Event>)
    decreases |es|
  {
    es == [] || (Possible(s, es[0]) && PossibleRun(After(s, es[0]), es[1..]))
  }

  ghost function RunOf(s: Hashes, es: seq<Event>): Hashes
    requires PossibleRun(s, es)
    decreases |es|
  {
    if es == [] then s else RunOf(After(s, es[0]), es[1..])
  }

  ghost predicate Right(s: Hashes) {
    Valid(s.chain) && ZeroOutside(s.chain.tree) && CacheRight(s.chain.tree, s.cached)
  }

  lemma CommitRight(s: Hashes, b: Block)
    requires Right(s) && Importable(s.chain, b)
    ensures Right(After(s, CommitBlock(b)))
  {
    var c := s.chain;
    RoundValid(c, b);
    RoundGrows(c, b);
    CommitKeepsRight(c.tree, Round(c, b).tree, s.cached, b.parent, b.hash);
  }

  /** After a round the block is there, under its parent, and the rest is as before. */
  lemma RoundGrows(c: Chain, b: Block)
    requires Valid(c) && Importable(c, b) && ZeroOutside(c.tree)
    ensures var t := Round(c, b).tree;
            && Rooted(t) && Grown(c.tree, t) && ZeroOutside(t)
            && b.hash in t.details && t.details[b.hash].parent == b.parent
  {
    KnownIffChild(c, b);
    if b.hash in c.blocks {
      assert DetailsOf(c.tree, c.blocks, b.hash);
    } else {
      RoundTree(c, b);
    }
  }

  lemma {:induction false} RunRight(s: Hashes, es: seq<Event>)
    requires Right(s) && PossibleRun(s, es)
    ensures Right(RunOf(s, es))
    decreases |es|
  {
    if es != [] {
      match es[0] {
        case Build(parent) => BuildKeepsRight(s.chain.tree, s.cached, parent);
        case CommitBlock(b) => CommitRight(s, b);
      }
      RunRight(After(s, es[0]), es[1..]);
    }
  }

  /** After any run of builds and commits from the genesis, what is answered for a known block is its uncached walk. */
  lemma AnswersAreWalks(genesis: Block, es: seq<Event>, parent: Hash)
    requires ValidGenesis(genesis) && PossibleRun(Hashes(InitialChain(genesis), []), es)
    requires parent in RunOf(Hashes(InitialChain(genesis), []), es).chain.tree.details
    ensures var s := RunOf(Hashes(InitialChain(genesis), []), es);
            Valid(s.chain) && Answer(s.cached, s.chain.tree, parent) == Ancestry(s.chain.tree, parent, WINDOW)
  {
    InitialValid(genesis);
    var s0 := Hashes(InitialChain(genesis), []);
    RunRight(s0, es);
    BuildKeepsRight(RunOf(s0, es).chain.tree, RunOf(s0, es).cached, parent);
  }

  // ---------------------------------------------------------------------------------------------
  // blockhash

  const U64: nat := 0x1_0000_0000_0000_0000

  function Low64(n: nat): nat {
    n % U64
  }

  /** The number is in the window of a block numbered `current`. */
  predicate InWindow(current: nat, n: nat) {
    n < current && Low64(n) >= Max(WINDOW, current) - WINDOW
  }

  /** For any block number that can occur, the window is the last 256 numbers. */
  lemma WindowIs(current: nat, n: nat)
    requires current < U64 && n < current
    ensures Low64(n) == n
    ensures InWindow(current, n) <==> n + WINDOW >= current
  {
  }

  lemma WindowIsLast256(current: nat, n: nat)
    requires n < current < U64
    ensures InWindow(current, n) <==> n + 256 >= current
  {
    WindowIs(current, n);
  }

  /** `blockhash`: from the last hashes inside the window, else from the number index, by the low 64 bits. */
  function BlockHash(current: nat, lastHashes: seq<Hash>, index: map<nat, Hash>, n: nat): Hash
    requires |lastHashes| == WINDOW && current < U64
  {
    if InWindow(current, n) then
      WindowIs(current, n);
      lastHashes[current - n - 1]
    else if Low64(n) in index then index[Low64(n)] else ZERO_HASH
  }

  /** Inside the window, a block executing on top of `parent` sees its own ancestors, even on a side branch. */
  lemma BlockHashInWindow(t: Tree, parent: Hash, index: map<nat, Hash>, n: nat)
    requires Rooted(t) && parent in t.details && t.details[parent].number + 1 < U64
    requires InWindow(t.details[parent].number + 1, n)
    ensures BlockHash(t.details[parent].number + 1, Ancestry(t, parent, WINDOW), index, n) == Path(t, parent)[n]
  {
    WindowIs(t.details[parent].number + 1, n);
    AncestryIsPath(t, parent, WINDOW, t.details[parent].number - n);
  }

  /**
   * Below the window it sees the canonical chain: the answer is its own ancestor if and only if that
   * ancestor lies below the fork with the canonical chain.
   */
  lemma BlockHashBelowWindow(c: Chain, parent: Hash, n: nat)
    requires Valid(c) && parent in c.tree.details && c.tree.details[parent].number + 1 < U64
    requires n + WINDOW <= c.tree.details[parent].number && n <= c.best.number
    ensures BlockHash(c.tree.details[parent].number + 1, Ancestry(c.tree, parent, WINDOW), c.hashes, n) ==
            Path(c.tree, parent)[n]
            <==> n < Fork(c.tree, c.best.hash, parent)
  {
    WindowIs(c.tree.details[parent].number + 1, n);
    IndexBelowFork(c, parent, n);
  }

  /** The canonical chain and the path of `parent` agree at a height exactly below their fork. */
  lemma IndexBelowFork(c: Chain, parent: Hash, n: nat)
    requires Valid(c) && parent in c.tree.details && n <= c.tree.details[parent].number && n <= c.best.number
    ensures n in c.hashes && (c.hashes[n] == Path(c.tree, parent)[n] <==> n < Fork(c.tree, c.best.hash, parent))
  {
    var p, q, k := CanonicalPath(c), Path(c.tree, parent), Fork(c.tree, c.best.hash, parent);
    ForkShared(c.tree, c.best.hash, parent);
    PrefixAgrees(p, q, k);
    assert n in c.hashes && c.hashes[n] == p[n];
    if p[n] == q[n] {
      PathsMeet(c.tree, c.best.hash, parent, n);
    }
  }
}
