/**
 * Where every entry of the number index comes from, stale ones included, and what `blockhash` therefore
 * answers (core/src/blockchain/blockchain.rs, core/src/executor/fvm_externality.rs).
 */
module IndexTrace {
  import opened Basics
  import opened BlockTree
  import opened Chain
  import opened ChainInvariant
  import opened LastHashes
  import NumberIndex

  /** The last of the given blocks that stands at least `n` high. */
  ghost function Latest(t: Tree, bests: seq<Hash>, n: nat): (r: Option<Hash>)
    ensures r.Some? ==> r.value in t.details && t.details[r.value].number >= n
  {
    if bests == [] then None
    else
      var last := bests[|bests| - 1];
      if last in t.details && t.details[last].number >= n then Some(last) else Latest(t, bests[..|bests| - 1], n)
  }

  /** Entry `n` of the index is the ancestor, at height `n`, of the latest best block that stood that high. */
  ghost predicate EntryTraced(t: Tree, hashes: map<nat, Hash>, bests: seq<Hash>, n: nat)
    requires Rooted(t)
  {
    var source := Latest(t, bests, n);
    if source.Some? then n in hashes && hashes[n] == Path(t, source.value)[n] else n !in hashes
  }

  /** The index holds what the best blocks so far, ending with the present one, have left in it. */
  ghost predicate Traced(t: Tree, best: Hash, hashes: map<nat, Hash>, bests: seq<Hash>)
    requires Rooted(t)
  {
    && bests != [] && bests[|bests| - 1] == best
    && (forall h :: h in bests ==> h in t.details)
    && forall n: nat :: EntryTraced(t, hashes, bests, n)
  }

  lemma {:induction false} LatestFrame(t: Tree, t': Tree, bests: seq<Hash>, n: nat)
    requires Grown(t, t') && forall h :: h in bests ==> h in t.details
    ensures Latest(t', bests, n) == Latest(t, bests, n)
    decreases |bests|
  {
    if bests != [] {
      assert bests[|bests| - 1] in bests;
      LatestFrame(t, t', bests[..|bests| - 1], n);
    }
  }

  lemma LatestMore(t: Tree, bests: seq<Hash>, best: Hash, n: nat)
    requires best in t.details
    ensures Latest(t, bests + [best], n) == if t.details[best].number >= n then Some(best) else Latest(t, bests, n)
  {
    assert (bests + [best])[..|bests|] == bests;
  }

  lemma EntryFrame(t: Tree, t': Tree, hashes: map<nat, Hash>, bests: seq<Hash>, n: nat)
    requires Rooted(t) && Rooted(t') && Grown(t, t') && (forall h :: h in bests ==> h in t.details)
    ensures EntryTraced(t', hashes, bests, n) <==> EntryTraced(t, hashes, bests, n)
  {
    LatestFrame(t, t', bests, n);
    var source := Latest(t, bests, n);
    if source.Some? {
      PathFrame(t, t', source.value);
    }
  }

  /** A heavier block takes over the entries up to its number and leaves the others as they were. */
  lemma HeavierEntry(t: Tree, t': Tree, best: Hash, b: Block, hashes: map<nat, Hash>, bests: seq<Hash>, n: nat)
    requires Rooted(t) && Rooted(t') && Grown(t, t') && best in t.details && b.parent in t.details
    requires b.number == t.details[b.parent].number + 1 && b.hash in t'.details && t'.details[b.hash].number == b.number
    requires forall h :: h in bests ==> h in t.details
    requires EntryTraced(t, hashes, bests, n)
    requires NumbersMatch(t', Path(t', b.hash), Renumbered(t, best, b, hashes))
    ensures EntryTraced(t', Renumbered(t, best, b, hashes), bests + [b.hash], n)
  {
    var hashes' := Renumbered(t, best, b, hashes);
    LatestMore(t', bests, b.hash, n);
    if n <= b.number {
      assert n in hashes' && hashes'[n] == Path(t', b.hash)[n];
    } else {
      EntryFrame(t, t', hashes, bests, n);
      ForkShared(t, best, b.parent);
      NumberedAt(Fork(t, best, b.parent), Leg(t, b.parent, best), n);
    }
  }

  /** An entry does not change when the best block, which stays, is noted once more. */
  lemma SameBestEntry(t: Tree, hashes: map<nat, Hash>, bests: seq<Hash>, n: nat)
    requires Rooted(t) && bests != [] && bests[|bests| - 1] in t.details && EntryTraced(t, hashes, bests, n)
    ensures EntryTraced(t, hashes, bests + [bests[|bests| - 1]], n)
  {
    LatestMore(t, bests, bests[|bests| - 1], n);
  }

  lemma HeavierTraced(c: Chain, b: Block, bests: seq<Hash>)
    requires Valid(c) && Importable(c, b) && b.hash !in c.blocks && NewDifficulty(c.tree, b) > c.best.totalDifficulty
    requires Traced(c.tree, c.best.hash, c.hashes, bests)
    ensures var c' := Round(c, b); WellFormed(c') && Traced(c'.tree, c'.best.hash, c'.hashes, bests + [c'.best.hash])
  {
    RoundValid(c, b);
    RoundTree(c, b);
    HeavierRound(c, b);
    GrowPath(c.tree, b);
    var c' := Round(c, b);
    forall n: nat
      ensures EntryTraced(c'.tree, c'.hashes, bests + [b.hash], n)
    {
      HeavierEntry(c.tree, c'.tree, c.best.hash, b, c.hashes, bests, n);
    }
  }

  lemma LighterTraced(c: Chain, b: Block, bests: seq<Hash>)
    requires Valid(c) && Importable(c, b) && Traced(c.tree, c.best.hash, c.hashes, bests)
    requires b.hash in c.blocks || NewDifficulty(c.tree, b) <= c.best.totalDifficulty
    ensures var c' := Round(c, b); WellFormed(c') && Traced(c'.tree, c'.best.hash, c'.hashes, bests + [c'.best.hash])
  {
    KnownIffChild(c, b);
    if b.hash !in c.blocks {
      RoundTree(c, b);
      LighterRound(c, b);
    }
    var c' := Round(c, b);
    assert Grown(c.tree, c'.tree) && c'.hashes == c.hashes && c'.best == c.best;
    StaysTraced(c.tree, c'.tree, c.best.hash, c.hashes, bests);
  }

  lemma StaysTraced(t: Tree, t': Tree, best: Hash, hashes: map<nat, Hash>, bests: seq<Hash>)
    requires Rooted(t) && Rooted(t') && Grown(t, t') && Traced(t, best, hashes, bests)
    ensures Traced(t', best, hashes, bests + [best])
  {
    assert best in bests;
    forall n: nat
      ensures EntryTraced(t', hashes, bests + [best], n)
    {
      assert EntryTraced(t, hashes, bests, n);
      EntryFrame(t, t', hashes, bests, n);
      SameBestEntry(t', hashes, bests, n);
    }
  }

  /** The best blocks after each round of a run. */
  ghost function Bests(c: Chain, bs: seq<Block>): seq<Hash>
    requires ImportableRun(c, bs)
    decreases |bs|
  {
    if bs == [] then [] else [Round(c, bs[0]).best.hash] + Bests(Round(c, bs[0]), bs[1..])
  }

  /** Over any run, every entry of the index, stale or not, is what the latest best block of that height left there. */
  lemma {:induction false} RunTraced(c: Chain, bs: seq<Block>, bests: seq<Hash>) returns (last: Chain)
    requires Valid(c) && ImportableRun(c, bs) && Traced(c.tree, c.best.hash, c.hashes, bests)
    ensures last == Run(c, bs) && Valid(last)
    ensures Traced(last.tree, last.best.hash, last.hashes, bests + Bests(c, bs))
    decreases |bs|
  {
    last := c;
    if bs == [] {
      assert bests + [] == bests;
    } else {
      var c1 := NextTraced(c, bs[0], bests);
      last := RunTraced(c1, bs[1..], bests + [c1.best.hash]);
      Associate(bests, [c1.best.hash], Bests(c1, bs[1..]));
    }
  }

  lemma NextTraced(c: Chain, b: Block, bests: seq<Hash>) returns (c1: Chain)
    requires Valid(c) && Importable(c, b) && Traced(c.tree, c.best.hash, c.hashes, bests)
    ensures c1 == Round(c, b) && Valid(c1) && Traced(c1.tree, c1.best.hash, c1.hashes, bests + [c1.best.hash])
  {
    RoundValid(c, b);
    if b.hash !in c.blocks && NewDifficulty(c.tree, b) > c.best.totalDifficulty {
      HeavierTraced(c, b, bests);
    } else {
      LighterTraced(c, b, bests);
    }
    c1 := Round(c, b);
  }

  lemma InitialTraced(genesis: Block)
    requires ValidGenesis(genesis)
    ensures var c := InitialChain(genesis); Valid(c) && Traced(c.tree, c.best.hash, c.hashes, [genesis.hash])
  {
    InitialValid(genesis);
    var c := InitialChain(genesis);
    forall n: nat
      ensures EntryTraced(c.tree, c.hashes, [genesis.hash], n)
    {
      LatestMore(c.tree, [], genesis.hash, n);
      assert [] + [genesis.hash] == [genesis.hash];
    }
  }

  // ---------------------------------------------------------------------------------------------
  // blockhash

  /** The block of number `n` below a block executing on top of `parent`, or the zero hash if there is none. */
  ghost function RealHash(t: Tree, parent: Hash, n: nat): Hash
    requires Rooted(t) && parent in t.details
  {
    if n <= t.details[parent].number then Path(t, parent)[n] else ZERO_HASH
  }

  /** The paths of two blocks agree at a height exactly below their fork. */
  lemma PathsAgreeIff(t: Tree, a: Hash, b: Hash, n: nat)
    requires Rooted(t) && a in t.details && b in t.details && n <= t.details[a].number && n <= t.details[b].number
    ensures Path(t, a)[n] == Path(t, b)[n] <==> n < Fork(t, a, b)
  {
    ForkShared(t, a, b);
    PrefixAgrees(Path(t, a), Path(t, b), Fork(t, a, b));
    if Path(t, a)[n] == Path(t, b)[n] {
      PathsMeet(t, a, b, n);
    }
  }

  /** A traced entry is the reader's own block of that height exactly when its source forks off above it. */
  lemma EntryRightIff(t: Tree, hashes: map<nat, Hash>, bests: seq<Hash>, parent: Hash, n: nat)
    requires Rooted(t) && parent in t.details && n <= t.details[parent].number && ZERO_HASH !in t.details
    requires EntryTraced(t, hashes, bests, n)
    ensures (if n in hashes then hashes[n] else ZERO_HASH) == Path(t, parent)[n] <==>
            Latest(t, bests, n).Some? && n < Fork(t, Latest(t, bests, n).value, parent)
  {
    var source := Latest(t, bests, n);
    PathPrefix(t, parent, n);
    if source.Some? {
      PathsAgreeIff(t, source.value, parent, n);
    }
  }

  /**
   * `blockhash(n)` is the real hash for a block executing on top of `parent` exactly in these cases. Up to
   * the parent: inside the window, or if the latest best block at least `n` high forks off above `n`.
   * Beyond the parent: if no best block so far was as high as the low 64 bits of `n`.
   */
  lemma BlockHashRightIff(c: Chain, bests: seq<Hash>, parent: Hash, n: nat)
    requires Valid(c) && Traced(c.tree, c.best.hash, c.hashes, bests)
    requires parent in c.tree.details && c.tree.details[parent].number + 1 < U64
    ensures var number := c.tree.details[parent].number;
            BlockHash(number + 1, Ancestry(c.tree, parent, WINDOW), c.hashes, n) == RealHash(c.tree, parent, n) <==>
            if n > number then Latest(c.tree, bests, Low64(n)).None?
            else
              || InWindow(number + 1, n)
              || (Latest(c.tree, bests, n).Some? && n < Fork(c.tree, Latest(c.tree, bests, n).value, parent))
  {
    var t, number := c.tree, c.tree.details[parent].number;
    ZeroUnknown(c);
    if n > number {
      assert EntryTraced(t, c.hashes, bests, Low64(n));
      SourceKnown(t, c.hashes, bests, Low64(n));
    } else if InWindow(number + 1, n) {
      BlockHashInWindow(t, parent, c.hashes, n);
    } else {
      WindowIs(number + 1, n);
      assert EntryTraced(t, c.hashes, bests, n);
      EntryRightIff(t, c.hashes, bests, parent, n);
    }
  }

  /** The same over every run from the genesis block. */
  lemma RunBlockHashRightIff(genesis: Block, bs: seq<Block>, parent: Hash, n: nat) returns (c: Chain, bests: seq<Hash>)
    requires ValidGenesis(genesis) && ImportableRun(InitialChain(genesis), bs)
    ensures c == Run(InitialChain(genesis), bs) && Valid(c)
            && bests == [genesis.hash] + Bests(InitialChain(genesis), bs)
    ensures parent in c.tree.details && c.tree.details[parent].number + 1 < U64 ==>
              var number := c.tree.details[parent].number;
              BlockHash(number + 1, Ancestry(c.tree, parent, WINDOW), c.hashes, n) == RealHash(c.tree, parent, n) <==>
              if n > number then Latest(c.tree, bests, Low64(n)).None?
              else
                || InWindow(number + 1, n)
                || (Latest(c.tree, bests, n).Some? && n < Fork(c.tree, Latest(c.tree, bests, n).value, parent))
  {
    InitialTraced(genesis);
    c := RunTraced(InitialChain(genesis), bs, [genesis.hash]);
    bests := [genesis.hash] + Bests(InitialChain(genesis), bs);
    if parent in c.tree.details && c.tree.details[parent].number + 1 < U64 {
      BlockHashRightIff(c, bests, parent, n);
    }
  }

  lemma ZeroUnknown(c: Chain)
    requires Valid(c)
    ensures ZERO_HASH !in c.tree.details
  {
    assert DetailsOf(c.tree, c.blocks, c.tree.genesis);
  }

  lemma SourceKnown(t: Tree, hashes: map<nat, Hash>, bests: seq<Hash>, n: nat)
    requires Rooted(t) && EntryTraced(t, hashes, bests, n)
    ensures n in hashes ==> hashes[n] in t.details
    ensures n in hashes <==> Latest(t, bests, n).Some?
  {
    var source := Latest(t, bests, n);
    if source.Some? {
      PathPrefix(t, source.value, n);
    }
  }

  // ---------------------------------------------------------------------------------------------
  // An example of every length

  /** Block `k` of a chain of blocks of difficulty one. */
  function Plain(k: nat): Block {
    Block(Hash(k + 1), Hash(k), k, 1, [])
  }

  ghost predicate IdsUpTo(blocks: map<Hash, Block>, n: nat) {
    forall h :: h in blocks ==> h.id <= n
  }

  /** A valid chain whose best block is plain block `k`, and in which no later hash is taken. */
  ghost predicate IsPlain(c: Chain, k: nat) {
    && Valid(c) && c.best == BestBlock(Hash(k + 1), k, k + 1) && IdsUpTo(c.blocks, k + 1)
    && c.tree.genesis == Hash(1) && c.tree.details[Hash(1)].totalDifficulty == 1
  }

  lemma PlainStarts()
    ensures IsPlain(InitialChain(Plain(0)), 0)
  {
    InitialValid(Plain(0));
  }

  lemma PlainFits(c: Chain, k: nat)
    requires IsPlain(c, k)
    ensures Importable(c, Plain(k + 1)) && Plain(k + 1).hash !in c.blocks && Plain(k + 1).parent == c.best.hash
  {
  }

  lemma PlainGrows(c: Chain, k: nat)
    requires IsPlain(c, k)
    ensures Importable(c, Plain(k + 1)) && IsPlain(Round(c, Plain(k + 1)), k + 1)
  {
    PlainFits(c, k);
    NumberIndex.ExtendTip(c, Plain(k + 1));
    PlainAgain(c, Round(c, Plain(k + 1)), k);
  }

  lemma PlainAgain(c: Chain, c': Chain, k: nat)
    requires IsPlain(c, k) && Valid(c') && Grown(c.tree, c'.tree) && c'.best == BestBlock(Hash(k + 2), k + 1, k + 2)
    requires c'.blocks == c.blocks[Hash(k + 2) := Plain(k + 1)]
    ensures IsPlain(c', k + 1)
  {
  }

  /** Any number of plain blocks can be imported one after the other. */
  lemma {:induction false} PlainRun(c: Chain, k: nat, end: nat) returns (bs: seq<Block>, last: Chain)
    requires IsPlain(c, k) && k <= end
    ensures ImportableRun(c, bs) && last == Run(c, bs) && IsPlain(last, end)
    decreases end - k
  {
    if k == end {
      bs, last := [], c;
    } else {
      var b := Plain(k + 1);
      PlainGrows(c, k);
      bs, last := PlainRun(Round(c, b), k + 1, end);
      RunCons(c, b, bs);
      bs := [b] + bs;
    }
  }

  /** A block of height one that outweighs the whole plain chain. */
  function Heavy(k: nat): Block {
    Block(Hash(k + 2), Hash(1), 1, k + 1, [])
  }

  /** After the heavy block, number 1 names it, while the numbers above it still name the plain blocks. */
  lemma HeavyOnTop(c: Chain, k: nat)
    requires IsPlain(c, k) && k > 1
    ensures Importable(c, Heavy(k)) && Heavy(k).hash !in c.blocks
    ensures var c' := Round(c, Heavy(k));
            && Valid(c') && c'.best.hash == Heavy(k).hash && Grown(c.tree, c'.tree)
            && 1 in c'.hashes && c'.hashes[1] == Heavy(k).hash
            && 2 in c'.hashes && c'.hashes[2] == Path(c.tree, c.best.hash)[2]
  {
    var b := Heavy(k);
    RoundValid(c, b);
    RoundTree(c, b);
    HeavierRound(c, b);
    assert CanonicalPath(Round(c, b))[1] == b.hash;
    assert 2 in c.hashes && c.hashes[2] == CanonicalPath(c)[2];
    NumberIndex.StaysNumbered(c.tree, c.best.hash, b, c.hashes, 2);
  }

  /**
   * A run from the genesis block of any length above the window: `k` plain blocks, then the heavy one. A
   * reader on the plain tip, which is no longer canonical, asks for two numbers below its window, both
   * above its fork with the canonical chain. Number 1 is answered wrong and number 2, a stale entry, right.
   */
  lemma BlockHashExample(k: nat) returns (bs: seq<Block>, c: Chain)
    requires WINDOW + 2 <= k < U64 - 1
    ensures ImportableRun(InitialChain(Plain(0)), bs) && c == Run(InitialChain(Plain(0)), bs) && WellFormed(c)
            && Importable(c, Heavy(k))
    ensures var c' := Round(c, Heavy(k)); var tip := Hash(k + 1);
            && Valid(c') && c'.best.hash == Heavy(k).hash && tip in c'.tree.details && c'.tree.details[tip].number == k
            && BlockHash(k + 1, Ancestry(c'.tree, tip, WINDOW), c'.hashes, 1) != RealHash(c'.tree, tip, 1)
            && BlockHash(k + 1, Ancestry(c'.tree, tip, WINDOW), c'.hashes, 2) == RealHash(c'.tree, tip, 2)
  {
    PlainStarts();
    bs, c := PlainRun(InitialChain(Plain(0)), 0, k);
    BlockHashOnTop(c, k);
  }

  lemma BlockHashOnTop(c: Chain, k: nat)
    requires IsPlain(c, k) && WINDOW + 2 <= k < U64 - 1
    ensures Importable(c, Heavy(k))
    ensures var c' := Round(c, Heavy(k)); var tip := Hash(k + 1);
            && Valid(c') && c'.best.hash == Heavy(k).hash && tip in c'.tree.details && c'.tree.details[tip].number == k
            && BlockHash(k + 1, Ancestry(c'.tree, tip, WINDOW), c'.hashes, 1) != RealHash(c'.tree, tip, 1)
            && BlockHash(k + 1, Ancestry(c'.tree, tip, WINDOW), c'.hashes, 2) == RealHash(c'.tree, tip, 2)
  {
    HeavyOnTop(c, k);
    var c' := Round(c, Heavy(k));
    WindowIs(k + 1, 1);
    WindowIs(k + 1, 2);
    PathFrame(c.tree, c'.tree, c.best.hash);
    PathPrefix(c.tree, c.best.hash, 1);
  }
}
