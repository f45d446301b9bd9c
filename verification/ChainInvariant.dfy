/**
 * What every round keeps, and hence what holds of every chain reachable from a genesis block: the
 * block tree, the total difficulties, the best block and the number index.
 */
module ChainInvariant {
  import opened Basics
  import opened BlockTree
  import opened Chain

  /** `is_known_child` recognises exactly the stored blocks; any other importable block is fresh. */
  lemma KnownIffChild(c: Chain, b: Block)
    requires Valid(c) && Importable(c, b)
    ensures IsKnownChild(c.tree, b) <==> b.hash in c.blocks
    ensures b.hash !in c.blocks ==> Fresh(c.tree, b)
  {
    assert ChildrenOf(c.tree, b.parent);
    assert b.hash in c.tree.details[b.parent].children <==> ChildOf(c.tree, b.hash, b.parent);
    assert DetailsOf(c.tree, c.blocks, c.tree.genesis);
    if b.hash in c.blocks {
      assert DetailsOf(c.tree, c.blocks, b.hash);
    }
  }

  /** Height of the last block shared by the paths of two blocks, plus one. */
  ghost function Fork(t: Tree, a: Hash, b: Hash): (k: nat)
    requires Rooted(t) && a in t.details && b in t.details
    ensures 0 < k <= |Path(t, a)| && k <= |Path(t, b)|
  {
    PathsShareGenesis(t, a, b);
    CommonPrefix(Path(t, a), Path(t, b))
  }

  /** The blocks of the path of `a` above its fork with `b`, oldest first. */
  ghost function Leg(t: Tree, a: Hash, b: Hash): (s: seq<Hash>)
    requires Rooted(t) && a in t.details && b in t.details
    ensures |s| == |Path(t, a)| - Fork(t, a, b)
  {
    Path(t, a)[Fork(t, a, b)..]
  }

  lemma ForkShared(t: Tree, a: Hash, b: Hash)
    requires Rooted(t) && a in t.details && b in t.details
    ensures Fork(t, a, b) == Fork(t, b, a)
    ensures Path(t, a)[..Fork(t, a, b)] == Path(t, b)[..Fork(t, a, b)]
  {
    CommonPrefixIsLongest(Path(t, a), Path(t, b));
    CommonPrefixUnique(Path(t, b), Path(t, a), Fork(t, a, b));
  }

  lemma LegKnown(t: Tree, a: Hash, b: Hash)
    requires Rooted(t) && a in t.details && b in t.details
    ensures forall x :: x in Leg(t, a, b) ==> x in t.details
  {
    PathKnown(t, a);
  }

  /** The paths of two blocks, cut at their fork. */
  lemma PathsCut(t: Tree, a: Hash, b: Hash)
    requires Rooted(t) && a in t.details && b in t.details
    ensures var common := Path(t, a)[..Fork(t, a, b)];
            && Path(t, a) == common + Leg(t, a, b) && Path(t, b) == common + Leg(t, b, a)
            && (forall h :: h in common ==> h !in Leg(t, a, b))
            && (forall h :: h in common ==> h !in Leg(t, b, a))
  {
    ForkShared(t, a, b);
    PathNoDuplicates(t, a);
    PathNoDuplicates(t, b);
    CutApart(Path(t, a), Fork(t, a, b));
    CutApart(Path(t, b), Fork(t, a, b));
  }

  /** The two legs of a fork have no block in common. */
  lemma LegsApart(t: Tree, a: Hash, b: Hash)
    requires Rooted(t) && a in t.details && b in t.details
    ensures forall h :: h in Leg(t, a, b) ==> h !in Path(t, b)
  {
    forall h | h in Leg(t, a, b)
      ensures h !in Path(t, b)
    {
      var i := SuffixPosition(Path(t, a), Fork(t, a, b), h);
      AboveFork(t, a, b, i);
    }
  }

  /** A block above the fork is not on the other path. */
  lemma AboveFork(t: Tree, a: Hash, b: Hash, i: nat)
    requires Rooted(t) && a in t.details && b in t.details && Fork(t, a, b) <= i <= t.details[a].number
    ensures Path(t, a)[i] !in Path(t, b)
  {
    var h := Path(t, a)[i];
    PathPrefix(t, a, i);
    PathPosition(t, b, h);
    if h in Path(t, b) {
      PathsMeet(t, a, b, i);
    }
  }

  /** A route goes down one leg and up the other; it is empty exactly between a block and itself. */
  lemma RouteLegs(t: Tree, from: Hash, to: Hash)
    requires Rooted(t) && from in t.details && to in t.details
    ensures var r := Route(t, from, to);
            && r.index <= |r.blocks|
            && r.blocks[..r.index] == Reversed(Leg(t, from, to)) && r.blocks[r.index..] == Leg(t, to, from)
            && r.ancestor in t.details && t.details[r.ancestor].number == Fork(t, from, to) - 1
            && (r.blocks == [] <==> from == to)
    ensures from == to ==> Leg(t, from, to) == []
  {
    var p, q, k, r := Path(t, from), Path(t, to), Fork(t, from, to), Route(t, from, to);
    ForkShared(t, from, to);
    PathPrefix(t, from, k - 1);
    assert |Reversed(p[k..])| == |p| - k;
    assert r.blocks[..r.index] == Reversed(p[k..]);
    assert r.blocks[r.index..] == q[k..];
    if r.blocks == [] {
      assert p[|p| - 1] == p[..k][|p| - 1] == q[..k][|q| - 1] == q[|q| - 1];
    }
    if from == to {
      CommonPrefixUnique(p, q, |p|);
    }
  }

  /**
   * A heavier block replaces the canonical blocks above the fork by its own ancestors and itself:
   * what is retracted, what is enacted.
   */
  lemma NewBestRoute(t: Tree, best: BestBlock, b: Block)
    requires Rooted(t) && best.hash in t.details && Fresh(t, b) && NewDifficulty(t, b) > best.totalDifficulty
    ensures var l := Location(t, best, b);
            && ImportRouteOf(b.hash, l) ==
               ImportRoute(Reversed(Leg(t, best.hash, b.parent)), Leg(t, b.parent, best.hash) + [b.hash], [])
            && l == (if best.hash == b.parent then CanonChain
                     else BranchBecomingCanonChain(
                       Route(t, best.hash, b.parent).ancestor, Leg(t, b.parent, best.hash),
                       Reversed(Leg(t, best.hash, b.parent))))
  {
    RouteLegs(t, best.hash, b.parent);
    HeavierRoute(Route(t, best.hash, b.parent), b.hash);
    if best.hash == b.parent {
      assert Leg(t, b.parent, best.hash) + [b.hash] == [b.hash];
    }
  }

  lemma HeavierRoute(r: TreeRoute, hash: Hash)
    requires r.index <= |r.blocks|
    ensures var l := HeavierLocation(r); var enacted, retracted := r.blocks[r.index..], r.blocks[..r.index];
            && ImportRouteOf(hash, l) == ImportRoute(retracted, enacted + [hash], [])
            && l == if r.blocks == [] then CanonChain else BranchBecomingCanonChain(r.ancestor, enacted, retracted)
  {
    if r.blocks == [] {
      assert r.blocks[r.index..] + [hash] == [hash];
    }
  }

  /** The number index after the reorganisation. */
  ghost function Renumbered(t: Tree, best: Hash, b: Block, hashes: map<nat, Hash>): map<nat, Hash>
    requires Rooted(t) && best in t.details && b.parent in t.details
  {
    hashes + Numbered(Fork(t, best, b.parent), Leg(t, b.parent, best))[b.number := b.hash]
  }

  lemma NewBestHashes(t: Tree, best: BestBlock, b: Block)
    requires Rooted(t) && best.hash in t.details && Fresh(t, b) && NewDifficulty(t, b) > best.totalDifficulty
    requires Location(t, best, b).BranchBecomingCanonChain? ==> Location(t, best, b).ancestor in t.details
    ensures HashesUpdate(t, b, Location(t, best, b)) ==
            Numbered(Fork(t, best.hash, b.parent), Leg(t, b.parent, best.hash))[b.number := b.hash]
  {
    RouteLegs(t, best.hash, b.parent);
    HeavierNumbers(t, Route(t, best.hash, b.parent), b, Fork(t, best.hash, b.parent));
  }

  lemma NewBestIndex(t: Tree, best: BestBlock, b: Block, hashes: map<nat, Hash>)
    requires Rooted(t) && best.hash in t.details && Fresh(t, b) && NewDifficulty(t, b) > best.totalDifficulty
    requires Location(t, best, b).BranchBecomingCanonChain? ==> Location(t, best, b).ancestor in t.details
    ensures hashes + HashesUpdate(t, b, Location(t, best, b)) == Renumbered(t, best.hash, b, hashes)
  {
    NewBestHashes(t, best, b);
  }

  lemma HeavierNumbers(t: Tree, r: TreeRoute, b: Block, k: nat)
    requires r.index <= |r.blocks| && r.ancestor in t.details && t.details[r.ancestor].number + 1 == k
    ensures HashesUpdate(t, b, HeavierLocation(r)) == Numbered(k, r.blocks[r.index..])[b.number := b.hash]
  {
    if r.blocks == [] {
      assert Numbered(k, r.blocks[r.index..]) == map[];
    }
  }

  /** Rewriting the entries of an indexed path above a common prefix indexes the other path. */
  lemma RenumberPath(t: Tree, p: seq<Hash>, q: seq<Hash>, k: nat, x: Hash, hashes: map<nat, Hash>)
    requires k <= |p| && k <= |q| && p[..k] == q[..k]
    requires NumbersMatch(t, p, hashes)
    requires forall i :: 0 <= i < |q| ==> q[i] in t.details && t.details[q[i]].number == i
    requires x in t.details && t.details[x].number == |q|
    ensures NumbersMatch(t, q + [x], hashes + Numbered(k, q[k..])[|q| := x])
  {
    var u := Numbered(k, q[k..]);
    var hashes' := hashes + u[|q| := x];
    forall n: nat | n < |q + [x]|
      ensures n in hashes' && hashes'[n] == (q + [x])[n]
    {
      NumberedAt(k, q[k..], n);
      if n < k {
        assert p[n] == p[..k][n] == q[..k][n] == q[n];
      }
    }
    forall n | n in hashes'
      ensures hashes'[n] in t.details && t.details[hashes'[n]].number == n
    {
      NumberedAt(k, q[k..], n);
      if n < |q| {
        assert hashes'[n] == (q + [x])[n] == q[n];
      }
    }
  }

  /** Rewriting the numbers above the fork turns the index of the old path into that of the new one. */
  lemma NewBestNumbers(t: Tree, best: Hash, b: Block, hashes: map<nat, Hash>)
    requires Rooted(t) && best in t.details && Fresh(t, b)
    requires NumbersMatch(t, Path(t, best), hashes)
    ensures NumbersMatch(Grow(t, b), Path(t, b.parent) + [b.hash], Renumbered(t, best, b, hashes))
  {
    var p, q, k := Path(t, best), Path(t, b.parent), Fork(t, best, b.parent);
    GrowRooted(t, b);
    ForkShared(t, best, b.parent);
    forall i | 0 <= i < |q|
      ensures q[i] in Grow(t, b).details && Grow(t, b).details[q[i]].number == i
    {
      PathPrefix(t, b.parent, i);
    }
    RenumberPath(Grow(t, b), p, q, k, b.hash, hashes);
  }

  lemma GrowDetails(t: Tree, blocks: map<Hash, Block>, b: Block)
    requires Rooted(t) && Fresh(t, b) && blocks.Keys == t.details.Keys && DetailsMatch(t, blocks)
    ensures blocks[b.hash := b].Keys == Grow(t, b).details.Keys
    ensures DetailsMatch(Grow(t, b), blocks[b.hash := b])
  {
    GrowRooted(t, b);
    var t', blocks' := Grow(t, b), blocks[b.hash := b];
    forall h | h in blocks'
      ensures DetailsOf(t', blocks', h)
    {
      if h != b.hash {
        assert DetailsOf(t, blocks, h);
      }
    }
  }

  /** A new block hangs into the tree whatever its weight. */
  lemma RoundTree(c: Chain, b: Block)
    requires Valid(c) && Importable(c, b) && b.hash !in c.blocks
    ensures !IsKnownChild(c.tree, b) && Fresh(c.tree, b)
    ensures var c' := Round(c, b);
            && WellFormed(c') && c'.tree == Grow(c.tree, b) && c'.blocks == c.blocks[b.hash := b]
            && Grown(c.tree, c'.tree) && c'.tree.details.Keys == c.tree.details.Keys + {b.hash}
  {
    KnownIffChild(c, b);
    GrowRooted(c.tree, b);
  }

  /** A heavier block becomes the best one; its path becomes canonical. */
  lemma HeavierRound(c: Chain, b: Block)
    requires Valid(c) && Importable(c, b) && b.hash !in c.blocks && NewDifficulty(c.tree, b) > c.best.totalDifficulty
    ensures var c' := Round(c, b);
            && WellFormed(c')
            && c'.best == BestBlock(b.hash, b.number, NewDifficulty(c.tree, b))
            && CanonicalPath(c') == Path(c.tree, b.parent) + [b.hash]
            && c'.hashes == Renumbered(c.tree, c.best.hash, b, c.hashes)
            && RoundRoute(c, b) == ImportRoute(
                 Reversed(Leg(c.tree, c.best.hash, b.parent)), Leg(c.tree, b.parent, c.best.hash) + [b.hash], [])
  {
    RoundTree(c, b);
    NewBestRoute(c.tree, c.best, b);
    RouteKnown(c.tree, c.best.hash, b.parent);
    NewBestIndex(c.tree, c.best, b, c.hashes);
    GrowPath(c.tree, b);
  }

  /** Any other block leaves the canonical chain as it is. */
  lemma LighterRound(c: Chain, b: Block)
    requires Valid(c) && Importable(c, b) && b.hash !in c.blocks && NewDifficulty(c.tree, b) <= c.best.totalDifficulty
    ensures var c' := Round(c, b);
            && WellFormed(c')
            && c'.best == c.best && c'.hashes == c.hashes && CanonicalPath(c') == CanonicalPath(c)
            && RoundRoute(c, b) == ImportRoute([], [], [b.hash])
  {
    RoundTree(c, b);
    PathFrame(c.tree, Grow(c.tree, b), c.best.hash);
    assert c.hashes + map[] == c.hashes;
  }

  /** A round keeps the invariant. */
  lemma RoundValid(c: Chain, b: Block)
    requires Valid(c) && Importable(c, b)
    ensures Valid(Round(c, b))
  {
    KnownIffChild(c, b);
    if b.hash !in c.blocks {
      RoundTree(c, b);
      GrowChildren(c.tree, b);
      GrowDetails(c.tree, c.blocks, b);
      if NewDifficulty(c.tree, b) <= c.best.totalDifficulty {
        LighterRound(c, b);
      } else {
        HeavierRound(c, b);
        NewBestNumbers(c.tree, c.best.hash, b, c.hashes);
      }
    }
  }

  /** Re-inserting a known block, and only that, changes nothing; it reports an empty route. */
  lemma ReinsertChangesNothing(c: Chain, b: Block)
    requires Valid(c) && Importable(c, b)
    ensures b.hash in c.blocks <==> Round(c, b) == c
    ensures b.hash in c.blocks <==> RoundRoute(c, b) == ImportRoute([], [], [])
  {
    KnownIffChild(c, b);
    if b.hash !in c.blocks {
      RoundTree(c, b);
      assert b.hash in Round(c, b).blocks;
    }
  }

  // ---------------------------------------------------------------------------------------------
  // Whole runs

  ghost predicate ImportableRun(c: Chain, bs: seq<Block>)
    decreases |bs|
  {
    bs == [] || (Standing(c) && Importable(c, bs[0]) && ImportableRun(Round(c, bs[0]), bs[1..]))
  }

  ghost function Run(c: Chain, bs: seq<Block>): Chain
    requires ImportableRun(c, bs)
    decreases |bs|
  {
    if bs == [] then c else Run(Round(c, bs[0]), bs[1..])
  }

  lemma RunCons(c: Chain, b: Block, bs: seq<Block>)
    requires Standing(c) && Importable(c, b) && ImportableRun(Round(c, b), bs)
    ensures ImportableRun(c, [b] + bs) && Run(c, [b] + bs) == Run(Round(c, b), bs)
  {
    assert ([b] + bs)[1..] == bs;
  }

  ghost function Arrival(c: Chain, b: Block): seq<Hash> {
    if b.hash in c.blocks then [] else [b.hash]
  }

  /** The hashes of the blocks that were new when they arrived, in order of arrival. */
  ghost function Arrivals(c: Chain, bs: seq<Block>): seq<Hash>
    requires ImportableRun(c, bs)
    decreases |bs|
  {
    if bs == [] then [] else Arrival(c, bs[0]) + Arrivals(Round(c, bs[0]), bs[1..])
  }

  lemma InitialValid(genesis: Block)
    requires ValidGenesis(genesis)
    ensures Valid(InitialChain(genesis))
    ensures CanonicalPath(InitialChain(genesis)) == [genesis.hash]
  {
    var c := InitialChain(genesis);
    assert Rooted(c.tree);
    assert Path(c.tree, genesis.hash) == [genesis.hash];
    assert ChildrenOf(c.tree, genesis.hash);
    assert DetailsOf(c.tree, c.blocks, genesis.hash);
  }

  /** Every chain reachable from a valid one is valid. */
  lemma {:induction false} RunValid(c: Chain, bs: seq<Block>)
    requires Valid(c) && ImportableRun(c, bs)
    ensures Valid(Run(c, bs))
    decreases |bs|
  {
    if bs != [] {
      RoundValid(c, bs[0]);
      RunValid(Round(c, bs[0]), bs[1..]);
    }
  }

  ghost function SumDifficulty(blocks: map<Hash, Block>, p: seq<Hash>): nat
    requires forall h :: h in p ==> h in blocks
  {
    if p == [] then 0 else SumDifficulty(blocks, p[..|p| - 1]) + blocks[p[|p| - 1]].difficulty
  }

  /** The recorded total difficulty is the sum of the difficulties back to the genesis block. */
  lemma {:induction false} TotalDifficultyIsSum(c: Chain, h: Hash)
    requires Valid(c) && h in c.tree.details
    ensures forall x :: x in Path(c.tree, h) ==> x in c.blocks
    ensures c.tree.details[h].totalDifficulty == SumDifficulty(c.blocks, Path(c.tree, h))
    decreases c.tree.details[h].number
  {
    var p := Path(c.tree, h);
    forall x | x in p ensures x in c.blocks { PathPosition(c.tree, h, x); }
    assert DetailsOf(c.tree, c.blocks, h);
    if h == c.tree.genesis {
      assert p[..0] == [];
    } else {
      var q := Path(c.tree, c.tree.details[h].parent);
      TotalDifficultyIsSum(c, c.tree.details[h].parent);
      assert p == q + [h];
      assert p[..|p| - 1] == q;
    }
  }

  /** `x` is no heavier than the best block. */
  ghost predicate NoHeavier(t: Tree, best: Hash, x: Hash) {
    best in t.details && x in t.details && t.details[x].totalDifficulty <= t.details[best].totalDifficulty
  }

  ghost predicate Lighter(t: Tree, best: Hash, x: Hash) {
    best in t.details && x in t.details && t.details[x].totalDifficulty < t.details[best].totalDifficulty
  }

  /** Position `i` of the order of arrival is the first of those of greatest total difficulty. */
  ghost predicate FirstHeaviestAt(t: Tree, order: seq<Hash>, i: nat) {
    && i < |order|
    && (forall j :: 0 <= j < |order| ==> NoHeavier(t, order[i], order[j]))
    && (forall j :: 0 <= j < i ==> Lighter(t, order[i], order[j]))
  }

  /** `order` lists the known blocks, and `best` is the first arrival among the heaviest. */
  ghost predicate FirstHeaviest(t: Tree, best: Hash, order: seq<Hash>) {
    && (forall h :: h in t.details <==> h in order)
    && exists i: nat :: FirstHeaviestAt(t, order, i) && order[i] == best
  }

  lemma GrowFirstHeaviest(t: Tree, best: BestBlock, b: Block, order: seq<Hash>)
    requires Rooted(t) && Fresh(t, b) && BestMatches(t, best) && FirstHeaviest(t, best.hash, order)
    ensures FirstHeaviest(Grow(t, b), if NewDifficulty(t, b) > best.totalDifficulty then b.hash else best.hash,
                          order + [b.hash])
  {
    GrowRooted(t, b);
    var t', order' := Grow(t, b), order + [b.hash];
    var i: nat :| FirstHeaviestAt(t, order, i) && order[i] == best.hash;
    assert t'.details[b.hash].totalDifficulty == NewDifficulty(t, b);
    assert forall j :: 0 <= j < |order| ==> NoHeavier(t, order[i], order[j]);
    if NewDifficulty(t, b) > best.totalDifficulty {
      assert FirstHeaviestAt(t', order', |order|);
    } else {
      assert FirstHeaviestAt(t', order', i);
    }
  }

  lemma RoundFirstHeaviest(c: Chain, b: Block, order: seq<Hash>)
    requires Valid(c) && Importable(c, b) && FirstHeaviest(c.tree, c.best.hash, order)
    ensures FirstHeaviest(Round(c, b).tree, Round(c, b).best.hash, order + Arrival(c, b))
  {
    KnownIffChild(c, b);
    if b.hash in c.blocks {
      assert order + [] == order;
    } else {
      RoundTree(c, b);
      GrowFirstHeaviest(c.tree, c.best, b, order);
      if NewDifficulty(c.tree, b) > c.best.totalDifficulty {
        HeavierRound(c, b);
      } else {
        LighterRound(c, b);
      }
    }
  }

  /** Over any run, the best block is the first-inserted block of maximal total difficulty. */
  lemma {:induction false} BestIsFirstHeaviest(c: Chain, bs: seq<Block>, order: seq<Hash>) returns (last: Chain)
    requires Valid(c) && ImportableRun(c, bs) && FirstHeaviest(c.tree, c.best.hash, order)
    ensures last == Run(c, bs) && FirstHeaviest(last.tree, last.best.hash, order + Arrivals(c, bs))
    decreases |bs|
  {
    if bs == [] {
      last := c;
      assert order + [] == order;
    } else {
      var seen := order + Arrival(c, bs[0]);
      var c1 := NextFirstHeaviest(c, bs[0], order);
      last := BestIsFirstHeaviest(c1, bs[1..], seen);
      Associate(order, Arrival(c, bs[0]), Arrivals(c1, bs[1..]));
    }
  }

  lemma NextFirstHeaviest(c: Chain, b: Block, order: seq<Hash>) returns (c1: Chain)
    requires Valid(c) && Importable(c, b) && FirstHeaviest(c.tree, c.best.hash, order)
    ensures c1 == Round(c, b) && Valid(c1) && FirstHeaviest(c1.tree, c1.best.hash, order + Arrival(c, b))
  {
    RoundValid(c, b);
    RoundFirstHeaviest(c, b, order);
    c1 := Round(c, b);
  }
}
