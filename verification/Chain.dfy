/**
 * The canonical chain kept over the block tree: what one insert-and-commit round does to the block
 * details, the best block and the number index (core/src/blockchain/blockchain.rs).
 */
module Chain {
  import opened Basics
  import opened BlockTree

  datatype BestBlock = BestBlock(hash: Hash, number: nat, totalDifficulty: nat)

  datatype BlockLocation =
    | CanonChain
    | Branch
    | BranchBecomingCanonChain(ancestor: Hash, enacted: seq<Hash>, retracted: seq<Hash>)

  datatype ImportRoute = ImportRoute(retracted: seq<Hash>, enacted: seq<Hash>, omitted: seq<Hash>)

  /** The published columns: details, best, number -> hash, and the headers and bodies. */
  datatype Chain = Chain(tree: Tree, best: BestBlock, hashes: map<nat, Hash>, blocks: map<Hash, Block>)

  predicate ValidGenesis(genesis: Block) {
    genesis.number == 0 && genesis.parent == ZERO_HASH && genesis.hash != ZERO_HASH && genesis.txs == []
  }

  /** `BlockChain::new` on an empty database. */
  function InitialChain(genesis: Block): Chain {
    Chain(
      Tree(genesis.hash, map[genesis.hash := BlockDetails(genesis.number, genesis.difficulty, genesis.parent, [])]),
      BestBlock(genesis.hash, genesis.number, genesis.difficulty),
      map[genesis.number := genesis.hash],
      map[genesis.hash := genesis])
  }

  /**
   * What `insert_block` demands of its caller: the parent is known (it panics otherwise), the number
   * follows the parent's, and a hash stands for one block only.
   */
  ghost predicate Importable(c: Chain, b: Block) {
    && b.parent in c.tree.details
    && b.number == c.tree.details[b.parent].number + 1
    && b.hash != ZERO_HASH
    && (b.hash in c.blocks ==> c.blocks[b.hash] == b)
  }

  predicate IsKnownChild(t: Tree, b: Block) {
    b.parent in t.details && b.hash in t.details[b.parent].children
  }

  function NewDifficulty(t: Tree, b: Block): nat
    requires b.parent in t.details
  {
    t.details[b.parent].totalDifficulty + b.difficulty
  }

  /** `block_info`: where the new block lands. */
  ghost function Location(t: Tree, best: BestBlock, b: Block): BlockLocation
    requires Rooted(t) && best.hash in t.details && b.parent in t.details
  {
    if NewDifficulty(t, b) > best.totalDifficulty then HeavierLocation(Route(t, best.hash, b.parent)) else Branch
  }

  /** Where a heavier block lands, given the route from the best block to its parent. */
  function HeavierLocation(route: TreeRoute): BlockLocation {
    if route.blocks == [] then CanonChain
    else if route.index <= |route.blocks| then
      BranchBecomingCanonChain(route.ancestor, route.blocks[route.index..], route.blocks[..route.index])
    else BranchBecomingCanonChain(route.ancestor, [], route.blocks)
  }

  /** `ImportRoute::from`. */
  function ImportRouteOf(hash: Hash, location: BlockLocation): ImportRoute {
    match location
    case CanonChain => ImportRoute([], [hash], [])
    case Branch => ImportRoute([], [], [hash])
    case BranchBecomingCanonChain(_, enacted, retracted) => ImportRoute(retracted, enacted + [hash], [])
  }

  /** Consecutive numbers, from `start` on, for the given hashes. */
  function Numbered(start: nat, hs: seq<Hash>): map<nat, Hash> {
    if hs == [] then map[]
    else
      var n := |hs| - 1;
      Numbered(start, hs[..n])[start + n := hs[n]]
  }

  lemma {:induction false} NumberedAt(start: nat, hs: seq<Hash>, n: nat)
    ensures n in Numbered(start, hs) <==> start <= n < start + |hs|
    ensures start <= n < start + |hs| ==> Numbered(start, hs)[n] == hs[n - start]
    decreases |hs|
  {
    if hs != [] {
      NumberedAt(start, hs[..|hs| - 1], n);
    }
  }

  /** `prepare_block_hashes_update`. */
  function HashesUpdate(t: Tree, b: Block, location: BlockLocation): map<nat, Hash>
    requires location.BranchBecomingCanonChain? ==> location.ancestor in t.details
  {
    match location
    case Branch => map[]
    case CanonChain => map[b.number := b.hash]
    case BranchBecomingCanonChain(ancestor, enacted, _) =>
      Numbered(t.details[ancestor].number + 1, enacted)[b.number := b.hash]
  }

  /** What a round relies on. */
  ghost predicate Standing(c: Chain) {
    Rooted(c.tree) && c.best.hash in c.tree.details
  }

  /** No header or body is missing. */
  ghost predicate WellFormed(c: Chain) {
    Standing(c) && c.blocks.Keys == c.tree.details.Keys
  }

  /** The route blocks are all stored. */
  lemma RouteKnown(t: Tree, from: Hash, to: Hash)
    requires Rooted(t) && from in t.details && to in t.details
    ensures Route(t, from, to).ancestor in t.details
    ensures Route(t, from, to).index <= |Route(t, from, to).blocks|
    ensures forall h :: h in Route(t, from, to).blocks ==> h in t.details
  {
    PathsShareGenesis(t, from, to);
    PathKnown(t, from);
    PathKnown(t, to);
    RouteOnKnown(Path(t, from), Path(t, to), t.details.Keys);
  }

  lemma RouteOnKnown(p: seq<Hash>, q: seq<Hash>, known: set<Hash>)
    requires 0 < CommonPrefix(p, q)
    requires (forall h :: h in p ==> h in known) && (forall h :: h in q ==> h in known)
    ensures RouteOn(p, q).ancestor in known && RouteOn(p, q).index <= |RouteOn(p, q).blocks|
    ensures forall h :: h in RouteOn(p, q).blocks ==> h in known
  {
    var k := CommonPrefix(p, q);
    ReversedSame(p[k..]);
    forall h | h in RouteOn(p, q).blocks
      ensures h in known
    {
      assert h in p[k..] || h in q[k..];
    }
  }

  /** One round: `insert_block`, the database write, `commit`. A known block changes nothing. */
  ghost function Round(c: Chain, b: Block): Chain
    requires Standing(c) && Importable(c, b)
  {
    if IsKnownChild(c.tree, b) then c
    else
      var location := Location(c.tree, c.best, b);
      RouteKnown(c.tree, c.best.hash, b.parent);
      Chain(
        Grow(c.tree, b),
        if location.Branch? then c.best else BestBlock(b.hash, b.number, NewDifficulty(c.tree, b)),
        c.hashes + HashesUpdate(c.tree, b, location),
        c.blocks[b.hash := b])
  }

  /** The import route the round reports. */
  ghost function RoundRoute(c: Chain, b: Block): ImportRoute
    requires Standing(c) && Importable(c, b)
  {
    if IsKnownChild(c.tree, b) then ImportRoute([], [], [])
    else ImportRouteOf(b.hash, Location(c.tree, c.best, b))
  }

  // ---------------------------------------------------------------------------------------------
  // The invariant of every reachable chain

  /** The details of `h` agree with its header, and its difficulty adds to its parent's total. */
  ghost predicate DetailsOf(t: Tree, blocks: map<Hash, Block>, h: Hash)
    requires h in t.details && h in blocks
  {
    && blocks[h].hash == h
    && t.details[h].number == blocks[h].number
    && t.details[h].parent == blocks[h].parent
    && (h != t.genesis ==>
          && t.details[h].parent in t.details
          && t.details[h].totalDifficulty == t.details[t.details[h].parent].totalDifficulty + blocks[h].difficulty)
    && (h == t.genesis ==> t.details[h].parent == ZERO_HASH && t.details[h].totalDifficulty == blocks[h].difficulty)
  }

  ghost predicate DetailsMatch(t: Tree, blocks: map<Hash, Block>)
    requires blocks.Keys == t.details.Keys
  {
    forall h :: h in blocks ==> DetailsOf(t, blocks, h)
  }

  ghost predicate BestMatches(t: Tree, best: BestBlock) {
    && best.hash in t.details
    && best.number == t.details[best.hash].number
    && best.totalDifficulty == t.details[best.hash].totalDifficulty
  }

  /** The number index holds the path `p`; entries above it may be stale but still name blocks of that height. */
  ghost predicate NumbersMatch(t: Tree, p: seq<Hash>, hashes: map<nat, Hash>) {
    && (forall n {:trigger n in hashes} {:trigger p[n]} :: 0 <= n < |p| ==> n in hashes && hashes[n] == p[n])
    && (forall n :: n in hashes ==> hashes[n] in t.details && t.details[hashes[n]].number == n)
  }

  /** The blocks from the genesis to the best one. */
  ghost function CanonicalPath(c: Chain): seq<Hash>
    requires Standing(c)
  {
    Path(c.tree, c.best.hash)
  }

  ghost predicate Canonical(c: Chain, h: Hash)
    requires Standing(c)
  {
    h in CanonicalPath(c)
  }

  ghost predicate Valid(c: Chain) {
    && WellFormed(c)
    && DetailsMatch(c.tree, c.blocks)
    && ChildrenMatch(c.tree)
    && BestMatches(c.tree, c.best)
    && NumbersMatch(c.tree, CanonicalPath(c), c.hashes)
  }
}
