/**
 * The transaction index: which block and position a transaction hash maps to, through
 * reorganisations (core/src/blockchain/blockchain.rs, `prepare_transaction_addresses_update` and
 * `commit`).
 */
module TransactionIndex {
  import opened Basics
  import opened BlockTree
  import opened Chain
  import opened ChainInvariant

  datatype TransactionAddress = TransactionAddress(block: Hash, index: nat)

  type Addresses = map<Hash, TransactionAddress>
  type Update = map<Hash, Option<TransactionAddress>>

  /** `x` is the transaction at `at`, in one of the blocks `hs`. */
  ghost predicate OccursAt(blocks: map<Hash, Block>, hs: seq<Hash>, x: Hash, at: TransactionAddress) {
    at.block in hs && at.block in blocks && at.index < |blocks[at.block].txs| && blocks[at.block].txs[at.index] == x
  }

  ghost predicate Occurs(blocks: map<Hash, Block>, hs: seq<Hash>, x: Hash) {
    exists at :: OccursAt(blocks, hs, x, at)
  }

  /** The addresses of the transactions of one block; a repeated hash keeps its last position. */
  function BlockAddresses(hash: Hash, txs: seq<Hash>): Update {
    if txs == [] then map[]
    else
      var n := |txs| - 1;
      BlockAddresses(hash, txs[..n])[txs[n] := Some(TransactionAddress(hash, n))]
  }

  lemma {:induction false} BlockAddressesAt(hash: Hash, txs: seq<Hash>, x: Hash)
    ensures var m := BlockAddresses(hash, txs);
            && (x in m <==> x in txs)
            && (x in m ==>
                m[x].Some? && m[x].value.block == hash && m[x].value.index < |txs| && txs[m[x].value.index] == x)
  {
    if txs != [] {
      var n := |txs| - 1;
      assert txs == txs[..n] + [txs[n]];
      BlockAddressesAt(hash, txs[..n], x);
    }
  }

  /** Addresses of the transactions of several stored blocks; later blocks win. */
  function EnactedAddresses(blocks: map<Hash, Block>, hs: seq<Hash>): Update
    requires forall h :: h in hs ==> h in blocks
  {
    if hs == [] then map[]
    else
      var n := |hs| - 1;
      EnactedAddresses(blocks, hs[..n]) + BlockAddresses(hs[n], blocks[hs[n]].txs)
  }

  lemma {:induction false} EnactedAddressesAt(blocks: map<Hash, Block>, hs: seq<Hash>, x: Hash)
    requires forall h :: h in hs ==> h in blocks
    ensures var m := EnactedAddresses(blocks, hs);
            && (x in m <==> Occurs(blocks, hs, x))
            && (x in m ==> m[x].Some? && OccursAt(blocks, hs, x, m[x].value))
  {
    if hs != [] {
      var n := |hs| - 1;
      assert hs == hs[..n] + [hs[n]];
      EnactedAddressesAt(blocks, hs[..n], x);
      BlockAddressesAt(hs[n], blocks[hs[n]].txs, x);
      OccursLast(blocks, hs, x);
    }
  }

  /** `x` occurs in the last of the blocks or in one before it. */
  lemma OccursLast(blocks: map<Hash, Block>, hs: seq<Hash>, x: Hash)
    requires hs != [] && forall h :: h in hs ==> h in blocks
    ensures Occurs(blocks, hs, x) <==> Occurs(blocks, hs[..|hs| - 1], x) || x in blocks[hs[|hs| - 1]].txs
  {
    var n := |hs| - 1;
    assert hs == hs[..n] + [hs[n]];
    if x in blocks[hs[n]].txs {
      var i :| 0 <= i < |blocks[hs[n]].txs| && blocks[hs[n]].txs[i] == x;
      assert OccursAt(blocks, hs, x, TransactionAddress(hs[n], i));
    } else if at :| OccursAt(blocks, hs, x, at) {
      assert OccursAt(blocks, hs[..n], x, at);
    } else if at :| OccursAt(blocks, hs[..n], x, at) {
      assert OccursAt(blocks, hs, x, at);
    }
  }

  /** A deletion for every transaction of several stored blocks. */
  function RetractedAddresses(blocks: map<Hash, Block>, hs: seq<Hash>): Update
    requires forall h :: h in hs ==> h in blocks
  {
    if hs == [] then map[]
    else
      var n := |hs| - 1;
      RetractedAddresses(blocks, hs[..n]) + map x | x in blocks[hs[n]].txs :: None
  }

  lemma {:induction false} RetractedAddressesAt(blocks: map<Hash, Block>, hs: seq<Hash>, x: Hash)
    requires forall h :: h in hs ==> h in blocks
    ensures var m := RetractedAddresses(blocks, hs);
            (x in m <==> Occurs(blocks, hs, x)) && (x in m ==> m[x].None?)
  {
    if hs != [] {
      RetractedAddressesAt(blocks, hs[..|hs| - 1], x);
      OccursLast(blocks, hs, x);
    }
  }

  /** The blocks a location names are stored. */
  ghost predicate LocationStored(blocks: map<Hash, Block>, location: BlockLocation) {
    location.BranchBecomingCanonChain? ==>
      forall h :: h in location.enacted || h in location.retracted ==> h in blocks
  }

  /** `prepare_transaction_addresses_update`: deletions first, so that re-enacted transactions survive. */
  function AddressesUpdate(blocks: map<Hash, Block>, b: Block, location: BlockLocation): Update
    requires LocationStored(blocks, location)
  {
    match location
    case Branch => map[]
    case CanonChain => BlockAddresses(b.hash, b.txs)
    case BranchBecomingCanonChain(_, enacted, retracted) =>
      RetractedAddresses(blocks, retracted) + EnactedAddresses(blocks, enacted) + BlockAddresses(b.hash, b.txs)
  }

  function Additions(update: Update): Addresses {
    map x | x in update && update[x].Some? :: update[x].value
  }

  function Removals(update: Update): set<Hash> {
    set x | x in update && update[x].None?
  }

  /** How `commit` applies the staged addresses: additions, then removals. */
  function ApplyAddresses(addresses: Addresses, update: Update): Addresses {
    addresses + Additions(update) - Removals(update)
  }

  lemma LocationIsStored(c: Chain, b: Block)
    requires WellFormed(c) && Importable(c, b)
    ensures LocationStored(c.blocks, Location(c.tree, c.best, b))
  {
    RouteKnown(c.tree, c.best.hash, b.parent);
  }

  /** The transaction index after the round. */
  ghost function RoundAddresses(c: Chain, addresses: Addresses, b: Block): Addresses
    requires WellFormed(c) && Importable(c, b)
  {
    if IsKnownChild(c.tree, b) then addresses
    else
      LocationIsStored(c, b);
      ApplyAddresses(addresses, AddressesUpdate(c.blocks, b, Location(c.tree, c.best, b)))
  }

  ghost predicate MapsTo(addresses: Addresses, x: Hash, at: TransactionAddress) {
    x in addresses && addresses[x] == at
  }

  /** The index maps a hash to a place exactly when that place, on the path, holds it. */
  ghost predicate Exact(blocks: map<Hash, Block>, path: seq<Hash>, addresses: Addresses) {
    forall x, at :: MapsTo(addresses, x, at) <==> OccursAt(blocks, path, x, at)
  }

  /** No transaction hash occurs twice on the path. */
  ghost predicate NoRepeats(blocks: map<Hash, Block>, path: seq<Hash>) {
    forall x, at, at' :: OccursAt(blocks, path, x, at) && OccursAt(blocks, path, x, at') ==> at == at'
  }

  /** A map can be exact only where nothing repeats. */
  lemma ExactHasNoRepeats(blocks: map<Hash, Block>, path: seq<Hash>, addresses: Addresses)
    requires Exact(blocks, path, addresses)
    ensures NoRepeats(blocks, path)
  {
  }

  /** The update of a reorganisation from the path `common + left` to `common + new + [b]`. */
  ghost function ReorgUpdate(blocks: map<Hash, Block>, left: seq<Hash>, entered: seq<Hash>, b: Block): Update
    requires forall h :: h in left || h in entered ==> h in blocks
  {
    ReversedSame(left);
    RetractedAddresses(blocks, Reversed(left)) + EnactedAddresses(blocks, entered) + BlockAddresses(b.hash, b.txs)
  }

  /** Splitting the places of a path. */
  lemma OccursAtSplit(blocks: map<Hash, Block>, hs: seq<Hash>, hs': seq<Hash>, x: Hash, at: TransactionAddress)
    ensures OccursAt(blocks, hs + hs', x, at) <==> OccursAt(blocks, hs, x, at) || OccursAt(blocks, hs', x, at)
    ensures OccursAt(blocks, Reversed(hs), x, at) <==> OccursAt(blocks, hs, x, at)
  {
    ReversedSame(hs);
  }

  /** The staged entry of `x`: set from the entering blocks if it occurs there, else deleted if it left. */
  lemma ReorgUpdateAt(blocks: map<Hash, Block>, left: seq<Hash>, entered: seq<Hash>, b: Block, x: Hash)
    requires forall h :: h in left || h in entered ==> h in blocks
    requires b.hash !in blocks
    ensures var u, blocks', entered' := ReorgUpdate(blocks, left, entered, b), blocks[b.hash := b], entered + [b.hash];
            if Occurs(blocks', entered', x) then x in u && u[x].Some? && OccursAt(blocks', entered', x, u[x].value)
            else if Occurs(blocks', left, x) then x in u && u[x].None?
            else x !in u
  {
    var u, blocks', entered' := ReorgUpdate(blocks, left, entered, b), blocks[b.hash := b], entered + [b.hash];
    forall at
      ensures OccursAt(blocks', entered', x, at) <==>
              OccursAt(blocks, entered, x, at) || OccursAt(blocks', [b.hash], x, at)
      ensures OccursAt(blocks, Reversed(left), x, at) <==> OccursAt(blocks', left, x, at)
    {
      OccursAtSplit(blocks', entered, [b.hash], x, at);
      OccursAtSplit(blocks, left, [], x, at);
    }
    ReversedSame(left);
    RetractedAddressesAt(blocks, Reversed(left), x);
    EnactedAddressesAt(blocks, entered, x);
    BlockAddressesAt(b.hash, b.txs, x);
    if x in b.txs {
      assert OccursAt(blocks', [b.hash], x, u[x].value);
    } else if Occurs(blocks, entered, x) {
      assert OccursAt(blocks, entered, x, u[x].value);
    }
  }

  /** What one reorganisation does to one entry. */
  lemma ReorgEntry(blocks: map<Hash, Block>, common: seq<Hash>, left: seq<Hash>, entered: seq<Hash>,
                   addresses: Addresses, u: Update, x: Hash, at: TransactionAddress)
    requires Exact(blocks, common + left, addresses) && NoRepeats(blocks, common + entered)
    requires forall h :: h in common ==> h !in left
    requires if Occurs(blocks, entered, x) then x in u && u[x].Some? && OccursAt(blocks, entered, x, u[x].value)
             else if Occurs(blocks, left, x) then x in u && u[x].None?
             else x !in u
    ensures var after := ApplyAddresses(addresses, u);
            MapsTo(after, x, at) <==> OccursAt(blocks, common + entered, x, at)
  {
    OccursAtSplit(blocks, common, entered, x, at);
    OccursAtSplit(blocks, common, left, x, at);
    if Occurs(blocks, entered, x) {
      OccursAtSplit(blocks, common, entered, x, u[x].value);
    } else if Occurs(blocks, left, x) {
      var q :| OccursAt(blocks, left, x, q);
      OccursAtSplit(blocks, common, left, x, q);
      assert MapsTo(addresses, x, q);
    } else {
      assert MapsTo(addresses, x, at) <==> OccursAt(blocks, common + left, x, at);
    }
  }

  /** A block not on the path does not change what occurs on it. */
  lemma ExactFrame(blocks: map<Hash, Block>, path: seq<Hash>, addresses: Addresses, b: Block)
    requires b.hash !in blocks && b.hash !in path
    ensures Exact(blocks, path, addresses) <==> Exact(blocks[b.hash := b], path, addresses)
  {
    var blocks' := blocks[b.hash := b];
    forall x, at
      ensures OccursAt(blocks, path, x, at) <==> OccursAt(blocks', path, x, at)
    {
    }
    assert Exact(blocks, path, addresses) ==> Exact(blocks', path, addresses);
    if Exact(blocks', path, addresses) {
      forall x, at
        ensures MapsTo(addresses, x, at) <==> OccursAt(blocks, path, x, at)
      {
        assert MapsTo(addresses, x, at) <==> OccursAt(blocks', path, x, at);
      }
    }
  }

  /** The update staged for a heavier block, given the route to its parent. */
  lemma RouteUpdate(blocks: map<Hash, Block>, r: TreeRoute, left: seq<Hash>, entered: seq<Hash>, b: Block)
    requires r.index <= |r.blocks| && r.blocks[..r.index] == Reversed(left) && r.blocks[r.index..] == entered
    requires forall h :: h in left || h in entered ==> h in blocks
    ensures LocationStored(blocks, HeavierLocation(r))
    ensures AddressesUpdate(blocks, b, HeavierLocation(r)) == ReorgUpdate(blocks, left, entered, b)
  {
    ReversedSame(left);
    if r.blocks == [] {
      assert left == [] && entered == [];
      NoReorgUpdate(blocks, b);
    }
  }

  lemma NoReorgUpdate(blocks: map<Hash, Block>, b: Block)
    ensures ReorgUpdate(blocks, [], [], b) == BlockAddresses(b.hash, b.txs)
  {
  }

  lemma LegsStored(t: Tree, a: Hash, b: Hash, blocks: map<Hash, Block>)
    requires Rooted(t) && a in t.details && b in t.details && blocks.Keys == t.details.Keys
    ensures forall h :: h in Leg(t, a, b) || h in Leg(t, b, a) ==> h in blocks
  {
    LegKnown(t, a, b);
    LegKnown(t, b, a);
  }

  /** The staged update of a heavier block is that of its reorganisation. */
  lemma HeavierUpdate(t: Tree, best: BestBlock, blocks: map<Hash, Block>, b: Block)
    requires Rooted(t) && best.hash in t.details && b.parent in t.details && blocks.Keys == t.details.Keys
    requires NewDifficulty(t, b) > best.totalDifficulty
    ensures LocationStored(blocks, Location(t, best, b))
    ensures var left, entered := Leg(t, best.hash, b.parent), Leg(t, b.parent, best.hash);
            && (forall h :: h in left || h in entered ==> h in blocks)
            && AddressesUpdate(blocks, b, Location(t, best, b)) == ReorgUpdate(blocks, left, entered, b)
  {
    LegsStored(t, best.hash, b.parent, blocks);
    RouteLegs(t, best.hash, b.parent);
    RouteUpdate(blocks, Route(t, best.hash, b.parent), Leg(t, best.hash, b.parent), Leg(t, b.parent, best.hash), b);
  }

  /** A reorganisation turns the exact index of the old path into that of the new one. */
  lemma ReorgExact(blocks: map<Hash, Block>, common: seq<Hash>, left: seq<Hash>, entered: seq<Hash>, b: Block,
                   addresses: Addresses)
    requires forall h :: h in common || h in left || h in entered ==> h in blocks
    requires b.hash !in blocks && forall h :: h in common ==> h !in left
    requires Exact(blocks, common + left, addresses)
    requires NoRepeats(blocks[b.hash := b], common + (entered + [b.hash]))
    ensures Exact(blocks[b.hash := b], common + (entered + [b.hash]),
                  ApplyAddresses(addresses, ReorgUpdate(blocks, left, entered, b)))
  {
    var u := ReorgUpdate(blocks, left, entered, b);
    ExactFrame(blocks, common + left, addresses, b);
    forall x, at
      ensures MapsTo(ApplyAddresses(addresses, u), x, at) <==>
              OccursAt(blocks[b.hash := b], common + (entered + [b.hash]), x, at)
    {
      ReorgUpdateAt(blocks, left, entered, b, x);
      ReorgEntry(blocks[b.hash := b], common, left, entered + [b.hash], addresses, u, x, at);
    }
  }

  lemma HeavierExact(t: Tree, best: BestBlock, blocks: map<Hash, Block>, addresses: Addresses, b: Block)
    requires Rooted(t) && best.hash in t.details && blocks.Keys == t.details.Keys && b.parent in t.details
             && b.hash !in blocks
    requires NewDifficulty(t, b) > best.totalDifficulty && LocationStored(blocks, Location(t, best, b))
    requires Exact(blocks, Path(t, best.hash), addresses)
    requires NoRepeats(blocks[b.hash := b], Path(t, b.parent) + [b.hash])
    ensures Exact(blocks[b.hash := b], Path(t, b.parent) + [b.hash],
                  ApplyAddresses(addresses, AddressesUpdate(blocks, b, Location(t, best, b))))
  {
    var common := Path(t, best.hash)[..Fork(t, best.hash, b.parent)];
    var left, entered := Leg(t, best.hash, b.parent), Leg(t, b.parent, best.hash);
    HeavierUpdate(t, best, blocks, b);
    PathsCut(t, best.hash, b.parent);
    PathKnown(t, best.hash);
    Associate(common, entered, [b.hash]);
    ReorgExact(blocks, common, left, entered, b, addresses);
  }

  lemma LighterExact(c: Chain, addresses: Addresses, b: Block)
    requires Valid(c) && Importable(c, b) && b.hash !in c.blocks && NewDifficulty(c.tree, b) <= c.best.totalDifficulty
    requires Exact(c.blocks, CanonicalPath(c), addresses)
    ensures RoundAddresses(c, addresses, b) == addresses
    ensures Exact(c.blocks[b.hash := b], CanonicalPath(c), addresses)
  {
    KnownIffChild(c, b);
    PathKnown(c.tree, c.best.hash);
    ExactFrame(c.blocks, CanonicalPath(c), addresses, b);
    assert ApplyAddresses(addresses, map[]) == addresses;
  }

  /**
   * If the index is exact before a round, it is exact after it if and only if no transaction repeats
   * on the new canonical path.
   */
  lemma RoundExact(c: Chain, addresses: Addresses, b: Block)
    requires Valid(c) && Importable(c, b) && Exact(c.blocks, CanonicalPath(c), addresses)
    ensures WellFormed(Round(c, b))
    ensures var c' := Round(c, b);
            Exact(c'.blocks, CanonicalPath(c'), RoundAddresses(c, addresses, b)) <==>
              NoRepeats(c'.blocks, CanonicalPath(c'))
  {
    KnownIffChild(c, b);
    RoundValid(c, b);
    var c' := Round(c, b);
    if NoRepeats(c'.blocks, CanonicalPath(c')) {
      RoundStaysExact(c, addresses, b);
    } else if Exact(c'.blocks, CanonicalPath(c'), RoundAddresses(c, addresses, b)) {
      ExactHasNoRepeats(c'.blocks, CanonicalPath(c'), RoundAddresses(c, addresses, b));
    }
  }

  lemma RoundStaysExact(c: Chain, addresses: Addresses, b: Block)
    requires Valid(c) && Importable(c, b) && Exact(c.blocks, CanonicalPath(c), addresses)
    requires WellFormed(Round(c, b)) && NoRepeats(Round(c, b).blocks, CanonicalPath(Round(c, b)))
    ensures Exact(Round(c, b).blocks, CanonicalPath(Round(c, b)), RoundAddresses(c, addresses, b))
  {
    KnownIffChild(c, b);
    if b.hash !in c.blocks {
      assert Round(c, b).blocks == c.blocks[b.hash := b];
      if NewDifficulty(c.tree, b) > c.best.totalDifficulty {
        HeavierRound(c, b);
        LocationIsStored(c, b);
        HeavierExact(c.tree, c.best, c.blocks, addresses, b);
      } else {
        LighterRound(c, b);
        LighterExact(c, addresses, b);
      }
    }
  }

  /** The transaction index at the end of a run. */
  ghost function RunAddresses(c: Chain, addresses: Addresses, bs: seq<Block>): Addresses
    requires Valid(c) && ImportableRun(c, bs)
    decreases |bs|
  {
    if bs == [] then addresses
    else
      RoundValid(c, bs[0]);
      RunAddresses(Round(c, bs[0]), RoundAddresses(c, addresses, bs[0]), bs[1..])
  }

  /** Along the whole run, no canonical path repeats a transaction. */
  ghost predicate RunNoRepeats(c: Chain, bs: seq<Block>)
    requires Valid(c) && ImportableRun(c, bs)
    decreases |bs|
  {
    && NoRepeats(c.blocks, CanonicalPath(c))
    && (bs == [] || (RoundValid(c, bs[0]); RunNoRepeats(Round(c, bs[0]), bs[1..])))
  }

  /** Over every run on which no canonical path repeats a transaction, the index ends up exact. */
  lemma {:induction false} RunExact(c: Chain, addresses: Addresses, bs: seq<Block>) returns (last: Chain)
    requires Valid(c) && ImportableRun(c, bs) && Exact(c.blocks, CanonicalPath(c), addresses) && RunNoRepeats(c, bs)
    ensures last == Run(c, bs) && Valid(last) && Exact(last.blocks, CanonicalPath(last), RunAddresses(c, addresses, bs))
    decreases |bs|
  {
    last := c;
    if bs != [] {
      var c1, addresses1 := NextExact(c, addresses, bs[0]);
      last := RunExact(c1, addresses1, bs[1..]);
    }
  }

  /** A round as `RoundExact` sees it: exact again if the new path repeats nothing. */
  lemma NextExact(c: Chain, addresses: Addresses, b: Block) returns (c1: Chain, addresses1: Addresses)
    requires Valid(c) && Importable(c, b) && Exact(c.blocks, CanonicalPath(c), addresses)
    ensures c1 == Round(c, b) && addresses1 == RoundAddresses(c, addresses, b) && Valid(c1)
    ensures NoRepeats(c1.blocks, CanonicalPath(c1)) ==> Exact(c1.blocks, CanonicalPath(c1), addresses1)
  {
    RoundValid(c, b);
    RoundExact(c, addresses, b);
    c1, addresses1 := Round(c, b), RoundAddresses(c, addresses, b);
  }
}
