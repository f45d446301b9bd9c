/**
 * When every canonical transaction can be found by its hash, transactions that occur more than once
 * included (core/src/blockchain/blockchain.rs, `prepare_transaction_addresses_update` and `commit`).
 */
module TransactionLookup {
  import opened Basics
  import opened BlockTree
  import opened Chain
  import opened ChainInvariant
  import opened TransactionIndex
  import NumberIndex

  /** The entry of `x` names a place on the path that holds it; without an entry there is no such place. */
  ghost predicate LocatedAt(blocks: map<Hash, Block>, path: seq<Hash>, addresses: Addresses, x: Hash) {
    if x in addresses then OccursAt(blocks, path, x, addresses[x]) else !Occurs(blocks, path, x)
  }

  ghost predicate Located(blocks: map<Hash, Block>, path: seq<Hash>, addresses: Addresses) {
    forall x :: LocatedAt(blocks, path, addresses, x)
  }

  /** If `x` stands below the fork and in a leaving block, it stands in an entering one too. */
  ghost predicate SurvivesAt(blocks: map<Hash, Block>, common: seq<Hash>, left: seq<Hash>, entered: seq<Hash>,
                             x: Hash) {
    Occurs(blocks, common, x) && Occurs(blocks, left, x) ==> Occurs(blocks, entered, x)
  }

  ghost predicate Survives(blocks: map<Hash, Block>, common: seq<Hash>, left: seq<Hash>, entered: seq<Hash>) {
    forall x :: SurvivesAt(blocks, common, left, entered, x)
  }

  lemma OccursSplit(blocks: map<Hash, Block>, a: seq<Hash>, b: seq<Hash>, x: Hash)
    ensures Occurs(blocks, a + b, x) <==> Occurs(blocks, a, x) || Occurs(blocks, b, x)
  {
    if at :| OccursAt(blocks, a + b, x, at) {
      OccursAtSplit(blocks, a, b, x, at);
    }
    if at :| OccursAt(blocks, a, x, at) {
      OccursAtSplit(blocks, a, b, x, at);
    }
    if at :| OccursAt(blocks, b, x, at) {
      OccursAtSplit(blocks, a, b, x, at);
    }
  }

  /** A block not on the path does not change what occurs on it. */
  lemma OccursFrame(blocks: map<Hash, Block>, path: seq<Hash>, b: Block, x: Hash)
    requires b.hash !in path
    ensures Occurs(blocks[b.hash := b], path, x) <==> Occurs(blocks, path, x)
  {
    var blocks' := blocks[b.hash := b];
    if at :| OccursAt(blocks, path, x, at) {
      assert OccursAt(blocks', path, x, at);
    }
    if at :| OccursAt(blocks', path, x, at) {
      assert OccursAt(blocks, path, x, at);
    }
  }

  lemma LocatedFrame(blocks: map<Hash, Block>, path: seq<Hash>, addresses: Addresses, b: Block, x: Hash)
    requires b.hash !in path
    ensures LocatedAt(blocks[b.hash := b], path, addresses, x) <==> LocatedAt(blocks, path, addresses, x)
  {
    OccursFrame(blocks, path, b, x);
  }

  lemma ApplyAt(addresses: Addresses, u: Update, x: Hash)
    ensures var after := ApplyAddresses(addresses, u);
            && (x in after <==> if x in u then u[x].Some? else x in addresses)
            && (x in after ==> after[x] == if x in u then u[x].value else addresses[x])
  {
  }

  /** One hash through one reorganisation. */
  lemma EntryLocatedIff(blocks: map<Hash, Block>, common: seq<Hash>, left: seq<Hash>, entered: seq<Hash>,
                        addresses: Addresses, u: Update, x: Hash)
    requires LocatedAt(blocks, common + left, addresses, x)
    requires if Occurs(blocks, entered, x) then x in u && u[x].Some? && OccursAt(blocks, entered, x, u[x].value)
             else if Occurs(blocks, left, x) then x in u && u[x].None?
             else x !in u
    ensures LocatedAt(blocks, common + entered, ApplyAddresses(addresses, u), x) <==>
            SurvivesAt(blocks, common, left, entered, x)
  {
    ApplyAt(addresses, u, x);
    OccursSplit(blocks, common, left, x);
    OccursSplit(blocks, common, entered, x);
    if Occurs(blocks, entered, x) {
      OccursAtSplit(blocks, common, entered, x, u[x].value);
    } else if !Occurs(blocks, left, x) && x in addresses {
      OccursAtSplit(blocks, common, left, x, addresses[x]);
      OccursAtSplit(blocks, common, entered, x, addresses[x]);
    }
  }

  /**
   * After a reorganisation every canonical transaction is found if and only if those of the common part that
   * leave also enter.
   */
  lemma ReorgLocatedIff(blocks: map<Hash, Block>, common: seq<Hash>, left: seq<Hash>, entered: seq<Hash>, b: Block,
                        addresses: Addresses)
    requires forall h :: h in common || h in left || h in entered ==> h in blocks
    requires b.hash !in blocks && Located(blocks, common + left, addresses)
    ensures var blocks', entered' := blocks[b.hash := b], entered + [b.hash];
            Located(blocks', common + entered', ApplyAddresses(addresses, ReorgUpdate(blocks, left, entered, b))) <==>
            Survives(blocks', common, left, entered')
  {
    var blocks', entered', u := blocks[b.hash := b], entered + [b.hash], ReorgUpdate(blocks, left, entered, b);
    var after := ApplyAddresses(addresses, u);
    forall x
      ensures LocatedAt(blocks', common + entered', after, x) <==> SurvivesAt(blocks', common, left, entered', x)
    {
      assert LocatedAt(blocks, common + left, addresses, x);
      LocatedFrame(blocks, common + left, addresses, b, x);
      ReorgUpdateAt(blocks, left, entered, b, x);
      EntryLocatedIff(blocks', common, left, entered', addresses, u, x);
    }
    if Located(blocks', common + entered', after) {
      forall x
        ensures SurvivesAt(blocks', common, left, entered', x)
      {
        assert LocatedAt(blocks', common + entered', after, x);
      }
    }
  }

  /** The reorganisation, if any, that importing `b` means keeps every transaction of the common part. */
  ghost predicate NothingLost(t: Tree, best: BestBlock, blocks: map<Hash, Block>, b: Block)
    requires Rooted(t) && best.hash in t.details && b.parent in t.details
  {
    b.hash in blocks || NewDifficulty(t, b) <= best.totalDifficulty ||
    Survives(blocks[b.hash := b], Path(t, best.hash)[..Fork(t, best.hash, b.parent)], Leg(t, best.hash, b.parent),
             Leg(t, b.parent, best.hash) + [b.hash])
  }

  lemma HeavierLocatedIff(t: Tree, best: BestBlock, blocks: map<Hash, Block>, addresses: Addresses, b: Block)
    requires Rooted(t) && best.hash in t.details && blocks.Keys == t.details.Keys && b.parent in t.details
             && b.hash !in blocks
    requires NewDifficulty(t, b) > best.totalDifficulty && LocationStored(blocks, Location(t, best, b))
    requires Located(blocks, Path(t, best.hash), addresses)
    ensures Located(blocks[b.hash := b], Path(t, b.parent) + [b.hash],
                    ApplyAddresses(addresses, AddressesUpdate(blocks, b, Location(t, best, b)))) <==>
            NothingLost(t, best, blocks, b)
  {
    var common := Path(t, best.hash)[..Fork(t, best.hash, b.parent)];
    var left, entered := Leg(t, best.hash, b.parent), Leg(t, b.parent, best.hash);
    HeavierUpdate(t, best, blocks, b);
    PathsCut(t, best.hash, b.parent);
    PathKnown(t, best.hash);
    Associate(common, entered, [b.hash]);
    ReorgLocatedIff(blocks, common, left, entered, b, addresses);
  }

  lemma LighterLocated(c: Chain, addresses: Addresses, b: Block)
    requires Valid(c) && Importable(c, b) && b.hash !in c.blocks && NewDifficulty(c.tree, b) <= c.best.totalDifficulty
    requires Located(c.blocks, CanonicalPath(c), addresses)
    ensures RoundAddresses(c, addresses, b) == addresses
    ensures Located(c.blocks[b.hash := b], CanonicalPath(c), addresses)
  {
    KnownIffChild(c, b);
    PathKnown(c.tree, c.best.hash);
    assert ApplyAddresses(addresses, map[]) == addresses;
    var blocks', path := c.blocks[b.hash := b], CanonicalPath(c);
    forall x
      ensures LocatedAt(blocks', path, addresses, x)
    {
      assert LocatedAt(c.blocks, path, addresses, x);
      LocatedFrame(c.blocks, path, addresses, b, x);
    }
  }

  /**
   * If every canonical transaction is found before a round, every one is found after it if and only if
   * the round loses none: each transaction that stands below the fork and in a leaving block also stands
   * in an entering one.
   */
  lemma RoundLocatedIff(c: Chain, addresses: Addresses, b: Block)
    requires Valid(c) && Importable(c, b) && Located(c.blocks, CanonicalPath(c), addresses)
    ensures WellFormed(Round(c, b))
    ensures Located(Round(c, b).blocks, CanonicalPath(Round(c, b)), RoundAddresses(c, addresses, b)) <==>
            NothingLost(c.tree, c.best, c.blocks, b)
  {
    KnownIffChild(c, b);
    if b.hash !in c.blocks {
      RoundTree(c, b);
      if NewDifficulty(c.tree, b) > c.best.totalDifficulty {
        HeavierRound(c, b);
        LocationIsStored(c, b);
        HeavierLocatedIff(c.tree, c.best, c.blocks, addresses, b);
      } else {
        LighterRound(c, b);
        LighterLocated(c, addresses, b);
      }
    }
  }

  /** Along the whole run, no round loses a transaction. */
  ghost predicate RunLosesNothing(c: Chain, bs: seq<Block>)
    requires ImportableRun(c, bs)
    decreases |bs|
  {
    bs == [] || (NothingLost(c.tree, c.best, c.blocks, bs[0]) && RunLosesNothing(Round(c, bs[0]), bs[1..]))
  }

  /** Over every run that loses nothing, every canonical transaction is found at the end, repeated ones included. */
  lemma {:induction false} RunLocated(c: Chain, addresses: Addresses, bs: seq<Block>) returns (last: Chain)
    requires Valid(c) && ImportableRun(c, bs) && Located(c.blocks, CanonicalPath(c), addresses)
             && RunLosesNothing(c, bs)
    ensures last == Run(c, bs) && Valid(last)
            && Located(last.blocks, CanonicalPath(last), RunAddresses(c, addresses, bs))
    decreases |bs|
  {
    last := c;
    if bs != [] {
      RoundValid(c, bs[0]);
      RoundLocatedIff(c, addresses, bs[0]);
      last := RunLocated(Round(c, bs[0]), RoundAddresses(c, addresses, bs[0]), bs[1..]);
    }
  }

  // ---------------------------------------------------------------------------------------------
  // A transaction that gets lost

  /** The best block's sibling takes over: the best block alone leaves, and nothing enters before the sibling. */
  lemma SiblingLegs(t: Tree, best: Hash)
    requires Rooted(t) && best in t.details && best != t.genesis
    ensures var parent := t.details[best].parent;
            && Leg(t, best, parent) == [best] && Leg(t, parent, best) == []
            && Path(t, best)[..Fork(t, best, parent)] == Path(t, parent)
  {
    var parent := t.details[best].parent;
    var p, q := Path(t, best), Path(t, parent);
    assert p == q + [best] && p[..|q|] == q && q[..|q|] == q;
    CommonPrefixUnique(p, q, |q|);
    CommonPrefixUnique(q, p, |q|);
  }

  /**
   * A transaction of the best block that also stands below it is no longer found once a heavier sibling
   * without it is imported.
   */
  lemma SiblingLoses(c: Chain, addresses: Addresses, b: Block, x: Hash)
    requires Valid(c) && Importable(c, b) && b.hash !in c.blocks && NewDifficulty(c.tree, b) > c.best.totalDifficulty
    requires c.best.hash != c.tree.genesis && b.parent == c.tree.details[c.best.hash].parent
    requires x in c.blocks[c.best.hash].txs && x !in b.txs && Occurs(c.blocks, Path(c.tree, b.parent), x)
    ensures WellFormed(Round(c, b)) && Occurs(Round(c, b).blocks, CanonicalPath(Round(c, b)), x)
    ensures x !in RoundAddresses(c, addresses, b)
  {
    var t, best := c.tree, c.best.hash;
    KnownIffChild(c, b);
    RoundTree(c, b);
    HeavierRound(c, b);
    SiblingLegs(t, best);
    HeavierUpdate(t, c.best, c.blocks, b);
    SiblingEntry(c.blocks, best, b, x);
    PathKnown(t, b.parent);
    OccursFrame(c.blocks, Path(t, b.parent), b, x);
    OccursSplit(Round(c, b).blocks, Path(t, b.parent), [b.hash], x);
    ApplyAt(addresses, ReorgUpdate(c.blocks, [best], [], b), x);
  }

  /** The staged entry of a transaction of the one leaving block that does not enter. */
  lemma SiblingEntry(blocks: map<Hash, Block>, best: Hash, b: Block, x: Hash)
    requires best in blocks && b.hash !in blocks && x in blocks[best].txs && x !in b.txs
    ensures var u := ReorgUpdate(blocks, [best], [], b); x in u && u[x].None?
  {
    var blocks' := blocks[b.hash := b];
    ReorgUpdateAt(blocks, [best], [], b, x);
    assert [] + [b.hash] == [b.hash];
    var i :| 0 <= i < |blocks[best].txs| && blocks[best].txs[i] == x;
    assert OccursAt(blocks', [best], x, TransactionAddress(best, i));
    assert forall at :: !OccursAt(blocks', [b.hash], x, at);
  }

  const PAYMENT: Hash := Hash(9)
  const FIRST: Block := Block(Hash(2), Hash(1), 1, 1, [PAYMENT])
  const AGAIN: Block := Block(Hash(3), Hash(2), 2, 1, [PAYMENT])
  const WITHOUT: Block := Block(Hash(4), Hash(2), 2, 2, [])

  /** The payment is canonical, in the first block, and not found. */
  ghost predicate Lost(c: Chain, addresses: Addresses) {
    && WellFormed(c) && OccursAt(c.blocks, CanonicalPath(c), PAYMENT, TransactionAddress(Hash(2), 0))
    && PAYMENT !in addresses
  }

  /** A valid chain with this best block and these blocks. */
  ghost predicate IsChain(c: Chain, best: BestBlock, blocks: map<Hash, Block>) {
    Valid(c) && c.best == best && c.blocks == blocks
  }

  lemma IsChainStart() returns (c: Chain)
    ensures c == InitialChain(NumberIndex.EXAMPLE_GENESIS) && IsChain(c, BestBlock(Hash(1), 0, 1), c.blocks)
    ensures c.blocks.Keys == {Hash(1)}
  {
    InitialValid(NumberIndex.EXAMPLE_GENESIS);
    c := InitialChain(NumberIndex.EXAMPLE_GENESIS);
  }

  /** The stored blocks of the example, without and with the second one. */
  ghost predicate Holds(blocks: map<Hash, Block>, again: bool) {
    && Hash(2) in blocks && blocks[Hash(2)] == FIRST && Hash(4) !in blocks
    && (again ==> Hash(3) in blocks && blocks[Hash(3)] == AGAIN) && (!again ==> Hash(3) !in blocks)
  }

  /** The best block has the details its number and difficulty say. */
  lemma TipFits(c: Chain, best: BestBlock, blocks: map<Hash, Block>, b: Block)
    requires IsChain(c, best, blocks) && b.parent == best.hash && b.number == best.number + 1 && b.hash != ZERO_HASH
             && b.hash !in blocks
    ensures Importable(c, b)
  {
  }

  lemma IsChainGrows(c: Chain, best: BestBlock, blocks: map<Hash, Block>, b: Block) returns (c': Chain)
    requires IsChain(c, best, blocks) && b.parent == best.hash && b.number == best.number + 1 && b.hash != ZERO_HASH
             && b.hash !in blocks
    requires b.difficulty > 0
    ensures Importable(c, b) && c' == Round(c, b)
    ensures IsChain(c', BestBlock(b.hash, b.number, best.totalDifficulty + b.difficulty), blocks[b.hash := b])
  {
    TipFits(c, best, blocks, b);
    NumberIndex.ExtendTip(c, b);
    c' := Round(c, b);
  }

  /** What the second best block says about its parent. */
  lemma SecondFacts(c: Chain)
    requires IsChain(c, BestBlock(Hash(3), 2, 3), c.blocks) && Holds(c.blocks, true)
    ensures c.best.hash != c.tree.genesis && c.tree.details[Hash(3)].parent == Hash(2) && Hash(2) in c.tree.details
    ensures Hash(2) in Path(c.tree, Hash(2)) && NewDifficulty(c.tree, WITHOUT) == 4 && Importable(c, WITHOUT)
  {
    assert DetailsOf(c.tree, c.blocks, Hash(3));
    HeightZero(c.tree, Hash(3));
    assert Path(c.tree, Hash(2))[c.tree.details[Hash(2)].number] == Hash(2);
  }

  /** The heavier sibling without the payment. */
  lemma LossEnd(c: Chain, addresses: Addresses) returns (c': Chain)
    requires IsChain(c, BestBlock(Hash(3), 2, 3), c.blocks) && Holds(c.blocks, true)
    ensures Importable(c, WITHOUT) && c' == Round(c, WITHOUT) && Valid(c')
            && Lost(c', RoundAddresses(c, addresses, WITHOUT))
  {
    SecondFacts(c);
    RoundValid(c, WITHOUT);
    assert OccursAt(c.blocks, Path(c.tree, Hash(2)), PAYMENT, TransactionAddress(Hash(2), 0));
    SiblingLoses(c, addresses, WITHOUT, PAYMENT);
    HeavierRound(c, WITHOUT);
    RoundTree(c, WITHOUT);
    c' := Round(c, WITHOUT);
    assert Hash(2) in CanonicalPath(c');
  }

  /** A run that starts with `b`, on both columns. */
  lemma RunStep(c: Chain, b: Block, rest: seq<Block>, addresses: Addresses)
    requires Valid(c) && Importable(c, b) && ImportableRun(Round(c, b), rest)
    ensures ImportableRun(c, [b] + rest) && Run(c, [b] + rest) == Run(Round(c, b), rest) && Valid(Round(c, b))
    ensures RunAddresses(c, addresses, [b] + rest) == RunAddresses(Round(c, b), RoundAddresses(c, addresses, b), rest)
  {
    RoundValid(c, b);
    assert ([b] + rest)[1..] == rest;
  }

  /** `last` and `found` are what the run `bs` makes of the chain and of the index. */
  ghost predicate Ends(c: Chain, addresses: Addresses, bs: seq<Block>, last: Chain, found: Addresses) {
    Valid(c) && ImportableRun(c, bs) && last == Run(c, bs) && found == RunAddresses(c, addresses, bs)
  }

  lemma EndsNow(c: Chain, addresses: Addresses)
    requires Valid(c)
    ensures Ends(c, addresses, [], c, addresses)
  {
  }

  lemma EndsLater(c: Chain, addresses: Addresses, b: Block, rest: seq<Block>, c': Chain, last: Chain, found: Addresses)
    requires Valid(c) && Importable(c, b) && c' == Round(c, b)
             && Ends(c', RoundAddresses(c, addresses, b), rest, last, found)
    ensures Ends(c, addresses, [b] + rest, last, found)
  {
    RunStep(c, b, rest, addresses);
  }

  lemma LossFromSecond(c: Chain, addresses: Addresses) returns (last: Chain, found: Addresses)
    requires IsChain(c, BestBlock(Hash(3), 2, 3), c.blocks) && Holds(c.blocks, true)
    ensures Ends(c, addresses, [WITHOUT], last, found) && Lost(last, found)
  {
    last := LossEnd(c, addresses);
    found := RoundAddresses(c, addresses, WITHOUT);
    EndsNow(last, found);
    EndsLater(c, addresses, WITHOUT, [], last, last, found);
    assert [WITHOUT] + [] == [WITHOUT];
  }

  lemma SecondStage(c: Chain) returns (c': Chain)
    requires IsChain(c, BestBlock(Hash(2), 1, 2), c.blocks) && Holds(c.blocks, false)
    ensures Importable(c, AGAIN) && c' == Round(c, AGAIN)
    ensures IsChain(c', BestBlock(Hash(3), 2, 3), c'.blocks) && Holds(c'.blocks, true)
  {
    c' := IsChainGrows(c, BestBlock(Hash(2), 1, 2), c.blocks, AGAIN);
  }

  lemma LossFromFirst(c: Chain, addresses: Addresses) returns (last: Chain, found: Addresses)
    requires IsChain(c, BestBlock(Hash(2), 1, 2), c.blocks) && Holds(c.blocks, false)
    ensures Ends(c, addresses, [AGAIN] + [WITHOUT], last, found) && Lost(last, found)
  {
    var c' := SecondStage(c);
    last, found := LossFromSecond(c', RoundAddresses(c, addresses, AGAIN));
    EndsLater(c, addresses, AGAIN, [WITHOUT], c', last, found);
  }

  /**
   * Three imports on the genesis block: a payment, a block that holds it again, and a heavier sibling of
   * that one without it. The payment is still canonical, in the first block, and no longer found.
   */
  lemma LostPayment() returns (last: Chain, found: Addresses)
    ensures Ends(InitialChain(NumberIndex.EXAMPLE_GENESIS), map[], [FIRST] + ([AGAIN] + [WITHOUT]), last, found)
            && Lost(last, found)
  {
    var c := IsChainStart();
    var c' := IsChainGrows(c, BestBlock(Hash(1), 0, 1), c.blocks, FIRST);
    last, found := LossFromFirst(c', RoundAddresses(c, map[], FIRST));
    EndsLater(c, map[], FIRST, [AGAIN] + [WITHOUT], c', last, found);
  }
}
