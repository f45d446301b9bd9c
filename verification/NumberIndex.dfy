/**
 * Asking the number index about a block: `beacon_list` and the stale entries that a reorganisation to
 * a lower but heavier chain leaves behind (core/src/blockchain/blockchain.rs).
 */
module NumberIndex {
  import opened Basics
  import opened BlockTree
  import opened Chain
  import opened ChainInvariant

  /** `beacon_list`: the number of `hash`, if the index has it there. */
  function BeaconList(c: Chain, hash: Hash): Option<nat> {
    if hash in c.tree.details then
      var number := c.tree.details[hash].number;
      if number in c.hashes && c.hashes[number] == hash then Some(number) else None
    else None
  }

  /** Up to the best height, `beacon_list` recognises exactly the ancestors-or-self of the best block. */
  lemma BeaconListExact(c: Chain, hash: Hash)
    requires Valid(c) && hash in c.tree.details && c.tree.details[hash].number <= c.best.number
    ensures BeaconList(c, hash) ==
            if AncestorOrSelf(c.tree, hash, c.best.hash) then Some(c.tree.details[hash].number) else None
  {
    PathPosition(c.tree, c.best.hash, hash);
    var n := c.tree.details[hash].number;
    assert n in c.hashes && c.hashes[n] == CanonicalPath(c)[n];
  }

  /** The index answers right about every known block. */
  ghost predicate AnswersRight(c: Chain)
    requires WellFormed(c)
  {
    forall h :: h in c.tree.details ==> (BeaconList(c, h).Some? <==> AncestorOrSelf(c.tree, h, c.best.hash))
  }

  /** The numbers in the index are those up to `peak`. */
  ghost predicate IndexedUpTo(c: Chain, peak: nat) {
    c.best.number <= peak && forall n: nat :: n in c.hashes <==> n <= peak
  }

  /**
   * The index answers right about every known block exactly when the best block stands at the highest indexed
   * number.
   */
  lemma AnswersRightIff(c: Chain, peak: nat)
    requires Valid(c) && IndexedUpTo(c, peak)
    ensures AnswersRight(c) <==> c.best.number == peak
  {
    if c.best.number == peak {
      forall h | h in c.tree.details
        ensures BeaconList(c, h).Some? <==> AncestorOrSelf(c.tree, h, c.best.hash)
      {
        if c.tree.details[h].number <= peak {
          BeaconListExact(c, h);
        } else {
          PathPosition(c.tree, c.best.hash, h);
        }
      }
    } else {
      var h := c.hashes[peak];
      assert BeaconList(c, h) == Some(peak);
      PathPosition(c.tree, c.best.hash, h);
    }
  }

  /** The highest number the best block ever had along the run. */
  ghost function Peak(c: Chain, bs: seq<Block>): nat
    requires ImportableRun(c, bs)
    decreases |bs|
  {
    if bs == [] then c.best.number else Max(c.best.number, Peak(Round(c, bs[0]), bs[1..]))
  }

  /** Renumbering from a number no higher than the next one leaves no gap. */
  lemma RenumberedKeys(hashes: map<nat, Hash>, hashes': map<nat, Hash>, k: nat, leg: seq<Hash>, top: nat, x: Hash,
                       peak: nat)
    requires forall n: nat :: n in hashes <==> n <= peak
    requires k <= peak + 1 && top == k + |leg|
    requires hashes' == hashes + Numbered(k, leg)[top := x]
    ensures forall n: nat :: n in hashes' <==> n <= Max(peak, top)
  {
    forall n: nat
      ensures n in hashes' <==> n <= Max(peak, top)
    {
      NumberedAt(k, leg, n);
    }
  }

  lemma RoundIndexed(c: Chain, b: Block, peak: nat)
    requires Valid(c) && Importable(c, b) && IndexedUpTo(c, peak)
    ensures IndexedUpTo(Round(c, b), Max(peak, Round(c, b).best.number))
  {
    KnownIffChild(c, b);
    if b.hash !in c.blocks {
      if NewDifficulty(c.tree, b) > c.best.totalDifficulty {
        HeavierRound(c, b);
        ForkShared(c.tree, c.best.hash, b.parent);
        RenumberedKeys(c.hashes, Round(c, b).hashes, Fork(c.tree, c.best.hash, b.parent),
                       Leg(c.tree, b.parent, c.best.hash), b.number, b.hash, peak);
      } else {
        LighterRound(c, b);
      }
    }
  }

  /** Over any run the indexed numbers are those up to the highest number the best block ever had. */
  lemma {:induction false} RunIndexed(c: Chain, bs: seq<Block>, peak: nat) returns (last: Chain, top: nat)
    requires Valid(c) && ImportableRun(c, bs) && IndexedUpTo(c, peak)
    ensures last == Run(c, bs)
    ensures top == Max(peak, Peak(c, bs)) && IndexedUpTo(last, top)
    decreases |bs|
  {
    if bs == [] {
      last, top := c, peak;
    } else {
      var c1 := NextIndexed(c, bs[0], peak);
      last, top := RunIndexed(c1, bs[1..], Max(peak, c1.best.number));
      PeakAtLeast(c1, bs[1..]);
    }
  }

  lemma NextIndexed(c: Chain, b: Block, peak: nat) returns (c1: Chain)
    requires Valid(c) && Importable(c, b) && IndexedUpTo(c, peak)
    ensures c1 == Round(c, b) && Valid(c1) && IndexedUpTo(c1, Max(peak, c1.best.number))
  {
    RoundValid(c, b);
    RoundIndexed(c, b, peak);
    c1 := Round(c, b);
  }

  lemma PeakAtLeast(c: Chain, bs: seq<Block>)
    requires ImportableRun(c, bs)
    ensures Peak(c, bs) >= c.best.number
  {
  }

  /**
   * From the genesis on, `beacon_list` answers right about every known block if and only if the best
   * block is as high as it has ever been.
   */
  lemma BeaconListAlwaysRightIff(genesis: Block, bs: seq<Block>)
    requires ValidGenesis(genesis) && ImportableRun(InitialChain(genesis), bs)
    ensures Valid(Run(InitialChain(genesis), bs))
    ensures AnswersRight(Run(InitialChain(genesis), bs)) <==>
            Run(InitialChain(genesis), bs).best.number == Peak(InitialChain(genesis), bs)
  {
    var c := InitialChain(genesis);
    InitialValid(genesis);
    RunValid(c, bs);
    var last, top := RunIndexed(c, bs, 0);
    AnswersRightIff(last, top);
  }

  /** Every reorganisation to a lower block leaves the old best block listed, though it is no longer canonical. */
  lemma LowerReorgGoesStale(c: Chain, b: Block)
    requires Valid(c) && Importable(c, b) && b.hash !in c.blocks
    requires NewDifficulty(c.tree, b) > c.best.totalDifficulty && b.number < c.best.number
    ensures Valid(Round(c, b)) && BeaconList(Round(c, b), c.best.hash) == Some(c.best.number)
    ensures Round(c, b).best.number == b.number
    ensures !AncestorOrSelf(Round(c, b).tree, c.best.hash, Round(c, b).best.hash)
  {
    RoundValid(c, b);
    RoundTree(c, b);
    HeavierRound(c, b);
    ForkShared(c.tree, c.best.hash, b.parent);
    assert c.hashes[c.best.number] == CanonicalPath(c)[c.best.number] == c.best.hash;
    StaysNumbered(c.tree, c.best.hash, b, c.hashes, c.best.number);
    PathPosition(Round(c, b).tree, Round(c, b).best.hash, c.best.hash);
  }

  /** Renumbering leaves the entries above the new best block alone. */
  lemma StaysNumbered(t: Tree, best: Hash, b: Block, hashes: map<nat, Hash>, n: nat)
    requires Rooted(t) && best in t.details && b.parent in t.details && b.number == t.details[b.parent].number + 1 < n
             && n in hashes
    ensures n in Renumbered(t, best, b, hashes) && Renumbered(t, best, b, hashes)[n] == hashes[n]
  {
    ForkShared(t, best, b.parent);
    NumberedAt(Fork(t, best, b.parent), Leg(t, b.parent, best), n);
  }

  /** Importing a block of positive difficulty on top of the best one. */
  lemma ExtendTip(c: Chain, b: Block)
    requires Valid(c) && Importable(c, b) && b.hash !in c.blocks && b.parent == c.best.hash && b.difficulty > 0
    ensures Valid(Round(c, b))
    ensures Round(c, b).best == BestBlock(b.hash, b.number, c.best.totalDifficulty + b.difficulty)
    ensures Round(c, b).blocks == c.blocks[b.hash := b] && Grown(c.tree, Round(c, b).tree)
    ensures CanonicalPath(Round(c, b)) == CanonicalPath(c) + [b.hash]
    ensures Round(c, b).tree.details.Keys == c.tree.details.Keys + {b.hash}
  {
    RoundValid(c, b);
    RoundTree(c, b);
    HeavierRound(c, b);
  }

  /** Importing another block leaves a fresh block importable, at the same weight. */
  lemma StillImportable(c: Chain, b1: Block, b: Block)
    requires Valid(c) && Importable(c, b1) && b1.hash !in c.blocks
    requires Importable(c, b) && b.hash !in c.blocks && b.hash != b1.hash
    ensures Importable(Round(c, b1), b) && b.hash !in Round(c, b1).blocks
    ensures NewDifficulty(Round(c, b1).tree, b) == NewDifficulty(c.tree, b)
  {
    RoundTree(c, b1);
  }

  /** Extending the tip while another block waits. */
  lemma TipBeside(c: Chain, b1: Block, b: Block) returns (c1: Chain)
    requires Valid(c) && Importable(c, b1) && b1.hash !in c.blocks && b1.parent == c.best.hash && b1.difficulty > 0
    requires Importable(c, b) && b.hash !in c.blocks && b.hash != b1.hash
    ensures c1 == Round(c, b1) && Valid(c1)
    ensures c1.best == BestBlock(b1.hash, b1.number, c.best.totalDifficulty + b1.difficulty)
    ensures c1.blocks.Keys == c.blocks.Keys + {b1.hash} && c1.tree.details.Keys == c.tree.details.Keys + {b1.hash}
    ensures Importable(c1, b) && NewDifficulty(c1.tree, b) == NewDifficulty(c.tree, b)
  {
    ExtendTip(c, b1);
    StillImportable(c, b1, b);
    c1 := Round(c, b1);
  }

  /** A block on top of the best one, then a heavier block no higher than the old best. */
  lemma OutweighTip(c: Chain, b1: Block, b: Block)
    requires Valid(c) && Importable(c, b1) && b1.hash !in c.blocks && b1.parent == c.best.hash && b1.difficulty > 0
    requires Importable(c, b) && b.hash !in c.blocks && b.hash != b1.hash && b.number <= c.best.number
    requires NewDifficulty(c.tree, b) > c.best.totalDifficulty + b1.difficulty
    ensures var c1 := Round(c, b1);
            Valid(c1) && Importable(c1, b) && BeaconList(Round(c1, b), b1.hash) == Some(b1.number)
              && Round(c1, b).best.number == b.number
  {
    ExtendTip(c, b1);
    StillImportable(c, b1, b);
    LowerReorgGoesStale(Round(c, b1), b);
  }

  /** Two blocks on top of the best one, then a heavier block no higher than the first. */
  lemma StaleAfterTwo(c: Chain, b1: Block, b2: Block, b: Block) returns (c1: Chain)
    requires Valid(c) && Importable(c, b1) && b1.hash !in c.blocks && b1.parent == c.best.hash && b1.difficulty > 0
    requires b2.parent == b1.hash && b2.number == b1.number + 1 && b2.difficulty > 0
    requires b2.hash !in c.blocks && b2.hash !in {ZERO_HASH, b1.hash, b.hash}
    requires Importable(c, b) && b.hash !in c.blocks && b.hash != b1.hash && b.number <= b1.number
    requires NewDifficulty(c.tree, b) > c.best.totalDifficulty + b1.difficulty + b2.difficulty
    ensures c1 == Round(c, b1) && Valid(c1) && Importable(c1, b2)
    ensures var c2 := Round(c1, b2);
            && Valid(c2) && Importable(c2, b)
            && BeaconList(Round(c2, b), b2.hash) == Some(b2.number) && Round(c2, b).best.number == b.number
  {
    c1 := TipBeside(c, b1, b);
    OutweighTip(c1, b2, b);
  }

  const EXAMPLE_GENESIS: Block := Block(Hash(1), ZERO_HASH, 0, 1, [])
  const EXAMPLE_FIRST: Block := Block(Hash(2), Hash(1), 1, 1, [])
  const EXAMPLE_SECOND: Block := Block(Hash(3), Hash(2), 2, 1, [])
  const EXAMPLE_HEAVY: Block := Block(Hash(4), Hash(1), 1, 5, [])

  lemma ExampleStart()
    ensures ValidGenesis(EXAMPLE_GENESIS)
    ensures var c0 := InitialChain(EXAMPLE_GENESIS);
            && Valid(c0) && Importable(c0, EXAMPLE_FIRST) && Importable(c0, EXAMPLE_HEAVY)
            && EXAMPLE_FIRST.hash !in c0.blocks && EXAMPLE_HEAVY.hash !in c0.blocks
            && EXAMPLE_FIRST.parent == c0.best.hash
            && c0.best.totalDifficulty == 1 && NewDifficulty(c0.tree, EXAMPLE_HEAVY) == 6
            && c0.blocks.Keys == {Hash(1)} && c0.tree.details.Keys == {Hash(1)}
  {
    InitialValid(EXAMPLE_GENESIS);
  }

  /** A chain of height 2, and then a heavier block of height 1: the old tip stays listed. */
  lemma StaleEntryExample() returns (c1: Chain)
    ensures WellFormed(InitialChain(EXAMPLE_GENESIS)) && Importable(InitialChain(EXAMPLE_GENESIS), EXAMPLE_FIRST)
    ensures c1 == Round(InitialChain(EXAMPLE_GENESIS), EXAMPLE_FIRST) && Valid(c1) && Importable(c1, EXAMPLE_SECOND)
    ensures var c2 := Round(c1, EXAMPLE_SECOND);
            && Valid(c2) && Importable(c2, EXAMPLE_HEAVY)
            && BeaconList(Round(c2, EXAMPLE_HEAVY), Hash(3)) == Some(2) && Round(c2, EXAMPLE_HEAVY).best.number == 1
  {
    ExampleStart();
    c1 := StaleAfterTwo(InitialChain(EXAMPLE_GENESIS), EXAMPLE_FIRST, EXAMPLE_SECOND, EXAMPLE_HEAVY);
  }
}
