/**
 * The block chain object: staged updates, their publication, and the queries that read them
 * (core/src/blockchain/blockchain.rs). The database and its caches are one store here; that lookups
 * through the caches answer as the database would is the subject of module `CacheLayer`.
 */
module BlockChainStore {
  import opened Basics
  import opened BlockTree
  import opened Chain
  import opened ChainInvariant
  import opened TransactionIndex
  import NumberIndex

  /** The staged values are the updates of the new block `b`. */
  ghost predicate Staged(c: Chain, b: Block, best: Option<BestBlock>, hashes: map<nat, Hash>,
                         details: map<Hash, BlockDetails>, addresses: Update, batch: map<Hash, Block>)
    requires WellFormed(c) && Importable(c, b)
  {
    && var location := Location(c.tree, c.best, b);
    && LocationStored(c.blocks, location)
    && (location.BranchBecomingCanonChain? ==> location.ancestor in c.tree.details)
    && best == (if location.Branch? then None else Some(BestBlock(b.hash, b.number, NewDifficulty(c.tree, b))))
    && hashes == HashesUpdate(c.tree, b, location)
    && c.tree.details + details == Grow(c.tree, b).details
    && addresses == AddressesUpdate(c.blocks, b, location)
    && batch == map[b.hash := b]
  }

  /** The blocks a location names are stored, its ancestor included. */
  lemma LocationFits(c: Chain, b: Block, location: BlockLocation)
    requires WellFormed(c) && Importable(c, b) && location == Location(c.tree, c.best, b)
    ensures LocationStored(c.blocks, location)
    ensures location.BranchBecomingCanonChain? ==> location.ancestor in c.tree.details
  {
    RouteKnown(c.tree, c.best.hash, b.parent);
    LocationIsStored(c, b);
  }

  lemma ExtrasStaged(c: Chain, b: Block, location: BlockLocation, best: Option<BestBlock>, hashes: map<nat, Hash>,
                     details: map<Hash, BlockDetails>, addresses: Update)
    requires WellFormed(c) && Importable(c, b) && location == Location(c.tree, c.best, b)
    requires LocationStored(c.blocks, location)
    requires location.BranchBecomingCanonChain? ==> location.ancestor in c.tree.details
    requires best == if location.Branch? then None else Some(BestBlock(b.hash, b.number, NewDifficulty(c.tree, b)))
    requires hashes == HashesUpdate(c.tree, b, location) && c.tree.details + details == Grow(c.tree, b).details
    requires addresses == AddressesUpdate(c.blocks, b, location)
    ensures Staged(c, b, best, hashes, details, addresses, map[b.hash := b])
  {
  }

  /** Publishing the staged updates completes the round. */
  lemma PublishStaged(c: Chain, addresses: Addresses, b: Block, pendingBest: Option<BestBlock>,
                      pendingHashes: map<nat, Hash>, pendingDetails: map<Hash, BlockDetails>, pendingAddresses: Update,
                      batch: map<Hash, Block>)
    requires WellFormed(c) && Importable(c, b) && !IsKnownChild(c.tree, b)
    requires Staged(c, b, pendingBest, pendingHashes, pendingDetails, pendingAddresses, batch)
    ensures Round(c, b) == Chain(
              Tree(c.tree.genesis, c.tree.details + pendingDetails),
              if pendingBest.Some? then pendingBest.value else c.best,
              c.hashes + pendingHashes,
              c.blocks + batch)
    ensures RoundAddresses(c, addresses, b) == ApplyAddresses(addresses, pendingAddresses)
  {
    MapAddOne(c.blocks, b.hash, b);
  }

  class BlockChain {
    const genesis: Hash
    var best: BestBlock
    var details: map<Hash, BlockDetails>
    var hashes: map<nat, Hash>
    var addresses: Addresses
    var blocks: map<Hash, Block>

    var pendingBest: Option<BestBlock>
    var pendingHashes: map<nat, Hash>
    var pendingDetails: map<Hash, BlockDetails>
    var pendingAddresses: Update
    /** Headers and bodies in the write batch. */
    var batch: map<Hash, Block>

    function Published(): Chain
      reads this
    {
      Chain(Tree(genesis, details), best, hashes, blocks)
    }

    predicate Idle()
      reads this
    {
      pendingBest.None? && pendingHashes == map[] && pendingDetails == map[] && pendingAddresses == map[]
        && batch == map[]
    }

    constructor (genesisBlock: Block)
      requires ValidGenesis(genesisBlock)
      ensures Published() == InitialChain(genesisBlock) && Valid(Published()) && addresses == map[] && Idle()
    {
      genesis := genesisBlock.hash;
      best := BestBlock(genesisBlock.hash, genesisBlock.number, genesisBlock.difficulty);
      details := map[genesisBlock.hash := BlockDetails(genesisBlock.number, genesisBlock.difficulty,
                                                       genesisBlock.parent, [])];
      hashes := map[genesisBlock.number := genesisBlock.hash];
      addresses := map[];
      blocks := map[genesisBlock.hash := genesisBlock];
      pendingBest, pendingHashes, pendingDetails, pendingAddresses, batch := None, map[], map[], map[], map[];
      new;
      InitialValid(genesisBlock);
    }

    /** `block_info`: a heavier block routes from the old best block to its parent. */
    method BlockInfo(b: Block) returns (location: BlockLocation)
      requires WellFormed(Published()) && Importable(Published(), b)
      ensures location == Location(Published().tree, best, b)
    {
      var totalDifficulty := details[b.parent].totalDifficulty + b.difficulty;
      if totalDifficulty > best.totalDifficulty {
        var route := FindRoute(Tree(genesis, details), best.hash, b.parent);
        RouteLegs(Tree(genesis, details), best.hash, b.parent);
        var r := route.value;
        if |r.blocks| == 0 {
          location := CanonChain;
        } else {
          location := BranchBecomingCanonChain(r.ancestor, r.blocks[r.index..], r.blocks[..r.index]);
        }
      } else {
        location := Branch;
      }
    }

    /** `prepare_block_hashes_update`: renumber the enacted blocks above the ancestor, then the new one. */
    method PrepareBlockHashesUpdate(b: Block, location: BlockLocation) returns (update: map<nat, Hash>)
      requires location.BranchBecomingCanonChain? ==> location.ancestor in details
      ensures update == HashesUpdate(Tree(genesis, details), b, location)
    {
      update := map[];
      match location
      case Branch =>
      case CanonChain =>
        update := update[b.number := b.hash];
      case BranchBecomingCanonChain(ancestor, enacted, _) =>
        var start := details[ancestor].number + 1;
        for index := 0 to |enacted|
          invariant update == Numbered(start, enacted[..index])
        {
          assert enacted[..index + 1][..index] == enacted[..index];
          update := update[start + index := enacted[index]];
        }
        assert enacted[..|enacted|] == enacted;
        update := update[b.number := b.hash];
    }

    /** `prepare_block_details_update`: the new block, and its parent with one more child. */
    method PrepareBlockDetailsUpdate(b: Block) returns (update: map<Hash, BlockDetails>)
      requires b.parent in details
      ensures details + update == Grow(Tree(genesis, details), b).details
      ensures update.Keys == {b.parent, b.hash}
    {
      var parent := details[b.parent];
      update := map[];
      update := update[b.parent := parent.(children := parent.children + [b.hash])];
      update := update[b.hash := BlockDetails(b.number, parent.totalDifficulty + b.difficulty, b.parent, [])];
    }

    /** `insert_block`: stages every update of a new block, publishes none, and reports the route. */
    method InsertBlock(b: Block) returns (route: ImportRoute)
      requires WellFormed(Published()) && Importable(Published(), b) && Idle()
      modifies this`pendingBest, this`pendingHashes, this`pendingDetails, this`pendingAddresses, this`batch
      ensures route == RoundRoute(Published(), b)
      ensures if IsKnownChild(Published().tree, b) then Idle()
              else Staged(Published(), b, pendingBest, pendingHashes, pendingDetails, pendingAddresses, batch)
    {
      if b.hash in details[b.parent].children {
        return ImportRoute([], [], []);
      }
      var location := BlockInfo(b);
      ghost var c := Published();
      LocationFits(c, b, location);
      var newBest, blockHashes, blockDetails, blockAddresses := PrepareExtras(b, location);
      ExtrasStaged(c, b, location, newBest, blockHashes, blockDetails, blockAddresses);
      Stage(newBest, blockHashes, blockDetails, blockAddresses, map[b.hash := b]);
      assert Published() == c;
      route := ImportRouteOf(b.hash, location);
    }

    method Stage(newBest: Option<BestBlock>, blockHashes: map<nat, Hash>, blockDetails: map<Hash, BlockDetails>,
                 blockAddresses: Update, written: map<Hash, Block>)
      modifies this`pendingBest, this`pendingHashes, this`pendingDetails, this`pendingAddresses, this`batch
      ensures pendingBest == newBest && pendingHashes == blockHashes && pendingDetails == blockDetails
      ensures pendingAddresses == blockAddresses && batch == written
    {
      pendingBest, pendingHashes, pendingDetails, pendingAddresses := newBest, blockHashes, blockDetails,
        blockAddresses;
      batch := written;
    }

    /** The updates `insert_block` prepares for a block that lands at `location`. */
    method PrepareExtras(b: Block, location: BlockLocation)
      returns (newBest: Option<BestBlock>, blockHashes: map<nat, Hash>, blockDetails: map<Hash, BlockDetails>,
               blockAddresses: Update)
      requires b.parent in details && LocationStored(blocks, location)
      requires location.BranchBecomingCanonChain? ==> location.ancestor in details
      ensures newBest == if location.Branch? then None
                         else Some(BestBlock(b.hash, b.number, NewDifficulty(Tree(genesis, details), b)))
      ensures blockHashes == HashesUpdate(Tree(genesis, details), b, location)
      ensures details + blockDetails == Grow(Tree(genesis, details), b).details
      ensures blockAddresses == AddressesUpdate(blocks, b, location)
    {
      newBest := None;
      if !location.Branch? {
        newBest := Some(BestBlock(b.hash, b.number, details[b.parent].totalDifficulty + b.difficulty));
      }
      blockHashes := PrepareBlockHashesUpdate(b, location);
      blockDetails := PrepareBlockDetailsUpdate(b);
      blockAddresses := AddressesUpdate(blocks, b, location);
    }

    /** `commit`, together with the write of the batch: publishes whatever is staged. */
    method Commit()
      modifies this
      ensures Idle()
      ensures best == if old(pendingBest).Some? then old(pendingBest).value else old(best)
      ensures hashes == old(hashes) + old(pendingHashes)
      ensures details == old(details) + old(pendingDetails)
      ensures addresses == ApplyAddresses(old(addresses), old(pendingAddresses))
      ensures blocks == old(blocks) + old(batch)
    {
      if pendingBest.Some? {
        best := pendingBest.value;
        pendingBest := None;
      }
      CommitExtras();
      CommitAddresses();
      WriteBatch();
    }

    method CommitExtras()
      modifies this`hashes, this`pendingHashes, this`details, this`pendingDetails
      ensures hashes == old(hashes) + old(pendingHashes) && details == old(details) + old(pendingDetails)
      ensures pendingHashes == map[] && pendingDetails == map[]
    {
      hashes := hashes + pendingHashes;
      pendingHashes := map[];
      details := details + pendingDetails;
      pendingDetails := map[];
    }

    method CommitAddresses()
      modifies this`addresses, this`pendingAddresses
      ensures addresses == ApplyAddresses(old(addresses), old(pendingAddresses)) && pendingAddresses == map[]
    {
      var retractedTxs, enactedTxs := Removals(pendingAddresses), Additions(pendingAddresses);
      addresses := addresses + enactedTxs;
      addresses := addresses - retractedTxs;
      pendingAddresses := map[];
    }

    method WriteBatch()
      modifies this`blocks, this`batch
      ensures blocks == old(blocks) + old(batch) && batch == map[]
    {
      blocks := blocks + batch;
      batch := map[];
    }

    /** The two halves of `commit_block`: exactly one round of the specification, on every column. */
    method InsertAndCommit(b: Block) returns (route: ImportRoute)
      requires WellFormed(Published()) && Importable(Published(), b) && Idle()
      modifies this
      ensures Published() == Round(old(Published()), b) && Idle()
      ensures addresses == RoundAddresses(old(Published()), old(addresses), b)
      ensures route == RoundRoute(old(Published()), b)
    {
      ghost var c := Published();
      route := InsertBlock(b);
      assert Published() == c;
      CommitStaged(b);
    }

    /** Publishing what `InsertBlock` staged for `b` completes the round. */
    method CommitStaged(b: Block)
      requires WellFormed(Published()) && Importable(Published(), b)
      requires if IsKnownChild(Published().tree, b) then Idle()
               else Staged(Published(), b, pendingBest, pendingHashes, pendingDetails, pendingAddresses, batch)
      modifies this
      ensures Published() == Round(old(Published()), b) && Idle()
      ensures addresses == RoundAddresses(old(Published()), old(addresses), b)
    {
      ghost var c := Published();
      ghost var pb, ph, pd, pa, pw := pendingBest, pendingHashes, pendingDetails, pendingAddresses, batch;
      Commit();
      if !IsKnownChild(c.tree, b) {
        PublishStaged(c, old(addresses), b, pb, ph, pd, pa, pw);
      } else {
        assert ApplyAddresses(old(addresses), map[]) == old(addresses);
        assert Published() == c;
      }
    }

    /** A round on a valid chain leaves it valid. */
    method ImportBlock(b: Block) returns (route: ImportRoute)
      requires Valid(Published()) && Importable(Published(), b) && Idle()
      modifies this
      ensures Published() == Round(old(Published()), b) && Valid(Published()) && Idle()
      ensures addresses == RoundAddresses(old(Published()), old(addresses), b)
      ensures route == RoundRoute(old(Published()), b)
    {
      RoundValid(Published(), b);
      route := InsertAndCommit(b);
    }

    /** `beacon_list`. */
    method BeaconList(hash: Hash) returns (r: Option<nat>)
      requires Valid(Published())
      ensures r == NumberIndex.BeaconList(Published(), hash)
      ensures hash in details && details[hash].number <= best.number ==>
                (r.Some? <==> AncestorOrSelf(Published().tree, hash, best.hash))
    {
      if hash in details && details[hash].number <= best.number {
        NumberIndex.BeaconListExact(Published(), hash);
      }
      if hash in details {
        var number := details[hash].number;
        if number in hashes {
          if hash == hashes[number] {
            return Some(number);
          }
        }
      }
      r := None;
    }
  }
}
