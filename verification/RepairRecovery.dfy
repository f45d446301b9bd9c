/**
 * What importing the dropped blocks again restores after a start-up repair
 * (core/src/service.rs, `correct_db`; core/src/blockchain/blockchain.rs, `insert_block`).
 */
module RepairRecovery {
  import opened Basics
  import opened BlockTree
  import opened Chain
  import opened ChainInvariant
  import opened Repair

  /** The details agree in everything but the lists of children. */
  ghost predicate SameButChildren(t: Tree, t': Tree) {
    && t.genesis == t'.genesis && t.details.Keys == t'.details.Keys
    && forall h :: h in t.details ==> t'.details[h].(children := t.details[h].children) == t.details[h]
  }

  lemma SameRooted(t: Tree, t': Tree)
    requires Rooted(t) && SameButChildren(t, t')
    ensures Rooted(t')
  {
    forall h | h in t'.details && h != t'.genesis
      ensures t'.details[h].parent in t'.details && t'.details[h].number == t'.details[t'.details[h].parent].number + 1
    {
      assert t.details[h].parent in t.details;
    }
  }

  lemma {:induction false} SamePath(t: Tree, t': Tree, h: Hash)
    requires Rooted(t) && Rooted(t') && SameButChildren(t, t') && h in t.details
    ensures Path(t', h) == Path(t, h)
    decreases t.details[h].number
  {
    if h != t.genesis {
      SamePath(t, t', t.details[h].parent);
    }
  }

  /** The chain without the headers or bodies of the blocks `lost`. */
  ghost function Damaged(c: Chain, lost: set<Hash>): Chain {
    c.(blocks := c.blocks - lost)
  }

  /** The damaged chain as it comes up again with best block `h`, once the repair has written. */
  ghost function RestartedAt(c: Chain, lost: set<Hash>, h: Hash): Chain
    requires h in c.tree.details
  {
    Chain(WithoutChildren(c.tree, h), BestBlock(h, c.tree.details[h].number, c.tree.details[h].totalDifficulty),
          c.hashes, c.blocks - lost)
  }

  /** Those of `lost` that are not among `hs`. */
  ghost function StillLost(lost: set<Hash>, hs: seq<Hash>): set<Hash> {
    set h | h in lost && h !in hs
  }

  // ---------------------------------------------------------------------------------------------
  // One block

  /** `b` is the block of the chain `c` on top of block `h`, and the index names it. */
  ghost predicate StandsOn(c: Chain, b: Block, h: Hash) {
    && b.hash in c.blocks && c.blocks[b.hash] == b && b.parent == h && h in c.tree.details && b.hash != h
    && b.hash != ZERO_HASH
    && b.hash in c.tree.details && b.number == c.tree.details[h].number + 1
    && c.tree.details[b.hash] ==
       BlockDetails(b.number, c.tree.details[h].totalDifficulty + b.difficulty, h, c.tree.details[b.hash].children)
    && b.number in c.hashes && c.hashes[b.number] == b.hash
  }

  /** Putting a block back in its place changes nothing but children. */
  lemma GrowAgain(c: Chain, ti: Tree, b: Block, h: Hash)
    requires SameButChildren(c.tree, ti) && StandsOn(c, b, h)
    ensures SameButChildren(c.tree, Grow(ti, b)) && Grow(ti, b).details[b.hash].children == []
  {
  }

  /** Writing a block makes up for its loss. */
  lemma WriteAgain(blocks: map<Hash, Block>, lost: set<Hash>, b: Block)
    requires b.hash in blocks && blocks[b.hash] == b
    ensures (blocks - lost)[b.hash := b] == blocks - (lost - {b.hash})
  {
  }

  ghost predicate Indexes(p: seq<Hash>, hashes: map<nat, Hash>) {
    forall i :: 0 <= i < |p| ==> i in hashes && hashes[i] == p[i]
  }

  /** Numbering a stretch of an indexed path again changes nothing. */
  lemma NumberAgain(p: seq<Hash>, hashes: map<nat, Hash>, k: nat, n: nat)
    requires k <= n < |p| && Indexes(p, hashes)
    ensures hashes + Numbered(k, p[..n][k..])[n := p[n]] == hashes
  {
    var u := Numbered(k, p[..n][k..])[n := p[n]];
    forall i | i in u
      ensures i in hashes && hashes[i] == u[i]
    {
      NumberedAt(k, p[..n][k..], i);
      if i != n {
        assert p[..n][k..][i - k] == p[i];
      }
    }
  }

  /**
   * The blocks of the path `p` up to height `n` are in again and the best of them is at height `m`; all
   * else is as in `c` but for children and the blocks still lost.
   */
  ghost predicate BackAt(c: Chain, p: seq<Hash>, ci: Chain, m: nat, n: nat, lost: set<Hash>) {
    && SameButChildren(c.tree, ci.tree) && ci.hashes == c.hashes && ci.blocks == c.blocks - lost
    && m <= n < |p| && p[m] in c.tree.details && p[n] in c.tree.details
    && ci.best == BestBlock(p[m], m, c.tree.details[p[m]].totalDifficulty)
    && c.tree.details[p[m]].totalDifficulty == c.tree.details[p[n]].totalDifficulty
    && ci.tree.details[p[n]].children == []
  }

  /** The block at height `i` of the path stands on the one below it. */
  ghost predicate Rung(c: Chain, p: seq<Hash>, i: nat) {
    i < |p| && p[i] in c.blocks && (0 < i ==> c.blocks[p[i]].hash == p[i] && StandsOn(c, c.blocks[p[i]], p[i - 1]))
  }

  /** `p` is the canonical path of `c`, and every block stands on the one below it. */
  ghost predicate PathOf(c: Chain, p: seq<Hash>) {
    WellFormed(c) && p == CanonicalPath(c) && Indexes(p, c.hashes) && forall i: nat :: i < |p| ==> Rung(c, p, i)
  }

  /** A heavier block on top of an indexed path becomes best and changes no entry that already names it. */
  lemma HeavierAgain(t: Tree, best: BestBlock, b: Block, p: seq<Hash>, hashes: map<nat, Hash>)
    requires Rooted(t) && best.hash in t.details && b.parent in t.details && NewDifficulty(t, b) > best.totalDifficulty
    requires b.number < |p| && p[..b.number] == Path(t, b.parent) && p[b.number] == b.hash && Indexes(p, hashes)
    ensures var location := Location(t, best, b);
            && !location.Branch? && (location.BranchBecomingCanonChain? ==> location.ancestor in t.details)
            && hashes + HashesUpdate(t, b, location) == hashes
  {
    var r, k := ClimbTo(t, best.hash, b.parent);
    RouteAgain(t, r, b, k, p, hashes);
  }

  /** The climbing part of a route is the end of a path. */
  lemma ClimbTo(t: Tree, from: Hash, to: Hash) returns (r: TreeRoute, k: nat)
    requires Rooted(t) && from in t.details && to in t.details
    ensures r == Route(t, from, to) && r.index <= |r.blocks| && k <= |Path(t, to)|
    ensures r.blocks[r.index..] == Path(t, to)[k..]
    ensures r.ancestor in t.details && t.details[r.ancestor].number + 1 == k
  {
    RouteLegs(t, from, to);
    r, k := Route(t, from, to), Fork(t, from, to);
  }

  lemma RouteAgain(t: Tree, r: TreeRoute, b: Block, k: nat, p: seq<Hash>, hashes: map<nat, Hash>)
    requires r.index <= |r.blocks| && r.ancestor in t.details && t.details[r.ancestor].number + 1 == k
    requires k <= b.number < |p| && r.blocks[r.index..] == p[..b.number][k..] && p[b.number] == b.hash
    requires Indexes(p, hashes)
    ensures hashes + HashesUpdate(t, b, HeavierLocation(r)) == hashes
  {
    HeavierNumbers(t, r, b, k);
    NumberAgain(p, hashes, k, b.number);
  }

  /** The next block of the path, seen from the chain that is on its way back. */
  lemma NextFits(c: Chain, p: seq<Hash>, ti: Tree, n: nat)
    requires PathOf(c, p) && SameButChildren(c.tree, ti) && n + 1 < |p|
    ensures Rooted(ti) && p[n + 1] in c.blocks && p[n] in ti.details && Path(ti, p[n]) == p[..n + 1]
    ensures var b := c.blocks[p[n + 1]];
            b.hash == p[n + 1] && StandsOn(c, b, p[n]) && b.number == n + 1
  {
    assert Rung(c, p, n + 1);
    PathPrefix(c.tree, c.best.hash, n);
    SameRooted(c.tree, ti);
    SamePath(c.tree, ti, p[n]);
  }

  /** Importing the next block of the path makes it best if it weighs anything, and restores its header and body. */
  lemma NextBack(c: Chain, p: seq<Hash>, ci: Chain, m: nat, n: nat, lost: set<Hash>)
    returns (b: Block, cj: Chain, m': nat)
    requires PathOf(c, p) && BackAt(c, p, ci, m, n, lost) && n + 1 < |p|
    ensures p[n + 1] in c.blocks && b == c.blocks[p[n + 1]]
    ensures Standing(ci) && Importable(ci, b) && cj == Round(ci, b)
    ensures BackAt(c, p, cj, m', n + 1, lost - {p[n + 1]}) && m' == if b.difficulty > 0 then n + 1 else m
  {
    NextFits(c, p, ci.tree, n);
    b := c.blocks[p[n + 1]];
    cj, m' := RoundBack(c, p, ci, m, n, lost, b);
  }

  lemma RoundBack(c: Chain, p: seq<Hash>, ci: Chain, m: nat, n: nat, lost: set<Hash>, b: Block)
    returns (cj: Chain, m': nat)
    requires BackAt(c, p, ci, m, n, lost) && n + 1 < |p| && Rooted(ci.tree) && Indexes(p, c.hashes)
    requires b.hash == p[n + 1] && b.number == n + 1 && StandsOn(c, b, p[n]) && Path(ci.tree, p[n]) == p[..n + 1]
    ensures Standing(ci) && Importable(ci, b) && cj == Round(ci, b)
    ensures BackAt(c, p, cj, m', n + 1, lost - {p[n + 1]}) && m' == if b.difficulty > 0 then n + 1 else m
  {
    GrowAgain(c, ci.tree, b, p[n]);
    WriteAgain(c.blocks, lost, b);
    if b.difficulty > 0 {
      HeavierAgain(ci.tree, ci.best, b, p, c.hashes);
    }
    cj := RoundAgain(ci, b);
    m' := if b.difficulty > 0 then n + 1 else m;
  }

  /** A round whose renumbering changes nothing. */
  lemma RoundAgain(ci: Chain, b: Block) returns (cj: Chain)
    requires Standing(ci) && Importable(ci, b) && ci.tree.details[b.parent].children == []
    requires var location := Location(ci.tree, ci.best, b);
             NewDifficulty(ci.tree, b) > ci.best.totalDifficulty ==>
               && !location.Branch? && (location.BranchBecomingCanonChain? ==> location.ancestor in ci.tree.details)
               && ci.hashes + HashesUpdate(ci.tree, b, location) == ci.hashes
    ensures cj == Round(ci, b) && cj.tree == Grow(ci.tree, b) && cj.hashes == ci.hashes
    ensures cj.blocks == ci.blocks[b.hash := b]
    ensures cj.best == if NewDifficulty(ci.tree, b) > ci.best.totalDifficulty then
                         BestBlock(b.hash, b.number, NewDifficulty(ci.tree, b))
                       else ci.best
  {
    cj := Round(ci, b);
    if NewDifficulty(ci.tree, b) <= ci.best.totalDifficulty {
      assert ci.hashes + map[] == ci.hashes;
    }
  }

  // ---------------------------------------------------------------------------------------------
  // The way back

  ghost predicate AllStored(blocks: map<Hash, Block>, hs: seq<Hash>) {
    forall i :: 0 <= i < |hs| ==> hs[i] in blocks
  }

  lemma PathStored(c: Chain, p: seq<Hash>)
    requires PathOf(c, p)
    ensures AllStored(c.blocks, p)
  {
    forall i | 0 <= i < |p|
      ensures p[i] in c.blocks
    {
      assert Rung(c, p, i);
    }
  }

  /** The blocks of the given hashes. */
  ghost function BlocksOf(blocks: map<Hash, Block>, hs: seq<Hash>): seq<Block>
    requires AllStored(blocks, hs)
  {
    if hs == [] then [] else [blocks[hs[0]]] + BlocksOf(blocks, hs[1..])
  }

  lemma FirstOf(blocks: map<Hash, Block>, p: seq<Hash>, n: nat)
    requires n < |p| && AllStored(blocks, p)
    ensures BlocksOf(blocks, p[n..]) == [blocks[p[n]]] + BlocksOf(blocks, p[n + 1..])
  {
    assert p[n..][1..] == p[n + 1..];
  }

  lemma StillLostStep(lost: set<Hash>, p: seq<Hash>, n: nat)
    requires n < |p|
    ensures StillLost(lost - {p[n]}, p[n + 1..]) == StillLost(lost, p[n..])
  {
    assert p[n..] == [p[n]] + p[n + 1..];
  }

  /** Importing the blocks of the path above height `n` leads from `ci` to `last`; what is lost shrinks to `left`. */
  ghost predicate Leads(blocks: map<Hash, Block>, p: seq<Hash>, n: nat, ci: Chain, lost: set<Hash>, last: Chain,
                        left: set<Hash>) {
    && n < |p| && AllStored(blocks, p) && left == StillLost(lost, p[n + 1..])
    && ImportableRun(ci, BlocksOf(blocks, p[n + 1..])) && last == Run(ci, BlocksOf(blocks, p[n + 1..]))
  }

  lemma LeadsNowhere(blocks: map<Hash, Block>, p: seq<Hash>, ci: Chain, lost: set<Hash>)
    requires p != [] && AllStored(blocks, p)
    ensures Leads(blocks, p, |p| - 1, ci, lost, ci, lost)
  {
    assert StillLost(lost, p[|p|..]) == lost;
  }

  lemma LeadsFirst(blocks: map<Hash, Block>, p: seq<Hash>, n: nat, ci: Chain, lost: set<Hash>, b: Block, last: Chain,
                   left: set<Hash>)
    requires n + 1 < |p| && p[n + 1] in blocks && b == blocks[p[n + 1]] && Standing(ci) && Importable(ci, b)
    requires Leads(blocks, p, n + 1, Round(ci, b), lost - {p[n + 1]}, last, left)
    ensures Leads(blocks, p, n, ci, lost, last, left)
  {
    FirstOf(blocks, p, n + 1);
    StillLostStep(lost, p, n + 1);
    RunCons(ci, b, BlocksOf(blocks, p[n + 2..]));
  }

  lemma {:induction false} WayBack(c: Chain, p: seq<Hash>, ci: Chain, m: nat, n: nat, lost: set<Hash>)
    returns (last: Chain, m': nat, left: set<Hash>)
    requires PathOf(c, p) && BackAt(c, p, ci, m, n, lost)
    ensures Leads(c.blocks, p, n, ci, lost, last, left) && BackAt(c, p, last, m', |p| - 1, left)
    ensures m' == |p| - 1 <==> if n + 1 == |p| then m == n else c.blocks[p[|p| - 1]].difficulty > 0
    decreases |p| - n
  {
    if n + 1 == |p| {
      last, m', left := ci, m, lost;
      PathStored(c, p);
      LeadsNowhere(c.blocks, p, ci, lost);
    } else {
      var b, cj, mj := NextBack(c, p, ci, m, n, lost);
      last, m', left := WayBack(c, p, cj, mj, n + 1, lost - {p[n + 1]});
      LeadsFirst(c.blocks, p, n, ci, lost, b, last, left);
    }
  }

  /** The block of the canonical path at height `i` stands on the one below it. */
  lemma PathStands(c: Chain, i: nat)
    requires Valid(c) && 0 < i <= c.best.number
    ensures var p := CanonicalPath(c);
            p[i] in c.blocks && c.blocks[p[i]].hash == p[i] && StandsOn(c, c.blocks[p[i]], p[i - 1])
  {
    var p := CanonicalPath(c);
    PathPrefix(c.tree, c.best.hash, i);
    PathPrefix(c.tree, c.best.hash, i - 1);
    PathParent(c.tree, c.best.hash, i);
    assert DetailsOf(c.tree, c.blocks, p[i]);
    assert DetailsOf(c.tree, c.blocks, c.tree.genesis);
    assert i in c.hashes && c.hashes[i] == p[i];
  }

  lemma ValidPath(c: Chain)
    requires Valid(c)
    ensures PathOf(c, CanonicalPath(c))
  {
    var p := CanonicalPath(c);
    PathKnown(c.tree, c.best.hash);
    forall i: nat | i < |p|
      ensures Rung(c, p, i)
    {
      if 0 < i {
        PathStands(c, i);
      }
    }
  }

  /** The canonical blocks above height `k`, oldest first. */
  ghost function Dropped(c: Chain, k: nat): seq<Block>
    requires WellFormed(c) && k <= c.tree.details[c.best.hash].number
  {
    PathKnown(c.tree, c.best.hash);
    BlocksOf(c.blocks, CanonicalPath(c)[k + 1..])
  }

  /** Right after the restart. */
  lemma StartsBack(c: Chain, p: seq<Hash>, lost: set<Hash>, k: nat)
    requires PathOf(c, p) && k < |p|
    ensures p[k] in c.tree.details && BackAt(c, p, RestartedAt(c, lost, p[k]), k, k, lost)
  {
    PathPrefix(c.tree, c.best.hash, k);
  }

  lemma SameBestIff(c: Chain, p: seq<Hash>, last: Chain, m: nat, left: set<Hash>)
    requires Standing(c) && p == CanonicalPath(c) && BestMatches(c.tree, c.best)
    requires BackAt(c, p, last, m, |p| - 1, left)
    ensures last.best == c.best <==> m == |p| - 1
  {
  }

  /**
   * Whatever headers and bodies are lost, after the best block is reset to any block of its own chain,
   * importing the dropped blocks again, in order, brings back number index, details but for the lists of
   * children, and the headers and bodies of all these blocks; the same block is best again if and only if
   * none was dropped or it weighs something.
   */
  lemma ReimportRestores(c: Chain, lost: set<Hash>, k: nat) returns (ci: Chain, last: Chain)
    requires Valid(c) && k <= c.best.number
    ensures CanonicalPath(c)[k] in c.tree.details && ci == RestartedAt(c, lost, CanonicalPath(c)[k])
    ensures ImportableRun(ci, Dropped(c, k)) && last == Run(ci, Dropped(c, k))
    ensures last.hashes == c.hashes && SameButChildren(c.tree, last.tree)
    ensures last.blocks == c.blocks - StillLost(lost, CanonicalPath(c)[k + 1..])
    ensures last.best == c.best <==> k == c.best.number || c.blocks[c.best.hash].difficulty > 0
  {
    var p := CanonicalPath(c);
    ValidPath(c);
    StartsBack(c, p, lost, k);
    ci := RestartedAt(c, lost, p[k]);
    var m, left;
    last, m, left := WayBack(c, p, ci, k, k, lost);
    SameBestIff(c, p, last, m, left);
  }

  // ---------------------------------------------------------------------------------------------
  // The repair

  /** The columns hold the chain: its details and best block, and both header and body of exactly its blocks. */
  ghost predicate Represents(columns: Columns, c: Chain) {
    && columns.tree == c.tree && columns.best == Some(c.best.hash) && Ready(columns)
    && forall h :: h in c.tree.details ==> (h in columns.headers && h in columns.bodies <==> h in c.blocks)
  }

  /** None of the last hundred blocks up to height `k`, the genesis aside, is lost. */
  ghost predicate WindowKept(p: seq<Hash>, lost: set<Hash>, k: nat) {
    forall i :: 0 < i <= k && i > k - WINDOW && i < |p| ==> p[i] !in lost
  }

  lemma SoundIffKept(c: Chain, lost: set<Hash>, columns: Columns, k: nat)
    requires WellFormed(c) && Represents(columns, Damaged(c, lost)) && k < |CanonicalPath(c)|
    ensures Sound(columns, CanonicalPath(c)[..k + 1]) <==> WindowKept(CanonicalPath(c), lost, k)
  {
    var p := CanonicalPath(c);
    PathKnown(c.tree, c.best.hash);
    forall i | 0 <= i <= k
      ensures Intact(columns, p[..k + 1][i]) <==> p[i] !in lost
    {
      assert p[..k + 1][i] == p[i] && p[i] in c.tree.details;
    }
    if Sound(columns, p[..k + 1]) {
      forall i | 0 < i <= k && i > k - WINDOW
        ensures p[i] !in lost
      {
        assert Intact(columns, p[..k + 1][i]);
      }
    }
  }

  /** A window that moves up by one block can only miss that block. */
  lemma WindowStep(p: seq<Hash>, lost: set<Hash>, k: nat)
    requires k + 1 < |p| && WindowKept(p, lost, k) && !WindowKept(p, lost, k + 1)
    ensures p[k + 1] in lost
  {
  }

  /** The repair acts if and only if one of the last hundred blocks of the chain is lost. */
  lemma RepairActsIff(c: Chain, lost: set<Hash>, columns: Columns)
    requires WellFormed(c) && BestMatches(c.tree, c.best) && Represents(columns, Damaged(c, lost))
    ensures Repaired(columns) == Some(columns) <==> WindowKept(CanonicalPath(c), lost, c.best.number)
  {
    var p := CanonicalPath(c);
    SoundIffKept(c, lost, columns, c.best.number);
    assert p[..|p|] == p;
    EndsAtBest(c.tree, c.best.hash, SoundLength(columns, p));
    if !Sound(columns, p) {
      assert RepairedBest(columns) != c.best.hash;
    }
  }

  /** The repaired columns hold the chain restarted at the block the repair found. */
  lemma RestartRepresented(c: Chain, lost: set<Hash>, columns: Columns, h: Hash)
    requires WellFormed(c) && Represents(columns, Damaged(c, lost)) && h == RepairedBest(columns)
    requires Repaired(columns).Some? && Repaired(columns).value != columns
    ensures h in c.tree.details && Represents(Repaired(columns).value, RestartedAt(c, lost, h))
  {
    RepairSettles(columns);
    PathKnown(c.tree, c.best.hash);
  }

  /** The repair stops below a lost block, with a kept window behind it. */
  lemma StopsBelowLost(c: Chain, lost: set<Hash>, columns: Columns, n: nat)
    requires WellFormed(c) && Represents(columns, Damaged(c, lost))
    requires n == SoundLength(columns, CanonicalPath(c)) < |CanonicalPath(c)|
    ensures CanonicalPath(c)[n] in lost && WindowKept(CanonicalPath(c), lost, n - 1)
  {
    SoundLengthIsHighest(columns, CanonicalPath(c));
    SoundIffKept(c, lost, columns, n - 1);
    SoundIffKept(c, lost, columns, n);
    WindowStep(CanonicalPath(c), lost, n - 1);
  }

  /**
   * Where the repair acts and does not give up, the damaged chain comes up again at the block below a lost
   * one, and the hundred blocks before that are kept.
   */
  lemma RepairRestarts(c: Chain, lost: set<Hash>, columns: Columns) returns (k: nat)
    requires WellFormed(c) && BestMatches(c.tree, c.best) && Represents(columns, Damaged(c, lost))
    requires Repaired(columns).Some? && Repaired(columns).value != columns
    ensures k < c.best.number && CanonicalPath(c)[k] in c.tree.details
    ensures Represents(Repaired(columns).value, RestartedAt(c, lost, CanonicalPath(c)[k]))
    ensures CanonicalPath(c)[k + 1] in lost && WindowKept(CanonicalPath(c), lost, k)
  {
    k := SoundLength(columns, CanonicalPath(c)) - 1;
    RestartRepresented(c, lost, columns, CanonicalPath(c)[k]);
    EndsAtBest(c.tree, c.best.hash, k + 1);
    StopsBelowLost(c, lost, columns, k + 1);
  }

  /** What is in again above a kept window makes a kept window. */
  lemma WindowGrows(p: seq<Hash>, lost: set<Hash>, k: nat)
    requires k < |p| && WindowKept(p, lost, k)
    ensures WindowKept(p, StillLost(lost, p[k + 1..]), |p| - 1)
  {
    forall i | 0 < i < |p| && i > |p| - 1 - WINDOW
      ensures p[i] !in StillLost(lost, p[k + 1..])
    {
      if i > k {
        SuffixAt(p, k + 1, i);
      }
    }
  }

  /** Once the dropped blocks are in again, the repair finds nothing to do. */
  lemma RecoveredNeedsNoRepair(c: Chain, lost: set<Hash>, k: nat, last: Chain, columns: Columns)
    requires WellFormed(c) && BestMatches(c.tree, c.best) && k <= c.best.number && WindowKept(CanonicalPath(c), lost, k)
    requires last.best == c.best && SameButChildren(c.tree, last.tree)
    requires last.blocks == c.blocks - StillLost(lost, CanonicalPath(c)[k + 1..]) && Represents(columns, last)
    ensures Repaired(columns) == Some(columns)
  {
    var p := CanonicalPath(c);
    SameRooted(c.tree, last.tree);
    SamePath(c.tree, last.tree, c.best.hash);
    WindowGrows(p, lost, k);
    var whole := last.(blocks := c.blocks);
    assert last == Damaged(whole, StillLost(lost, p[k + 1..]));
    RepairActsIff(whole, StillLost(lost, p[k + 1..]), columns);
  }

  // ---------------------------------------------------------------------------------------------
  // Chains the node can have

  /** A best block other than the genesis weighs something. */
  ghost predicate BestWeighs(c: Chain) {
    c.best.hash in c.blocks && (c.best.hash == c.tree.genesis || c.blocks[c.best.hash].difficulty > 0)
  }

  lemma HeaviestParent(c: Chain, order: seq<Hash>, x: Hash)
    requires BestMatches(c.tree, c.best) && FirstHeaviest(c.tree, c.best.hash, order) && x in c.tree.details
    ensures c.tree.details[x].totalDifficulty <= c.best.totalDifficulty
  {
    var i: nat :| FirstHeaviestAt(c.tree, order, i) && order[i] == c.best.hash;
    var j :| 0 <= j < |order| && order[j] == x;
    assert NoHeavier(c.tree, order[i], order[j]);
  }

  lemma RoundBestWeighs(c: Chain, b: Block, order: seq<Hash>)
    requires Valid(c) && Importable(c, b) && BestWeighs(c) && FirstHeaviest(c.tree, c.best.hash, order)
    ensures BestWeighs(Round(c, b))
  {
    KnownIffChild(c, b);
    if b.hash !in c.blocks {
      RoundTree(c, b);
      HeaviestParent(c, order, b.parent);
      if NewDifficulty(c.tree, b) > c.best.totalDifficulty {
        HeavierRound(c, b);
      } else {
        LighterRound(c, b);
      }
    }
  }

  lemma {:induction false} RunBestWeighs(c: Chain, bs: seq<Block>, order: seq<Hash>) returns (last: Chain)
    requires Valid(c) && ImportableRun(c, bs) && BestWeighs(c) && FirstHeaviest(c.tree, c.best.hash, order)
    ensures last == Run(c, bs) && Valid(last) && BestWeighs(last)
    decreases |bs|
  {
    last := c;
    if bs != [] {
      RoundBestWeighs(c, bs[0], order);
      var c1 := NextFirstHeaviest(c, bs[0], order);
      last := RunBestWeighs(c1, bs[1..], order + Arrival(c, bs[0]));
    }
  }

  lemma ReachableBestWeighs(genesis: Block, bs: seq<Block>) returns (last: Chain)
    requires ValidGenesis(genesis) && ImportableRun(InitialChain(genesis), bs)
    ensures last == Run(InitialChain(genesis), bs) && Valid(last) && BestWeighs(last)
  {
    var c, order := InitialChain(genesis), [genesis.hash];
    InitialValid(genesis);
    assert FirstHeaviestAt(c.tree, order, 0) && order[0] == c.best.hash;
    last := RunBestWeighs(c, bs, order);
  }

  /**
   * Whatever run led to the chain and whatever it lost, if the repair acts and does not give up, the dropped
   * blocks can be imported again, and then best block, number index and details are as before but for the
   * lists of children, the headers and bodies of the dropped blocks are back, and the repair has nothing
   * more to do.
   */
  lemma RepairThenReimport(genesis: Block, bs: seq<Block>, lost: set<Hash>, columns: Columns)
    returns (c: Chain, k: nat, ci: Chain, last: Chain)
    requires ValidGenesis(genesis) && ImportableRun(InitialChain(genesis), bs)
    requires Represents(columns, Damaged(Run(InitialChain(genesis), bs), lost))
    requires Repaired(columns).Some? && Repaired(columns).value != columns
    ensures c == Run(InitialChain(genesis), bs) && Valid(c) && k < c.best.number && CanonicalPath(c)[k + 1] in lost
    ensures CanonicalPath(c)[k] in c.tree.details && ci == RestartedAt(c, lost, CanonicalPath(c)[k])
    ensures Represents(Repaired(columns).value, ci)
    ensures ImportableRun(ci, Dropped(c, k)) && last == Run(ci, Dropped(c, k))
    ensures last.best == c.best && last.hashes == c.hashes && SameButChildren(c.tree, last.tree)
    ensures last.blocks == c.blocks - StillLost(lost, CanonicalPath(c)[k + 1..])
    ensures forall columns' :: Represents(columns', last) ==> Repaired(columns') == Some(columns')
  {
    c := ReachableBestWeighs(genesis, bs);
    k := RepairRestarts(c, lost, columns);
    NotGenesis(c);
    ci, last := ReimportRestores(c, lost, k);
    forall columns' | Represents(columns', last)
      ensures Repaired(columns') == Some(columns')
    {
      RecoveredNeedsNoRepair(c, lost, k, last, columns');
    }
  }

  lemma NotGenesis(c: Chain)
    requires WellFormed(c) && BestMatches(c.tree, c.best) && c.best.number > 0
    ensures c.best.hash != c.tree.genesis
  {
    EndsAtBest(c.tree, c.best.hash, 1);
  }
}
