/**
 * The stored blocks as a growing rooted tree, and the route between two of them
 * (core/src/blockchain/blockchain.rs, `tree_route`).
 */
module BlockTree {
  import opened Basics

  /** A verified block: the header fields the bookkeeping reads, and the transaction hashes of its body. */
  datatype Block = Block(hash: Hash, parent: Hash, number: nat, difficulty: nat, txs: seq<Hash>)

  /** The familial details kept for every known block. */
  datatype BlockDetails = BlockDetails(number: nat, totalDifficulty: nat, parent: Hash, children: seq<Hash>)

  /** The details column together with the hash of the genesis block. */
  datatype Tree = Tree(genesis: Hash, details: map<Hash, BlockDetails>)

  datatype TreeRoute = TreeRoute(blocks: seq<Hash>, ancestor: Hash, index: nat)

  /** Every block but the genesis hangs, one level lower, under a known parent. */
  ghost predicate Rooted(t: Tree) {
    && t.genesis in t.details
    && t.details[t.genesis].number == 0
    && t.details[t.genesis].parent !in t.details
    && forall h {:trigger t.details[h].parent} :: h in t.details && h != t.genesis ==>
                     && t.details[h].parent in t.details
                     && t.details[h].number == t.details[t.details[h].parent].number + 1
  }

  /** The chain of blocks from the genesis down to `h`, both included. */
  ghost function Path(t: Tree, h: Hash): (p: seq<Hash>)
    requires Rooted(t) && h in t.details
    ensures |p| == t.details[h].number + 1
    ensures p[0] == t.genesis && p[t.details[h].number] == h
    decreases t.details[h].number
  {
    if h == t.genesis then [h] else Path(t, t.details[h].parent) + [h]
  }

  /** `a` is `h` or one of its ancestors. */
  ghost predicate AncestorOrSelf(t: Tree, a: Hash, h: Hash)
    requires Rooted(t) && h in t.details
  {
    a in Path(t, h)
  }

  /** Cutting a path leaves the path of the block at the cut. */
  lemma {:induction false} PathPrefix(t: Tree, h: Hash, i: nat)
    requires Rooted(t) && h in t.details && i <= t.details[h].number
    ensures var p := Path(t, h); p[i] in t.details && t.details[p[i]].number == i && p[..i + 1] == Path(t, p[i])
    decreases t.details[h].number
  {
    var p := Path(t, h);
    if i == t.details[h].number {
      assert p[..i + 1] == p;
    } else {
      var q := Path(t, t.details[h].parent);
      assert p == q + [h];
      PathPrefix(t, t.details[h].parent, i);
      assert p[..i + 1] == q[..i + 1];
    }
  }

  /** The block below position `i` of a path is the child whose parent sits at `i`. */
  lemma PathParent(t: Tree, h: Hash, i: nat)
    requires Rooted(t) && h in t.details && 0 < i <= t.details[h].number
    ensures var p := Path(t, h); p[i] in t.details && p[i] != t.genesis && t.details[p[i]].parent == p[i - 1]
  {
    var p := Path(t, h);
    PathPrefix(t, h, i);
    var q := Path(t, p[i]);
    assert q == p[..i + 1];
    assert q == Path(t, t.details[p[i]].parent) + [p[i]];
    assert q[i - 1] == p[i - 1];
  }

  /** A block is its own ancestor at its own height and nowhere else. */
  lemma PathPosition(t: Tree, h: Hash, a: Hash)
    requires Rooted(t) && h in t.details
    ensures a in Path(t, h) <==>
            a in t.details && t.details[a].number <= t.details[h].number && Path(t, h)[t.details[a].number] == a
  {
    var p := Path(t, h);
    if a in p {
      var i :| 0 <= i < |p| && p[i] == a;
      PathPrefix(t, h, i);
    }
  }

  lemma PathKnown(t: Tree, h: Hash)
    requires Rooted(t) && h in t.details
    ensures forall x :: x in Path(t, h) ==> x in t.details
  {
    forall x | x in Path(t, h)
      ensures x in t.details
    {
      PathPosition(t, h, x);
    }
  }

  lemma PathNoDuplicates(t: Tree, h: Hash)
    requires Rooted(t) && h in t.details
    ensures NoDuplicates(Path(t, h))
  {
    var p := Path(t, h);
    forall i, j | 0 <= i < j < |p|
      ensures p[i] != p[j]
    {
      PathPrefix(t, h, i);
      PathPrefix(t, h, j);
    }
  }

  /** Two paths that meet at a height have been the same all the way down to it. */
  lemma PathsMeet(t: Tree, a: Hash, b: Hash, i: nat)
    requires Rooted(t) && a in t.details && b in t.details
    requires i <= t.details[a].number && i <= t.details[b].number
    requires Path(t, a)[i] == Path(t, b)[i]
    ensures Path(t, a)[..i + 1] == Path(t, b)[..i + 1]
    ensures i < CommonPrefix(Path(t, a), Path(t, b))
  {
    PathPrefix(t, a, i);
    PathPrefix(t, b, i);
    var p, q := Path(t, a), Path(t, b);
    CommonPrefixIsLongest(p, q);
    PrefixAgrees(p, q, i + 1);
  }

  /** Every two known blocks share the genesis. */
  lemma PathsShareGenesis(t: Tree, a: Hash, b: Hash)
    requires Rooted(t) && a in t.details && b in t.details
    ensures 0 < CommonPrefix(Path(t, a), Path(t, b))
  {
    PathsMeet(t, a, b, 0);
  }

  /**
   * The route from one block to another, read off the two paths: climb down from `from` to just
   * above the last common block, then climb up to `to`.
   */
  ghost function Route(t: Tree, from: Hash, to: Hash): (r: TreeRoute)
    requires Rooted(t) && from in t.details && to in t.details
  {
    PathsShareGenesis(t, from, to);
    RouteOn(Path(t, from), Path(t, to))
  }

  ghost function RouteOn(p: seq<Hash>, q: seq<Hash>): TreeRoute
    requires 0 < CommonPrefix(p, q)
  {
    var c := CommonPrefix(p, q);
    TreeRoute(Reversed(p[c..]) + q[c..], p[c - 1], |p| - c)
  }

  /** Loop state of one climbing branch: the blocks passed on the way from `top` down to `current`. */
  ghost predicate Climbed(t: Tree, top: Hash, current: Hash, branch: seq<Hash>)
    requires Rooted(t)
  {
    && top in t.details && current in t.details
    && t.details[current].number <= t.details[top].number
    && Path(t, top)[..t.details[current].number + 1] == Path(t, current)
    && branch == Reversed(Path(t, top)[t.details[current].number + 1..])
  }

  /** One more step down a branch. */
  lemma ClimbStep(t: Tree, top: Hash, current: Hash, branch: seq<Hash>)
    requires Rooted(t) && Climbed(t, top, current, branch) && current != t.genesis
    ensures Climbed(t, top, t.details[current].parent, branch + [current])
  {
    var p, n := Path(t, top), t.details[current].number;
    PathPrefix(t, current, n - 1);
    PathParent(t, current, n);
    CutLower(p, Path(t, current), n, branch);
  }

  /** Cutting one element lower moves it to the end of the reversed rest. */
  lemma CutLower<T>(p: seq<T>, q: seq<T>, n: nat, branch: seq<T>)
    requires 0 < n < |p| && p[..n + 1] == q && branch == Reversed(p[n + 1..])
    ensures p[n] == q[n] && p[..n] == q[..n] && branch + [p[n]] == Reversed(p[n..])
  {
    assert p[n] == p[..n + 1][n] && p[..n] == p[..n + 1][..n];
    var l, r := branch + [p[n]], Reversed(p[n..]);
    forall i | 0 <= i < |l|
      ensures l[i] == r[i]
    {
      assert r[i] == p[n..][|p| - n - 1 - i];
    }
  }

  /** Two blocks at height 0 are both the genesis. */
  lemma HeightZero(t: Tree, h: Hash)
    requires Rooted(t) && h in t.details
    ensures t.details[h].number == 0 <==> h == t.genesis
  {
  }

  /** The two paths hold different blocks at height `n`. */
  ghost predicate Apart(t: Tree, a: Hash, b: Hash, n: nat)
    requires Rooted(t) && a in t.details && b in t.details
  {
    n <= t.details[a].number && n <= t.details[b].number && Path(t, a)[n] != Path(t, b)[n]
  }

  /** Where the two climbs meet is where the two paths fork. */
  lemma ClimbsMeet(t: Tree, from: Hash, to: Hash, x: Hash, fromBranch: seq<Hash>, toBranch: seq<Hash>)
    requires Rooted(t) && Climbed(t, from, x, fromBranch) && Climbed(t, to, x, toBranch)
    requires fromBranch != [] && toBranch != [] ==> Apart(t, from, to, t.details[x].number + 1)
    ensures Route(t, from, to) == TreeRoute(fromBranch + Reversed(toBranch), x, |fromBranch|)
  {
    var p, q, n := Path(t, from), Path(t, to), t.details[x].number;
    assert p[n] == p[..n + 1][n] == x;
    MeetAt(p, q, n, fromBranch, toBranch);
  }

  lemma MeetAt(p: seq<Hash>, q: seq<Hash>, n: nat, down: seq<Hash>, up: seq<Hash>)
    requires n < |p| && n < |q| && p[..n + 1] == q[..n + 1] && down == Reversed(p[n + 1..])
             && up == Reversed(q[n + 1..])
    requires down != [] && up != [] ==> p[n + 1] != q[n + 1]
    ensures CommonPrefix(p, q) == n + 1 && RouteOn(p, q) == TreeRoute(down + Reversed(up), p[n], |down|)
  {
    CommonPrefixUnique(p, q, n + 1);
    ReversedTwice(q[n + 1..]);
  }

  /** Where a climb stands is the block of the starting path at that height. */
  lemma ClimbedAt(t: Tree, top: Hash, current: Hash, branch: seq<Hash>)
    requires Rooted(t) && Climbed(t, top, current, branch)
    ensures Path(t, top)[t.details[current].number] == current
  {
    assert Path(t, top)[..t.details[current].number + 1][t.details[current].number] == current;
  }

  /** First half of `tree_route`: step down from `top` until no longer above height `level`. */
  method ClimbDown(t: Tree, top: Hash, level: nat) returns (current: Hash, branch: seq<Hash>)
    requires Rooted(t) && top in t.details
    ensures Climbed(t, top, current, branch)
    ensures t.details[current].number == if t.details[top].number > level then level else t.details[top].number
  {
    current, branch := top, [];
    while t.details[current].number > level
      invariant Climbed(t, top, current, branch)
      invariant current == top || t.details[current].number >= level
      decreases t.details[current].number
    {
      ClimbStep(t, top, current, branch);
      branch := branch + [current];
      current := t.details[current].parent;
    }
  }

  /** Loop state of the second half: both climbs stand at the same height, and the paths were apart above it. */
  ghost predicate Climbing(t: Tree, from: Hash, to: Hash, x: Hash, y: Hash, fromBranch: seq<Hash>, toBranch: seq<Hash>)
    requires Rooted(t)
  {
    && Climbed(t, from, x, fromBranch) && Climbed(t, to, y, toBranch)
    && t.details[x].number == t.details[y].number
    && (fromBranch != [] && toBranch != [] ==> Apart(t, from, to, t.details[x].number + 1))
  }

  /** Two climbs that stand at the same height on different blocks take one more step each. */
  lemma ClimbBoth(t: Tree, from: Hash, to: Hash, x: Hash, y: Hash, fromBranch: seq<Hash>, toBranch: seq<Hash>)
    requires Rooted(t) && Climbing(t, from, to, x, y, fromBranch, toBranch) && x != y
    ensures t.details[x].parent in t.details && t.details[t.details[x].parent].number < t.details[x].number
    ensures Climbing(t, from, to, t.details[x].parent, t.details[y].parent, fromBranch + [x], toBranch + [y])
  {
    HeightZero(t, x);
    HeightZero(t, y);
    ClimbStep(t, from, x, fromBranch);
    ClimbStep(t, to, y, toBranch);
    ClimbedAt(t, from, x, fromBranch);
    ClimbedAt(t, to, y, toBranch);
  }

  /**
   * `tree_route`: level the two ends, then step both down together until they meet. `None` exactly
   * when an end is unknown.
   */
  method FindRoute(t: Tree, from: Hash, to: Hash) returns (r: Option<TreeRoute>)
    requires Rooted(t)
    ensures r == if from in t.details && to in t.details then Some(Route(t, from, to)) else None
  {
    if from !in t.details || to !in t.details {
      return None;
    }
    var currentFrom, fromBranch := ClimbDown(t, from, t.details[to].number);
    var currentTo, toBranch := ClimbDown(t, to, t.details[currentFrom].number);
    while currentFrom != currentTo
      invariant Climbing(t, from, to, currentFrom, currentTo, fromBranch, toBranch)
      decreases t.details[currentFrom].number
    {
      ClimbBoth(t, from, to, currentFrom, currentTo, fromBranch, toBranch);
      fromBranch := fromBranch + [currentFrom];
      currentFrom := t.details[currentFrom].parent;
      toBranch := toBranch + [currentTo];
      currentTo := t.details[currentTo].parent;
    }
    ClimbsMeet(t, from, to, currentFrom, fromBranch, toBranch);
    var index := |fromBranch|;
    fromBranch := fromBranch + Reversed(toBranch);
    r := Some(TreeRoute(fromBranch, currentFrom, index));
  }

  // ---------------------------------------------------------------------------------------------
  // Growing the tree

  /** A block that can be hung into the tree and is not there yet. */
  ghost predicate Fresh(t: Tree, b: Block) {
    && t.genesis in t.details
    && b.parent in t.details
    && b.number == t.details[b.parent].number + 1
    && b.hash !in t.details
    && b.hash != t.details[t.genesis].parent
  }

  /** `prepare_block_details_update`, applied: a new leaf, and one more child for its parent. */
  function Grow(t: Tree, b: Block): Tree
    requires b.parent in t.details
  {
    var parent := t.details[b.parent];
    t.(details := t.details
       [b.parent := parent.(children := parent.children + [b.hash])]
       [b.hash := BlockDetails(b.number, parent.totalDifficulty + b.difficulty, b.parent, [])])
  }

  /** `t'` has the blocks of `t`, at the same places, and perhaps more. */
  ghost predicate Grown(t: Tree, t': Tree) {
    && t.genesis == t'.genesis
    && forall h :: h in t.details ==>
                     && h in t'.details
                     && t'.details[h].parent == t.details[h].parent
                     && t'.details[h].number == t.details[h].number
                     && t'.details[h].totalDifficulty == t.details[h].totalDifficulty
  }

  lemma GrowRooted(t: Tree, b: Block)
    requires Rooted(t) && Fresh(t, b)
    ensures Rooted(Grow(t, b)) && Grown(t, Grow(t, b))
    ensures Grow(t, b).details.Keys == t.details.Keys + {b.hash}
  {
  }

  /** Growing the tree leaves the paths of the blocks already there alone. */
  lemma {:induction false} PathFrame(t: Tree, t': Tree, h: Hash)
    requires Rooted(t) && Rooted(t') && Grown(t, t') && h in t.details
    ensures Path(t', h) == Path(t, h)
    decreases t.details[h].number
  {
    if h != t.genesis {
      PathFrame(t, t', t.details[h].parent);
    }
  }

  /** The new leaf sits at the end of its parent's path. */
  lemma GrowPath(t: Tree, b: Block)
    requires Rooted(t) && Fresh(t, b)
    ensures Rooted(Grow(t, b)) && Path(Grow(t, b), b.hash) == Path(t, b.parent) + [b.hash]
  {
    GrowRooted(t, b);
    PathFrame(t, Grow(t, b), b.parent);
  }

  /** `x` is a child of `h`. */
  ghost predicate ChildOf(t: Tree, x: Hash, h: Hash) {
    x in t.details && x != t.genesis && t.details[x].parent == h
  }

  /** Children lists are the duplicate-free inverse of the parent relation. */
  ghost predicate ChildrenMatch(t: Tree) {
    forall h :: h in t.details ==> ChildrenOf(t, h)
  }

  ghost predicate ChildrenOf(t: Tree, h: Hash)
    requires h in t.details
  {
    && NoDuplicates(t.details[h].children)
    && forall x :: x in t.details[h].children <==> ChildOf(t, x, h)
  }

  lemma GrowChildren(t: Tree, b: Block)
    requires Rooted(t) && Fresh(t, b) && ChildrenMatch(t)
    ensures ChildrenMatch(Grow(t, b))
  {
    var t' := Grow(t, b);
    forall h | h in t'.details
      ensures ChildrenOf(t', h)
    {
      forall x
        ensures x in t'.details[h].children <==> ChildOf(t', x, h)
      {
        if h == b.hash {
          assert x in t.details && x != t.genesis ==> t.details[x].parent in t.details;
        } else {
          assert ChildrenOf(t, h);
          assert x in t.details[h].children <==> ChildOf(t, x, h);
        }
      }
      if h == b.parent {
        assert ChildrenOf(t, h);
        assert b.hash in t.details[h].children <==> ChildOf(t, b.hash, h);
      } else if h != b.hash {
        assert ChildrenOf(t, h);
      }
    }
  }
}
