/**
 * The check of the block database at start-up, and the reset of the best block when headers or bodies
 * are missing (core/src/service.rs, `check_db` and `correct_db`).
 */
module Repair {
  import opened Basics
  import opened BlockTree

  const WINDOW: nat := 100

  /** The columns the repair reads: details, decoded headers (their numbers), bodies, the best hash, the latest era. */
  datatype Columns = Columns(tree: Tree, headers: map<Hash, nat>, bodies: set<Hash>, best: Option<Hash>,
                             latestEra: Option<nat>)

  /** The block's header and body are both stored. */
  predicate Intact(c: Columns, h: Hash) {
    h in c.headers && h in c.bodies
  }

  /** The last hundred blocks of a path, the genesis aside, are intact. */
  ghost predicate Sound(c: Columns, p: seq<Hash>) {
    forall i :: 0 < i < |p| && i >= |p| - WINDOW ==> Intact(c, p[i])
  }

  /** How much of a path to keep: up to the highest block that ends a sound path. */
  ghost function SoundLength(c: Columns, p: seq<Hash>): (n: nat)
    requires p != []
    ensures 0 < n <= |p|
  {
    if Sound(c, p) then |p| else SoundLength(c, p[..|p| - 1])
  }

  lemma {:induction false} SoundLengthIsHighest(c: Columns, p: seq<Hash>)
    requires p != []
    ensures Sound(c, p[..SoundLength(c, p)])
    ensures forall m :: SoundLength(c, p) < m <= |p| ==> !Sound(c, p[..m])
  {
    assert p[..|p|] == p;
    if !Sound(c, p) {
      var q := p[..|p| - 1];
      SoundLengthIsHighest(c, q);
      assert forall m :: 0 <= m <= |q| ==> q[..m] == p[..m];
    }
  }

  /** A missing block in the window spoils every path that ends at it or above it. */
  lemma {:induction false} SkipUnsound(c: Columns, p: seq<Hash>, j: nat)
    requires 0 < j < |p| && j >= |p| - WINDOW && !Intact(c, p[j])
    ensures SoundLength(c, p) == SoundLength(c, p[..j])
    decreases |p|
  {
    assert !Sound(c, p);
    var q := p[..|p| - 1];
    if j < |q| {
      SkipUnsound(c, q, j);
      assert q[..j] == p[..j];
    } else {
      assert q == p[..j];
    }
  }

  /** What the repair does: the best block becomes the highest one on its own chain that ends a sound path. */
  ghost function RepairedBest(c: Columns): (best: Hash)
    requires Rooted(c.tree) && c.best.Some? && c.best.value in c.tree.details
  {
    var p := Path(c.tree, c.best.value);
    p[SoundLength(c, p) - 1]
  }

  ghost predicate Ready(c: Columns) {
    && Rooted(c.tree)
    && (c.best.Some? ==> c.best.value in c.tree.details)
    && forall h :: h in c.headers && h in c.tree.details ==> c.headers[h] == c.tree.details[h].number
  }

  /** Forgetting the children of a block changes no path. */
  function WithoutChildren(t: Tree, h: Hash): Tree
    requires h in t.details
  {
    t.(details := t.details[h := t.details[h].(children := [])])
  }

  lemma {:induction false} WithoutChildrenPath(t: Tree, h: Hash, x: Hash)
    requires Rooted(t) && h in t.details && x in t.details
    ensures Rooted(WithoutChildren(t, h)) && Path(WithoutChildren(t, h), x) == Path(t, x)
    decreases t.details[x].number
  {
    if x != t.genesis {
      WithoutChildrenPath(t, h, t.details[x].parent);
    }
  }

  /** The columns after the repair, or none when the header to reset to is missing. */
  ghost function Repaired(c: Columns): (r: Option<Columns>)
    requires Ready(c)
  {
    if c.best.None? || RepairedBest(c) == c.best.value then Some(c)
    else
      var best := RepairedBest(c);
      assert best in Path(c.tree, c.best.value);
      if best !in c.headers then None
      else
        PathKnown(c.tree, c.best.value);
        Some(c.(tree := WithoutChildren(c.tree, best), best := Some(best), latestEra := Some(c.headers[best])))
  }

  /** The path of the repaired best block is the part of the old one to keep. */
  lemma RepairedPath(c: Columns)
    requires Ready(c) && c.best.Some? && Repaired(c).Some?
    ensures var c' := Repaired(c).value; var p := Path(c.tree, c.best.value);
            && Rooted(c'.tree) && c'.best.Some? && c'.best.value in c'.tree.details
            && RepairedBest(c) in c.tree.details && Path(c'.tree, c'.best.value) == p[..SoundLength(c, p)]
  {
    var p := Path(c.tree, c.best.value);
    PathUpTo(c.tree, c.best.value, SoundLength(c, p));
  }

  lemma PathUpTo(t: Tree, h: Hash, n: nat)
    requires Rooted(t) && h in t.details && 0 < n <= |Path(t, h)|
    ensures var p := Path(t, h); var x := p[n - 1];
            && x in t.details && Path(t, x) == p[..n]
            && Rooted(WithoutChildren(t, x)) && Path(WithoutChildren(t, x), x) == p[..n]
            && (x == h ==> p[..n] == p)
  {
    var p := Path(t, h);
    PathPrefix(t, h, n - 1);
    WithoutChildrenPath(t, p[n - 1], p[n - 1]);
    PathNoDuplicates(t, h);
    assert p[|p| - 1] == h;
  }

  /** Header and body of each of the last hundred blocks of the path, the genesis aside, are there. */
  ghost predicate Stocked(c: Columns, p: seq<Hash>) {
    forall i :: 0 < i < |p| && i >= |p| - 100 ==> p[i] in c.headers.Keys && p[i] in c.bodies
  }

  lemma SoundIsStocked(c: Columns, p: seq<Hash>)
    ensures Sound(c, p) <==> Stocked(c, p)
  {
    if Stocked(c, p) {
      forall i | 0 < i < |p| && i >= |p| - WINDOW
        ensures Intact(c, p[i])
      {
      }
    }
  }

  /**
   * The repaired database has a sound chain behind a best block that is an ancestor-or-self of the old
   * one, no higher ancestor would do, and the state era follows it.
   */
  lemma RepairSettles(c: Columns)
    requires Ready(c) && c.best.Some? && Repaired(c).Some?
    ensures var c' := Repaired(c).value; var p := Path(c.tree, c.best.value);
            && Ready(c') && c'.best.Some? && Path(c'.tree, c'.best.value) <= p
            && Sound(c', Path(c'.tree, c'.best.value))
            && (forall n :: |Path(c'.tree, c'.best.value)| < n <= |p| ==> !Sound(c, p[..n]))
            && Stocked(c', Path(c'.tree, c'.best.value))
            && (c' == c || c'.latestEra == Some(c'.tree.details[c'.best.value].number))
  {
    RepairedPath(c);
    SoundLengthIsHighest(c, Path(c.tree, c.best.value));
    var c' := Repaired(c).value;
    SoundIsStocked(c', Path(c'.tree, c'.best.value));
    forall h | h in c'.headers && h in c'.tree.details
      ensures c'.headers[h] == c'.tree.details[h].number
    {
      assert h in c.tree.details && c.headers[h] == c.tree.details[h].number;
    }
  }

  /** Repairing a second time changes nothing. */
  lemma RepairIdempotent(c: Columns)
    requires Ready(c) && Repaired(c).Some?
    ensures Ready(Repaired(c).value) && Repaired(Repaired(c).value) == Some(Repaired(c).value)
  {
    if c.best.Some? {
      RepairSettles(c);
      var c' := Repaired(c).value;
      var p := Path(c'.tree, c'.best.value);
      assert SoundLength(c', p) == |p|;
      assert p[|p| - 1] == c'.best.value;
    }
  }

  /** The repair gives up exactly when nothing above the genesis ends a sound path and the genesis header is lost. */
  lemma RepairFailsIff(c: Columns)
    requires Ready(c)
    ensures Repaired(c).None? <==>
            && c.best.Some? && c.best.value != c.tree.genesis && c.tree.genesis !in c.headers
            && NothingSound(c, Path(c.tree, c.best.value))
  {
    if c.best.Some? {
      var p := Path(c.tree, c.best.value);
      NothingSoundIff(c, p);
      ResetHeader(c, p);
      EndsAtBest(c.tree, c.best.value, SoundLength(c, p));
    }
  }

  /** Nothing above the first block of the path ends a sound path. */
  ghost predicate NothingSound(c: Columns, p: seq<Hash>) {
    forall n :: 1 < n <= |p| ==> !Sound(c, p[..n])
  }

  lemma NothingSoundIff(c: Columns, p: seq<Hash>)
    requires p != []
    ensures NothingSound(c, p) <==> SoundLength(c, p) == 1
  {
    SoundLengthIsHighest(c, p);
  }

  /** A block other than the first that the repair resets to has its header. */
  lemma ResetHeader(c: Columns, p: seq<Hash>)
    requires p != []
    ensures SoundLength(c, p) > 1 ==> p[SoundLength(c, p) - 1] in c.headers
  {
    var n := SoundLength(c, p);
    SoundLengthIsHighest(c, p);
    if n > 1 {
      assert p[..n][n - 1] == p[n - 1] && Intact(c, p[..n][n - 1]);
    }
  }

  /** A block is at the end of its own path, and nowhere else on it. */
  lemma EndsAtBest(t: Tree, h: Hash, n: nat)
    requires Rooted(t) && h in t.details && 0 < n <= |Path(t, h)|
    ensures Path(t, h)[n - 1] == h <==> n == |Path(t, h)|
    ensures Path(t, h)[0] == t.genesis && (h == t.genesis <==> |Path(t, h)| == 1)
  {
    PathNoDuplicates(t, h);
    HeightZero(t, h);
  }

  /** One block on the genesis block, and neither header nor body of either: the repair gives up. */
  lemma RepairGivesUp()
    ensures var g, b := BlockDetails(0, 1, ZERO_HASH, [Hash(2)]), BlockDetails(1, 2, Hash(1), []);
            var c := Columns(Tree(Hash(1), map[Hash(1) := g, Hash(2) := b]), map[], {}, Some(Hash(2)), None);
            Ready(c) && Repaired(c).None?
  {
    var g, b := BlockDetails(0, 1, ZERO_HASH, [Hash(2)]), BlockDetails(1, 2, Hash(1), []);
    var t := Tree(Hash(1), map[Hash(1) := g, Hash(2) := b]);
    var c := Columns(t, map[], {}, Some(Hash(2)), None);
    assert Rooted(t) && Ready(c);
    var p := Path(t, Hash(2));
    assert |p| == 2 && p[..2] == p;
    assert !Intact(c, p[1]) && !Sound(c, p);
    assert NothingSound(c, p);
    RepairFailsIff(c);
  }

  /** Each block of `p` is the parent of the next. */
  ghost predicate Linked(t: Tree, p: seq<Hash>) {
    forall i {:trigger p[i]} :: 0 <= i < |p| ==> p[i] in t.details && (0 < i ==> t.details[p[i]].parent == p[i - 1])
  }

  lemma PathLinked(t: Tree, h: Hash)
    requires Rooted(t) && h in t.details
    ensures Linked(t, Path(t, h))
  {
    var p := Path(t, h);
    forall i | 0 <= i < |p|
      ensures p[i] in t.details && (0 < i ==> t.details[p[i]].parent == p[i - 1])
    {
      PathPrefix(t, h, i);
      if 0 < i {
        PathParent(t, h, i);
      }
    }
  }

  ghost predicate IntactFrom(c: Columns, p: seq<Hash>, k: nat) {
    forall i :: k <= i < |p| ==> Intact(c, p[i])
  }

  lemma IntactFromGrows(c: Columns, p: seq<Hash>, k: nat)
    requires k < |p| && IntactFrom(c, p, k + 1) && Intact(c, p[k])
    ensures IntactFrom(c, p, k)
  {
  }

  lemma WindowPassed(c: Columns, p: seq<Hash>, k: nat)
    requires p != [] && IntactFrom(c, p, k) && (k <= 1 || k <= |p| - WINDOW)
    ensures SoundLength(c, p) == |p|
  {
    assert Sound(c, p);
  }

  /** Loop state of `check_db`: `hash` is `loopEnd` blocks down, and everything above it is intact. */
  ghost predicate Walking(c: Columns, p: seq<Hash>, hash: Hash, loopEnd: nat) {
    loopEnd < |p| && loopEnd <= WINDOW && hash == p[|p| - 1 - loopEnd] && IntactFrom(c, p, |p| - loopEnd)
  }

  lemma WalkOn(c: Columns, p: seq<Hash>, hash: Hash, loopEnd: nat)
    requires Linked(c.tree, p) && Walking(c, p, hash, loopEnd) && loopEnd < WINDOW && loopEnd + 1 < |p|
             && Intact(c, hash)
    ensures hash in c.tree.details && Walking(c, p, c.tree.details[hash].parent, loopEnd + 1)
  {
    IntactFromGrows(c, p, |p| - 1 - loopEnd);
  }

  /** The loop of `check_db`: the first block of the window, going down, that is not intact, and how far down it is. */
  method WalkWindow(c: Columns, bestNumber: nat, bestHash: Hash, ghost p: seq<Hash>)
    returns (hash: Hash, loopEnd: nat, missing: bool)
    requires Linked(c.tree, p) && |p| == bestNumber + 1 && p[bestNumber] == bestHash
    ensures Walking(c, p, hash, loopEnd)
    ensures missing ==> loopEnd < WINDOW && loopEnd < bestNumber && !Intact(c, hash)
    ensures !missing ==> loopEnd == WINDOW || loopEnd == bestNumber
  {
    loopEnd, hash := 0, bestHash;
    while loopEnd < WINDOW && bestNumber - loopEnd > 0
      invariant Walking(c, p, hash, loopEnd)
      decreases bestNumber - loopEnd
    {
      if !Intact(c, hash) {
        return hash, loopEnd, true;
      }
      WalkOn(c, p, hash, loopEnd);
      hash := c.tree.details[hash].parent;
      loopEnd := loopEnd + 1;
    }
    return hash, loopEnd, false;
  }

  /** `check_db`, on the path `p` of the block it starts from: the lowest block to drop, if any. */
  method CheckDb(c: Columns, bestNumber: nat, bestHash: Hash, ghost p: seq<Hash>) returns (breakpoint: Option<Hash>)
    requires Linked(c.tree, p) && |p| == bestNumber + 1 && p[bestNumber] == bestHash
    ensures breakpoint == if SoundLength(c, p) == |p| then None else Some(p[SoundLength(c, p)])
    decreases bestNumber
  {
    var hash, loopEnd, missing := WalkWindow(c, bestNumber, bestHash, p);
    ghost var i := bestNumber - loopEnd;
    if missing {
      SkipUnsound(c, p, i);
      breakpoint := CheckDb(c, bestNumber - loopEnd - 1, c.tree.details[hash].parent, p[..i]);
      if breakpoint.None? {
        breakpoint := Some(hash);
      }
    } else {
      WindowPassed(c, p, i + 1);
      breakpoint := None;
    }
  }

  class BlockDatabase {
    var columns: Columns

    constructor (columns: Columns)
      ensures this.columns == columns
    {
      this.columns := columns;
    }

    /** `correct_db`: false when it panics, with nothing written. */
    method CorrectDb() returns (ok: bool)
      requires Ready(columns)
      modifies this
      ensures ok == old(Repaired(columns)).Some?
      ensures columns == if ok then old(Repaired(columns)).value else old(columns)
    {
      var c := columns;
      if c.best.None? {
        return true;
      }
      var bestHash := c.best.value;
      ghost var p := Path(c.tree, bestHash);
      ghost var n := SoundLength(c, p);
      PathNoDuplicates(c.tree, bestHash);
      assert p[|p| - 1] == bestHash;
      PathLinked(c.tree, bestHash);
      var breakpoint := CheckDb(c, c.tree.details[bestHash].number, bestHash, p);
      if breakpoint.None? {
        return true;
      }
      PathParent(c.tree, bestHash, n);
      PathPrefix(c.tree, bestHash, n - 1);
      var parent := c.tree.details[breakpoint.value].parent;
      assert parent == RepairedBest(c) && parent != bestHash;
      if parent !in c.headers {
        return false;
      }
      columns := c.(tree := WithoutChildren(c.tree, parent), best := Some(parent),
                    latestEra := Some(c.headers[parent]));
      return true;
    }
  }
}
