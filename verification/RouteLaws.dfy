/**
 * The route of `tree_route`, characterised without reference to how it is found.
 */
module RouteLaws {
  import opened Basics
  import opened BlockTree

  /** `s` leads from `top` down to just above `bottom`, each block followed by its parent. */
  ghost predicate Descends(t: Tree, top: Hash, s: seq<Hash>, bottom: Hash)
    decreases |s|
  {
    if s == [] then top == bottom
    else s[0] == top && top in t.details && top != t.genesis && Descends(t, t.details[top].parent, s[1..], bottom)
  }

  /**
   * The blocks before the index descend from `from` to the ancestor, those after it climb from there to `to`,
   * and the route never doubles back.
   */
  ghost predicate Connects(t: Tree, from: Hash, to: Hash, r: TreeRoute) {
    && r.index <= |r.blocks|
    && Descends(t, from, r.blocks[..r.index], r.ancestor)
    && Descends(t, to, Reversed(r.blocks[r.index..]), r.ancestor)
    && (0 < r.index < |r.blocks| ==> r.blocks[r.index - 1] != r.blocks[r.index])
  }

  lemma ClimbNothing(t: Tree, top: Hash)
    requires Rooted(t) && top in t.details
    ensures Climbed(t, top, top, [])
  {
    var p := Path(t, top);
    assert p[..|p|] == p && p[|p|..] == [];
  }

  /** A climb from the parent, with one more step before it. */
  lemma ClimbFromParent(t: Tree, top: Hash, bottom: Hash, rest: seq<Hash>)
    requires Rooted(t) && top in t.details && top != t.genesis && Climbed(t, t.details[top].parent, bottom, rest)
    ensures Climbed(t, top, bottom, [top] + rest)
  {
    var q, n := Path(t, t.details[top].parent), t.details[bottom].number + 1;
    assert (q + [top])[n..] == q[n..] + [top] && (q + [top])[..n] == q[..n];
    ReversedAppend(q[n..], [top]);
    assert Reversed([top]) == [top];
  }

  lemma {:induction false} DescentIsClimb(t: Tree, top: Hash, s: seq<Hash>, bottom: Hash)
    requires Rooted(t) && top in t.details && Descends(t, top, s, bottom)
    ensures Climbed(t, top, bottom, s)
    decreases |s|
  {
    if s == [] {
      ClimbNothing(t, top);
    } else {
      DescentIsClimb(t, t.details[top].parent, s[1..], bottom);
      ClimbFromParent(t, top, bottom, s[1..]);
      assert [top] + s[1..] == s;
    }
  }

  lemma {:induction false} ClimbDescends(t: Tree, top: Hash, current: Hash, branch: seq<Hash>)
    requires Rooted(t) && Climbed(t, top, current, branch)
    ensures Descends(t, top, branch, current)
    decreases |branch|
  {
    var p, n := Path(t, top), t.details[current].number;
    ClimbedAt(t, top, current, branch);
    if n < t.details[top].number {
      HeightZero(t, top);
      var parent := t.details[top].parent;
      var q := Path(t, parent);
      assert p == q + [top];
      assert p[n + 1..] == q[n + 1..] + [top];
      ReversedAppend(q[n + 1..], [top]);
      assert Reversed([top]) == [top];
      assert branch == [top] + Reversed(q[n + 1..]);
      assert q[..n + 1] == p[..n + 1];
      assert branch[1..] == Reversed(q[n + 1..]);
      ClimbDescends(t, parent, current, branch[1..]);
    } else {
      assert p[n + 1..] == [];
    }
  }

  /** The two legs of a route are climbs that meet at the ancestor. */
  lemma RouteClimbs(t: Tree, from: Hash, to: Hash)
    requires Rooted(t) && from in t.details && to in t.details
    ensures var r := Route(t, from, to);
            && r.index <= |r.blocks|
            && Climbed(t, from, r.ancestor, r.blocks[..r.index])
            && Climbed(t, to, r.ancestor, Reversed(r.blocks[r.index..]))
            && (0 < r.index < |r.blocks| ==> r.blocks[r.index - 1] != r.blocks[r.index])
  {
    var p, q := Path(t, from), Path(t, to);
    var c := CommonPrefix(p, q);
    PathsShareGenesis(t, from, to);
    CommonPrefixIsLongest(p, q);
    var r := Route(t, from, to);
    PathPrefix(t, from, c - 1);
    PathPrefix(t, to, c - 1);
    assert p[c - 1] == p[..c][c - 1] == q[..c][c - 1] == q[c - 1];
    ReversedSame(p[c..]);
    assert r.blocks[..r.index] == Reversed(p[c..]) && r.blocks[r.index..] == q[c..];
    if 0 < r.index < |r.blocks| {
      assert r.blocks[r.index] == q[c];
      assert p[c..][0] == p[c];
      assert r.blocks[r.index - 1] == p[c];
    }
  }

  lemma RouteConnects(t: Tree, from: Hash, to: Hash)
    requires Rooted(t) && from in t.details && to in t.details
    ensures Connects(t, from, to, Route(t, from, to))
  {
    RouteClimbs(t, from, to);
    var r := Route(t, from, to);
    ClimbDescends(t, from, r.ancestor, r.blocks[..r.index]);
    ClimbDescends(t, to, r.ancestor, Reversed(r.blocks[r.index..]));
  }

  lemma LegsMeet(t: Tree, from: Hash, to: Hash, ancestor: Hash, down: seq<Hash>, up: seq<Hash>)
    requires Rooted(t) && Climbed(t, from, ancestor, down) && Climbed(t, to, ancestor, Reversed(up))
    requires down != [] && up != [] ==> down[|down| - 1] != up[0]
    ensures Route(t, from, to) == TreeRoute(down + up, ancestor, |down|)
  {
    if down != [] && up != [] {
      Fork(t, from, ancestor, down);
      Fork(t, to, ancestor, Reversed(up));
    }
    ClimbsMeet(t, from, to, ancestor, down, Reversed(up));
    ReversedTwice(up);
  }

  lemma ConnectsIsRoute(t: Tree, from: Hash, to: Hash, r: TreeRoute)
    requires Rooted(t) && from in t.details && to in t.details && Connects(t, from, to, r)
    ensures r == Route(t, from, to)
  {
    var down, up := r.blocks[..r.index], r.blocks[r.index..];
    assert down + up == r.blocks;
    LegsAreRoute(t, from, to, r.ancestor, down, up);
  }

  lemma LegsAreRoute(t: Tree, from: Hash, to: Hash, ancestor: Hash, down: seq<Hash>, up: seq<Hash>)
    requires Rooted(t) && from in t.details && to in t.details
    requires Descends(t, from, down, ancestor) && Descends(t, to, Reversed(up), ancestor)
    requires down != [] && up != [] ==> down[|down| - 1] != up[0]
    ensures Route(t, from, to) == TreeRoute(down + up, ancestor, |down|)
  {
    DescentIsClimb(t, from, down, ancestor);
    DescentIsClimb(t, to, Reversed(up), ancestor);
    LegsMeet(t, from, to, ancestor, down, up);
  }

  /** The route is the one and only way from one block to the other along parent links without doubling back. */
  lemma RouteIff(t: Tree, from: Hash, to: Hash, r: TreeRoute)
    requires Rooted(t) && from in t.details && to in t.details
    ensures r == Route(t, from, to) <==> Connects(t, from, to, r)
  {
    RouteConnects(t, from, to);
    if Connects(t, from, to, r) {
      ConnectsIsRoute(t, from, to, r);
    }
  }

  /** The last block of a climb is the one just below where it ends. */
  lemma Fork(t: Tree, top: Hash, current: Hash, branch: seq<Hash>)
    requires Rooted(t) && Climbed(t, top, current, branch) && branch != []
    ensures t.details[current].number + 1 <= t.details[top].number
    ensures Path(t, top)[t.details[current].number + 1] == branch[|branch| - 1]
  {
    ReversedSame(Path(t, top)[t.details[current].number + 1..]);
  }

  /** The way back is the same route reversed. */
  lemma RouteBack(t: Tree, from: Hash, to: Hash)
    requires Rooted(t) && from in t.details && to in t.details
    ensures var r := Route(t, from, to);
            r.index <= |r.blocks|
              && Route(t, to, from) == TreeRoute(Reversed(r.blocks), r.ancestor, |r.blocks| - r.index)
  {
    RouteConnects(t, from, to);
    var r := Route(t, from, to);
    var down, up := r.blocks[..r.index], r.blocks[r.index..];
    assert r.blocks == down + up;
    ReversedAppend(down, up);
    ReversedTwice(down);
    LegsAreRoute(t, to, from, r.ancestor, Reversed(up), Reversed(down));
  }

  /** The ancestor of the route is the deepest common one: what both ends descend from, it descends from. */
  lemma AncestorIsDeepest(t: Tree, from: Hash, to: Hash, x: Hash)
    requires Rooted(t) && from in t.details && to in t.details
    ensures Route(t, from, to).ancestor in t.details
    ensures x in Path(t, from) && x in Path(t, to) <==> x in Path(t, Route(t, from, to).ancestor)
  {
    RouteClimbs(t, from, to);
    var a := Route(t, from, to).ancestor;
    var p, q, n := Path(t, from), Path(t, to), t.details[a].number;
    var c := CommonPrefix(p, q);
    assert n == c - 1;
    if x in p && x in q {
      PathPosition(t, from, x);
      PathPosition(t, to, x);
      PathsMeet(t, from, to, t.details[x].number);
      assert p[..n + 1][t.details[x].number] == x;
    }
    if x in Path(t, a) {
      assert x in p[..n + 1] && x in q[..n + 1];
    }
  }
}
