/**
 * Folding the import routes of a batch of imports into what the whole batch enacted and retracted
 * (core/src/client/client.rs, `calculate_enacted_retracted`).
 */
module ImportRoutes {
  import opened Basics
  import opened BlockTree
  import opened Chain
  import opened ChainInvariant

  /** Every hash of the list mapped to `flag`, over what was there. */
  function Marked(m: map<Hash, bool>, hs: seq<Hash>, flag: bool): map<Hash, bool> {
    if hs == [] then m else Marked(m, hs[..|hs| - 1], flag)[hs[|hs| - 1] := flag]
  }

  /** The verdict on every hash after all routes: the last one counts. */
  function Verdicts(routes: seq<ImportRoute>): map<Hash, bool> {
    if routes == [] then map[]
    else
      var n := |routes| - 1;
      Marked(Marked(Verdicts(routes[..n]), routes[n].enacted, true), routes[n].retracted, false)
  }

  lemma {:induction false} MarkedAt(m: map<Hash, bool>, hs: seq<Hash>, flag: bool, h: Hash)
    ensures var m' := Marked(m, hs, flag);
            && (h in m' <==> h in m || h in hs)
            && (h in m' ==> m'[h] == if h in hs then flag else m[h])
  {
    if hs != [] {
      var n := |hs| - 1;
      assert hs == hs[..n] + [hs[n]];
      MarkedAt(m, hs[..n], flag, h);
    }
  }

  /** `calculate_enacted_retracted`; the order of the two result lists is unspecified, so they are sets. */
  method CalculateEnactedRetracted(routes: seq<ImportRoute>) returns (enacted: set<Hash>, retracted: set<Hash>)
    ensures enacted == set h | h in Verdicts(routes) && Verdicts(routes)[h]
    ensures retracted == set h | h in Verdicts(routes) && !Verdicts(routes)[h]
  {
    var verdicts: map<Hash, bool> := map[];
    for i := 0 to |routes|
      invariant verdicts == Verdicts(routes[..i])
    {
      var route := routes[i];
      ghost var before := verdicts;
      assert routes[..i + 1][..i] == routes[..i];
      for j := 0 to |route.enacted|
        invariant verdicts == Marked(before, route.enacted[..j], true)
      {
        assert route.enacted[..j + 1][..j] == route.enacted[..j];
        verdicts := verdicts[route.enacted[j] := true];
      }
      assert route.enacted[..|route.enacted|] == route.enacted;
      ghost var between := verdicts;
      for j := 0 to |route.retracted|
        invariant verdicts == Marked(between, route.retracted[..j], false)
      {
        assert route.retracted[..j + 1][..j] == route.retracted[..j];
        verdicts := verdicts[route.retracted[j] := false];
      }
      assert route.retracted[..|route.retracted|] == route.retracted;
    }
    assert routes[..|routes|] == routes;
    enacted := set h | h in verdicts && verdicts[h];
    retracted := set h | h in verdicts && !verdicts[h];
  }

  /** Leaving one leg of a fork for the other, and a new block `x` on top of it. */
  lemma LegsExchange(t: Tree, a: Hash, b: Hash, x: Hash, h: Hash)
    requires Rooted(t) && a in t.details && b in t.details && x !in t.details
    ensures var left, entered := Leg(t, a, b), Leg(t, b, a);
            && !(h in entered + [x] && h in Reversed(left))
            && (h in Path(t, b) + [x] <==> (h in Path(t, a) && h !in Reversed(left)) || h in entered + [x])
  {
    PathsCut(t, a, b);
    LegsApart(t, a, b);
    LegKnown(t, a, b);
    ReversedSame(Leg(t, a, b));
  }

  /** One round moves the canonical blocks by exactly its route, whose two halves are disjoint. */
  lemma RoundCanonical(c: Chain, b: Block, h: Hash)
    requires Valid(c) && Importable(c, b)
    ensures WellFormed(Round(c, b))
    ensures var route := RoundRoute(c, b);
            && !(h in route.enacted && h in route.retracted)
            && (Canonical(Round(c, b), h) <==> (Canonical(c, h) && h !in route.retracted) || h in route.enacted)
  {
    KnownIffChild(c, b);
    if b.hash !in c.blocks {
      if NewDifficulty(c.tree, b) > c.best.totalDifficulty {
        HeavierRound(c, b);
        LegsExchange(c.tree, c.best.hash, b.parent, b.hash, h);
      } else {
        LighterRound(c, b);
      }
    }
  }

  /** The routes reported along a run. */
  ghost function RunRoutes(c: Chain, bs: seq<Block>): seq<ImportRoute>
    requires ImportableRun(c, bs)
    decreases |bs|
  {
    if bs == [] then [] else [RoundRoute(c, bs[0])] + RunRoutes(Round(c, bs[0]), bs[1..])
  }

  /** What the verdicts, starting from `m`, say about `h`: its last mention, else `before`. */
  ghost predicate Verdict(m: map<Hash, bool>, h: Hash, before: bool) {
    if h in m then m[h] else before
  }

  /** Verdicts of routes that follow others. */
  ghost function VerdictsFrom(m: map<Hash, bool>, routes: seq<ImportRoute>): map<Hash, bool>
    decreases |routes|
  {
    if routes == [] then m
      else VerdictsFrom(Marked(Marked(m, routes[0].enacted, true), routes[0].retracted, false), routes[1..])
  }

  lemma {:induction false} VerdictsFromAppend(m: map<Hash, bool>, routes: seq<ImportRoute>, last: ImportRoute)
    ensures VerdictsFrom(m, routes + [last]) ==
            Marked(Marked(VerdictsFrom(m, routes), last.enacted, true), last.retracted, false)
    decreases |routes|
  {
    if routes == [] {
      assert (routes + [last])[1..] == [];
    } else {
      assert (routes + [last])[1..] == routes[1..] + [last];
      VerdictsFromAppend(Marked(Marked(m, routes[0].enacted, true), routes[0].retracted, false), routes[1..], last);
    }
  }

  lemma {:induction false} VerdictsAsFold(routes: seq<ImportRoute>)
    ensures Verdicts(routes) == VerdictsFrom(map[], routes)
  {
    if routes != [] {
      var n := |routes| - 1;
      assert routes == routes[..n] + [routes[n]];
      VerdictsAsFold(routes[..n]);
      VerdictsFromAppend(map[], routes[..n], routes[n]);
    }
  }

  lemma {:induction false} RunVerdicts(c0: Chain, c: Chain, bs: seq<Block>, m: map<Hash, bool>, h: Hash)
    requires Valid(c0) && Valid(c) && ImportableRun(c, bs)
    requires Canonical(c, h) <==> Verdict(m, h, Canonical(c0, h))
    ensures Valid(Run(c, bs))
            && (Canonical(Run(c, bs), h) <==> Verdict(VerdictsFrom(m, RunRoutes(c, bs)), h, Canonical(c0, h)))
    decreases |bs|
  {
    RunValid(c, bs);
    if bs != [] {
      var route, c1 := RoundRoute(c, bs[0]), Round(c, bs[0]);
      var m1 := Marked(Marked(m, route.enacted, true), route.retracted, false);
      RoundValid(c, bs[0]);
      RoundCanonical(c, bs[0], h);
      MarkedAt(m, route.enacted, true, h);
      MarkedAt(Marked(m, route.enacted, true), route.retracted, false, h);
      RunVerdicts(c0, c1, bs[1..], m1, h);
      assert RunRoutes(c, bs)[1..] == RunRoutes(c1, bs[1..]);
    }
  }

  /**
   * For any run of imports the folded routes give disjoint enacted and retracted sets, and the final
   * canonical blocks are the initial ones and the enacted ones, without the retracted ones.
   */
  lemma FoldedRoutesExact(c: Chain, bs: seq<Block>, enacted: set<Hash>, retracted: set<Hash>)
    requires Valid(c) && ImportableRun(c, bs)
    requires enacted == set h | h in Verdicts(RunRoutes(c, bs)) && Verdicts(RunRoutes(c, bs))[h]
    requires retracted == set h | h in Verdicts(RunRoutes(c, bs)) && !Verdicts(RunRoutes(c, bs))[h]
    ensures enacted !! retracted
    ensures Valid(Run(c, bs))
    ensures (set h | h in CanonicalPath(Run(c, bs))) == ((set h | h in CanonicalPath(c)) + enacted) - retracted
  {
    RunValid(c, bs);
    VerdictsAsFold(RunRoutes(c, bs));
    forall h
      ensures h in CanonicalPath(Run(c, bs)) <==> (h in CanonicalPath(c) || h in enacted) && h !in retracted
    {
      RunVerdicts(c, c, bs, map[], h);
    }
  }
}
