/**
 * What filling a whole block does to the sum of all balances.
 */
module BlockBalances {
  import opened Basics
  import opened WorldState
  import opened Execution
  import opened ExecutionLaws
  import opened BlockAssembly

  /** The sum does not grow; if `exact`, it is the same. */
  ghost predicate Keeps(v: View, w: View, exact: bool) {
    Total(w) <= Total(v) && (exact ==> Total(w) == Total(v))
  }

  /** The AVM, once it is used at all, keeps the sum in that sense. */
  ghost predicate AvmKeeps(m: Machine, exact: bool) {
    m.avmHardfork ==> forall v, txs :: Keeps(v, m.avmView(v, txs), exact)
  }

  /** None of the transactions makes a contract of the FastVM end itself. */
  ghost predicate NoSuicides(m: Machine, txs: seq<Tx>) {
    forall v, t :: t in txs ==> !HasSuicide(m.fvmRun(v, t))
  }

  /** Committing moves no balance. */
  lemma {:induction false} TotalCommitted(v: View)
    ensures Total(Committed(v)) == Total(v)
    decreases |v|
  {
    if v != map[] {
      var a :| a in v;
      TotalCommitted(v - {a});
      assert Committed(v) - {a} == Committed(v - {a});
      TotalWithout(v, a);
      TotalWithout(Committed(v), a);
    }
  }

  lemma PushOneKeeps(m: Machine, b: Block, t: Tx, building: bool, exact: bool)
    requires AddressesDiffer(m.env) && AvmKeeps(m, exact) && (exact ==> NoSuicides(m, [t]))
    ensures Keeps(b.view, PushOne(m, b, t, building).0.view, exact)
  {
    if !(m.avmHardfork && m.isAvm(b.view, t)) {
      var outcome := FvmOutcome(m, b, t, building);
      if outcome.Accepted? {
        assert exact ==> !HasSuicide(m.fvmRun(b.view, t));
        TransactConserves(m.env, InfoOf(m, b), b.view, t.inner, Mode(true, false, building), m.fvmRun(b.view, t));
        TotalCommitted(outcome.view);
      }
    }
  }

  lemma {:induction false} RecordedBatchView(m: Machine, b: Block, txs: seq<Tx>, i: nat)
    requires i <= |txs|
    ensures RecordedBatch(m, b, txs, i).0.view == m.avmView(b.view, txs)
    decreases i
  {
    if i > 0 {
      RecordedBatchView(m, b, txs, i - 1);
    }
  }

  lemma PushPendingKeeps(m: Machine, b: Block, batch: seq<Tx>, exact: bool)
    requires m.avmHardfork && AvmKeeps(m, exact)
    ensures Keeps(b.view, PushPending(m, b, batch).0.view, exact)
  {
    RecordedBatchView(m, b, batch, |batch|);
  }

  lemma {:induction false} PushEachKeeps(m: Machine, b: Block, txs: seq<Tx>, exact: bool)
    requires AddressesDiffer(m.env) && AvmKeeps(m, exact) && (exact ==> NoSuicides(m, txs))
    ensures Keeps(b.view, PushEach(m, b, txs).0.view, exact)
    decreases |txs|
  {
    if txs != [] {
      var front, t := txs[..|txs| - 1], txs[|txs| - 1];
      PushEachKeeps(m, b, front, exact);
      PushOneKeeps(m, PushEach(m, b, front).0, t, false, exact);
    }
  }

  lemma {:induction false} BatchedKeeps(m: Machine, b: Block, txs: seq<Tx>, exact: bool)
    requires m.avmHardfork && AddressesDiffer(m.env) && AvmKeeps(m, exact) && (exact ==> NoSuicides(m, txs))
    ensures Keeps(b.view, Batched(m, b, txs).0.view, exact)
    decreases |txs|
  {
    if txs != [] {
      var front, t := txs[..|txs| - 1], txs[|txs| - 1];
      BatchedKeeps(m, b, front, exact);
      var (b1, batch, o1) := Batched(m, b, front);
      PushPendingKeeps(m, b1, batch, exact);
      PushOneKeeps(m, PushPending(m, b1, batch).0, t, false, exact);
    }
  }

  /**
   * However a block is filled and wherever filling stops, the sum of all balances does not grow, and it is
   * the same without suicides: no transaction mints, and fees only change hands. For the AVM this rests on
   * the AVM; before its hard fork on nothing.
   */
  lemma BlockConserves(m: Machine, b: Block, txs: seq<Tx>, exact: bool)
    requires AddressesDiffer(m.env) && AvmKeeps(m, exact) && (exact ==> NoSuicides(m, txs))
    ensures Keeps(b.view, PushAll(m, b, txs).0.view, exact)
  {
    if m.avmHardfork {
      BatchedKeeps(m, b, txs, exact);
      var (b1, batch, _) := Batched(m, b, txs);
      PushPendingKeeps(m, b1, batch, exact);
    } else {
      PushEachKeeps(m, b, txs, exact);
    }
  }
}
