/**
 * The state of a block is the one its accepted transactions left, committed after each
 * (core/src/block.rs, `push_transaction`; core/src/state/mod.rs, `apply_fvm` and `commit`).
 */
module BlockEffects {
  import opened Basics
  import opened WorldState
  import opened Execution
  import opened ExecutionLaws
  import opened Effects
  import opened TransactLaws
  import opened BlockAssembly
  import opened NonceLaws
  import BlockBalances
  import TransferLaws

  /** No storage change is pending. */
  ghost predicate IsSettled(v: View) {
    forall a :: a in v ==> v[a].changes == map[]
  }

  /** Committing makes storage changes lasting, or drops those of a null account that is no builtin. */
  lemma CommitLeaves(v: View, start: nat, a: Address, key: Bytes)
    ensures FactsOf(Committed(v), start, a, key) == Shown(start, Settled, a, key, FactsOf(v, start, a, key))
    ensures IsSettled(Committed(v))
  {
  }

  /** An accepted transaction can be charged, and gives back no more gas than it had. */
  lemma AcceptedFits(env: Env, info: BlockEnv, v: View, t: Transaction, mode: Mode, run: Run)
    requires Transact(env, info, v, t, mode, run).Accepted?
    ensures GasCost(t) <= BalanceOf(v, t.sender) && GivenBack(env, v, t, run) <= t.gas
  {
    var _ := AcceptedFrame(env, info, v, t, mode, run);
  }

  /** The effects of pushing one FastVM transaction: its own and the commit, or none. */
  ghost function PushEffects(m: Machine, b: Block, t: Tx, building: bool): seq<Effect> {
    if t.hash in b.hashes || !FvmOutcome(m, b, t, building).Accepted? then []
    else
      AcceptedFits(m.env, InfoOf(m, b), b.view, t.inner, Mode(true, false, building), m.fvmRun(b.view, t));
      TransactEffects(m.env, InfoOf(m, b), b.view, t.inner, m.fvmRun(b.view, t)) + [Settled]
  }

  /** After a push of a FastVM transaction every account is as its effects say; a refused one leaves no trace. */
  lemma PushOneLeaves(m: Machine, b: Block, t: Tx, building: bool, a: Address, key: Bytes)
    requires AddressesDiffer(m.env) && !(m.avmHardfork && m.isAvm(b.view, t))
    ensures var (b', o) := PushOne(m, b, t, building);
            var start := m.env.startNonce;
            && FactsOf(b'.view, start, a, key) ==
               ShownAll(start, PushEffects(m, b, t, building), a, key, FactsOf(b.view, start, a, key))
            && (o != Pushed ==> b' == b) && (o == Pushed ==> IsSettled(b'.view))
  {
    var start, f := m.env.startNonce, FactsOf(b.view, m.env.startNonce, a, key);
    if t.hash !in b.hashes && FvmOutcome(m, b, t, building).Accepted? {
      var info, run := InfoOf(m, b), m.fvmRun(b.view, t);
      var outcome := FvmOutcome(m, b, t, building);
      TransactLeaves(m.env, info, b.view, t.inner, Mode(true, false, building), run, a, key);
      var es := TransactEffects(m.env, info, b.view, t.inner, run);
      CommitLeaves(outcome.view, start, a, key);
      ShownAppend(start, es, [Settled], a, key, f);
      ShownOne(start, Settled, a, key, ShownAll(start, es, a, key, f));
    }
  }

  lemma ShownOne(start: nat, e: Effect, a: Address, key: Bytes, f: Facts)
    ensures ShownAll(start, [e], a, key, f) == Shown(start, e, a, key, f)
  {
    assert [e][..|[e]| - 1] == [];
  }

  /** The effects of filling a block, transaction after transaction. */
  ghost function FillEffects(m: Machine, b: Block, txs: seq<Tx>): seq<Effect> {
    if txs == [] then []
    else
      var (b1, o1) := PushEach(m, b, txs[..|txs| - 1]);
      FillEffects(m, b, txs[..|txs| - 1]) + if o1 == Pushed then PushEffects(m, b1, txs[|txs| - 1], false) else []
  }

  lemma {:induction false} PushEachLeaves(m: Machine, b: Block, txs: seq<Tx>, a: Address, key: Bytes)
    requires AddressesDiffer(m.env) && FastVmOnly(m)
    ensures var start := m.env.startNonce;
            FactsOf(PushEach(m, b, txs).0.view, start, a, key) ==
            ShownAll(start, FillEffects(m, b, txs), a, key, FactsOf(b.view, start, a, key))
    decreases |txs|
  {
    if txs != [] {
      var front, t := txs[..|txs| - 1], txs[|txs| - 1];
      PushEachLeaves(m, b, front, a, key);
      var (b1, o1) := PushEach(m, b, front);
      PushOneLeaves(m, b1, t, false, a, key);
      var more := if o1 == Pushed then PushEffects(m, b1, t, false) else [];
      ShownAppend(m.env.startNonce, FillEffects(m, b, front), more, a, key, FactsOf(b.view, m.env.startNonce, a, key));
    }
  }

  /**
   * The state of a filled block: every balance, nonce, code and storage value is what the surviving effects
   * of its accepted transactions, in order, make of those before it.
   */
  lemma BlockLeaves(m: Machine, b: Block, txs: seq<Tx>, a: Address, key: Bytes)
    requires AddressesDiffer(m.env) && FastVmOnly(m)
    ensures var start := m.env.startNonce;
            FactsOf(PushAll(m, b, txs).0.view, start, a, key) ==
            ShownAll(start, FillEffects(m, b, txs), a, key, FactsOf(b.view, start, a, key))
  {
    FillIsOneByOne(m, b, txs);
    PushEachLeaves(m, b, txs, a, key);
  }

  /** A block of AVM transactions has the state the AVM left, whichever of them are refused. */
  lemma {:induction false} AllBatched(m: Machine, b: Block, txs: seq<Tx>)
    requires m.avmHardfork && forall t :: t in txs ==> m.isAvm(b.view, t)
    ensures Batched(m, b, txs) == (b, txs, Pushed)
    decreases |txs|
  {
    if txs != [] {
      AllBatched(m, b, txs[..|txs| - 1]);
      assert txs[..|txs| - 1] + [txs[|txs| - 1]] == txs;
    }
  }

  lemma AvmBlockLeaves(m: Machine, b: Block, txs: seq<Tx>)
    requires m.avmHardfork && txs != [] && forall t :: t in txs ==> m.isAvm(b.view, t) && t.hash !in b.hashes
    ensures PushAll(m, b, txs).0.view == m.avmView(b.view, txs)
  {
    AllBatched(m, b, txs);
    BlockBalances.RecordedBatchView(m, b, txs, |txs|);
  }

  // ---------------------------------------------------------------------------------------------
  // A plain payment in a block

  /** The effect leaves storage and code of `a` alone. */
  predicate Bystander(e: Effect, a: Address) {
    match e
    case Wrote(x, _, _) => x != a
    case Coded(x, _) => x != a
    case Renewed(x) => x != a
    case Removed(xs) => a !in xs
    case Settled => false
    case _ => true
  }

  lemma {:induction false} Untouched(start: nat, es: seq<Effect>, a: Address, key: Bytes, f: Facts)
    requires forall e :: e in es ==> Bystander(e, a)
    ensures var g := ShownAll(start, es, a, key, f); g.code == f.code && g.stored == f.stored && g.kept == f.kept
    ensures Raised(a) !in es ==> ShownAll(start, es, a, key, f).nonce == f.nonce
    decreases |es|
  {
    if es != [] {
      Untouched(start, es[..|es| - 1], a, key, f);
      assert es[|es| - 1] in es;
    }
  }

  /**
   * A plain payment that is pushed: the payee has the value, the author the fee, the sender paid both and
   * has one nonce more; every other balance and nonce, all code and all storage read as before.
   */
  lemma PushedPayment(m: Machine, b: Block, t: Tx, building: bool, to: Address, a: Address, key: Bytes)
    requires AddressesDiffer(m.env) && !(m.avmHardfork && m.isAvm(b.view, t)) && IsSettled(b.view)
    requires t.inner.action == CallAction(to) && CodeOf(b.view, to) == [] && PushOne(m, b, t, building).1 == Pushed
    requires to != t.inner.sender && m.author != t.inner.sender && m.author != to
    ensures var fee := Price(t.inner, if t.inner.gas < FullBaseGas(t.inner) then t.inner.gas else FullBaseGas(t.inner));
            var f := FactsOf(b.view, m.env.startNonce, a, key);
            var g := FactsOf(PushOne(m, b, t, building).0.view, m.env.startNonce, a, key);
            && g.balance == f.balance + (if a == to then t.inner.value else 0) + (if a == m.author then fee else 0)
                            - (if a == t.inner.sender then t.inner.value + fee else 0)
            && g.nonce == f.nonce + (if a == t.inner.sender then 1 else 0)
            && g.code == f.code && g.stored == f.stored
  {
    var v := b.view;
    var w := PushedView(m, b, t, building);
    PaymentFacts(m.env, InfoOf(m, b), v, t.inner, to, Mode(true, false, building), m.fvmRun(v, t), a, key);
    PaymentSettles(m.env.startNonce, v, w, a, key);
  }

  lemma PushedView(m: Machine, b: Block, t: Tx, building: bool) returns (w: View)
    requires !(m.avmHardfork && m.isAvm(b.view, t)) && PushOne(m, b, t, building).1 == Pushed
    ensures var r := Transact(m.env, InfoOf(m, b), b.view, t.inner, Mode(true, false, building), m.fvmRun(b.view, t));
            r.Accepted? && w == r.view && PushOne(m, b, t, building).0.view == Committed(w)
  {
    w := FvmOutcome(m, b, t, building).view;
  }

  /** Where storage is as it was when nothing was pending, committing changes nothing that can be read. */
  lemma PaymentSettles(start: nat, v: View, w: View, a: Address, key: Bytes)
    requires IsSettled(v)
    requires var f, g := FactsOf(v, start, a, key), FactsOf(w, start, a, key); g.stored == f.stored && g.kept == f.kept
    ensures var g, h := FactsOf(w, start, a, key), FactsOf(Committed(w), start, a, key);
            h.balance == g.balance && h.nonce == g.nonce && h.code == g.code && h.stored == g.stored
  {
    CommitLeaves(w, start, a, key);
    assert a in v ==> v[a].changes == map[];
  }

  /** A plain payment, before it is committed. */
  lemma PaymentFacts(env: Env, info: BlockEnv, v: View, t: Transaction, to: Address, mode: Mode, run: Run, a: Address,
                     key: Bytes)
    requires AddressesDiffer(env) && t.action == CallAction(to) && CodeOf(v, to) == []
    requires to != t.sender && info.author != t.sender && info.author != to
    requires Transact(env, info, v, t, mode, run).Accepted?
    ensures var fee := Price(t, if t.gas < FullBaseGas(t) then t.gas else FullBaseGas(t));
            var f, g := FactsOf(v, env.startNonce, a, key),
                        FactsOf(Transact(env, info, v, t, mode, run).view, env.startNonce, a, key);
            && g.balance == f.balance + (if a == to then t.value else 0) + (if a == info.author then fee else 0)
                            - (if a == t.sender then t.value + fee else 0)
            && g.nonce == f.nonce + (if a == t.sender then 1 else 0)
            && g.code == f.code && g.stored == f.stored && g.kept == f.kept
  {
    BaseGas(t);
    TransferLaws.PlainPayment(env, info, v, t, to, mode, run);
    PaymentStorage(env, info, v, t, to, mode, run, a, key);
    var r := Transact(env, info, v, t, mode, run);
    assert FactsOf(v, env.startNonce, a, key).balance == BalanceOf(v, a);
    assert FactsOf(r.view, env.startNonce, a, key).balance == BalanceOf(r.view, a);
    assert a !in {t.sender, to, info.author} ==> At(r.view, a) == At(v, a);
  }

  lemma PaymentStorage(env: Env, info: BlockEnv, v: View, t: Transaction, to: Address, mode: Mode, run: Run, a: Address,
                       key: Bytes)
    requires AddressesDiffer(env) && t.action == CallAction(to) && CodeOf(v, to) == [] && to != t.sender
    requires Transact(env, info, v, t, mode, run).Accepted?
    ensures var f, g := FactsOf(v, env.startNonce, a, key),
                        FactsOf(Transact(env, info, v, t, mode, run).view, env.startNonce, a, key);
            && g.code == f.code && g.stored == f.stored && g.kept == f.kept
            && g.nonce == f.nonce + (if a == t.sender then 1 else 0)
  {
    TransactLeaves(env, info, v, t, mode, run, a, key);
    PlainTop(env, v, t, to, run);
    FramedPayment(env.startNonce, t, to, info.author, GivenBack(env, v, t, run), a, key,
                  FactsOf(v, env.startNonce, a, key));
  }

  lemma PlainTop(env: Env, v: View, t: Transaction, to: Address, run: Run)
    requires GasCost(t) <= BalanceOf(v, t.sender) && t.action == CallAction(to) && CodeOf(v, to) == []
    ensures TopEffects(env, v, t, run) == [Lost(t.sender, t.value), Gained(to, t.value)]
  {
  }

  lemma FramedPayment(start: nat, t: Transaction, to: Address, author: Address, back: nat, a: Address, key: Bytes,
                      f: Facts)
    requires back <= t.gas
    ensures var es := Framed(t, author, [Lost(t.sender, t.value), Gained(to, t.value)], back);
            var g := ShownAll(start, es, a, key, f);
            && g.code == f.code && g.stored == f.stored && g.kept == f.kept
            && g.nonce == f.nonce + (if a == t.sender then 1 else 0)
  {
    assert EndedIn([Lost(t.sender, t.value), Gained(to, t.value)]) == {};
    PaymentShows(start, t.sender, to, author, Price(t, t.gas), t.value, Price(t, back), Price(t, t.gas - back), a, key,
                 f);
  }

  lemma PaymentShows(start: nat, sender: Address, to: Address, author: Address, cost: nat, value: nat, refund: nat,
                     fee: nat, a: Address, key: Bytes, f: Facts)
    ensures var es := [Raised(sender), Lost(sender, cost)] + [Lost(sender, value), Gained(to, value)] +
                      [Gained(sender, refund), Gained(author, fee), Removed({})];
            var g := ShownAll(start, es, a, key, f);
            && g.code == f.code && g.stored == f.stored && g.kept == f.kept
            && g.nonce == f.nonce + (if a == sender then 1 else 0)
  {
    var rest := [Lost(sender, cost), Lost(sender, value), Gained(to, value), Gained(sender, refund),
                 Gained(author, fee), Removed({})];
    ShownAppend(start, [Raised(sender)], rest, a, key, f);
    ShownOne(start, Raised(sender), a, key, f);
    Untouched(start, rest, a, key, ShownAll(start, [Raised(sender)], a, key, f));
    assert [Raised(sender), Lost(sender, cost)] + [Lost(sender, value), Gained(to, value)] +
           [Gained(sender, refund), Gained(author, fee), Removed({})] == [Raised(sender)] + rest;
  }
}
