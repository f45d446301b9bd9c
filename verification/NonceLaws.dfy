/**
 * Nonces over whole blocks: what an account's transactions do to its nonce, and that no other transaction
 * does anything to it.
 */
module NonceLaws {
  import opened Basics
  import opened WorldState
  import opened Execution
  import opened SenderLaws
  import opened TransactLaws
  import opened BlockAssembly

  /** No contract is ever created at `x`. */
  ghost predicate NeverContract(env: Env, x: Address) {
    forall a, n :: env.contractAddress(a, n) != x
  }

  /** The frame leaves the nonce of `x` alone, gives it no code and does not mark it for removal. */
  predicate Quiet(env: Env, v: View, s: Substate, outcome: Outcome, x: Address) {
    outcome.Done? ==>
      && NonceOf(outcome.view, env.startNonce, x) == NonceOf(v, env.startNonce, x) && CodeOf(outcome.view, x) == []
      && (x !in s.suicides ==> x !in outcome.substate.suicides)
  }

  /** Money moves, nonces and code stay. */
  lemma TransferKeeps(v: View, start: nat, from: Address, to: Address, amount: nat, x: Address)
    requires amount <= BalanceOf(v, from)
    ensures var w := Transferred(v, start, from, to, amount);
            NonceOf(w, start, x) == NonceOf(v, start, x) && CodeOf(w, x) == CodeOf(v, x)
  {
  }

  lemma {:induction false} CodeQuiet(env: Env, entry: View, paid: View, s: Substate, p: Params, run: Run, x: Address)
    requires NeverContract(env, x) && CodeOf(entry, x) == [] && CodeOf(paid, x) == []
    requires NonceOf(paid, env.startNonce, x) == NonceOf(entry, env.startNonce, x)
    requires p.code != [] ==> p.address != x && OwnRun(env, paid, EMPTY_SUBSTATE, p.address, run)
    ensures Quiet(env, entry, s, CodeResult(env, entry, paid, s, p, run), x)
    decreases run, 1, 0
  {
    if p.code != [] {
      ExecQuiet(env, paid, EMPTY_SUBSTATE, p.address, run, x);
    }
  }

  lemma {:induction false} CallQuiet(env: Env, v: View, s: Substate, nested: bool, p: Params, run: Run, x: Address)
    requires NeverContract(env, x) && CodeOf(v, x) == [] && OwnCall(env, v, nested, p, run)
    requires p.code != [] ==> p.address != x
    ensures Quiet(env, v, s, CallFrame(env, v, s, nested, p, run), x)
    decreases run, 1, 1
  {
    if !Pays(p, nested) {
      CodeQuiet(env, v, v, s, p, run, x);
      var res := CodeResult(env, v, v, s, p, run);
      if res.Done? && p.value.TransferValue? && p.value.amount <= BalanceOf(res.view, p.sender) {
        TransferKeeps(res.view, env.startNonce, p.sender, p.address, p.value.amount, x);
      }
    } else if p.value.amount <= BalanceOf(v, p.sender) {
      var paid := Transferred(v, env.startNonce, p.sender, p.address, p.value.amount);
      TransferKeeps(v, env.startNonce, p.sender, p.address, p.value.amount, x);
      CodeQuiet(env, v, paid, Touching(s, TransferTouches(v, env.startNonce, p.sender, p.address, p.value.amount)), p,
                run, x);
    }
  }

  lemma {:induction false} CreateQuiet(env: Env, v: View, s: Substate, sender: Address, address: Address, value: nat,
                                       run: Run, x: Address)
    requires NeverContract(env, x) && CodeOf(v, x) == [] && OwnCreate(env, v, sender, address, value, run)
    requires address != x
    ensures Quiet(env, v, s, CreateFrame(env, v, s, sender, address, value, run), x)
    decreases run, 1
  {
    if !Collides(env, v, address) && value <= BalanceOf(v, sender) {
      ExecQuiet(env, Endowed(env, v, sender, address, value), EMPTY_SUBSTATE, address, run, x);
    }
  }

  lemma {:induction false} ExecQuiet(env: Env, v: View, s: Substate, self: Address, run: Run, x: Address)
    requires NeverContract(env, x) && CodeOf(v, x) == [] && self != x && OwnRun(env, v, s, self, run)
    ensures Quiet(env, v, s, Exec(env, v, s, self, run), x)
    decreases run, 0
  {
    if run.Then? {
      DoQuiet(env, v, s, self, run.op, x);
      var between := Do(env, v, s, self, run.op);
      if between.Done? {
        ExecQuiet(env, between.view, between.substate, self, run.next, x);
      }
    }
  }

  lemma {:induction false} DoQuiet(env: Env, v: View, s: Substate, self: Address, op: Op, x: Address)
    requires NeverContract(env, x) && CodeOf(v, x) == [] && self != x && OwnOp(env, v, self, op)
    ensures Quiet(env, v, s, Do(env, v, s, self, op), x)
    decreases op, 2
  {
    match op
    case CallOp(gas, sender, receiver, value, codeAddress, callType, run) =>
      CallQuiet(env, v, s, true, CallParams(v, gas, sender, receiver, value, codeAddress, callType), run, x);
    case CreateOp(_, value, run) =>
      CreateQuiet(env, v, s, self, env.contractAddress(self, NonceOf(v, env.startNonce, self)), value, run, x);
    case _ =>
  }

  lemma TopQuiet(env: Env, v: View, t: Transaction, run: Run, x: Address)
    requires GasCost(t) <= BalanceOf(v, t.sender) && OwnTransaction(env, v, t, run)
    requires NeverContract(env, x) && CodeOf(v, x) == []
    ensures Quiet(env, Charged(env, v, t), EMPTY_SUBSTATE, TopFrame(env, v, t, run), x)
  {
    var v1, s1 := Charged(env, v, t), Touching(EMPTY_SUBSTATE, {t.sender});
    match t.action {
      case CreateAction =>
        CreateQuiet(env, v1, s1, t.sender, env.contractAddress(t.sender, NonceOf(v, env.startNonce, t.sender)),
                    t.value, run, x);
      case CallAction(to) =>
        CallQuiet(env, v1, s1, false, Params(t.sender, to, TransferValue(t.value), CodeOf(v1, to), InitGas(t)), run, x);
    }
  }

  /** An accepted transaction raises its sender's nonce by one and no other account's that never was a contract. */
  lemma TransactNonce(env: Env, info: BlockEnv, v: View, t: Transaction, mode: Mode, run: Run, x: Address)
    requires Transact(env, info, v, t, mode, run).Accepted? && OwnTransaction(env, v, t, run)
    requires NeverContract(env, x) && CodeOf(v, x) == []
    ensures var w := Transact(env, info, v, t, mode, run).view;
            && NonceOf(w, env.startNonce, x) == NonceOf(v, env.startNonce, x) + (if x == t.sender then 1 else 0)
            && CodeOf(w, x) == []
    ensures mode.checkNonce ==> t.nonce == NonceOf(v, env.startNonce, t.sender)
  {
    TopQuiet(env, v, t, run, x);
  }

  // ---------------------------------------------------------------------------------------------
  // Blocks

  /** Contracts make only calls of their own. */
  ghost predicate HonestRuns(m: Machine) {
    forall v, t: Tx :: GasCost(t.inner) <= BalanceOf(v, t.inner.sender) ==>
      OwnTransaction(m.env, v, t.inner, m.fvmRun(v, t))
  }

  /** Every transaction goes to the FastVM. */
  ghost predicate FastVmOnly(m: Machine) {
    m.avmHardfork ==> forall v, t :: !m.isAvm(v, t)
  }

  /** The transactions of `x`, in order. */
  function SentBy(txs: seq<Tx>, x: Address): seq<Tx> {
    if txs == [] then []
    else SentBy(txs[..|txs| - 1], x) + if txs[|txs| - 1].inner.sender == x then [txs[|txs| - 1]] else []
  }

  /** The transactions carry the nonces from `first` on, one after the other. */
  ghost predicate Consecutive(txs: seq<Tx>, first: nat) {
    forall i :: 0 <= i < |txs| ==> txs[i].inner.nonce == first + i
  }

  /** The transactions `b'` has beyond those of `b`. */
  function NewIn(b: Block, b': Block): seq<Tx> {
    if |b.transactions| <= |b'.transactions| then b'.transactions[|b.transactions|..] else []
  }

  /**
   * `b'` extends `b`, and the nonce of `x` has risen by one for every transaction of its own, each with the
   * right one.
   */
  ghost predicate NoncesFollow(m: Machine, b: Block, b': Block, x: Address) {
    var start, sent := m.env.startNonce, SentBy(NewIn(b, b'), x);
    && b.transactions <= b'.transactions
    && NonceOf(b'.view, start, x) == NonceOf(b.view, start, x) + |sent| && CodeOf(b'.view, x) == []
    && Consecutive(sent, NonceOf(b.view, start, x))
  }

  lemma CommittedKeeps(v: View, start: nat, x: Address)
    ensures NonceOf(Committed(v), start, x) == NonceOf(v, start, x) && CodeOf(Committed(v), x) == CodeOf(v, x)
  {
  }

  /** What one push does to the nonce of `x`. */
  lemma PushOneNonce(m: Machine, b: Block, t: Tx, building: bool, x: Address)
    requires HonestRuns(m) && FastVmOnly(m) && NeverContract(m.env, x) && CodeOf(b.view, x) == []
    ensures var (b', o) := PushOne(m, b, t, building);
            var start := m.env.startNonce;
            && CodeOf(b'.view, x) == []
            && (o == Pushed ==>
                  && b'.transactions == b.transactions + [t]
                  && NonceOf(b'.view, start, x) ==
                     NonceOf(b.view, start, x) + (if x == t.inner.sender then 1 else 0)
                  && t.inner.nonce == NonceOf(b.view, start, t.inner.sender))
            && (o != Pushed ==> b' == b)
  {
    if t.hash !in b.hashes {
      var outcome, run := FvmOutcome(m, b, t, building), m.fvmRun(b.view, t);
      if outcome.Accepted? {
        TransactNonce(m.env, InfoOf(m, b), b.view, t.inner, Mode(true, false, building), run, x);
        CommittedKeeps(outcome.view, m.env.startNonce, x);
      }
    }
  }

  lemma {:induction false} PushEachNonces(m: Machine, b: Block, txs: seq<Tx>, x: Address)
    requires HonestRuns(m) && FastVmOnly(m) && NeverContract(m.env, x) && CodeOf(b.view, x) == []
    ensures NoncesFollow(m, b, PushEach(m, b, txs).0, x)
    decreases |txs|
  {
    if txs == [] {
      assert NewIn(b, b) == [];
    } else {
      var front, t := txs[..|txs| - 1], txs[|txs| - 1];
      PushEachNonces(m, b, front, x);
      var (b1, o1) := PushEach(m, b, front);
      if o1 == Pushed {
        PushOneNonce(m, b1, t, false, x);
        var (b2, o2) := PushOne(m, b1, t, false);
        if o2 == Pushed {
          OneMore(m, b, b1, b2, t, x);
        }
      }
    }
  }

  lemma OneMore(m: Machine, b: Block, b1: Block, b2: Block, t: Tx, x: Address)
    requires NoncesFollow(m, b, b1, x) && b2.transactions == b1.transactions + [t] && CodeOf(b2.view, x) == []
    requires NonceOf(b2.view, m.env.startNonce, x) ==
             NonceOf(b1.view, m.env.startNonce, x) + (if x == t.inner.sender then 1 else 0)
    requires t.inner.nonce == NonceOf(b1.view, m.env.startNonce, t.inner.sender)
    ensures NoncesFollow(m, b, b2, x)
  {
    var n1, n2 := NewIn(b, b1), NewIn(b, b2);
    assert n2 == n1 + [t] && n2[..|n2| - 1] == n1;
  }

  /** Without the AVM, filling a block is pushing one by one. */
  lemma {:induction false} OneByOne(m: Machine, b: Block, txs: seq<Tx>)
    requires m.avmHardfork && FastVmOnly(m)
    ensures Batched(m, b, txs) == (PushEach(m, b, txs).0, [], PushEach(m, b, txs).1)
    decreases |txs|
  {
    if txs != [] {
      OneByOne(m, b, txs[..|txs| - 1]);
    }
  }

  lemma FillIsOneByOne(m: Machine, b: Block, txs: seq<Tx>)
    requires FastVmOnly(m)
    ensures PushAll(m, b, txs) == PushEach(m, b, txs)
  {
    if m.avmHardfork {
      OneByOne(m, b, txs);
    }
  }

  /**
   * However a block is filled, the accepted transactions of a sender carry consecutive nonces from the one
   * it had, and its nonce rises by their number.
   */
  lemma BlockNonces(m: Machine, b: Block, txs: seq<Tx>, x: Address)
    requires HonestRuns(m) && FastVmOnly(m) && NeverContract(m.env, x) && CodeOf(b.view, x) == []
    ensures NoncesFollow(m, b, PushAll(m, b, txs).0, x)
  {
    FillIsOneByOne(m, b, txs);
    PushEachNonces(m, b, txs, x);
  }

  /** The place of a transaction among those of its sender. */
  lemma {:induction false} PlaceAmong(txs: seq<Tx>, x: Address, i: nat) returns (k: nat)
    requires i < |txs| && txs[i].inner.sender == x
    ensures k < |SentBy(txs, x)| && SentBy(txs, x)[k] == txs[i] && k == |SentBy(txs[..i], x)|
    decreases |txs|
  {
    var n := |txs| - 1;
    if i == n {
      k := |SentBy(txs[..n], x)|;
    } else {
      k := PlaceAmong(txs[..n], x, i);
      assert txs[..n][..i] == txs[..i];
    }
  }

  /** No transaction is accepted twice: two of one sender in a block never carry the same nonce. */
  lemma NoReplay(m: Machine, b: Block, txs: seq<Tx>, i: nat, j: nat)
    requires HonestRuns(m) && FastVmOnly(m)
    requires var taken := NewIn(b, PushAll(m, b, txs).0);
             && i < j < |taken| && taken[i].inner.sender == taken[j].inner.sender
             && NeverContract(m.env, taken[i].inner.sender) && CodeOf(b.view, taken[i].inner.sender) == []
    ensures var taken := NewIn(b, PushAll(m, b, txs).0);
            taken[i].inner.nonce < taken[j].inner.nonce
  {
    var taken := NewIn(b, PushAll(m, b, txs).0);
    var x := taken[i].inner.sender;
    BlockNonces(m, b, txs, x);
    var k := PlaceAmong(taken, x, i);
    var l := PlaceAmong(taken, x, j);
    Later(taken, x, i, j);
  }

  lemma {:induction false} Later(txs: seq<Tx>, x: Address, i: nat, j: nat)
    requires i < j <= |txs| && txs[i].inner.sender == x
    ensures |SentBy(txs[..i], x)| < |SentBy(txs[..j], x)|
    decreases j
  {
    assert txs[..j][..j - 1] == txs[..j - 1];
    if i < j - 1 {
      Later(txs, x, i, j - 1);
    }
  }
}
