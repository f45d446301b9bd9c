/**
 * What a transaction does to its sender, whatever the nested execution did: the nonce, the gas bounds
 * and the payment of the value.
 */
module SenderLaws {
  import opened Basics
  import opened WorldState
  import opened Execution

  /** Apart from the listed addresses, nothing changed. */
  ghost predicate SameElsewhere(v: View, w: View, changed: set<Address>) {
    forall a :: a !in changed ==> At(w, a) == At(v, a)
  }

  /** A transfer moves its amount, and nothing else. */
  lemma TransferMoves(v: View, start: nat, from: Address, to: Address, x: nat)
    requires x <= BalanceOf(v, from) && from != to
    ensures var w := Transferred(v, start, from, to, x);
            && BalanceOf(w, from) == BalanceOf(v, from) - x && BalanceOf(w, to) == BalanceOf(v, to) + x
            && NonceOf(w, start, from) == NonceOf(v, start, from) && NonceOf(w, start, to) == NonceOf(v, start, to)
            && SameElsewhere(v, w, {from, to})
  {
  }

  /** A nested call of an account without code is a transfer that always succeeds and uses no gas. */
  lemma NestedTransferMoves(env: Env, v: View, s: Substate, p: Params, run: Run)
    requires p.code == [] && p.value.TransferValue? && p.value.amount <= BalanceOf(v, p.sender) && p.sender != p.address
    ensures var r := CallFrame(env, v, s, true, p, run);
            && r.Done? && r.status == Success && r.gasLeft == p.gas
            && BalanceOf(r.view, p.sender) == BalanceOf(v, p.sender) - p.value.amount
            && BalanceOf(r.view, p.address) == BalanceOf(v, p.address) + p.value.amount
            && SameElsewhere(v, r.view, {p.sender, p.address})
  {
    TransferMoves(v, env.startNonce, p.sender, p.address, p.value.amount);
  }

  /** The code of a new contract finds an account with the value, what lay at the address, and nothing else. */
  lemma EndowmentMoves(env: Env, v: View, sender: Address, address: Address, value: nat)
    requires value <= BalanceOf(v, sender) && sender != address
    ensures var w := Endowed(env, v, sender, address, value);
            && BalanceOf(w, sender) == BalanceOf(v, sender) - value
            && BalanceOf(w, address) == BalanceOf(v, address) + value
            && CodeOf(w, address) == [] && w[address].storage == map[] && w[address].changes == map[]
            && SameElsewhere(v, w, {sender, address})
  {
  }

  /** A suicide empties the contract in favour of the refund address and marks it for removal. */
  lemma SuicideMoves(env: Env, v: View, s: Substate, self: Address, refund: Address)
    ensures var r := DoSuicide(env, v, s, self, refund);
            && r.Done? && r.substate.suicides == s.suicides + {self} && BalanceOf(r.view, self) == 0
            && (refund != self ==> BalanceOf(r.view, refund) == BalanceOf(v, refund) + BalanceOf(v, self))
            && SameElsewhere(v, r.view, {self, refund})
  {
    if refund != self {
      TransferMoves(v, env.startNonce, self, refund, BalanceOf(v, self));
    }
  }

  /**
   * The calls a contract makes are its own: a delegated call runs in the contract's own frame, any other
   * call is sent by the contract and runs the receiver's code in the receiver's frame.
   */
  ghost predicate OwnRun(env: Env, v: View, s: Substate, self: Address, run: Run)
    decreases run, 0
  {
    match run
    case Return(_, _) => true
    case Then(op, next) =>
      && OwnOp(env, v, self, op)
      && match Do(env, v, s, self, op)
         case Panic => true
         case Done(v', s', _, _) => OwnRun(env, v', s', self, next)
  }

  ghost predicate OwnOp(env: Env, v: View, self: Address, op: Op)
    decreases op, 2
  {
    match op
    case CallOp(gas, sender, receiver, value, codeAddress, callType, run) =>
      && (if callType == DelegateCall || callType == CallCode then receiver == self
          else sender == self && receiver == codeAddress)
      && OwnCall(env, v, true, CallParams(v, gas, sender, receiver, value, codeAddress, callType), run)
    case CreateOp(_, value, run) =>
      OwnCreate(env, v, self, env.contractAddress(self, NonceOf(v, env.startNonce, self)), value, run)
    case _ => true
  }

  ghost predicate OwnCall(env: Env, v: View, nested: bool, p: Params, run: Run)
    decreases run, 1
  {
    p.code == [] || (Pays(p, nested) && p.value.amount > BalanceOf(v, p.sender)) ||
    OwnRun(env, if Pays(p, nested) then Transferred(v, env.startNonce, p.sender, p.address, p.value.amount) else v,
           EMPTY_SUBSTATE, p.address, run)
  }

  ghost predicate OwnCreate(env: Env, v: View, sender: Address, address: Address, value: nat, run: Run)
    decreases run, 1
  {
    Collides(env, v, address) || value > BalanceOf(v, sender) ||
    OwnRun(env, Endowed(env, v, sender, address, value), EMPTY_SUBSTATE, address, run)
  }

  /** `x` is an account without code that has sent transactions. */
  predicate External(v: View, x: Address) {
    x in v && v[x].code == [] && v[x].nonce > 0
  }

  /** From one view to the next, `x` keeps its nonce, gets no code and loses no money. */
  predicate Spared(v: View, w: View, x: Address) {
    External(v, x) && External(w, x) && w[x].nonce == v[x].nonce && w[x].balance >= v[x].balance
  }

  /** A frame spares `x`, and does not mark it for removal. */
  predicate Spares(v: View, s: Substate, outcome: Outcome, x: Address) {
    outcome.Done? ==> Spared(v, outcome.view, x) && (x !in s.suicides ==> x !in outcome.substate.suicides)
  }

  lemma {:induction false} CallSpares(env: Env, v: View, s: Substate, p: Params, run: Run, x: Address)
    requires External(v, x) && OwnCall(env, v, true, p, run)
    requires Pays(p, true) ==> p.sender != x
    requires p.code != [] ==> p.address != x
    ensures Spares(v, s, CallFrame(env, v, s, true, p, run), x)
    decreases run, 1
  {
    if p.code != [] && !(Pays(p, true) && p.value.amount > BalanceOf(v, p.sender)) {
      var paid := if Pays(p, true) then Transferred(v, env.startNonce, p.sender, p.address, p.value.amount) else v;
      ExecSpares(env, paid, EMPTY_SUBSTATE, p.address, run, x);
    } else if p.code == [] && Pays(p, true) && p.value.amount <= BalanceOf(v, p.sender) && p.sender != p.address {
      NestedTransferMoves(env, v, s, p, run);
    }
  }

  lemma {:induction false} CreateSpares(env: Env, v: View, s: Substate, sender: Address, address: Address, value: nat,
                                        run: Run, x: Address)
    requires External(v, x) && OwnCreate(env, v, sender, address, value, run) && sender != x
    ensures Spares(v, s, CreateFrame(env, v, s, sender, address, value, run), x)
    decreases run, 1
  {
    if !Collides(env, v, address) && value <= BalanceOf(v, sender) {
      assert address != x;
      if sender != address {
        EndowmentMoves(env, v, sender, address, value);
      }
      ExecSpares(env, Endowed(env, v, sender, address, value), EMPTY_SUBSTATE, address, run, x);
    }
  }

  lemma {:induction false} ExecSpares(env: Env, v: View, s: Substate, self: Address, run: Run, x: Address)
    requires External(v, x) && self != x && OwnRun(env, v, s, self, run)
    ensures Spares(v, s, Exec(env, v, s, self, run), x)
    decreases run, 0
  {
    if run.Then? {
      DoSpares(env, v, s, self, run.op, x);
      var between := Do(env, v, s, self, run.op);
      if between.Done? {
        ExecSpares(env, between.view, between.substate, self, run.next, x);
      }
    }
  }

  lemma {:induction false} DoSpares(env: Env, v: View, s: Substate, self: Address, op: Op, x: Address)
    requires External(v, x) && self != x && OwnOp(env, v, self, op)
    ensures Spares(v, s, Do(env, v, s, self, op), x)
    decreases op, 2
  {
    match op
    case CallOp(gas, sender, receiver, value, codeAddress, callType, run) =>
      CallSpares(env, v, s, CallParams(v, gas, sender, receiver, value, codeAddress, callType), run, x);
    case CreateOp(_, value, run) =>
      var address := env.contractAddress(self, NonceOf(v, env.startNonce, self));
      CreateSpares(env, v, s, self, address, value, run, x);
      var res := CreateFrame(env, v, s, self, address, value, run);
      if res.Done? && res.status == Success {
        assert address != x;
      }
    case Suicide(refund) =>
      SuicideMoves(env, v, s, self, refund);
    case _ =>
  }

  /** The run of a transaction makes only calls of its own contracts. */
  ghost predicate OwnTransaction(env: Env, v: View, t: Transaction, run: Run)
    requires GasCost(t) <= BalanceOf(v, t.sender)
  {
    var v1 := Charged(env, v, t);
    match t.action
    case CreateAction =>
      OwnCreate(env, v1, t.sender, env.contractAddress(t.sender, NonceOf(v, env.startNonce, t.sender)), t.value, run)
    case CallAction(to) =>
      OwnCall(env, v1, false, Params(t.sender, to, TransferValue(t.value), CodeOf(v1, to), InitGas(t)), run)
  }

  /** The charged view: one nonce more, the gas paid for, still no code. */
  lemma ChargedSender(env: Env, v: View, t: Transaction)
    requires GasCost(t) <= BalanceOf(v, t.sender) && CodeOf(v, t.sender) == []
    ensures var v1 := Charged(env, v, t);
            && External(v1, t.sender)
            && v1[t.sender].nonce == NonceOf(v, env.startNonce, t.sender) + 1
            && v1[t.sender].balance == BalanceOf(v, t.sender) - GasCost(t)
  {
  }

  /** The outermost frame cannot panic over the transaction's own value, and leaves the sender its nonce. */
  lemma TopSparesSender(env: Env, v: View, t: Transaction, run: Run)
    requires t.value + GasCost(t) <= BalanceOf(v, t.sender) && CodeOf(v, t.sender) == []
             && OwnTransaction(env, v, t, run)
    ensures var r := TopFrame(env, v, t, run);
            r.Done? ==>
              && External(r.view, t.sender) && t.sender !in r.substate.suicides
              && r.view[t.sender].nonce == NonceOf(v, env.startNonce, t.sender) + 1
              && r.view[t.sender].balance >= BalanceOf(v, t.sender) - GasCost(t) - t.value
  {
    var v1, s1 := Charged(env, v, t), Touching(EMPTY_SUBSTATE, {t.sender});
    ChargedSender(env, v, t);
    match t.action {
      case CreateAction =>
        var address := env.contractAddress(t.sender, NonceOf(v, env.startNonce, t.sender));
        TopCreateSpares(env, v1, s1, t.sender, address, t.value, run);
      case CallAction(to) =>
        TopCallSpares(env, v1, s1, Params(t.sender, to, TransferValue(t.value), CodeOf(v1, to), InitGas(t)), run);
    }
  }

  /** The sender keeps its nonce and its lack of code, loses at most the value, and is not marked for removal. */
  predicate KeepsSender(v: View, r: Outcome, sender: Address, value: nat) {
    r.Done? ==>
      && External(r.view, sender) && sender !in r.substate.suicides
      && sender in v && r.view[sender].nonce == v[sender].nonce && r.view[sender].balance + value >= v[sender].balance
  }

  lemma TopCreateSpares(env: Env, v1: View, s1: Substate, sender: Address, address: Address, value: nat, run: Run)
    requires External(v1, sender) && sender !in s1.suicides && OwnCreate(env, v1, sender, address, value, run)
    ensures KeepsSender(v1, CreateFrame(env, v1, s1, sender, address, value, run), sender, value)
  {
    if !Collides(env, v1, address) && value <= BalanceOf(v1, sender) {
      assert address != sender;
      ExecSpares(env, Endowed(env, v1, sender, address, value), EMPTY_SUBSTATE, address, run, sender);
    }
  }

  lemma TopCallSpares(env: Env, v1: View, s1: Substate, p: Params, run: Run)
    requires External(v1, p.sender) && p.sender !in s1.suicides && OwnCall(env, v1, false, p, run)
    requires p.code == CodeOf(v1, p.address) && p.value.TransferValue?
    ensures KeepsSender(v1, CallFrame(env, v1, s1, false, p, run), p.sender, p.value.amount)
  {
    if p.code != [] {
      ExecSpares(env, v1, EMPTY_SUBSTATE, p.address, run, p.sender);
    }
  }

  /** Whatever the nested execution did, an accepted transaction raises its sender's nonce by exactly one. */
  lemma NonceRisesByOne(env: Env, info: BlockEnv, v: View, t: Transaction, mode: Mode, run: Run)
    requires Transact(env, info, v, t, mode, run).Accepted? && CodeOf(v, t.sender) == []
             && OwnTransaction(env, v, t, run)
    ensures NonceOf(Transact(env, info, v, t, mode, run).view, env.startNonce, t.sender) ==
            NonceOf(v, env.startNonce, t.sender) + 1
  {
    TopSparesSender(env, v, t, run);
  }

  /** A transaction whose frame itself does not panic never panics over the value transfer at its end. */
  lemma ValueIsAffordable(env: Env, v: View, t: Transaction, to: Address, run: Run)
    requires t.action == CallAction(to) && t.value + GasCost(t) <= BalanceOf(v, t.sender)
    requires CodeOf(v, t.sender) == [] && OwnTransaction(env, v, t, run)
    ensures var v1 := Charged(env, v, t);
            TopFrame(env, v, t, run).Panic? <==> CodeOf(v1, to) != [] && Exec(env, v1, EMPTY_SUBSTATE, to, run).Panic?
  {
    var v1, s1 := Charged(env, v, t), Touching(EMPTY_SUBSTATE, {t.sender});
    ChargedSender(env, v, t);
    if CodeOf(v1, to) != [] {
      ExecSpares(env, v1, EMPTY_SUBSTATE, to, run, t.sender);
    }
    var res := CodeResult(env, v1, v1, s1, Params(t.sender, to, TransferValue(t.value), CodeOf(v1, to), InitGas(t)),
                          run);
    assert res.Panic? <==> CodeOf(v1, to) != [] && Exec(env, v1, EMPTY_SUBSTATE, to, run).Panic?;
    assert res.Done? ==> t.value <= BalanceOf(res.view, t.sender);
  }

  // ---------------------------------------------------------------------------------------------
  // Gas

  function FinalGas(run: Run): nat {
    match run
    case Return(_, gasLeft) => gasLeft
    case Then(_, next) => FinalGas(next)
  }

  lemma {:induction false} ExecFinalGas(env: Env, v: View, s: Substate, self: Address, run: Run)
    ensures var r := Exec(env, v, s, self, run); r.Done? ==> r.gasLeft == FinalGas(run)
    decreases run
  {
    if run.Then? {
      var between := Do(env, v, s, self, run.op);
      if between.Done? {
        ExecFinalGas(env, between.view, between.substate, self, run.next);
      }
    }
  }

  lemma TopGas(env: Env, v1: View, s1: Substate, p: Params, run: Run)
    ensures var r := CallFrame(env, v1, s1, false, p, run);
            r.Done? ==> r.gasLeft == if p.code == [] then p.gas else FinalGas(run)
  {
    ExecFinalGas(env, v1, EMPTY_SUBSTATE, p.address, run);
    var res := CodeResult(env, v1, v1, s1, p, run);
    assert res.Done? ==> res.gasLeft == if p.code == [] then p.gas else FinalGas(run);
  }

  /**
   * If the virtual machine returns no more gas than it was given, an accepted transaction uses at least
   * its base cost, as far as its limit covers it, and at most its limit; it fits into the block.
   */
  lemma GasUsedBounds(env: Env, info: BlockEnv, v: View, t: Transaction, mode: Mode, run: Run)
    requires Transact(env, info, v, t, mode, run).Accepted? && FinalGas(run) <= InitGas(t)
    ensures var e := Transact(env, info, v, t, mode, run).executed;
            && (if t.gas < GasRequired(t) then t.gas else GasRequired(t)) <= e.gasUsed <= t.gas
            && e.gasUsed + e.refunded == t.gas
            && info.gasUsed + e.gasUsed <= info.gasLimit
  {
    var v1 := Charged(env, v, t);
    match t.action {
      case CreateAction =>
        var address := env.contractAddress(t.sender, NonceOf(v, env.startNonce, t.sender));
        if !Collides(env, v1, address) && t.value <= BalanceOf(v1, t.sender) {
          ExecFinalGas(env, Endowed(env, v1, t.sender, address, t.value), EMPTY_SUBSTATE, address, run);
        }
      case CallAction(to) =>
        TopGas(env, v1, Touching(EMPTY_SUBSTATE, {t.sender}),
               Params(t.sender, to, TransferValue(t.value), CodeOf(v1, to), InitGas(t)), run);
    }
  }
}
