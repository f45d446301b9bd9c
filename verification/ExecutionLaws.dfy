/**
 * What every accepted transaction and every frame of it keeps, whatever tree of nested calls and
 * creations the virtual machine makes: value, the rollback of failed frames, the sender's nonce, the
 * gas bounds and the surviving logs.
 */
module ExecutionLaws {
  import opened Basics
  import opened WorldState
  import opened Execution

  // ---------------------------------------------------------------------------------------------
  // Value

  /** The sum of all balances. */
  ghost function Total(v: View): nat
    decreases |v|
  {
    if v == map[] then 0
    else
      var a :| a in v;
      v[a].balance + Total(v - {a})
  }

  /** The sum does not depend on the order. */
  lemma {:induction false} TotalWithout(v: View, a: Address)
    requires a in v
    ensures Total(v) == v[a].balance + Total(v - {a})
    decreases |v|
  {
    var b :| b in v && Total(v) == v[b].balance + Total(v - {b});
    if a != b {
      TotalWithout(v - {b}, a);
      assert v - {b} - {a} == v - {a} - {b};
      TotalWithout(v - {a}, b);
    }
  }

  /** Replacing one account moves the sum by the difference of the balances. */
  lemma TotalPut(v: View, a: Address, account: Account)
    ensures Total(v[a := account]) + BalanceOf(v, a) == Total(v) + account.balance
  {
    TotalWithout(v[a := account], a);
    assert v[a := account] - {a} == v - {a};
    if a in v {
      TotalWithout(v, a);
    } else {
      assert v - {a} == v;
    }
  }

  lemma {:induction false} TotalRemove(v: View, gone: set<Address>)
    ensures Total(v - gone) <= Total(v)
    decreases |gone|
  {
    if gone == {} {
      assert v - gone == v;
    } else {
      var a :| a in gone;
      TotalRemove(v, gone - {a});
      var w := v - (gone - {a});
      assert v - gone == w - {a};
      if a in w {
        TotalWithout(w, a);
      } else {
        assert w - {a} == w;
      }
    }
  }

  /** No single balance exceeds the sum. */
  lemma BalanceWithinTotal(v: View, a: Address)
    ensures BalanceOf(v, a) <= Total(v)
  {
    if a in v {
      TotalWithout(v, a);
    }
  }

  lemma TotalCredited(v: View, start: nat, a: Address, x: nat)
    ensures Total(Credited(v, start, a, x)) == Total(v) + x
  {
    if x != 0 {
      TotalPut(v, a, Fetch(v, start, a).(balance := BalanceOf(v, a) + x));
    }
  }

  lemma TotalDebited(v: View, start: nat, a: Address, x: nat)
    requires x <= BalanceOf(v, a)
    ensures Total(Debited(v, start, a, x)) == Total(v) - x
  {
    TotalPut(v, a, Fetch(v, start, a).(balance := BalanceOf(v, a) - x));
  }

  lemma TotalTransferred(v: View, start: nat, from: Address, to: Address, x: nat)
    requires x <= BalanceOf(v, from)
    ensures Total(Transferred(v, start, from, to, x)) == Total(v)
  {
    TotalDebited(v, start, from, x);
    TotalCredited(Debited(v, start, from, x), start, to, x);
  }

  lemma TotalIncNonce(v: View, start: nat, a: Address)
    ensures Total(IncNonce(v, start, a)) == Total(v)
  {
    TotalPut(v, a, Fetch(v, start, a).(nonce := NonceOf(v, start, a) + 1));
  }

  /** A created address differs from its creator. */
  ghost predicate AddressesDiffer(env: Env) {
    forall a, n :: env.contractAddress(a, n) != a
  }

  predicate HasSuicide(run: Run) {
    run.Then? && (OpHasSuicide(run.op) || HasSuicide(run.next))
  }

  predicate OpHasSuicide(op: Op) {
    match op
    case Suicide(_) => true
    case CallOp(_, _, _, _, _, _, run) => HasSuicide(run)
    case CreateOp(_, _, run) => HasSuicide(run)
    case _ => false
  }

  /** The sum never grows, and without suicides neither it nor the set of suicides changes. */
  ghost predicate Conserves(v: View, s: Substate, outcome: Outcome, suicides: bool) {
    outcome.Done? ==>
      && Total(outcome.view) <= Total(v)
      && (!suicides ==> Total(outcome.view) == Total(v) && outcome.substate.suicides == s.suicides)
  }

  lemma EndowedConserves(env: Env, v: View, sender: Address, address: Address, value: nat)
    requires value <= BalanceOf(v, sender) && sender != address
    ensures Total(Endowed(env, v, sender, address, value)) == Total(v)
  {
    TotalDebited(v, env.startNonce, sender, value);
    TotalPut(Debited(v, env.startNonce, sender, value), address,
      NewAccount(value + BalanceOf(v, address), env.startNonce + NonceOf(v, env.startNonce, address)));
  }

  lemma {:induction false} CallConserves(env: Env, v: View, s: Substate, nested: bool, p: Params, run: Run)
    requires AddressesDiffer(env)
    ensures Conserves(v, s, CallFrame(env, v, s, nested, p, run), HasSuicide(run))
    decreases run, 1
  {
    if Pays(p, nested) {
      if p.value.amount <= BalanceOf(v, p.sender) {
        var s1 := Touching(s, TransferTouches(v, env.startNonce, p.sender, p.address, p.value.amount));
        TotalTransferred(v, env.startNonce, p.sender, p.address, p.value.amount);
        CodeConserves(env, v, Transferred(v, env.startNonce, p.sender, p.address, p.value.amount), s1, p, run);
      }
    } else {
      CodeConserves(env, v, v, s, p, run);
      var res := CodeResult(env, v, v, s, p, run);
      if !nested && res.Done? && p.value.TransferValue? && p.value.amount <= BalanceOf(res.view, p.sender) {
        TotalTransferred(res.view, env.startNonce, p.sender, p.address, p.value.amount);
      }
    }
  }

  lemma {:induction false} CodeConserves(env: Env, entry: View, paid: View, s: Substate, p: Params, run: Run)
    requires AddressesDiffer(env) && Total(paid) == Total(entry)
    ensures Conserves(entry, s, CodeResult(env, entry, paid, s, p, run), HasSuicide(run))
    decreases run, 1, 0
  {
    if p.code != [] {
      ExecConserves(env, paid, EMPTY_SUBSTATE, p.address, run);
    }
  }

  lemma {:induction false} CreateConserves(env: Env, v: View, s: Substate, sender: Address, address: Address,
                                           value: nat, run: Run)
    requires AddressesDiffer(env) && sender != address
    ensures Conserves(v, s, CreateFrame(env, v, s, sender, address, value, run), HasSuicide(run))
    decreases run, 1
  {
    if value <= BalanceOf(v, sender) {
      EndowedConserves(env, v, sender, address, value);
      ExecConserves(env, Endowed(env, v, sender, address, value), EMPTY_SUBSTATE, address, run);
    }
  }

  lemma {:induction false} ExecConserves(env: Env, v: View, s: Substate, self: Address, run: Run)
    requires AddressesDiffer(env)
    ensures Conserves(v, s, Exec(env, v, s, self, run), HasSuicide(run))
    decreases run, 0
  {
    if run.Then? {
      DoConserves(env, v, s, self, run.op);
      var between := Do(env, v, s, self, run.op);
      if between.Done? {
        ExecConserves(env, between.view, between.substate, self, run.next);
      }
    }
  }

  lemma {:induction false} DoConserves(env: Env, v: View, s: Substate, self: Address, op: Op)
    requires AddressesDiffer(env)
    ensures Conserves(v, s, Do(env, v, s, self, op), OpHasSuicide(op))
    decreases op, 2
  {
    match op
    case Store(key, value) =>
      TotalPut(v, self, SetStorage(v, env.startNonce, self, key, value)[self]);
    case SaveCode(code) =>
      TotalPut(v, self, InitCode(v, env.startNonce, self, code)[self]);
    case Log(_, _) =>
    case SstoreClear =>
    case Suicide(refund) =>
      TotalDebited(v, env.startNonce, self, BalanceOf(v, self));
      TotalTransferred(v, env.startNonce, self, refund, BalanceOf(v, self));
    case CallOp(gas, sender, receiver, value, codeAddress, callType, run) =>
      CallConserves(env, v, s, true, CallParams(v, gas, sender, receiver, value, codeAddress, callType), run);
    case CreateOp(_, value, run) =>
      var address := env.contractAddress(self, NonceOf(v, env.startNonce, self));
      CreateConserves(env, v, s, self, address, value, run);
      var res := CreateFrame(env, v, s, self, address, value, run);
      if res.Done? {
        TotalIncNonce(res.view, env.startNonce, self);
        TotalIncNonce(IncNonce(res.view, env.startNonce, self), env.startNonce, address);
      }
  }

  /** Refund and fee together are the price of the whole gas limit. */
  lemma RefundPlusFee(gas: nat, gasLeft: nat, price: nat)
    requires gasLeft <= gas
    ensures gasLeft * price + (gas - gasLeft) * price == gas * price
  {
  }

  /**
   * For every accepted transaction the sum of all balances never grows, and is unchanged if the run
   * makes no suicide; refund plus fee is gas times price.
   */
  lemma TransactConserves(env: Env, info: BlockEnv, v: View, t: Transaction, mode: Mode, run: Run)
    requires AddressesDiffer(env) && Transact(env, info, v, t, mode, run).Accepted?
    ensures var r := Transact(env, info, v, t, mode, run);
            && Total(r.view) <= Total(v)
            && (!HasSuicide(run) ==> Total(r.view) == Total(v))
            && r.executed.refunded * t.gasPrice + r.executed.transactionFee == GasCost(t)
  {
    var v0 := IncNonce(v, env.startNonce, t.sender);
    TotalIncNonce(v, env.startNonce, t.sender);
    TotalDebited(v0, env.startNonce, t.sender, GasCost(t));
    var v1, s1 := Charged(env, v, t), Touching(EMPTY_SUBSTATE, {t.sender});
    match t.action {
      case CreateAction =>
        CreateConserves(env, v1, s1, t.sender, env.contractAddress(t.sender, NonceOf(v, env.startNonce, t.sender)),
                        t.value, run);
      case CallAction(to) =>
        CallConserves(env, v1, s1, false, Params(t.sender, to, TransferValue(t.value), CodeOf(v1, to), InitGas(t)),
                      run);
    }
    FinalizeConserves(env, info, t, TopFrame(env, v, t, run));
  }

  lemma FinalizeConserves(env: Env, info: BlockEnv, t: Transaction, frame: Outcome)
    requires frame.Done? && Finalized(env, info, t, frame).Accepted?
    ensures var r := Finalized(env, info, t, frame);
            && Total(r.view) <= Total(frame.view) + GasCost(t)
            && (frame.substate.suicides == {} ==> Total(r.view) == Total(frame.view) + GasCost(t))
            && r.executed.refunded * t.gasPrice + r.executed.transactionFee == GasCost(t)
  {
    var gasLeft := GasKept(frame.status, frame.gasLeft);
    var gasUsed := t.gas - gasLeft;
    RefundPlusFee(t.gas, gasLeft, t.gasPrice);
    TotalCredited(frame.view, env.startNonce, t.sender, gasLeft * t.gasPrice);
    var refunded := Credited(frame.view, env.startNonce, t.sender, gasLeft * t.gasPrice);
    TotalCredited(refunded, env.startNonce, info.author, gasUsed * t.gasPrice);
    var paid := Credited(refunded, env.startNonce, info.author, gasUsed * t.gasPrice);
    TotalRemove(paid, frame.substate.suicides);
    assert frame.substate.suicides == {} ==> paid - frame.substate.suicides == paid;
  }
}
