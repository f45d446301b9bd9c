/**
 * Every state of the world that executing a transaction passes through, in every nested frame, and the
 * bound on all balances in all of them.
 */
module BalanceLaws {
  import opened Basics
  import opened WorldState
  import opened Execution
  import opened ExecutionLaws

  /** The two steps of a transfer. */
  function TransferViews(v: View, start: nat, from: Address, to: Address, x: nat): seq<View>
    requires x <= BalanceOf(v, from)
  {
    [Debited(v, start, from, x), Transferred(v, start, from, to, x)]
  }

  function CallViews(env: Env, v: View, s: Substate, nested: bool, p: Params, run: Run): seq<View>
    decreases run, 1
  {
    if Pays(p, nested) then
      if p.value.amount > BalanceOf(v, p.sender) then []
      else
        TransferViews(v, env.startNonce, p.sender, p.address, p.value.amount) +
        CodeViews(env, Transferred(v, env.startNonce, p.sender, p.address, p.value.amount), p, run)
    else
      var res := CodeResult(env, v, v, s, p, run);
      CodeViews(env, v, p, run) +
      if !nested && res.Done? && p.value.TransferValue? && p.value.amount <= BalanceOf(res.view, p.sender) then
        TransferViews(res.view, env.startNonce, p.sender, p.address, p.value.amount)
      else []
  }

  function CodeViews(env: Env, paid: View, p: Params, run: Run): seq<View>
    decreases run, 1, 0
  {
    if p.code == [] then [] else ExecViews(env, paid, EMPTY_SUBSTATE, p.address, run)
  }

  function CreateViews(env: Env, v: View, sender: Address, address: Address, value: nat, run: Run): seq<View>
    decreases run, 1
  {
    if Collides(env, v, address) || value > BalanceOf(v, sender) then []
    else
      [Debited(v, env.startNonce, sender, value)] +
      ExecViews(env, Endowed(env, v, sender, address, value), EMPTY_SUBSTATE, address, run)
  }

  function ExecViews(env: Env, v: View, s: Substate, self: Address, run: Run): seq<View>
    decreases run, 0
  {
    [v] +
    match run
    case Return(_, _) => []
    case Then(op, next) =>
      DoViews(env, v, s, self, op) +
      match Do(env, v, s, self, op)
      case Panic => []
      case Done(v', s', _, _) => ExecViews(env, v', s', self, next)
  }

  function DoViews(env: Env, v: View, s: Substate, self: Address, op: Op): seq<View>
    decreases op, 2
  {
    match op
    case Suicide(refund) =>
      if self == refund then [] else TransferViews(v, env.startNonce, self, refund, BalanceOf(v, self))
    case CallOp(gas, sender, receiver, value, codeAddress, callType, run) =>
      CallViews(env, v, s, true, CallParams(v, gas, sender, receiver, value, codeAddress, callType), run)
    case CreateOp(_, value, run) =>
      CreateViews(env, v, self, env.contractAddress(self, NonceOf(v, env.startNonce, self)), value, run)
    case _ => []
  }

  /** The steps of `finalize`: the refund, the fee, the removals. */
  function FinalViews(env: Env, info: BlockEnv, t: Transaction, frame: Outcome): seq<View> {
    if frame.Panic? || !Finalized(env, info, t, frame).Accepted? then []
    else
      var gasLeft := GasKept(frame.status, frame.gasLeft);
      var refunded := Credited(frame.view, env.startNonce, t.sender, gasLeft * t.gasPrice);
      var paid := Credited(refunded, env.startNonce, info.author, (t.gas - gasLeft) * t.gasPrice);
      [frame.view, refunded, paid, paid - frame.substate.suicides]
  }

  /** All the states a transaction passes through, whatever becomes of it. */
  function TransactViews(env: Env, info: BlockEnv, v: View, t: Transaction, mode: Mode, run: Run): seq<View> {
    if Precheck(env, info, v, t, mode).Some? then [v]
    else
      var v1, s1 := Charged(env, v, t), Touching(EMPTY_SUBSTATE, {t.sender});
      [v, IncNonce(v, env.startNonce, t.sender), v1] +
      TopViews(env, v, v1, s1, t, run) + FinalViews(env, info, t, TopFrame(env, v, t, run))
  }

  function TopViews(env: Env, v: View, v1: View, s1: Substate, t: Transaction, run: Run): seq<View> {
    match t.action
    case CreateAction =>
      CreateViews(env, v1, t.sender, env.contractAddress(t.sender, NonceOf(v, env.startNonce, t.sender)), t.value, run)
    case CallAction(to) =>
      CallViews(env, v1, s1, false, Params(t.sender, to, TransferValue(t.value), CodeOf(v1, to), InitGas(t)), run)
  }

  // ---------------------------------------------------------------------------------------------
  // The bound

  ghost predicate Bounded(ws: seq<View>, bound: nat) {
    forall i :: 0 <= i < |ws| ==> Total(ws[i]) <= bound
  }

  lemma BoundedAppend(a: seq<View>, b: seq<View>, bound: nat)
    requires Bounded(a, bound) && Bounded(b, bound)
    ensures Bounded(a + b, bound)
  {
  }

  lemma TransferBounded(v: View, start: nat, from: Address, to: Address, x: nat, bound: nat)
    requires x <= BalanceOf(v, from) && Total(v) <= bound
    ensures Bounded(TransferViews(v, start, from, to, x), bound)
  {
    TotalDebited(v, start, from, x);
    TotalTransferred(v, start, from, to, x);
  }

  lemma {:induction false} CallBounded(env: Env, v: View, s: Substate, nested: bool, p: Params, run: Run, bound: nat)
    requires AddressesDiffer(env) && Total(v) <= bound
    ensures Bounded(CallViews(env, v, s, nested, p, run), bound)
    decreases run, 1
  {
    if Pays(p, nested) {
      if p.value.amount <= BalanceOf(v, p.sender) {
        var paid := Transferred(v, env.startNonce, p.sender, p.address, p.value.amount);
        TransferBounded(v, env.startNonce, p.sender, p.address, p.value.amount, bound);
        TotalTransferred(v, env.startNonce, p.sender, p.address, p.value.amount);
        CodeBounded(env, paid, p, run, bound);
        BoundedAppend(TransferViews(v, env.startNonce, p.sender, p.address, p.value.amount),
                      CodeViews(env, paid, p, run), bound);
      }
    } else {
      CodeBounded(env, v, p, run, bound);
      CodeConserves(env, v, v, s, p, run);
      var res := CodeResult(env, v, v, s, p, run);
      if !nested && res.Done? && p.value.TransferValue? && p.value.amount <= BalanceOf(res.view, p.sender) {
        TransferBounded(res.view, env.startNonce, p.sender, p.address, p.value.amount, bound);
        BoundedAppend(CodeViews(env, v, p, run),
                      TransferViews(res.view, env.startNonce, p.sender, p.address, p.value.amount), bound);
      } else {
        BoundedAppend(CodeViews(env, v, p, run), [], bound);
      }
    }
  }

  lemma {:induction false} CodeBounded(env: Env, paid: View, p: Params, run: Run, bound: nat)
    requires AddressesDiffer(env) && Total(paid) <= bound
    ensures Bounded(CodeViews(env, paid, p, run), bound)
    decreases run, 1, 0
  {
    if p.code != [] {
      ExecBounded(env, paid, EMPTY_SUBSTATE, p.address, run, bound);
    }
  }

  lemma {:induction false} CreateBounded(env: Env, v: View, sender: Address, address: Address, value: nat, run: Run,
                                         bound: nat)
    requires AddressesDiffer(env) && sender != address && Total(v) <= bound
    ensures Bounded(CreateViews(env, v, sender, address, value, run), bound)
    decreases run, 1
  {
    if !Collides(env, v, address) && value <= BalanceOf(v, sender) {
      var endowed := Endowed(env, v, sender, address, value);
      TotalDebited(v, env.startNonce, sender, value);
      EndowedConserves(env, v, sender, address, value);
      ExecBounded(env, endowed, EMPTY_SUBSTATE, address, run, bound);
      BoundedAppend([Debited(v, env.startNonce, sender, value)], ExecViews(env, endowed, EMPTY_SUBSTATE, address, run),
                    bound);
    }
  }

  lemma {:induction false} ExecBounded(env: Env, v: View, s: Substate, self: Address, run: Run, bound: nat)
    requires AddressesDiffer(env) && Total(v) <= bound
    ensures Bounded(ExecViews(env, v, s, self, run), bound)
    decreases run, 0
  {
    match run
    case Return(_, _) =>
      assert [v] + [] == [v];
    case Then(op, next) =>
      DoBounded(env, v, s, self, op, bound);
      DoConserves(env, v, s, self, op);
      var between := Do(env, v, s, self, op);
      var later := if between.Panic? then [] else ExecViews(env, between.view, between.substate, self, next);
      if between.Done? {
        ExecBounded(env, between.view, between.substate, self, next, bound);
      }
      BoundedAppend(DoViews(env, v, s, self, op), later, bound);
      BoundedAppend([v], DoViews(env, v, s, self, op) + later, bound);
  }

  lemma {:induction false} DoBounded(env: Env, v: View, s: Substate, self: Address, op: Op, bound: nat)
    requires AddressesDiffer(env) && Total(v) <= bound
    ensures Bounded(DoViews(env, v, s, self, op), bound)
    decreases op, 2
  {
    match op
    case Suicide(refund) =>
      TransferBounded(v, env.startNonce, self, refund, BalanceOf(v, self), bound);
    case CallOp(gas, sender, receiver, value, codeAddress, callType, run) =>
      CallBounded(env, v, s, true, CallParams(v, gas, sender, receiver, value, codeAddress, callType), run, bound);
    case CreateOp(_, value, run) =>
      CreateBounded(env, v, self, env.contractAddress(self, NonceOf(v, env.startNonce, self)), value, run, bound);
    case _ =>
  }

  lemma FinalBounded(env: Env, info: BlockEnv, t: Transaction, frame: Outcome, bound: nat)
    requires frame.Done? ==> Total(frame.view) + GasCost(t) <= bound
    ensures Bounded(FinalViews(env, info, t, frame), bound)
  {
    if frame.Done? && Finalized(env, info, t, frame).Accepted? {
      var gasLeft := GasKept(frame.status, frame.gasLeft);
      RefundPlusFee(t.gas, gasLeft, t.gasPrice);
      var refunded := Credited(frame.view, env.startNonce, t.sender, gasLeft * t.gasPrice);
      TotalCredited(frame.view, env.startNonce, t.sender, gasLeft * t.gasPrice);
      var paid := Credited(refunded, env.startNonce, info.author, (t.gas - gasLeft) * t.gasPrice);
      TotalCredited(refunded, env.startNonce, info.author, (t.gas - gasLeft) * t.gasPrice);
      TotalRemove(paid, frame.substate.suicides);
    }
  }

  lemma TopBounded(env: Env, v: View, t: Transaction, run: Run, bound: nat)
    requires AddressesDiffer(env) && GasCost(t) <= BalanceOf(v, t.sender) && Total(v) <= bound
    ensures var v1, s1, r := Charged(env, v, t), Touching(EMPTY_SUBSTATE, {t.sender}), TopFrame(env, v, t, run);
            && Total(v1) <= bound && Bounded(TopViews(env, v, v1, s1, t, run), bound)
            && (r.Done? ==> Total(r.view) + GasCost(t) <= bound)
  {
    var v1, s1 := Charged(env, v, t), Touching(EMPTY_SUBSTATE, {t.sender});
    TotalIncNonce(v, env.startNonce, t.sender);
    TotalDebited(IncNonce(v, env.startNonce, t.sender), env.startNonce, t.sender, GasCost(t));
    match t.action {
      case CreateAction =>
        var address := env.contractAddress(t.sender, NonceOf(v, env.startNonce, t.sender));
        CreateBounded(env, v1, t.sender, address, t.value, run, bound);
        CreateConserves(env, v1, s1, t.sender, address, t.value, run);
      case CallAction(to) =>
        var p := Params(t.sender, to, TransferValue(t.value), CodeOf(v1, to), InitGas(t));
        CallBounded(env, v1, s1, false, p, run, bound);
        CallConserves(env, v1, s1, false, p, run);
    }
  }

  lemma TransactBounded(env: Env, info: BlockEnv, v: View, t: Transaction, mode: Mode, run: Run)
    requires AddressesDiffer(env)
    ensures Bounded(TransactViews(env, info, v, t, mode, run), Total(v))
  {
    if Precheck(env, info, v, t, mode).None? {
      var v1, s1, frame := Charged(env, v, t), Touching(EMPTY_SUBSTATE, {t.sender}), TopFrame(env, v, t, run);
      var start := [v, IncNonce(v, env.startNonce, t.sender), v1];
      TotalIncNonce(v, env.startNonce, t.sender);
      TopBounded(env, v, t, run, Total(v));
      FinalBounded(env, info, t, frame, Total(v));
      BoundedAppend(start, TopViews(env, v, v1, s1, t, run), Total(v));
      BoundedAppend(start + TopViews(env, v, v1, s1, t, run), FinalViews(env, info, t, frame), Total(v));
    }
  }

  /**
   * In every state a transaction passes through, in every nested frame and whatever becomes of it, every
   * balance is within the sum of the balances at its start; so no balance outgrows a word that holds that sum.
   */
  lemma NoBalanceOverflow(env: Env, info: BlockEnv, v: View, t: Transaction, mode: Mode, run: Run, w: View, a: Address)
    requires AddressesDiffer(env) && w in TransactViews(env, info, v, t, mode, run)
    ensures BalanceOf(w, a) <= Total(v)
  {
    TransactBounded(env, info, v, t, mode, run);
    var views := TransactViews(env, info, v, t, mode, run);
    var i :| 0 <= i < |views| && views[i] == w;
    BalanceWithinTotal(w, a);
  }

  /** The state at the end is one of them. */
  lemma FinalIsVisited(env: Env, info: BlockEnv, v: View, t: Transaction, mode: Mode, run: Run)
    requires Transact(env, info, v, t, mode, run).Accepted?
    ensures Transact(env, info, v, t, mode, run).view in TransactViews(env, info, v, t, mode, run)
  {
    var frame := TopFrame(env, v, t, run);
    var final := FinalViews(env, info, t, frame);
    assert final[3] == Transact(env, info, v, t, mode, run).view;
  }
}
