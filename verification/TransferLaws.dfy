/**
 * Who pays whom: the balances that transactions, nested calls, creations and suicides leave.
 */
module TransferLaws {
  import opened Basics
  import opened WorldState
  import opened Execution
  import opened SenderLaws
  import ExecutionLaws

  /** What a transaction without nested frames comes to. */
  lemma PlainFrame(env: Env, v: View, t: Transaction, to: Address, run: Run)
    requires t.action == CallAction(to) && CodeOf(v, to) == [] && to != t.sender
             && t.value + GasCost(t) <= BalanceOf(v, t.sender)
    ensures var r := TopFrame(env, v, t, run);
            && r.Done? && r.status == Success && r.gasLeft == InitGas(t) && r.substate.suicides == {}
            && r.substate.logs == []
            && BalanceOf(r.view, t.sender) == BalanceOf(v, t.sender) - GasCost(t) - t.value
            && BalanceOf(r.view, to) == BalanceOf(v, to) + t.value
            && SameElsewhere(v, r.view, {t.sender, to})
  {
    var v1 := Charged(env, v, t);
    assert CodeOf(v1, to) == [] && BalanceOf(v1, t.sender) == BalanceOf(v, t.sender) - GasCost(t);
    var s1, p := Touching(EMPTY_SUBSTATE, {t.sender}), Params(t.sender, to, TransferValue(t.value), [], InitGas(t));
    var res := CodeResult(env, v1, v1, s1, p, run);
    assert res == Done(v1, s1, Success, InitGas(t));
    assert TopFrame(env, v, t, run) == PayAfter(env, p, res);
    TransferMoves(v1, env.startNonce, t.sender, to, t.value);
  }

  /**
   * A plain payment: the payee gets the value, the author the fee for the base cost, the sender pays both,
   * and no other account changes.
   */
  lemma PlainPayment(env: Env, info: BlockEnv, v: View, t: Transaction, to: Address, mode: Mode, run: Run)
    requires t.action == CallAction(to) && CodeOf(v, to) == [] && Transact(env, info, v, t, mode, run).Accepted?
    requires to != t.sender && info.author != t.sender && info.author != to
    ensures var r := Transact(env, info, v, t, mode, run);
            && r.executed.gasUsed == (if t.gas < GasRequired(t) then t.gas else GasRequired(t))
            && r.executed.transactionFee == r.executed.gasUsed * t.gasPrice && r.executed.logs == []
            && BalanceOf(r.view, t.sender) == BalanceOf(v, t.sender) - t.value - r.executed.transactionFee
            && BalanceOf(r.view, to) == BalanceOf(v, to) + t.value
            && BalanceOf(r.view, info.author) == BalanceOf(v, info.author) + r.executed.transactionFee
            && SameElsewhere(v, r.view, {t.sender, to, info.author})
  {
    PlainFrame(env, v, t, to, run);
    var frame := TopFrame(env, v, t, run);
    FinalizedMoves(env, info, t, frame);
    assert At(frame.view, info.author) == At(v, info.author);
    assert frame.view - frame.substate.suicides == frame.view;
  }

  /** Finalizing gives the sender the refund and the author the fee. */
  lemma FinalizedMoves(env: Env, info: BlockEnv, t: Transaction, frame: Outcome)
    requires frame.Done? && Finalized(env, info, t, frame).Accepted? && info.author != t.sender
    ensures var r := Finalized(env, info, t, frame);
            && r.executed.gasUsed == t.gas - GasKept(frame.status, frame.gasLeft)
            && r.executed.transactionFee == r.executed.gasUsed * t.gasPrice
            && (t.sender !in frame.substate.suicides ==>
                  BalanceOf(r.view, t.sender) == BalanceOf(frame.view, t.sender)
                  + GasCost(t) - r.executed.transactionFee)
            && (info.author !in frame.substate.suicides ==>
                  BalanceOf(r.view, info.author) == BalanceOf(frame.view, info.author) + r.executed.transactionFee)
            && SameElsewhere(frame.view - frame.substate.suicides, r.view, {t.sender, info.author})
  {
    var gasLeft := GasKept(frame.status, frame.gasLeft);
    ExecutionLaws.RefundPlusFee(t.gas, gasLeft, t.gasPrice);
  }

  /** The sender gets at least the refund; one who is also the author gets the fee back too. */
  lemma FinalizedSender(env: Env, info: BlockEnv, t: Transaction, frame: Outcome)
    requires frame.Done? && Finalized(env, info, t, frame).Accepted? && t.sender !in frame.substate.suicides
    ensures var r := Finalized(env, info, t, frame);
            BalanceOf(r.view, t.sender) == BalanceOf(frame.view, t.sender) + GasCost(t) -
                                           if info.author == t.sender then 0 else r.executed.transactionFee
  {
    ExecutionLaws.RefundPlusFee(t.gas, GasKept(frame.status, frame.gasLeft), t.gasPrice);
  }

  /** Whatever its nested frames do, a transaction costs its sender at most its value and its fee. */
  lemma SenderPaysAtMost(env: Env, info: BlockEnv, v: View, t: Transaction, mode: Mode, run: Run)
    requires Transact(env, info, v, t, mode, run).Accepted?
    requires CodeOf(v, t.sender) == [] && OwnTransaction(env, v, t, run)
    ensures var r := Transact(env, info, v, t, mode, run);
            BalanceOf(r.view, t.sender) >= BalanceOf(v, t.sender) - t.value - r.executed.transactionFee
  {
    TopSparesSender(env, v, t, run);
    FinalizedSender(env, info, t, TopFrame(env, v, t, run));
  }

  lemma TopCallSparesOther(env: Env, v1: View, s1: Substate, p: Params, run: Run, x: Address)
    requires External(v1, x) && x != p.sender && OwnCall(env, v1, false, p, run)
    requires p.code == CodeOf(v1, p.address) && p.value.TransferValue?
    ensures Spares(v1, s1, CallFrame(env, v1, s1, false, p, run), x)
  {
    if p.code != [] {
      ExecSpares(env, v1, EMPTY_SUBSTATE, p.address, run, x);
    }
    var res := CodeResult(env, v1, v1, s1, p, run);
    assert Spares(v1, s1, res, x);
  }

  /** The outermost frame spares every external account but the sender. */
  lemma TopSparesOthers(env: Env, v: View, t: Transaction, run: Run, x: Address)
    requires GasCost(t) <= BalanceOf(v, t.sender) && OwnTransaction(env, v, t, run)
    requires External(v, x) && x != t.sender
    ensures Spares(v, EMPTY_SUBSTATE, TopFrame(env, v, t, run), x)
  {
    var v1, s1 := Charged(env, v, t), Touching(EMPTY_SUBSTATE, {t.sender});
    match t.action {
      case CreateAction =>
        CreateSpares(env, v1, s1, t.sender, env.contractAddress(t.sender, NonceOf(v, env.startNonce, t.sender)),
                     t.value, run, x);
      case CallAction(to) =>
        var p := Params(t.sender, to, TransferValue(t.value), CodeOf(v1, to), InitGas(t));
        TopCallSparesOther(env, v1, s1, p, run, x);
    }
  }

  /**
   * Whatever its nested frames do, a transaction takes nothing from an external account that did not send
   * it, and leaves it its nonce and its lack of code.
   */
  lemma OthersLoseNothing(env: Env, info: BlockEnv, v: View, t: Transaction, mode: Mode, run: Run, x: Address)
    requires Transact(env, info, v, t, mode, run).Accepted? && OwnTransaction(env, v, t, run)
    requires External(v, x) && x != t.sender
    ensures Spared(v, Transact(env, info, v, t, mode, run).view, x)
  {
    TopSparesOthers(env, v, t, run, x);
  }
}
