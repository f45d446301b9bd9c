/**
 * The executor as it runs: one mutable state with a stack of checkpoints, shared by all nested frames
 * (core/src/executor/fvm_exec.rs, core/src/executor/fvm_externality.rs). Every method is proved to
 * compute the reference semantics and to leave the checkpoint stack as it found it.
 */
module Executor {
  import opened Basics
  import opened WorldState
  import opened Execution

  datatype FrameResult = FrameResult(status: Status, gasLeft: nat)

  class Executive {
    const state: State
    const env: Env
    const info: BlockEnv

    constructor (state: State, env: Env, info: BlockEnv)
      ensures this.state == state && this.env == env && this.info == info
    {
      this.state, this.env, this.info := state, env, info;
    }

    ghost predicate Ready()
      reads this, state
    {
      state.Valid() && state.startNonce == env.startNonce
    }

    /** The present after a frame is what the semantics says, and the stack is back where it was. */
    twostate predicate Ran(new outcome: Outcome, substate: Substate, result: FrameResult)
      reads this, state
    {
      && Ready()
      && outcome == Done(state.View(), substate, result.status, result.gasLeft)
      && state.Snapshots() == old(state.Snapshots())
    }

    /** `enact_result`: commit by merging the checkpoint, or roll back to it. */
    method EnactResult(result: FrameResult, substate: Substate, unconfirmed: Substate) returns (substate': Substate)
      requires Ready() && state.checkpoints != []
      modifies state
      ensures Ready()
      ensures state.Snapshots() == old(state.Snapshots())[..|old(state.checkpoints)| - 1]
      ensures state.View() ==
              if result.status == Success then old(state.View()) else old(state.Snapshots()[|state.checkpoints| - 1])
      ensures substate' == if result.status == Success then Accrue(substate, unconfirmed) else substate
    {
      ghost var s := state.Snapshots();
      if result.status == Success {
        state.DiscardCheckpoint();
        assert forall i :: 0 <= i < |s| - 1 ==> s[..|s| - 1][i] == s[i];
        substate' := Accrue(substate, unconfirmed);
      } else {
        state.RevertToCheckpoint();
        substate' := substate;
      }
    }

    /** `call`. */
    method Call(substate: Substate, nested: bool, p: Params, run: Run)
      returns (result: FrameResult, substate': Substate)
      requires Ready() && CallFrame(env, state.View(), substate, nested, p, run).Done?
      modifies state
      ensures Ran(CallFrame(env, old(state.View()), substate, nested, p, run), substate', result)
      decreases run, 1
    {
      ghost var v, s := state.View(), state.Snapshots();
      substate' := substate;
      state.Checkpoint();
      if nested && p.value.TransferValue? {
        var touched := state.TransferBalance(p.sender, p.address, p.value.amount, substate'.touched);
        substate' := substate'.(touched := touched);
      }
      result, substate' := RunCode(v, s, substate', p, run);
      if !nested && result.status == Success {
        if p.value.TransferValue? {
          var touched := state.TransferBalance(p.sender, p.address, p.value.amount, substate'.touched);
          substate' := substate'.(touched := touched);
        }
      }
    }

    /** The middle of `call`: run the code and keep or undo its work; without code, just drop the checkpoint. */
    method RunCode(ghost entry: View, ghost s: seq<View>, substate: Substate, p: Params, run: Run)
      returns (result: FrameResult, substate': Substate)
      requires Ready() && state.Snapshots() == s + [entry]
               && CodeResult(env, entry, state.View(), substate, p, run).Done?
      modifies state
      ensures Ready() && state.Snapshots() == s
      ensures CodeResult(env, entry, old(state.View()), substate, p, run) ==
              Done(state.View(), substate', result.status, result.gasLeft)
      decreases run, 1, 0
    {
      ghost var s1 := state.Snapshots();
      assert s1[..|s|] == s && s1[|s|] == entry;
      if p.code != [] {
        var unconfirmed;
        result, unconfirmed := ExecVm(EMPTY_SUBSTATE, p.address, run);
        substate' := EnactResult(result, substate, unconfirmed);
      } else {
        state.DiscardCheckpoint();
        assert forall i :: 0 <= i < |s| ==> s1[..|s|][i] == s1[i];
        result, substate' := FrameResult(Success, p.gas), substate;
      }
    }

    /** The middle of `create`: the creator pays, and a fresh account appears at the address. */
    method Endow(sender: Address, address: Address, value: nat, touched: set<Address>) returns (touched': set<Address>)
      requires Ready() && value <= BalanceOf(state.View(), sender)
      modifies state
      ensures Ready() && state.Snapshots() == old(state.Snapshots())
      ensures state.View() == Endowed(env, old(state.View()), sender, address, value)
      ensures touched' == touched + {sender}
    {
      var nonceOffset := state.Required(address).nonce;
      var prevBalance := state.Balance(address);
      touched' := state.SubBalance(sender, value, touched, TrackTouched);
      state.NewContract(address, value + prevBalance, nonceOffset);
    }

    /** `create`. */
    method Create(substate: Substate, sender: Address, address: Address, value: nat, run: Run)
      returns (result: FrameResult, substate': Substate)
      requires Ready() && CreateFrame(env, state.View(), substate, sender, address, value, run).Done?
      modifies state
      ensures Ran(CreateFrame(env, old(state.View()), substate, sender, address, value, run), substate', result)
      decreases run, 1
    {
      ghost var v, s := state.View(), state.Snapshots();
      substate' := substate;
      var existing := state.Lookup(address);
      if existing.Some? && !IsEmpty(existing.value) {
        var account := existing.value;
        if !env.aion040 || account.code != [] || account.nonce != 0 || HasStorage(account) {
          result := FrameResult(Failure, 0);
          return;
        }
      }
      state.Checkpoint();
      ghost var s1 := state.Snapshots();
      assert s1[..|s|] == s && s1[|s|] == v;
      var touched := Endow(sender, address, value, substate'.touched);
      substate' := substate'.(touched := touched);
      var unconfirmed;
      result, unconfirmed := ExecVm(EMPTY_SUBSTATE, address, run);
      substate' := EnactResult(result, substate', unconfirmed);
    }

    /** `exec_vm`: the operations of the run, one after the other. */
    method ExecVm(substate: Substate, self: Address, run: Run) returns (result: FrameResult, substate': Substate)
      requires Ready() && Exec(env, state.View(), substate, self, run).Done?
      modifies state
      ensures Ran(Exec(env, old(state.View()), substate, self, run), substate', result)
      decreases run, 0
    {
      match run
      case Return(status, gasLeft) =>
        result, substate' := FrameResult(status, gasLeft), substate;
      case Then(op, next) =>
        var _, between := Perform(substate, self, op);
        result, substate' := ExecVm(between, self, next);
    }

    /** The externalities. */
    method Perform(substate: Substate, self: Address, op: Op) returns (result: FrameResult, substate': Substate)
      requires Ready() && Do(env, state.View(), substate, self, op).Done?
      modifies state
      ensures Ran(Do(env, old(state.View()), substate, self, op), substate', result)
      decreases op, 2
    {
      result, substate' := FrameResult(Success, 0), substate;
      match op
      case Store(key, value) =>
        state.StoreValue(self, key, value);
      case Log(topics, data) =>
        substate' := substate'.(logs := substate'.logs + [LogEntry(self, topics, data)]);
      case SaveCode(code) =>
        state.StoreCode(self, code);
      case SstoreClear =>
        substate' := substate'.(sstoreClears := substate'.sstoreClears + 1);
      case Suicide(refund) =>
        substate' := PerformSuicide(substate, self, refund);
      case CallOp(gas, sender, receiver, value, codeAddress, callType, run) =>
        var actionValue :=
          if value.Some? && callType != DelegateCall && callType != CallCode then TransferValue(value.value)
            else ApparentValue;
        var p := Params(sender, receiver, actionValue, state.Required(codeAddress).code, gas);
        result, substate' := Call(substate, true, p, run);
      case CreateOp(gas, value, run) =>
        result, substate' := PerformCreate(substate, self, value, run);
    }

    method PerformSuicide(substate: Substate, self: Address, refund: Address) returns (substate': Substate)
      requires Ready()
      modifies state
      ensures Ran(DoSuicide(env, old(state.View()), substate, self, refund), substate', FrameResult(Success, 0))
    {
      substate' := substate;
      var balance := state.Balance(self);
      if self == refund {
        var _ := state.SubBalance(self, balance, substate'.touched, NoEmpty);
      } else {
        var touched := state.TransferBalance(self, refund, balance, substate'.touched);
        substate' := substate'.(touched := touched);
      }
      substate' := substate'.(suicides := substate'.suicides + {self});
    }

    method PerformCreate(substate: Substate, self: Address, value: nat, run: Run)
      returns (result: FrameResult, substate': Substate)
      requires Ready() && DoCreate(env, state.View(), substate, self, value, run).Done?
      modifies state
      ensures Ran(DoCreate(env, old(state.View()), substate, self, value, run), substate', result)
      decreases run, 2
    {
      var address := env.contractAddress(self, state.Required(self).nonce);
      result, substate' := Create(substate, self, address, value, run);
      if result.status == Success {
        substate' := substate'.(contractsCreated := substate'.contractsCreated + [address]);
        state.IncrementNonce(self);
        state.IncrementNonce(address);
      }
    }

    /** `finalize`: a transaction that does not fit is undone as a whole. */
    method Finalize(t: Transaction, substate: Substate, result: FrameResult)
      returns (r: Result<Executed, ExecutionError>)
      requires Ready() && |state.checkpoints| == 1 && GasKept(result.status, result.gasLeft) <= t.gas
      modifies state
      ensures Ready() && state.checkpoints == []
      ensures match Finalized(env, info, t, Done(old(state.View()), substate, result.status, result.gasLeft))
              case Accepted(view, executed) => r == Ok(executed) && state.View() == view
              case Rejected(error) => r == Err(error) && state.View() == old(state.Snapshots()[0])
              case Panicked => false
    {
      var gasLeft := GasKept(result.status, result.gasLeft);
      if t.gas - gasLeft + info.gasUsed > info.gasLimit {
        state.RevertToCheckpoint();
        return Err(BlockGasLimitReached(info.gasLimit, info.gasUsed + t.gas - gasLeft, t.gas));
      }
      var gasUsed := t.gas - gasLeft;
      var refundValue, feesValue := gasLeft * t.gasPrice, gasUsed * t.gasPrice;
      var _ := state.AddBalance(t.sender, refundValue, substate.touched, NoEmpty);
      var _ := state.AddBalance(info.author, feesValue, substate.touched, TrackTouched);
      KillAccounts(substate.suicides);
      state.DiscardCheckpoint();
      r := Ok(Executed(t.gas, gasUsed, gasLeft, feesValue, substate.logs, substate.contractsCreated));
    }

    method KillAccounts(addresses: set<Address>)
      requires state.Clean()
      modifies state
      ensures state.Clean() && state.View() == old(state.View()) - addresses
      ensures |state.Snapshots()| == old(|state.Snapshots()|)
    {
      var rest, killed := addresses, {};
      while rest != {}
        invariant killed + rest == addresses
        invariant state.Clean() && state.View() == old(state.View()) - killed
        invariant |state.Snapshots()| == old(|state.Snapshots()|)
        decreases rest
      {
        var a :| a in rest;
        MapRemoveTwice(old(state.View()), killed, {a});
        state.KillAccount(a);
        rest, killed := rest - {a}, killed + {a};
      }
    }

    /** The checks of `transact`, in order. */
    method Check(t: Transaction, mode: Mode) returns (error: Option<ExecutionError>)
      requires Ready()
      ensures error == Precheck(env, info, state.View(), t, mode)
    {
      var nonce := state.Required(t.sender).nonce;
      if mode.checkNonce && t.nonce != nonce {
        return Some(InvalidNonce(nonce, t.nonce));
      }
      if t.gas < GasAgainstRejection(info, t) {
        return Some(NotEnoughBaseGas(GasAgainstRejection(info, t), t.gas));
      }
      if !mode.isLocalCall && t.gas > MaxGas(t) {
        return Some(ExceedMaxGasLimit(MaxGas(t), t.gas));
      }
      if mode.isBuildingBlock && info.gasUsed + t.gas > info.gasLimit {
        return Some(BlockGasLimitReached(info.gasLimit, info.gasUsed, t.gas));
      }
      var balance := state.Balance(t.sender);
      var gasCost := t.gas * t.gasPrice;
      if balance < t.value + gasCost {
        return Some(NotEnoughCash(t.value + gasCost, balance));
      }
      error := None;
    }

    /** The outermost frame of `transact`, after the sender has been charged. */
    method RunTop(t: Transaction, run: Run) returns (result: FrameResult, substate: Substate)
      requires Ready() && GasCost(t) <= BalanceOf(state.View(), t.sender) && TopFrame(env, state.View(), t, run).Done?
      modifies state
      ensures Ran(TopFrame(env, old(state.View()), t, run), substate, result)
    {
      var nonce := state.Required(t.sender).nonce;
      state.IncrementNonce(t.sender);
      var touched := state.SubBalance(t.sender, t.gas * t.gasPrice, {}, TrackTouched);
      substate := EMPTY_SUBSTATE.(touched := touched);
      match t.action {
        case CreateAction =>
          result, substate := Create(substate, t.sender, env.contractAddress(t.sender, nonce), t.value, run);
        case CallAction(to) =>
          var p := Params(t.sender, to, TransferValue(t.value), state.Required(to).code, InitGas(t));
          result, substate := Call(substate, false, p, run);
      }
    }

    /** `transact`. */
    method TransactIn(t: Transaction, mode: Mode, run: Run) returns (r: Result<Executed, ExecutionError>)
      requires Ready() && state.checkpoints == []
      requires !Transact(env, info, state.View(), t, mode, run).Panicked?
      modifies state
      ensures Ready() && state.checkpoints == []
      ensures match Transact(env, info, old(state.View()), t, mode, run)
              case Accepted(view, executed) => r == Ok(executed) && state.View() == view
              case Rejected(error) => r == Err(error) && state.View() == old(state.View())
              case Panicked => false
    {
      var error := Check(t, mode);
      if error.Some? {
        return Err(error.value);
      }
      ghost var v := state.View();
      state.Checkpoint();
      assert state.Snapshots() == [v];
      var result, substate := RunTop(t, run);
      r := Finalize(t, substate, result);
    }
  }
}
