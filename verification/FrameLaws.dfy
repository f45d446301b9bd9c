/**
 * What a frame that fails leaves behind, and which logs survive a transaction.
 */
module FrameLaws {
  import opened Basics
  import opened WorldState
  import opened Execution

  /** The same substate but for the addresses marked as touched. */
  predicate SameButTouched(s: Substate, t: Substate) {
    s.(touched := {}) == t.(touched := {})
  }

  /**
   * A nested call that does not succeed leaves every account, and everything but the touched set of its
   * caller's substate, as at entry. The touched set is as at entry too if and only if nothing was to be
   * transferred or the transfer touches nothing new.
   */
  lemma FailedCallRollsBack(env: Env, v: View, s: Substate, p: Params, run: Run)
    requires var r := CallFrame(env, v, s, true, p, run); r.Done? && r.status != Success
    ensures var r := CallFrame(env, v, s, true, p, run);
            && r.view == v && SameButTouched(r.substate, s)
            && (r.substate == s <==>
                p.value.ApparentValue? ||
                (p.sender in s.touched
                 && (p.value.amount == 0 && (p.address in v || p.address == p.sender) ==> p.address in s.touched)))
  {
    if Pays(p, true) {
      var touches := TransferTouches(v, env.startNonce, p.sender, p.address, p.value.amount);
      assert p.sender in touches;
      assert s.touched + touches == s.touched <==> touches <= s.touched;
    }
  }

  /** An outermost call pays only on success, so it leaves its caller's substate exactly as at entry. */
  lemma FailedTopCallRollsBack(env: Env, v: View, s: Substate, p: Params, run: Run)
    requires var r := CallFrame(env, v, s, false, p, run); r.Done? && r.status != Success
    ensures var r := CallFrame(env, v, s, false, p, run); r.view == v && r.substate == s
  {
  }

  /** A failed creation: either the address was taken, and nothing happened, or the creator is touched. */
  lemma FailedCreateRollsBack(env: Env, v: View, s: Substate, sender: Address, address: Address, value: nat, run: Run)
    requires var r := CreateFrame(env, v, s, sender, address, value, run); r.Done? && r.status != Success
    ensures var r := CreateFrame(env, v, s, sender, address, value, run);
            && r.view == v && SameButTouched(r.substate, s)
            && (r.substate == s <==> Collides(env, v, address) || sender in s.touched)
  {
    assert s.touched + {sender} == s.touched <==> sender in s.touched;
  }

  /** A failed frame can change its caller's touched set. */
  lemma TouchedSurvivesFailure(env: Env, sender: Address, callee: Address)
    requires sender != callee
    ensures var v: View := map[sender := NewAccount(1, 0), callee := NewAccount(0, 0).(code := [1])];
            var r := CallFrame(env, v, EMPTY_SUBSTATE, true, Params(sender, callee, TransferValue(1), [1], 0),
                               Return(Failure, 0));
            r.Done? && r.status == Failure && r.view == v && r.substate.touched == {sender}
  {
  }

  // ---------------------------------------------------------------------------------------------
  // Logs

  /** A log that was emitted, and how the frames opened around it ended, innermost first. */
  datatype Emission = Emission(entry: LogEntry, frames: seq<Status>)

  /** The emissions of a frame that ended with `status`, as its caller sees them. */
  function Wrap(es: seq<Emission>, status: Status): seq<Emission> {
    if es == [] then [] else [es[0].(frames := es[0].frames + [status])] + Wrap(es[1..], status)
  }

  /** Every log the run emits, in program order, whatever becomes of it. */
  function Emitted(env: Env, v: View, s: Substate, self: Address, run: Run): seq<Emission>
    decreases run, 0
  {
    match run
    case Return(_, _) => []
    case Then(op, next) =>
      match Do(env, v, s, self, op)
      case Panic => []
      case Done(v', s', _, _) => EmittedBy(env, v, s, self, op) + Emitted(env, v', s', self, next)
  }

  /** The emissions of one operation, those of the frames it opens included. */
  function EmittedBy(env: Env, v: View, s: Substate, self: Address, op: Op): seq<Emission>
    decreases op, 2
  {
    match op
    case Log(topics, data) => [Emission(LogEntry(self, topics, data), [])]
    case CallOp(gas, sender, receiver, value, codeAddress, callType, run) =>
      EmittedInCall(env, v, true, CallParams(v, gas, sender, receiver, value, codeAddress, callType), run)
    case CreateOp(_, value, run) =>
      EmittedInCreate(env, v, self, env.contractAddress(self, NonceOf(v, env.startNonce, self)), value, run)
    case _ => []
  }

  function EmittedInFrame(env: Env, v: View, self: Address, run: Run): seq<Emission>
    decreases run, 1
  {
    match Exec(env, v, EMPTY_SUBSTATE, self, run)
    case Panic => []
    case Done(_, _, status, _) => Wrap(Emitted(env, v, EMPTY_SUBSTATE, self, run), status)
  }

  function EmittedInCall(env: Env, v: View, nested: bool, p: Params, run: Run): seq<Emission>
    decreases run, 2
  {
    if p.code == [] || (Pays(p, nested) && p.value.amount > BalanceOf(v, p.sender)) then []
    else EmittedInFrame(env, if Pays(p, nested)
                             then Transferred(v, env.startNonce, p.sender, p.address, p.value.amount)
                             else v, p.address, run)
  }

  function EmittedInCreate(env: Env, v: View, sender: Address, address: Address, value: nat, run: Run): seq<Emission>
    decreases run, 2
  {
    if Collides(env, v, address) || value > BalanceOf(v, sender) then []
    else EmittedInFrame(env, Endowed(env, v, sender, address, value), address, run)
  }

  /** Every frame around the emission succeeded. */
  predicate Survives(e: Emission) {
    forall i :: 0 <= i < |e.frames| ==> e.frames[i] == Success
  }

  /** The entries of the surviving emissions, in order. */
  function Surviving(es: seq<Emission>): seq<LogEntry> {
    if es == [] then [] else (if Survives(es[0]) then [es[0].entry] else []) + Surviving(es[1..])
  }

  lemma {:induction false} SurvivingAppend(es: seq<Emission>, fs: seq<Emission>)
    ensures Surviving(es + fs) == Surviving(es) + Surviving(fs)
  {
    if es == [] {
      assert es + fs == fs;
    } else {
      var head := if Survives(es[0]) then [es[0].entry] else [];
      assert (es + fs)[1..] == es[1..] + fs && (es + fs)[0] == es[0];
      SurvivingAppend(es[1..], fs);
      Associate(head, Surviving(es[1..]), Surviving(fs));
    }
  }

  /** A frame's survivors survive in its caller exactly if it succeeded. */
  lemma {:induction false} SurvivingWrap(es: seq<Emission>, status: Status)
    ensures Surviving(Wrap(es, status)) == if status == Success then Surviving(es) else []
  {
    if es != [] {
      SurvivingWrap(es[1..], status);
      var w := Wrap(es, status);
      assert w[1..] == Wrap(es[1..], status);
      assert w[0].frames[..|es[0].frames|] == es[0].frames;
      assert w[0].frames[|es[0].frames|] == status;
      assert Survives(w[0]) <==> Survives(es[0]) && status == Success by {
        if Survives(w[0]) {
          forall i | 0 <= i < |es[0].frames| ensures es[0].frames[i] == Success { assert w[0].frames[i] == Success; }
        }
      }
    }
  }

  /** The logs a frame leaves are its caller's, then its survivors. */
  ghost predicate LogsOf(s: Substate, outcome: Outcome, es: seq<Emission>) {
    outcome.Done? ==> outcome.substate.logs == s.logs + Surviving(es)
  }

  lemma {:induction false} FrameLogs(env: Env, entry: View, v: View, s: Substate, self: Address, run: Run)
    ensures LogsOf(s, Enacted(entry, s, Exec(env, v, EMPTY_SUBSTATE, self, run)), EmittedInFrame(env, v, self, run))
    decreases run, 1
  {
    ExecLogs(env, v, EMPTY_SUBSTATE, self, run);
    var frame := Exec(env, v, EMPTY_SUBSTATE, self, run);
    if frame.Done? {
      SurvivingWrap(Emitted(env, v, EMPTY_SUBSTATE, self, run), frame.status);
      assert [] + Surviving(Emitted(env, v, EMPTY_SUBSTATE, self, run)) ==
             Surviving(Emitted(env, v, EMPTY_SUBSTATE, self, run));
    }
  }

  lemma {:induction false} CallLogs(env: Env, v: View, s: Substate, nested: bool, p: Params, run: Run)
    ensures LogsOf(s, CallFrame(env, v, s, nested, p, run), EmittedInCall(env, v, nested, p, run))
    decreases run, 2
  {
    var paid := if Pays(p, nested) && p.value.amount <= BalanceOf(v, p.sender)
      then Transferred(v, env.startNonce, p.sender, p.address, p.value.amount) else v;
    var s1 := if Pays(p, nested) && p.value.amount <= BalanceOf(v, p.sender)
      then Touching(s, TransferTouches(v, env.startNonce, p.sender, p.address, p.value.amount)) else s;
    FrameLogs(env, v, paid, s1, p.address, run);
  }

  lemma {:induction false} CreateLogs(env: Env, v: View, s: Substate, sender: Address, address: Address, value: nat,
                                      run: Run)
    ensures LogsOf(s, CreateFrame(env, v, s, sender, address, value, run),
                   EmittedInCreate(env, v, sender, address, value, run))
    decreases run, 2
  {
    if value <= BalanceOf(v, sender) {
      FrameLogs(env, v, Endowed(env, v, sender, address, value), Touching(s, {sender}), address, run);
    }
  }

  /** The logs of a run are those emitted by frames whose whole ancestry within the run succeeded, in program order. */
  lemma {:induction false} ExecLogs(env: Env, v: View, s: Substate, self: Address, run: Run)
    ensures LogsOf(s, Exec(env, v, s, self, run), Emitted(env, v, s, self, run))
    decreases run, 0
  {
    if run.Then? {
      DoLogs(env, v, s, self, run.op);
      var between := Do(env, v, s, self, run.op);
      if between.Done? {
        ExecLogs(env, between.view, between.substate, self, run.next);
        SurvivingAppend(EmittedBy(env, v, s, self, run.op),
                        Emitted(env, between.view, between.substate, self, run.next));
      }
    }
  }

  lemma {:induction false} DoLogs(env: Env, v: View, s: Substate, self: Address, op: Op)
    ensures LogsOf(s, Do(env, v, s, self, op), EmittedBy(env, v, s, self, op))
    decreases op, 2
  {
    match op
    case CallOp(gas, sender, receiver, value, codeAddress, callType, run) =>
      CallLogs(env, v, s, true, CallParams(v, gas, sender, receiver, value, codeAddress, callType), run);
    case CreateOp(_, value, run) =>
      CreateLogs(env, v, s, self, env.contractAddress(self, NonceOf(v, env.startNonce, self)), value, run);
    case Log(topics, data) =>
      assert Surviving([Emission(LogEntry(self, topics, data), [])]) == [LogEntry(self, topics, data)];
    case _ =>
  }

  /** Every log the transaction's run emits, with the outcomes of all frames around it. */
  function EmittedByTransaction(env: Env, v: View, t: Transaction, run: Run): seq<Emission>
    requires GasCost(t) <= BalanceOf(v, t.sender)
  {
    var v1 := Charged(env, v, t);
    match t.action
    case CreateAction =>
      EmittedInCreate(env, v1, t.sender, env.contractAddress(t.sender, NonceOf(v, env.startNonce, t.sender)), t.value,
                      run)
    case CallAction(to) =>
      EmittedInCall(env, v1, false, Params(t.sender, to, TransferValue(t.value), CodeOf(v1, to), InitGas(t)), run)
  }

  /** The logs of an accepted transaction are exactly those whose every enclosing frame succeeded, in program order. */
  lemma TransactLogs(env: Env, info: BlockEnv, v: View, t: Transaction, mode: Mode, run: Run)
    requires Transact(env, info, v, t, mode, run).Accepted?
    ensures Transact(env, info, v, t, mode, run).executed.logs == Surviving(EmittedByTransaction(env, v, t, run))
  {
    var v1, s1 := Charged(env, v, t), Touching(EMPTY_SUBSTATE, {t.sender});
    match t.action {
      case CreateAction =>
        CreateLogs(env, v1, s1, t.sender, env.contractAddress(t.sender, NonceOf(v, env.startNonce, t.sender)), t.value,
                   run);
      case CallAction(to) =>
        CallLogs(env, v1, s1, false, Params(t.sender, to, TransferValue(t.value), CodeOf(v1, to), InitGas(t)), run);
    }
    var es := EmittedByTransaction(env, v, t, run);
    assert [] + Surviving(es) == Surviving(es);
  }
}
