/**
 * What a nested call does: which value it moves, and whose code it runs in whose frame
 * (core/src/executor/fvm_externality.rs, `call`).
 */
module CallLaws {
  import opened Basics
  import opened WorldState
  import opened Execution
  import opened SenderLaws
  import opened Effects

  /** A value is moved by plain and static calls only. */
  predicate Moves(amount: Option<nat>, callType: CallType) {
    amount.Some? && callType != DelegateCall && callType != CallCode
  }

  /** From `v` to `w` the amount has moved from one account to the other, and nothing else changed. */
  ghost predicate Moved(env: Env, v: View, w: View, from: Address, to: Address, x: nat) {
    && (from != to ==>
          BalanceOf(w, from) == BalanceOf(v, from) - x && BalanceOf(w, to) == BalanceOf(v, to) + x)
    && (from == to ==> BalanceOf(w, from) == BalanceOf(v, from))
    && (forall a, key :: FactsOf(w, env.startNonce, a, key).(present := true, balance := 0) ==
                         FactsOf(v, env.startNonce, a, key).(present := true, balance := 0))
    && SameElsewhere(v, w, {from, to})
  }

  lemma TransferredMoves(env: Env, v: View, from: Address, to: Address, x: nat)
    requires x <= BalanceOf(v, from)
    ensures Moved(env, v, Transferred(v, env.startNonce, from, to, x), from, to, x)
  {
  }

  /** A call that cannot be paid panics; one that can, moves its value before anything else. */
  lemma CallPays(env: Env, v: View, s: Substate, self: Address, gas: nat, sender: Address, receiver: Address,
                 amount: Option<nat>, codeAddress: Address, callType: CallType, run: Run)
    returns (paid: View)
    ensures var r := Do(env, v, s, self, CallOp(gas, sender, receiver, amount, codeAddress, callType, run));
            if Moves(amount, callType) && amount.value > BalanceOf(v, sender) then r.Panic?
            else
              && (if Moves(amount, callType) then Moved(env, v, paid, sender, receiver, amount.value) else paid == v)
              && (if CodeOf(v, codeAddress) == [] then
                    && r.Done? && r.view == paid && r.status == Success && r.gasLeft == gas
                    && r.substate.(touched := {}) == s.(touched := {})
                  else
                    var frame := Exec(env, paid, EMPTY_SUBSTATE, receiver, run);
                    && (r.Panic? <==> frame.Panic?)
                    && (frame.Done? ==>
                          && r.status == frame.status && r.gasLeft == frame.gasLeft
                          && r.view == (if frame.status == Success then frame.view else v)
                          && r.substate.logs == s.logs + (if frame.status == Success then frame.substate.logs else [])))
  {
    var op := CallOp(gas, sender, receiver, amount, codeAddress, callType, run);
    paid := v;
    if Moves(amount, callType) {
      if amount.value <= BalanceOf(v, sender) {
        var x := amount.value;
        paid := Transferred(v, env.startNonce, sender, receiver, x);
        TransferredMoves(env, v, sender, receiver, x);
        var s1 := Touching(s, TransferTouches(v, env.startNonce, sender, receiver, x));
        var p := Params(sender, receiver, TransferValue(x), CodeOf(v, codeAddress), gas);
        assert Do(env, v, s, self, op) == CodeResult(env, v, paid, s1, p, run);
      }
    } else {
      var p := Params(sender, receiver, ApparentValue, CodeOf(v, codeAddress), gas);
      assert Do(env, v, s, self, op) == CodeResult(env, v, v, s, p, run);
    }
  }

  /**
   * A plain or static call of another account without code: the sender ends with the amount less and the
   * receiver with the amount more, nothing else changes, and all the gas is left.
   */
  lemma CallMovesValue(env: Env, v: View, s: Substate, self: Address, gas: nat, sender: Address, receiver: Address,
                       x: nat, callType: CallType, run: Run)
    requires callType == Call || callType == StaticCall
    requires x <= BalanceOf(v, sender) && sender != receiver && CodeOf(v, receiver) == []
    ensures var r := Do(env, v, s, self, CallOp(gas, sender, receiver, Some(x), receiver, callType, run));
            && r.Done? && r.status == Success && r.gasLeft == gas
            && BalanceOf(r.view, sender) == BalanceOf(v, sender) - x
            && BalanceOf(r.view, receiver) == BalanceOf(v, receiver) + x
            && SameElsewhere(v, r.view, {sender, receiver})
  {
    var _ := CallPays(env, v, s, self, gas, sender, receiver, Some(x), receiver, callType, run);
  }

  // ---------------------------------------------------------------------------------------------
  // Nonces and the addresses of new contracts

  /** The frame lowers no nonce. */
  predicate Grows(env: Env, v: View, outcome: Outcome, x: Address) {
    outcome.Done? ==> NonceOf(outcome.view, env.startNonce, x) >= NonceOf(v, env.startNonce, x)
  }

  lemma {:induction false} ExecGrows(env: Env, v: View, s: Substate, self: Address, run: Run, x: Address)
    ensures Grows(env, v, Exec(env, v, s, self, run), x)
    decreases run, 0
  {
    if run.Then? {
      DoGrows(env, v, s, self, run.op, x);
      var between := Do(env, v, s, self, run.op);
      if between.Done? {
        ExecGrows(env, between.view, between.substate, self, run.next, x);
      }
    }
  }

  lemma {:induction false} DoGrows(env: Env, v: View, s: Substate, self: Address, op: Op, x: Address)
    ensures Grows(env, v, Do(env, v, s, self, op), x)
    decreases op, 2
  {
    match op
    case CallOp(gas, sender, receiver, amount, codeAddress, callType, run) =>
      var paid := CallPays(env, v, s, self, gas, sender, receiver, amount, codeAddress, callType, run);
      ExecGrows(env, paid, EMPTY_SUBSTATE, receiver, run, x);
      if !(Moves(amount, callType) && amount.value > BalanceOf(v, sender)) {
        var f, g := FactsOf(v, env.startNonce, x, []), FactsOf(paid, env.startNonce, x, []);
        assert g.(present := true, balance := 0) == f.(present := true, balance := 0);
      }
    case CreateOp(gas, value, run) =>
      CreateGrows(env, v, s, self, env.contractAddress(self, NonceOf(v, env.startNonce, self)), value, run, x);
      assert Do(env, v, s, self, op) == DoCreate(env, v, s, self, value, run);
    case _ =>
  }

  lemma {:induction false} CreateGrows(env: Env, v: View, s: Substate, creator: Address, address: Address, value: nat,
                                       run: Run, x: Address)
    ensures Grows(env, v, CreateFrame(env, v, s, creator, address, value, run), x)
    decreases run, 1
  {
    if !Collides(env, v, address) && value <= BalanceOf(v, creator) {
      ExecGrows(env, Endowed(env, v, creator, address, value), EMPTY_SUBSTATE, address, run, x);
    }
  }

  /**
   * The address of a new contract is taken if an account there has money, code, a nonce or committed
   * storage; after the 0.4.0 fork money alone does not count, nor storage while changes are pending.
   */
  ghost predicate Taken(env: Env, v: View, address: Address) {
    address in v &&
    var a := v[address];
    if env.aion040 then a.code != [] || a.nonce != 0 || (a.storage != map[] && a.changes == map[])
    else a.balance != 0 || a.code != [] || a.nonce != 0 || a.storage != map[]
  }

  /** A creation fails at once, leaving no trace, exactly where the address is taken; else its code runs there. */
  lemma CreateNeedsRoom(env: Env, v: View, s: Substate, creator: Address, address: Address, value: nat, run: Run)
    requires value <= BalanceOf(v, creator)
    ensures var r := CreateFrame(env, v, s, creator, address, value, run);
            var frame := Exec(env, Endowed(env, v, creator, address, value), EMPTY_SUBSTATE, address, run);
            if Taken(env, v, address) then r == Done(v, s, Failure, 0)
            else
              && (r.Panic? <==> frame.Panic?)
              && (r.Done? ==>
                    && r.status == frame.status && r.gasLeft == frame.gasLeft
                    && r.view == if frame.status == Success then frame.view else v)
  {
  }

  /** A creation that succeeds raises the creator's nonce and the new account's, and reports the new address last. */
  lemma CreationRaises(env: Env, v: View, s: Substate, self: Address, gas: nat, value: nat, run: Run)
    requires Do(env, v, s, self, CreateOp(gas, value, run)).Done?
    requires Do(env, v, s, self, CreateOp(gas, value, run)).status == Success
    ensures var address := env.contractAddress(self, NonceOf(v, env.startNonce, self));
            var r := Do(env, v, s, self, CreateOp(gas, value, run));
            && NonceOf(r.view, env.startNonce, self) > NonceOf(v, env.startNonce, self)
            && NonceOf(r.view, env.startNonce, address) > NonceOf(v, env.startNonce, address)
            && exists before :: r.substate.contractsCreated == before + [address]
  {
    var address := env.contractAddress(self, NonceOf(v, env.startNonce, self));
    assert Do(env, v, s, self, CreateOp(gas, value, run)) == DoCreate(env, v, s, self, value, run);
    CreateGrows(env, v, s, self, address, value, run, self);
    CreateGrows(env, v, s, self, address, value, run, address);
  }

  /**
   * After a successful creation, whatever runs in between, the same contract's next creation has another
   * address, if addresses of one creator differ by the nonce.
   */
  lemma NextAddressDiffers(env: Env, v: View, s: Substate, self: Address, gas: nat, value: nat, run: Run,
                           other: Address, between: Run)
    requires Do(env, v, s, self, CreateOp(gas, value, run)).Done?
    requires Do(env, v, s, self, CreateOp(gas, value, run)).status == Success
    requires forall n, k :: n != k ==> env.contractAddress(self, n) != env.contractAddress(self, k)
    ensures var r := Do(env, v, s, self, CreateOp(gas, value, run));
            var later := Exec(env, r.view, r.substate, other, between);
            later.Done? ==> env.contractAddress(self, NonceOf(later.view, env.startNonce, self)) !=
                            env.contractAddress(self, NonceOf(v, env.startNonce, self))
  {
    CreationRaises(env, v, s, self, gas, value, run);
    var r := Do(env, v, s, self, CreateOp(gas, value, run));
    ExecGrows(env, r.view, r.substate, other, between, self);
  }
}
