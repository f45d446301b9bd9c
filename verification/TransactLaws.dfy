/**
 * When a transaction is accepted, what it is charged, and what it leaves (core/src/executor/fvm_exec.rs).
 */
module TransactLaws {
  import opened Basics
  import opened WorldState
  import opened Execution
  import opened ExecutionLaws
  import opened Effects

  // ---------------------------------------------------------------------------------------------
  // Acceptance

  function AccountNonce(env: Env, v: View, a: Address): nat {
    if a in v then v[a].nonce else env.startNonce
  }

  /** 21000, 200000 more for a creation, 4 for every zero byte of the data and 64 for every other. */
  ghost function FullBaseGas(t: Transaction): nat {
    var zeros := multiset(t.data)[0];
    21000 + (if t.action == CreateAction then 200000 else 0) + 4 * zeros + 64 * (|t.data| - zeros)
  }

  /** Before the unity fork the data is not counted against the limit, nor is the 21000 of a creation. */
  ghost function LeastGas(info: BlockEnv, t: Transaction): nat {
    if info.afterUnity then FullBaseGas(t) else if t.action == CreateAction then 200000 else 21000
  }

  function MostGas(t: Transaction): nat {
    if t.action == CreateAction then 5000000 else 2000000
  }

  /** What `gas` costs the sender. */
  function Price(t: Transaction, gas: nat): nat {
    gas * t.gasPrice
  }

  function Cost(t: Transaction): nat {
    t.value + Price(t, t.gas)
  }

  lemma {:induction false} DataGas(data: Bytes)
    ensures GasOfData(data) == 4 * multiset(data)[0] + 64 * (|data| - multiset(data)[0])
  {
    if data != [] {
      DataGas(data[1..]);
      assert data == [data[0]] + data[1..];
      assert multiset(data)[0] == multiset([data[0]])[0] + multiset(data[1..])[0];
    }
  }

  lemma BaseGas(t: Transaction)
    ensures GasRequired(t) == FullBaseGas(t)
  {
    DataGas(t.data);
  }

  /** What the outermost frame gives back: what is left of the gas, unless it failed. */
  ghost function GivenBack(env: Env, v: View, t: Transaction, run: Run): nat
    requires GasCost(t) <= BalanceOf(v, t.sender)
  {
    var v1, given := Charged(env, v, t), if t.gas < FullBaseGas(t) then 0 else t.gas - FullBaseGas(t);
    match t.action
    case CreateAction =>
      var address := env.contractAddress(t.sender, AccountNonce(env, v, t.sender));
      if Collides(env, v1, address) || t.value > BalanceOf(v1, t.sender) then 0
      else LeftBy(Exec(env, Endowed(env, v1, t.sender, address, t.value), EMPTY_SUBSTATE, address, run))
    case CallAction(to) =>
      if CodeOf(v1, to) == [] then given else LeftBy(Exec(env, v1, EMPTY_SUBSTATE, to, run))
  }

  /** A frame that succeeds or reverts keeps its gas, one that fails loses it. */
  function LeftBy(frame: Outcome): nat {
    if frame.Panic? || frame.status == Failure then 0 else frame.gasLeft
  }

  lemma GivenBackIsKept(env: Env, v: View, t: Transaction, run: Run)
    requires GasCost(t) <= BalanceOf(v, t.sender) && TopFrame(env, v, t, run).Done?
    ensures var frame := TopFrame(env, v, t, run);
            GasKept(frame.status, frame.gasLeft) == GivenBack(env, v, t, run)
  {
    BaseGas(t);
    var v1, s1 := Charged(env, v, t), Touching(EMPTY_SUBSTATE, {t.sender});
    if t.action.CallAction? {
      var to := t.action.to;
      var p := Params(t.sender, to, TransferValue(t.value), CodeOf(v1, to), InitGas(t));
      var res := CodeResult(env, v1, v1, s1, p, run);
      assert TopFrame(env, v, t, run) == CallFrame(env, v1, s1, false, p, run);
    }
  }

  /**
   * The outcome of a transaction: the first condition that fails decides the error; if none does, it is
   * accepted if and only if nothing panics and the gas it used fits into the block.
   */
  lemma TransactDecides(env: Env, info: BlockEnv, v: View, t: Transaction, mode: Mode, run: Run)
    ensures var r := Transact(env, info, v, t, mode, run);
            var nonce, balance := AccountNonce(env, v, t.sender), BalanceOf(v, t.sender);
            if mode.checkNonce && t.nonce != nonce then r == Rejected(InvalidNonce(nonce, t.nonce))
            else if t.gas < LeastGas(info, t) then r == Rejected(NotEnoughBaseGas(LeastGas(info, t), t.gas))
            else if !mode.isLocalCall && t.gas > MostGas(t) then r == Rejected(ExceedMaxGasLimit(MostGas(t), t.gas))
            else if mode.isBuildingBlock && info.gasUsed + t.gas > info.gasLimit then
              r == Rejected(BlockGasLimitReached(info.gasLimit, info.gasUsed, t.gas))
            else if balance < Cost(t) then r == Rejected(NotEnoughCash(Cost(t), balance))
            else
              var back := GivenBack(env, v, t, run);
              if TopFrame(env, v, t, run).Panic? || back > t.gas then r.Panicked?
              else if info.gasUsed + t.gas - back > info.gasLimit then
                r == Rejected(BlockGasLimitReached(info.gasLimit, info.gasUsed + t.gas - back, t.gas))
              else
                && r.Accepted? && r.executed.gas == t.gas && r.executed.gasUsed == t.gas - back
                && r.executed.refunded == back && r.executed.transactionFee == Price(t, t.gas - back)
  {
    BaseGas(t);
    if BalanceOf(v, t.sender) >= Cost(t) && TopFrame(env, v, t, run).Done? {
      GivenBackIsKept(env, v, t, run);
    }
  }

  // ---------------------------------------------------------------------------------------------
  // What an accepted transaction leaves

  /** The surviving effects of the outermost frame. */
  ghost function TopEffects(env: Env, v: View, t: Transaction, run: Run): seq<Effect>
    requires GasCost(t) <= BalanceOf(v, t.sender)
  {
    var v1 := Charged(env, v, t);
    match t.action
    case CreateAction =>
      NewContractEffects(env, v1, t.sender, env.contractAddress(t.sender, AccountNonce(env, v, t.sender)), t.value, run)
    case CallAction(to) =>
      var payment := [Lost(t.sender, t.value), Gained(to, t.value)];
      if CodeOf(v1, to) == [] then payment
      else
        var frame := Exec(env, v1, EMPTY_SUBSTATE, to, run);
        if frame.Done? && frame.status == Success then EffectsOf(env, v1, EMPTY_SUBSTATE, to, run) + payment else []
  }

  /**
   * All the effects of an accepted transaction: the nonce and the whole gas first, then those of its frames,
   * then the refund, the fee, and the removal of the contracts that ended themselves.
   */
  ghost function TransactEffects(env: Env, info: BlockEnv, v: View, t: Transaction, run: Run): seq<Effect>
    requires GasCost(t) <= BalanceOf(v, t.sender) && GivenBack(env, v, t, run) <= t.gas
  {
    Framed(t, info.author, TopEffects(env, v, t, run), GivenBack(env, v, t, run))
  }

  /** The effects of the frames between charge and end. */
  function Framed(t: Transaction, author: Address, es: seq<Effect>, back: nat): seq<Effect>
    requires back <= t.gas
  {
    [Raised(t.sender), Lost(t.sender, Price(t, t.gas))] + es +
    [Gained(t.sender, Price(t, back)), Gained(author, Price(t, t.gas - back)), Removed(EndedIn(es))]
  }

  /** The charge. */
  lemma ChargeLeaves(env: Env, v: View, t: Transaction, a: Address, key: Bytes)
    requires GasCost(t) <= BalanceOf(v, t.sender)
    ensures Leaves(env, v, EMPTY_SUBSTATE, Done(Charged(env, v, t), Touching(EMPTY_SUBSTATE, {t.sender}), Success, 0),
                   [Raised(t.sender), Lost(t.sender, Price(t, t.gas))], a, key)
  {
    var mid := Done(IncNonce(v, env.startNonce, t.sender), EMPTY_SUBSTATE, Success, 0);
    var last := Done(Charged(env, v, t), Touching(EMPTY_SUBSTATE, {t.sender}), Success, 0);
    OneEffect(env, v, EMPTY_SUBSTATE, mid, Raised(t.sender), a, key);
    OneEffect(env, mid.view, EMPTY_SUBSTATE, last, Lost(t.sender, Price(t, t.gas)), a, key);
    LeavesThen(env, v, EMPTY_SUBSTATE, mid, last, [Raised(t.sender)], [Lost(t.sender, Price(t, t.gas))], a, key);
    assert [Raised(t.sender)] + [Lost(t.sender, Price(t, t.gas))] ==
           [Raised(t.sender), Lost(t.sender, Price(t, t.gas))];
  }

  /** The outermost call pays last. */
  lemma TopCallLeaves(env: Env, v1: View, s1: Substate, p: Params, run: Run, a: Address, key: Bytes)
    requires AddressesDiffer(env) && p.value.TransferValue?
    ensures var payment := [Lost(p.sender, p.value.amount), Gained(p.address, p.value.amount)];
            var frame := Exec(env, v1, EMPTY_SUBSTATE, p.address, run);
            Leaves(env, v1, s1, CallFrame(env, v1, s1, false, p, run),
                   if p.code == [] then payment
                   else if frame.Done? && frame.status == Success then
                     EffectsOf(env, v1, EMPTY_SUBSTATE, p.address, run) + payment
                   else [], a, key)
  {
    var x, payment := p.value.amount, [Lost(p.sender, p.value.amount), Gained(p.address, p.value.amount)];
    var res, r := CodeResult(env, v1, v1, s1, p, run), CallFrame(env, v1, s1, false, p, run);
    NoEffects(env, v1, s1, Done(v1, s1, Success, 0), a, key);
    FrameLeaves(env, v1, s1, v1, s1, [], p.address, run, a, key);
    if res.Done? && res.status == Success && x <= BalanceOf(res.view, p.sender) {
      assert r == PayAfter(env, p, res);
      PaymentLeaves(env, res.view, res.substate, r, p.sender, p.address, x, a, key);
      if p.code != [] {
        var es := EffectsOf(env, v1, EMPTY_SUBSTATE, p.address, run);
        assert [] + es == es;
        LeavesThen(env, v1, s1, res, r, es, payment, a, key);
      }
    }
  }

  lemma TopLeaves(env: Env, v: View, t: Transaction, run: Run, a: Address, key: Bytes)
    requires AddressesDiffer(env) && GasCost(t) <= BalanceOf(v, t.sender)
    ensures Leaves(env, Charged(env, v, t), Touching(EMPTY_SUBSTATE, {t.sender}), TopFrame(env, v, t, run),
                   TopEffects(env, v, t, run), a, key)
  {
    var v1, s1 := Charged(env, v, t), Touching(EMPTY_SUBSTATE, {t.sender});
    match t.action {
      case CreateAction =>
        NewContractLeaves(env, v1, s1, t.sender, env.contractAddress(t.sender, AccountNonce(env, v, t.sender)),
                          t.value, run, a, key);
      case CallAction(to) =>
        TopCallLeaves(env, v1, s1, Params(t.sender, to, TransferValue(t.value), CodeOf(v1, to), InitGas(t)), run, a,
                      key);
    }
  }

  /** Refund, fee and removals. */
  lemma EndLeaves(env: Env, frame: Outcome, sender: Address, author: Address, refund: nat, fee: nat, a: Address,
                  key: Bytes)
    requires frame.Done?
    ensures Leaves(env, frame.view, frame.substate,
                   Done(AtTheEnd(env, frame, sender, author, refund, fee), frame.substate, Success, 0),
                   [Gained(sender, refund), Gained(author, fee), Removed(frame.substate.suicides)], a, key)
  {
    var s, gone := frame.substate, frame.substate.suicides;
    var gains := [Gained(sender, refund), Gained(author, fee)];
    var paid := GainsLeave(env, frame.view, s, sender, author, refund, fee, a, key);
    var last := Done(AtTheEnd(env, frame, sender, author, refund, fee), s, Success, 0);
    OneEffect(env, paid.view, s, last, Removed(gone), a, key);
    LeavesThen(env, frame.view, s, paid, last, gains, [Removed(gone)], a, key);
    assert gains + [Removed(gone)] == [Gained(sender, refund), Gained(author, fee), Removed(gone)];
  }

  lemma GainsLeave(env: Env, v: View, s: Substate, sender: Address, author: Address, refund: nat, fee: nat, a: Address,
                   key: Bytes) returns (paid: Outcome)
    ensures paid == Done(Credited(Credited(v, env.startNonce, sender, refund), env.startNonce, author, fee), s, Success,
                         0)
    ensures Leaves(env, v, s, paid, [Gained(sender, refund), Gained(author, fee)], a, key)
  {
    var first := Done(Credited(v, env.startNonce, sender, refund), s, Success, 0);
    paid := Done(Credited(first.view, env.startNonce, author, fee), s, Success, 0);
    OneEffect(env, v, s, first, Gained(sender, refund), a, key);
    OneEffect(env, first.view, s, paid, Gained(author, fee), a, key);
    LeavesThen(env, v, s, first, paid, [Gained(sender, refund)], [Gained(author, fee)], a, key);
    assert [Gained(sender, refund)] + [Gained(author, fee)] == [Gained(sender, refund), Gained(author, fee)];
  }

  /**
   * Every account's balance, nonce, code and storage after an accepted transaction are what its surviving
   * effects make of those before it, and the contracts it reports are those created by surviving frames.
   */
  lemma TransactLeaves(env: Env, info: BlockEnv, v: View, t: Transaction, mode: Mode, run: Run, a: Address, key: Bytes)
    requires AddressesDiffer(env) && Transact(env, info, v, t, mode, run).Accepted?
    ensures GasCost(t) <= BalanceOf(v, t.sender) && GivenBack(env, v, t, run) <= t.gas
    ensures var r := Transact(env, info, v, t, mode, run);
            && FactsOf(r.view, env.startNonce, a, key) ==
               ShownAll(env.startNonce, TransactEffects(env, info, v, t, run), a, key,
                       FactsOf(v, env.startNonce, a, key))
            && r.executed.contractsCreated == CreatedIn(TopEffects(env, v, t, run))
  {
    var frame := AcceptedFrame(env, info, v, t, mode, run);
    FrameDecides(env, info, v, t, run, frame, a, key);
  }

  lemma FrameDecides(env: Env, info: BlockEnv, v: View, t: Transaction, run: Run, frame: Outcome, a: Address,
                     key: Bytes)
    requires AddressesDiffer(env) && GasCost(t) <= BalanceOf(v, t.sender) && GivenBack(env, v, t, run) <= t.gas
    requires frame == TopFrame(env, v, t, run) && frame.Done?
    ensures var back := GivenBack(env, v, t, run);
            FactsOf(AtTheEnd(env, frame, t.sender, info.author, Price(t, back), Price(t, t.gas - back)),
                    env.startNonce, a, key) ==
            ShownAll(env.startNonce, TransactEffects(env, info, v, t, run), a, key, FactsOf(v, env.startNonce, a, key))
    ensures frame.substate.contractsCreated == CreatedIn(TopEffects(env, v, t, run))
  {
    ChargeLeaves(env, v, t, a, key);
    TopLeaves(env, v, t, run, a, key);
    FramedLeaves(env, v, t, info.author, frame, TopEffects(env, v, t, run), GivenBack(env, v, t, run), a, key);
  }

  lemma FramedLeaves(env: Env, v: View, t: Transaction, author: Address, frame: Outcome, es: seq<Effect>, back: nat,
                     a: Address, key: Bytes)
    requires GasCost(t) <= BalanceOf(v, t.sender) && frame.Done? && back <= t.gas
    requires var charged := Done(Charged(env, v, t), Touching(EMPTY_SUBSTATE, {t.sender}), Success, 0);
             && Leaves(env, v, EMPTY_SUBSTATE, charged, [Raised(t.sender), Lost(t.sender, Price(t, t.gas))], a, key)
             && Leaves(env, charged.view, charged.substate, frame, es, a, key)
    ensures FactsOf(AtTheEnd(env, frame, t.sender, author, Price(t, back), Price(t, t.gas - back)), env.startNonce, a,
                    key) ==
            ShownAll(env.startNonce, Framed(t, author, es, back), a, key, FactsOf(v, env.startNonce, a, key))
    ensures frame.substate.contractsCreated == CreatedIn(es)
  {
    var charged := Done(Charged(env, v, t), Touching(EMPTY_SUBSTATE, {t.sender}), Success, 0);
    AllLeaves(env, v, charged, frame, [Raised(t.sender), Lost(t.sender, Price(t, t.gas))], es, t.sender, author,
              Price(t, back), Price(t, t.gas - back), a, key);
  }

  /** An accepted transaction ends with what `finalize` makes of its outermost frame. */
  lemma AcceptedFrame(env: Env, info: BlockEnv, v: View, t: Transaction, mode: Mode, run: Run) returns (frame: Outcome)
    requires Transact(env, info, v, t, mode, run).Accepted?
    ensures GasCost(t) <= BalanceOf(v, t.sender) && frame == TopFrame(env, v, t, run) && frame.Done?
    ensures var r, back := Transact(env, info, v, t, mode, run), GivenBack(env, v, t, run);
            && back <= t.gas
            && r.view == AtTheEnd(env, frame, t.sender, info.author, Price(t, back), Price(t, t.gas - back))
            && r.executed.contractsCreated == frame.substate.contractsCreated
  {
    frame := TopFrame(env, v, t, run);
    GivenBackIsKept(env, v, t, run);
  }

  /** After refund, fee and removals. */
  ghost function AtTheEnd(env: Env, frame: Outcome, sender: Address, author: Address, refund: nat, fee: nat): View
    requires frame.Done?
  {
    Credited(Credited(frame.view, env.startNonce, sender, refund), env.startNonce, author, fee) -
    frame.substate.suicides
  }

  /** Charge, frame and end together. */
  lemma AllLeaves(env: Env, v: View, charged: Outcome, frame: Outcome, charge: seq<Effect>, es: seq<Effect>,
                  sender: Address, author: Address, refund: nat, fee: nat, a: Address, key: Bytes)
    requires charged.Done? && frame.Done? && charged.substate.suicides == {} && charged.substate.contractsCreated == []
    requires Leaves(env, v, EMPTY_SUBSTATE, charged, charge, a, key)
    requires Leaves(env, charged.view, charged.substate, frame, es, a, key)
    ensures FactsOf(AtTheEnd(env, frame, sender, author, refund, fee), env.startNonce, a, key) ==
            ShownAll(env.startNonce,
                    charge + es + [Gained(sender, refund), Gained(author, fee), Removed(EndedIn(es))], a, key,
                    FactsOf(v, env.startNonce, a, key))
    ensures frame.substate.contractsCreated == CreatedIn(es)
  {
    assert frame.substate.suicides == {} + EndedIn(es) == EndedIn(es);
    assert frame.substate.contractsCreated == [] + CreatedIn(es) == CreatedIn(es);
    LeavesThen(env, v, EMPTY_SUBSTATE, charged, frame, charge, es, a, key);
    EndLeaves(env, frame, sender, author, refund, fee, a, key);
    ShownAppend(env.startNonce, charge + es, [Gained(sender, refund), Gained(author, fee), Removed(EndedIn(es))], a,
                key,
               FactsOf(v, env.startNonce, a, key));
  }
}
