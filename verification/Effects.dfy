/**
 * What a transaction leaves, as a list of simple effects: the effects of the frames that survive, in program
 * order, decide every account's balance, nonce, code and storage. The list is read off the run; nothing is
 * rolled back in it, because what a failed frame did is never listed.
 */
module Effects {
  import opened Basics
  import opened WorldState
  import opened Execution
  import opened ExecutionLaws

  datatype Effect =
    | Gained(to: Address, amount: nat)
    | Lost(from: Address, amount: nat)
    | Raised(address: Address)
    | Wrote(address: Address, key: Bytes, value: Bytes)
    | Coded(address: Address, code: Bytes)
    | Renewed(address: Address)
    | Created(address: Address)
    | Ended(address: Address)
    | Removed(addresses: set<Address>)
    | Settled

  /**
   * What can be seen of one account and one of its storage keys: whether it exists, what it has, and what is
   * stored under the key; `kept` is what is committed under it.
   */
  datatype Facts = Facts(present: bool, balance: int, nonce: nat, code: Bytes, stored: Option<Bytes>,
                         kept: Option<Bytes>)

  function FactsOf(v: View, start: nat, a: Address, key: Bytes): Facts {
    if a in v then
      Facts(true, v[a].balance, v[a].nonce, v[a].code,
            if key in v[a].changes then v[a].changes[key] else Kept(v[a], key), Kept(v[a], key))
    else Facts(false, 0, start, [], None, None)
  }

  function Kept(a: Account, key: Bytes): Option<Bytes> {
    if key in a.storage then Some(a.storage[key]) else None
  }

  /** A value with a byte other than zero is stored, any other removes the key. */
  function Readable(value: Bytes): Option<Bytes> {
    if exists i :: 0 <= i < |value| && value[i] != 0 then Some(value) else None
  }

  /** One effect, as it shows at account `a` and storage key `key`. */
  function Shown(start: nat, e: Effect, a: Address, key: Bytes, f: Facts): Facts {
    match e
    case Gained(to, amount) =>
      if to == a then f.(present := f.present || amount != 0, balance := f.balance + amount) else f
    case Lost(from, amount) => if from == a then f.(present := true, balance := f.balance - amount) else f
    case Raised(x) => if x == a then f.(present := true, nonce := f.nonce + 1) else f
    case Wrote(x, k, value) =>
      if x != a then f else if k == key then f.(present := true, stored := Readable(value)) else f.(present := true)
    case Coded(x, code) => if x == a then f.(present := true, code := code) else f
    case Renewed(x) => if x == a then Facts(true, f.balance, start + f.nonce, [], None, None) else f
    case Created(_) => f
    case Ended(_) => f
    case Removed(xs) => if a in xs then Facts(false, 0, start, [], None, None) else f
    case Settled =>
      if f.balance == 0 && f.nonce == 0 && f.code == [] && a != Hash(0x100) && a != Hash(0x200)
      then f.(stored := f.kept) else f.(kept := f.stored)
  }

  /** The effects one after the other. */
  function ShownAll(start: nat, es: seq<Effect>, a: Address, key: Bytes, f: Facts): Facts {
    if es == [] then f
    else Shown(start, es[|es| - 1], a, key, ShownAll(start, es[..|es| - 1], a, key, f))
  }

  function EndedIn(es: seq<Effect>): set<Address> {
    set e | e in es && e.Ended? :: e.address
  }

  function CreatedIn(es: seq<Effect>): seq<Address> {
    if es == [] then []
    else CreatedIn(es[..|es| - 1]) + if es[|es| - 1].Created? then [es[|es| - 1].address] else []
  }

  lemma {:induction false} ShownAppend(start: nat, es: seq<Effect>, fs: seq<Effect>, a: Address, key: Bytes, f: Facts)
    ensures ShownAll(start, es + fs, a, key, f) == ShownAll(start, fs, a, key, ShownAll(start, es, a, key, f))
    decreases |fs|
  {
    if fs == [] {
      assert es + fs == es;
    } else {
      var n := |fs| - 1;
      assert (es + fs)[..|es + fs| - 1] == es + fs[..n];
      ShownAppend(start, es, fs[..n], a, key, f);
    }
  }

  lemma {:induction false} CreatedAppend(es: seq<Effect>, fs: seq<Effect>)
    ensures CreatedIn(es + fs) == CreatedIn(es) + CreatedIn(fs)
    decreases |fs|
  {
    if fs == [] {
      assert es + fs == es;
    } else {
      var n := |fs| - 1;
      assert (es + fs)[..|es + fs| - 1] == es + fs[..n];
      CreatedAppend(es, fs[..n]);
    }
  }

  lemma EndedAppend(es: seq<Effect>, fs: seq<Effect>)
    ensures EndedIn(es + fs) == EndedIn(es) + EndedIn(fs)
  {
    forall x
      ensures x in EndedIn(es + fs) <==> x in EndedIn(es) || x in EndedIn(fs)
    {
      if x in EndedIn(es) {
        assert Ended(x) in es + fs;
      }
      if x in EndedIn(fs) {
        assert Ended(x) in es + fs;
      }
    }
  }

  // ---------------------------------------------------------------------------------------------
  // The effects of a run

  /** The surviving effects of a run, as far as its own frame survives. */
  function EffectsOf(env: Env, v: View, s: Substate, self: Address, run: Run): seq<Effect>
    decreases run, 0
  {
    match run
    case Return(_, _) => []
    case Then(op, next) =>
      match Do(env, v, s, self, op)
      case Panic => []
      case Done(v', s', _, _) => EffectsBy(env, v, self, op) + EffectsOf(env, v', s', self, next)
  }

  /** The surviving effects of one operation of contract `self`. */
  function EffectsBy(env: Env, v: View, self: Address, op: Op): seq<Effect>
    decreases op, 2
  {
    match op
    case Store(key, value) => [Wrote(self, key, value)]
    case Log(_, _) => []
    case SstoreClear => []
    case SaveCode(code) => [Coded(self, code)]
    case Suicide(refund) =>
      [Lost(self, BalanceOf(v, self))] +
      (if refund == self then [] else [Gained(refund, BalanceOf(v, self))]) + [Ended(self)]
    case CallOp(gas, sender, receiver, amount, codeAddress, callType, run) =>
      if amount.Some? && (callType == Call || callType == StaticCall) then
        if amount.value > BalanceOf(v, sender) then []
        else
          var paid := Transferred(v, env.startNonce, sender, receiver, amount.value);
          CalledEffects(env, v, paid, [Lost(sender, amount.value), Gained(receiver, amount.value)], receiver,
                        codeAddress, run)
      else CalledEffects(env, v, v, [], receiver, codeAddress, run)
    case CreateOp(gas, value, run) =>
      var address := env.contractAddress(self, NonceOf(v, env.startNonce, self));
      var es := NewContractEffects(env, v, self, address, value, run);
      if es == [] then [] else es + [Raised(self), Raised(address), Created(address)]
  }

  /** A call that has paid: without code only the payment; with code all of it if the frame succeeds, else nothing. */
  function CalledEffects(env: Env, v: View, paid: View, payment: seq<Effect>, receiver: Address, codeAddress: Address,
                         run: Run): seq<Effect>
    decreases run, 1
  {
    if CodeOf(v, codeAddress) == [] then payment
    else
      var frame := Exec(env, paid, EMPTY_SUBSTATE, receiver, run);
      if frame.Done? && frame.status == Success then payment + EffectsOf(env, paid, EMPTY_SUBSTATE, receiver, run)
      else []
  }

  /** A creation: the endowment, the fresh account and what its code does, if it succeeds; else nothing. */
  function NewContractEffects(env: Env, v: View, creator: Address, address: Address, value: nat, run: Run): seq<Effect>
    decreases run, 1
  {
    if Collides(env, v, address) || value > BalanceOf(v, creator) then []
    else
      var endowed := Endowed(env, v, creator, address, value);
      var frame := Exec(env, endowed, EMPTY_SUBSTATE, address, run);
      if frame.Done? && frame.status == Success then
        [Lost(creator, value), Gained(address, value), Renewed(address)] +
        EffectsOf(env, endowed, EMPTY_SUBSTATE, address, run)
      else []
  }

  // ---------------------------------------------------------------------------------------------
  // They decide what is left

  /** `es` lead from `v` and `s` to the outcome, as seen at `a` and `key`. */
  ghost predicate Leaves(env: Env, v: View, s: Substate, outcome: Outcome, es: seq<Effect>, a: Address, key: Bytes) {
    outcome.Done? ==>
      && FactsOf(outcome.view, env.startNonce, a, key) ==
         ShownAll(env.startNonce, es, a, key, FactsOf(v, env.startNonce, a, key))
      && outcome.substate.suicides == s.suicides + EndedIn(es)
      && outcome.substate.contractsCreated == s.contractsCreated + CreatedIn(es)
  }

  lemma LeavesThen(env: Env, v: View, s: Substate, mid: Outcome, last: Outcome, es: seq<Effect>, fs: seq<Effect>,
                   a: Address, key: Bytes)
    requires mid.Done? && Leaves(env, v, s, mid, es, a, key) && Leaves(env, mid.view, mid.substate, last, fs, a, key)
    ensures Leaves(env, v, s, last, es + fs, a, key)
  {
    ShownAppend(env.startNonce, es, fs, a, key, FactsOf(v, env.startNonce, a, key));
    EndedAppend(es, fs);
    CreatedAppend(es, fs);
  }

  lemma NoEffects(env: Env, v: View, s: Substate, outcome: Outcome, a: Address, key: Bytes)
    requires outcome.Done? ==> outcome.view == v && outcome.substate.suicides == s.suicides
                               && outcome.substate.contractsCreated == s.contractsCreated
    ensures Leaves(env, v, s, outcome, [], a, key)
  {
  }

  lemma OneEffect(env: Env, v: View, s: Substate, outcome: Outcome, e: Effect, a: Address, key: Bytes)
    requires outcome.Done? ==>
      && FactsOf(outcome.view, env.startNonce, a, key) ==
         Shown(env.startNonce, e, a, key, FactsOf(v, env.startNonce, a, key))
      && outcome.substate.suicides == s.suicides + (if e.Ended? then {e.address} else {})
      && outcome.substate.contractsCreated == s.contractsCreated + (if e.Created? then [e.address] else [])
    ensures Leaves(env, v, s, outcome, [e], a, key)
  {
    var es := [e];
    assert es[..|es| - 1] == [];
    assert CreatedIn(es) == CreatedIn([]) + if e.Created? then [e.address] else [];
    forall x
      ensures x in EndedIn(es) <==> e.Ended? && x == e.address
    {
      if e.Ended? {
        assert e in es;
      }
    }
  }

  /** A store makes the value readable under its key, or removes the key, and changes nothing else. */
  lemma StoreLeaves(env: Env, v: View, s: Substate, self: Address, k: Bytes, value: Bytes, a: Address, key: Bytes)
    ensures Leaves(env, v, s, Do(env, v, s, self, Store(k, value)), [Wrote(self, k, value)], a, key)
  {
    assert (forall i :: 0 <= i < |value| ==> value[i] == 0) <==> !(exists i :: 0 <= i < |value| && value[i] != 0);
    OneEffect(env, v, s, Do(env, v, s, self, Store(k, value)), Wrote(self, k, value), a, key);
  }

  /** Storage is read from the changes first, then from what is committed. */
  lemma StorageShows(v: View, start: nat, a: Address, key: Bytes)
    requires a in v
    ensures StorageAt(v[a], key) == FactsOf(v, start, a, key).stored
  {
  }

  /** After a store its key reads the value, or nothing if the value is all zeros; all else is as before. */
  lemma StoreReads(env: Env, v: View, s: Substate, self: Address, k: Bytes, value: Bytes, a: Address, key: Bytes)
    ensures var r := Do(env, v, s, self, Store(k, value));
            var f := FactsOf(v, env.startNonce, a, key);
            && r.Done? && r.substate == s && self in r.view
            && FactsOf(r.view, env.startNonce, a, key) ==
               (if a != self then f
                else f.(present := true, stored := if key == k then Readable(value) else f.stored))
            && StorageAt(r.view[self], k) == Readable(value)
  {
    assert (forall i :: 0 <= i < |value| ==> value[i] == 0) <==> !(exists i :: 0 <= i < |value| && value[i] != 0);
  }

  /** The effect does not concern what is stored under `key` of `a`. */
  predicate SparesKey(e: Effect, a: Address, key: Bytes) {
    match e
    case Wrote(x, k, _) => x != a || k != key
    case Renewed(x) => x != a
    case Removed(xs) => a !in xs
    case Settled => false
    case _ => true
  }

  /** A key reads what the last surviving write to it left. */
  lemma {:induction false} LastWriteStays(start: nat, before: seq<Effect>, value: Bytes, later: seq<Effect>, a: Address,
                                          key: Bytes, f: Facts)
    requires forall e :: e in later ==> SparesKey(e, a, key)
    ensures ShownAll(start, before + [Wrote(a, key, value)] + later, a, key, f).stored == Readable(value)
    decreases |later|
  {
    var es := before + [Wrote(a, key, value)] + later;
    if later == [] {
      assert es[..|es| - 1] == before && es[|es| - 1] == Wrote(a, key, value);
    } else {
      var n := |later| - 1;
      assert es[..|es| - 1] == before + [Wrote(a, key, value)] + later[..n] && es[|es| - 1] == later[n];
      LastWriteStays(start, before, value, later[..n], a, key, f);
      assert later[n] in later;
    }
  }

  /** A commit keeps what is stored, except at a null account that is no builtin. */
  lemma WriteOutlivesCommit(start: nat, a: Address, key: Bytes, f: Facts)
    requires f.balance != 0 || f.nonce != 0 || f.code != [] || a in {Hash(0x100), Hash(0x200)}
    ensures Shown(start, Settled, a, key, f).stored == f.stored == Shown(start, Settled, a, key, f).kept
  {
  }

  /** A transfer is a loss and a gain. */
  lemma PaymentLeaves(env: Env, v: View, s: Substate, outcome: Outcome, from: Address, to: Address, x: nat, a: Address,
                      key: Bytes)
    requires x <= BalanceOf(v, from)
    requires outcome.Done? ==> outcome.view == Transferred(v, env.startNonce, from, to, x)
    requires outcome.Done? ==> outcome.substate.suicides == s.suicides
                               && outcome.substate.contractsCreated == s.contractsCreated
    ensures Leaves(env, v, s, outcome, [Lost(from, x), Gained(to, x)], a, key)
  {
    var mid := Done(Debited(v, env.startNonce, from, x), s, Success, 0);
    OneEffect(env, v, s, mid, Lost(from, x), a, key);
    OneEffect(env, mid.view, s, outcome, Gained(to, x), a, key);
    LeavesThen(env, v, s, mid, outcome, [Lost(from, x)], [Gained(to, x)], a, key);
    assert [Lost(from, x)] + [Gained(to, x)] == [Lost(from, x), Gained(to, x)];
  }

  /** What a successful frame left is added to its caller's substate. */
  lemma AccruedLeaves(env: Env, v: View, s: Substate, frame: Outcome, es: seq<Effect>, a: Address, key: Bytes)
    requires frame.Done? && frame.status == Success && Leaves(env, v, EMPTY_SUBSTATE, frame, es, a, key)
    ensures Leaves(env, v, s, Enacted(v, s, frame), es, a, key)
  {
    assert [] + CreatedIn(es) == CreatedIn(es) && {} + EndedIn(es) == EndedIn(es);
  }

  /** A frame with code, entered at `v` and run at `paid`. */
  lemma {:induction false} FrameLeaves(env: Env, v: View, s: Substate, paid: View, s1: Substate, payment: seq<Effect>,
                                       self: Address, run: Run, a: Address, key: Bytes)
    requires Leaves(env, v, s, Done(paid, s1, Success, 0), payment, a, key)
    requires s1.suicides == s.suicides && s1.contractsCreated == s.contractsCreated && AddressesDiffer(env)
    ensures var frame := Exec(env, paid, EMPTY_SUBSTATE, self, run);
            Leaves(env, v, s, Enacted(v, s1, frame),
                   if frame.Done? && frame.status == Success then
                     payment + EffectsOf(env, paid, EMPTY_SUBSTATE, self, run)
                   else [], a, key)
    decreases run, 1
  {
    var frame, es := Exec(env, paid, EMPTY_SUBSTATE, self, run), EffectsOf(env, paid, EMPTY_SUBSTATE, self, run);
    ExecLeaves(env, paid, EMPTY_SUBSTATE, self, run, a, key);
    if frame.Done? && frame.status == Success {
      AccruedLeaves(env, paid, s1, frame, es, a, key);
      LeavesThen(env, v, s, Done(paid, s1, Success, 0), Enacted(v, s1, frame), payment, es, a, key);
    } else {
      NoEffects(env, v, s, Enacted(v, s1, frame), a, key);
    }
  }

  lemma {:induction false} ExecLeaves(env: Env, v: View, s: Substate, self: Address, run: Run, a: Address, key: Bytes)
    requires AddressesDiffer(env)
    ensures Leaves(env, v, s, Exec(env, v, s, self, run), EffectsOf(env, v, s, self, run), a, key)
    decreases run, 0
  {
    match run
    case Return(_, _) =>
      NoEffects(env, v, s, Exec(env, v, s, self, run), a, key);
    case Then(op, next) =>
      DoLeaves(env, v, s, self, op, a, key);
      var mid := Do(env, v, s, self, op);
      if mid.Done? {
        ExecLeaves(env, mid.view, mid.substate, self, next, a, key);
        LeavesThen(env, v, s, mid, Exec(env, mid.view, mid.substate, self, next), EffectsBy(env, v, self, op),
                   EffectsOf(env, mid.view, mid.substate, self, next), a, key);
      }
  }

  /** Every operation leaves what its surviving effects say. */
  lemma {:induction false} DoLeaves(env: Env, v: View, s: Substate, self: Address, op: Op, a: Address, key: Bytes)
    requires AddressesDiffer(env)
    ensures Leaves(env, v, s, Do(env, v, s, self, op), EffectsBy(env, v, self, op), a, key)
    decreases op, 2
  {
    match op
    case Store(k, value) =>
      StoreLeaves(env, v, s, self, k, value, a, key);
    case Log(_, _) =>
      NoEffects(env, v, s, Do(env, v, s, self, op), a, key);
    case SstoreClear =>
      NoEffects(env, v, s, Do(env, v, s, self, op), a, key);
    case SaveCode(code) =>
      OneEffect(env, v, s, Do(env, v, s, self, op), Coded(self, code), a, key);
    case Suicide(refund) =>
      SuicideLeaves(env, v, s, self, refund, a, key);
    case CallOp(gas, sender, receiver, amount, codeAddress, callType, run) =>
      CallLeaves(env, v, s, self, gas, sender, receiver, amount, codeAddress, callType, run, a, key);
    case CreateOp(gas, value, run) =>
      CreateLeaves(env, v, s, self, gas, value, run, a, key);
  }

  lemma SuicideLeaves(env: Env, v: View, s: Substate, self: Address, refund: Address, a: Address, key: Bytes)
    ensures Leaves(env, v, s, Do(env, v, s, self, Suicide(refund)), EffectsBy(env, v, self, Suicide(refund)), a, key)
  {
    var x, r := BalanceOf(v, self), Do(env, v, s, self, Suicide(refund));
    var mid := Done(r.view, s, Success, 0);
    if refund == self {
      OneEffect(env, v, s, mid, Lost(self, x), a, key);
      assert [Lost(self, x)] + [] + [Ended(self)] == [Lost(self, x)] + [Ended(self)];
      OneEffect(env, r.view, s, r, Ended(self), a, key);
      LeavesThen(env, v, s, mid, r, [Lost(self, x)], [Ended(self)], a, key);
    } else {
      PaymentLeaves(env, v, s, mid, self, refund, x, a, key);
      OneEffect(env, r.view, s, r, Ended(self), a, key);
      LeavesThen(env, v, s, mid, r, [Lost(self, x), Gained(refund, x)], [Ended(self)], a, key);
      assert [Lost(self, x)] + [Gained(refund, x)] == [Lost(self, x), Gained(refund, x)];
    }
  }

  lemma {:induction false} CallLeaves(env: Env, v: View, s: Substate, self: Address, gas: nat, sender: Address,
                                      receiver: Address, amount: Option<nat>, codeAddress: Address,
                                      callType: CallType, run: Run, a: Address, key: Bytes)
    requires AddressesDiffer(env)
    ensures var op := CallOp(gas, sender, receiver, amount, codeAddress, callType, run);
            Leaves(env, v, s, Do(env, v, s, self, op), EffectsBy(env, v, self, op), a, key)
    decreases run, 2
  {
    var op, code := CallOp(gas, sender, receiver, amount, codeAddress, callType, run), CodeOf(v, codeAddress);
    if amount.Some? && (callType == Call || callType == StaticCall) {
      var x := amount.value;
      if x <= BalanceOf(v, sender) {
        var paid := Transferred(v, env.startNonce, sender, receiver, x);
        var s1 := Touching(s, TransferTouches(v, env.startNonce, sender, receiver, x));
        PaymentLeaves(env, v, s, Done(paid, s1, Success, gas), sender, receiver, x, a, key);
        var p := Params(sender, receiver, TransferValue(x), code, gas);
        CodeLeaves(env, v, s, paid, s1, [Lost(sender, x), Gained(receiver, x)], p, codeAddress, run, a, key);
        assert Do(env, v, s, self, op) == CodeResult(env, v, paid, s1, p, run);
      }
    } else {
      NoEffects(env, v, s, Done(v, s, Success, gas), a, key);
      var p := Params(sender, receiver, ApparentValue, code, gas);
      CodeLeaves(env, v, s, v, s, [], p, codeAddress, run, a, key);
      assert Do(env, v, s, self, op) == CodeResult(env, v, v, s, p, run);
    }
  }

  lemma {:induction false} CodeLeaves(env: Env, v: View, s: Substate, paid: View, s1: Substate, payment: seq<Effect>,
                                      p: Params, codeAddress: Address, run: Run, a: Address, key: Bytes)
    requires AddressesDiffer(env) && Leaves(env, v, s, Done(paid, s1, Success, p.gas), payment, a, key)
    requires s1.suicides == s.suicides && s1.contractsCreated == s.contractsCreated
    requires p.code == CodeOf(v, codeAddress)
    ensures Leaves(env, v, s, CodeResult(env, v, paid, s1, p, run),
                   CalledEffects(env, v, paid, payment, p.address, codeAddress, run), a, key)
    decreases run, 2, 0
  {
    if p.code != [] {
      FrameLeaves(env, v, s, paid, s1, payment, p.address, run, a, key);
    }
  }

  /** The endowed account: what lay at the address is kept, all else is new. */
  lemma EndowedLeaves(env: Env, v: View, s: Substate, s1: Substate, creator: Address, address: Address, value: nat,
                      a: Address, key: Bytes)
    requires value <= BalanceOf(v, creator) && creator != address
    requires s1.suicides == s.suicides && s1.contractsCreated == s.contractsCreated
    ensures Leaves(env, v, s, Done(Endowed(env, v, creator, address, value), s1, Success, 0),
                   [Lost(creator, value), Gained(address, value), Renewed(address)], a, key)
  {
    var start := env.startNonce;
    var w := Transferred(v, start, creator, address, value);
    var last := Done(Endowed(env, v, creator, address, value), s1, Success, 0);
    PaymentLeaves(env, v, s, Done(w, s, Success, 0), creator, address, value, a, key);
    OneEffect(env, w, s, last, Renewed(address), a, key);
    LeavesThen(env, v, s, Done(w, s, Success, 0), last, [Lost(creator, value), Gained(address, value)],
               [Renewed(address)], a, key);
    assert [Lost(creator, value), Gained(address, value)] + [Renewed(address)] ==
           [Lost(creator, value), Gained(address, value), Renewed(address)];
  }

  lemma {:induction false} NewContractLeaves(env: Env, v: View, s: Substate, creator: Address, address: Address,
                                             value: nat, run: Run, a: Address, key: Bytes)
    requires AddressesDiffer(env) && creator != address
    ensures Leaves(env, v, s, CreateFrame(env, v, s, creator, address, value, run),
                   NewContractEffects(env, v, creator, address, value, run), a, key)
    decreases run, 2
  {
    if Collides(env, v, address) || value > BalanceOf(v, creator) {
      NoEffects(env, v, s, CreateFrame(env, v, s, creator, address, value, run), a, key);
    } else {
      var endowed, s1 := Endowed(env, v, creator, address, value), Touching(s, {creator});
      EndowedLeaves(env, v, s, s1, creator, address, value, a, key);
      FrameLeaves(env, v, s, endowed, s1, [Lost(creator, value), Gained(address, value), Renewed(address)], address,
                  run, a, key);
    }
  }

  lemma {:induction false} CreateLeaves(env: Env, v: View, s: Substate, self: Address, gas: nat, value: nat, run: Run,
                                        a: Address, key: Bytes)
    requires AddressesDiffer(env)
    ensures var op := CreateOp(gas, value, run);
            Leaves(env, v, s, Do(env, v, s, self, op), EffectsBy(env, v, self, op), a, key)
    decreases run, 3
  {
    var address := env.contractAddress(self, NonceOf(v, env.startNonce, self));
    NewContractLeaves(env, v, s, self, address, value, run, a, key);
    var res := CreateFrame(env, v, s, self, address, value, run);
    var es := NewContractEffects(env, v, self, address, value, run);
    var last := Do(env, v, s, self, CreateOp(gas, value, run));
    assert last == DoCreate(env, v, s, self, value, run);
    if res.Done? && res.status == Success {
      BothRise(env, res, self, address, last, a, key);
      LeavesThen(env, v, s, res, last, es, [Raised(self), Raised(address), Created(address)], a, key);
    }
  }

  /** After a creation both nonces have risen. */
  lemma BothRise(env: Env, res: Outcome, self: Address, address: Address, last: Outcome, a: Address, key: Bytes)
    requires res.Done? && last.Done?
    requires last.view == IncNonce(IncNonce(res.view, env.startNonce, self), env.startNonce, address)
    requires last.substate ==
             res.substate.(contractsCreated := res.substate.contractsCreated + [address])
    ensures Leaves(env, res.view, res.substate, last, [Raised(self), Raised(address), Created(address)], a, key)
  {
    var start, s := env.startNonce, res.substate;
    var first := Done(IncNonce(res.view, start, self), s, Success, 0);
    var second := Done(last.view, s, Success, 0);
    OneEffect(env, res.view, s, first, Raised(self), a, key);
    OneEffect(env, first.view, s, second, Raised(address), a, key);
    LeavesThen(env, res.view, s, first, second, [Raised(self)], [Raised(address)], a, key);
    OneEffect(env, second.view, s, last, Created(address), a, key);
    LeavesThen(env, res.view, s, second, last, [Raised(self)] + [Raised(address)], [Created(address)], a, key);
    assert [Raised(self)] + [Raised(address)] + [Created(address)] == [Raised(self), Raised(address), Created(address)];
  }
}
