/**
 * What executing a FastVM transaction means, over whole views of the account state: the reference
 * semantics of `Executive` and `FvmExternalities` (core/src/executor/fvm_exec.rs,
 * core/src/executor/fvm_externality.rs).
 *
 * The virtual machine is foreign code. One run of it is an arbitrary finite tree of calls to its
 * externalities that ends in a status and an amount of gas left; results are for all such trees.
 */
module Execution {
  import opened Basics
  import opened WorldState

  datatype Status = Success | Revert | Failure

  datatype LogEntry = LogEntry(address: Address, topics: seq<Hash>, data: Bytes)

  /** What a frame leaves for the end of the transaction. */
  datatype Substate = Substate(suicides: set<Address>, touched: set<Address>, logs: seq<LogEntry>, sstoreClears: nat,
                               contractsCreated: seq<Address>)

  const EMPTY_SUBSTATE := Substate({}, {}, [], 0, [])

  function Accrue(s: Substate, t: Substate): Substate {
    Substate(s.suicides + t.suicides, s.touched + t.touched, s.logs + t.logs, s.sstoreClears + t.sstoreClears,
             s.contractsCreated + t.contractsCreated)
  }

  datatype CallType = Call | CallCode | DelegateCall | StaticCall

  /** One call to the externalities, with the runs of the frames it may open. */
  datatype Op =
    | Store(key: Bytes, bytes: Bytes)
    | Log(topics: seq<Hash>, data: Bytes)
    | Suicide(refund: Address)
    | SaveCode(code: Bytes)
    | SstoreClear
    | CallOp(gas: nat, sender: Address, receiver: Address, amount: Option<nat>, codeAddress: Address,
             callType: CallType, run: Run)
    | CreateOp(gas: nat, endowment: nat, run: Run)

  /** A run of the virtual machine. */
  datatype Run = Return(status: Status, gasLeft: nat) | Then(op: Op, next: Run)

  /** What stays fixed: the initial nonce, the monetary fork and the derivation of contract addresses. */
  datatype Env = Env(startNonce: nat, aion040: bool, contractAddress: (Address, nat) -> Address)

  datatype ActionValue = TransferValue(amount: nat) | ApparentValue

  /** The parameters of a frame; empty code means no code. */
  datatype Params = Params(sender: Address, address: Address, value: ActionValue, code: Bytes, gas: nat)

  /** The end of a frame, or the panic of a transfer that cannot be paid (`Account::sub_balance` asserts). */
  datatype Outcome = Panic | Done(view: View, substate: Substate, status: Status, gasLeft: nat)

  function Touching(s: Substate, addresses: set<Address>): Substate {
    s.(touched := s.touched + addresses)
  }

  /** `enact_result`: keep the frame's work on success, else go back to the entry view. */
  function Enacted(entry: View, s: Substate, frame: Outcome): Outcome {
    match frame
    case Panic => Panic
    case Done(view, substate, status, gasLeft) =>
      if status == Success then Done(view, Accrue(s, substate), status, gasLeft)
      else Done(entry, s, status, gasLeft)
  }

  /** The frame pays before it runs when nested, after it succeeded when outermost. */
  predicate Pays(p: Params, nested: bool) {
    nested && p.value.TransferValue?
  }

  /** `call`. */
  function CallFrame(env: Env, v: View, s: Substate, nested: bool, p: Params, run: Run): Outcome
    decreases run, 1
  {
    if Pays(p, nested) && p.value.amount > BalanceOf(v, p.sender) then Panic
    else
      var paid := if Pays(p, nested) then Transferred(v, env.startNonce, p.sender, p.address, p.value.amount) else v;
      var s1 := if Pays(p, nested)
        then Touching(s, TransferTouches(v, env.startNonce, p.sender, p.address, p.value.amount)) else s;
      var res := CodeResult(env, v, paid, s1, p, run);
      if !nested && res.Done? && res.status == Success && p.value.TransferValue? then PayAfter(env, p, res) else res
  }

  /** The code of a frame entered at `entry`, run at `paid`; without code the frame just succeeds. */
  function CodeResult(env: Env, entry: View, paid: View, s: Substate, p: Params, run: Run): Outcome
    decreases run, 1, 0
  {
    if p.code == [] then Done(paid, s, Success, p.gas)
    else Enacted(entry, s, Exec(env, paid, EMPTY_SUBSTATE, p.address, run))
  }

  /** The value transfer of an outermost frame. */
  function PayAfter(env: Env, p: Params, res: Outcome): Outcome
    requires res.Done? && p.value.TransferValue?
  {
    if p.value.amount > BalanceOf(res.view, p.sender) then Panic
    else Done(
      Transferred(res.view, env.startNonce, p.sender, p.address, p.value.amount),
      Touching(res.substate, TransferTouches(res.view, env.startNonce, p.sender, p.address, p.value.amount)),
      res.status, res.gasLeft)
  }

  predicate IsNull(a: Account) {
    a.balance == 0 && a.nonce == 0 && a.code == []
  }

  predicate IsEmpty(a: Account) {
    IsNull(a) && a.storage == map[]
  }

  /** Only committed storage counts, and only while there are no uncommitted changes. */
  predicate HasStorage(a: Account) {
    a.changes == map[] && a.storage != map[]
  }

  /** The address is taken: creation fails at once. */
  predicate Collides(env: Env, v: View, address: Address) {
    && address in v && !IsEmpty(v[address])
    && (!env.aion040 || v[address].code != [] || v[address].nonce != 0 || HasStorage(v[address]))
  }

  /** The view in which the code of a new contract runs: the creator has paid, the account is fresh. */
  function Endowed(env: Env, v: View, sender: Address, address: Address, value: nat): View
    requires value <= BalanceOf(v, sender)
  {
    Debited(v, env.startNonce, sender, value)
    [address := NewAccount(value + BalanceOf(v, address), env.startNonce + NonceOf(v, env.startNonce, address))]
  }

  /** `create`. */
  function CreateFrame(env: Env, v: View, s: Substate, sender: Address, address: Address, value: nat, run: Run): Outcome
    decreases run, 1
  {
    if Collides(env, v, address) then Done(v, s, Failure, 0)
    else if value > BalanceOf(v, sender) then Panic
    else Enacted(v, Touching(s, {sender}),
                 Exec(env, Endowed(env, v, sender, address, value), EMPTY_SUBSTATE, address, run))
  }

  /** `exec_vm`: the run, in the frame of contract `self`. */
  function Exec(env: Env, v: View, s: Substate, self: Address, run: Run): Outcome
    decreases run, 0
  {
    match run
    case Return(status, gasLeft) => Done(v, s, status, gasLeft)
    case Then(op, next) =>
      match Do(env, v, s, self, op)
      case Panic => Panic
      case Done(v', s', _, _) => Exec(env, v', s', self, next)
  }

  /** One operation of the externalities. */
  function Do(env: Env, v: View, s: Substate, self: Address, op: Op): Outcome
    decreases op, 2
  {
    match op
    case Store(key, value) => Done(SetStorage(v, env.startNonce, self, key, value), s, Success, 0)
    case Log(topics, data) => Done(v, s.(logs := s.logs + [LogEntry(self, topics, data)]), Success, 0)
    case SaveCode(code) => Done(InitCode(v, env.startNonce, self, code), s, Success, 0)
    case SstoreClear => Done(v, s.(sstoreClears := s.sstoreClears + 1), Success, 0)
    case Suicide(refund) => DoSuicide(env, v, s, self, refund)
    case CallOp(gas, sender, receiver, value, codeAddress, callType, run) =>
      CallFrame(env, v, s, true, CallParams(v, gas, sender, receiver, value, codeAddress, callType), run)
    case CreateOp(gas, value, run) => DoCreate(env, v, s, self, value, run)
  }

  /** The balance goes to the refund address, or nowhere if that is the contract itself. */
  function DoSuicide(env: Env, v: View, s: Substate, self: Address, refund: Address): Outcome {
    var balance := BalanceOf(v, self);
    if self == refund then
      Done(Debited(v, env.startNonce, self, balance), s.(suicides := s.suicides + {self}), Success, 0)
    else
      Done(Transferred(v, env.startNonce, self, refund, balance),
           Touching(s, TransferTouches(v, env.startNonce, self, refund, balance)).(suicides := s.suicides + {self}),
           Success, 0)
  }

  /** Delegated calls and calls without a value transfer nothing. */
  function CallParams(v: View, gas: nat, sender: Address, receiver: Address, value: Option<nat>, codeAddress: Address,
                      callType: CallType): Params {
    var actionValue :=
      if value.Some? && callType != DelegateCall && callType != CallCode then TransferValue(value.value)
        else ApparentValue;
    Params(sender, receiver, actionValue, CodeOf(v, codeAddress), gas)
  }

  /** `FvmExternalities::create`: on success both nonces rise. */
  function DoCreate(env: Env, v: View, s: Substate, self: Address, value: nat, run: Run): Outcome
    decreases run, 2
  {
    var address := env.contractAddress(self, NonceOf(v, env.startNonce, self));
    var res := CreateFrame(env, v, s, self, address, value, run);
    if res.Done? && res.status == Success then
      Done(IncNonce(IncNonce(res.view, env.startNonce, self), env.startNonce, address),
           res.substate.(contractsCreated := res.substate.contractsCreated + [address]), Success, res.gasLeft)
    else res
  }

  // ---------------------------------------------------------------------------------------------
  // Transactions

  datatype Action = CreateAction | CallAction(to: Address)

  datatype Transaction = Transaction(sender: Address, nonce: nat, gas: nat, gasPrice: nat, value: nat, action: Action,
                                     data: Bytes)

  /** The block a transaction executes in. */
  datatype BlockEnv = BlockEnv(author: Address, gasUsed: nat, gasLimit: nat, afterUnity: bool)

  /** How the transaction is executed. */
  datatype Mode = Mode(checkNonce: bool, isLocalCall: bool, isBuildingBlock: bool)

  datatype ExecutionError =
    | InvalidNonce(expected: nat, got: nat)
    | NotEnoughBaseGas(required: nat, got: nat)
    | ExceedMaxGasLimit(max: nat, got: nat)
    | BlockGasLimitReached(gasLimit: nat, gasUsed: nat, gas: nat)
    | NotEnoughCash(required: nat, got: nat)

  datatype Executed = Executed(gas: nat, gasUsed: nat, refunded: nat, transactionFee: nat, logs: seq<LogEntry>,
                               contractsCreated: seq<Address>)

  datatype TransactOutcome = Panicked | Rejected(error: ExecutionError) | Accepted(view: View, executed: Executed)

  const GAS_CREATE_MIN: nat := 200000
  const GAS_CREATE_MAX: nat := 5000000
  const GAS_CALL_MIN: nat := 21000
  const GAS_CALL_MAX: nat := 2000000
  const GAS_TX_DATA_ZERO: nat := 4
  const GAS_TX_DATA_NONZERO: nat := 64

  function GasOfData(data: Bytes): nat {
    if data == [] then 0 else (if data[0] == 0 then GAS_TX_DATA_ZERO else GAS_TX_DATA_NONZERO) + GasOfData(data[1..])
  }

  /** `gas_required`: the base cost of the transaction. */
  function GasRequired(t: Transaction): nat {
    (if t.action.CreateAction? then GAS_CREATE_MIN else 0) + GAS_CALL_MIN + GasOfData(t.data)
  }

  function GasRequiredBeforeUnity(t: Transaction): nat {
    if t.action.CreateAction? then GAS_CREATE_MIN else GAS_CALL_MIN
  }

  function GasAgainstRejection(info: BlockEnv, t: Transaction): nat {
    if info.afterUnity then GasRequired(t) else GasRequiredBeforeUnity(t)
  }

  function MaxGas(t: Transaction): nat {
    if t.action.CreateAction? then GAS_CREATE_MAX else GAS_CALL_MAX
  }

  function GasCost(t: Transaction): nat {
    t.gas * t.gasPrice
  }

  /** The checks made before anything changes. */
  function Precheck(env: Env, info: BlockEnv, v: View, t: Transaction, mode: Mode): Option<ExecutionError> {
    var nonce := NonceOf(v, env.startNonce, t.sender);
    if mode.checkNonce && t.nonce != nonce then Some(InvalidNonce(nonce, t.nonce))
    else if t.gas < GasAgainstRejection(info, t) then Some(NotEnoughBaseGas(GasAgainstRejection(info, t), t.gas))
    else if !mode.isLocalCall && t.gas > MaxGas(t) then Some(ExceedMaxGasLimit(MaxGas(t), t.gas))
    else if mode.isBuildingBlock && info.gasUsed + t.gas > info.gasLimit then
      Some(BlockGasLimitReached(info.gasLimit, info.gasUsed, t.gas))
    else if BalanceOf(v, t.sender) < t.value + GasCost(t) then
      Some(NotEnoughCash(t.value + GasCost(t), BalanceOf(v, t.sender)))
    else None
  }

  /** The gas passed to the virtual machine. */
  function InitGas(t: Transaction): nat {
    if t.gas < GasRequired(t) then 0 else t.gas - GasRequired(t)
  }

  /** The sender's nonce has risen and the whole gas limit is paid for. */
  function Charged(env: Env, v: View, t: Transaction): View
    requires GasCost(t) <= BalanceOf(v, t.sender)
  {
    Debited(IncNonce(v, env.startNonce, t.sender), env.startNonce, t.sender, GasCost(t))
  }

  /** The outermost frame. */
  function TopFrame(env: Env, v: View, t: Transaction, run: Run): Outcome
    requires GasCost(t) <= BalanceOf(v, t.sender)
  {
    var v1, s1 := Charged(env, v, t), Touching(EMPTY_SUBSTATE, {t.sender});
    match t.action
    case CreateAction =>
      CreateFrame(env, v1, s1, t.sender, env.contractAddress(t.sender, NonceOf(v, env.startNonce, t.sender)), t.value,
                  run)
    case CallAction(to) =>
      CallFrame(env, v1, s1, false, Params(t.sender, to, TransferValue(t.value), CodeOf(v1, to), InitGas(t)), run)
  }

  function GasKept(status: Status, gasLeft: nat): nat {
    if status == Success || status == Revert then gasLeft else 0
  }

  /** `finalize`: refuse what does not fit into the block, else refund, pay the author and remove suicides. */
  function Finalized(env: Env, info: BlockEnv, t: Transaction, frame: Outcome): TransactOutcome {
    match frame
    case Panic => Panicked
    case Done(view, substate, status, left) =>
      var gasLeft := GasKept(status, left);
      if gasLeft > t.gas then Panicked
      else if t.gas - gasLeft + info.gasUsed > info.gasLimit then
        Rejected(BlockGasLimitReached(info.gasLimit, info.gasUsed + t.gas - gasLeft, t.gas))
      else
        var gasUsed := t.gas - gasLeft;
        var refunded := Credited(view, env.startNonce, t.sender, gasLeft * t.gasPrice);
        var paid := Credited(refunded, env.startNonce, info.author, gasUsed * t.gasPrice);
        Accepted(paid - substate.suicides,
                 Executed(t.gas, gasUsed, gasLeft, gasUsed * t.gasPrice, substate.logs, substate.contractsCreated))
  }

  /** `transact`. */
  function Transact(env: Env, info: BlockEnv, v: View, t: Transaction, mode: Mode, run: Run): TransactOutcome {
    var error := Precheck(env, info, v, t, mode);
    if error.Some? then Rejected(error.value) else Finalized(env, info, t, TopFrame(env, v, t, run))
  }

  // ---------------------------------------------------------------------------------------------
  // Between transactions

  /** The builtin contracts that keep storage without being accounts of any other substance. */
  const KEEPERS: set<Address> := {Hash(0x100), Hash(0x200)}

  /** The storage changes of a null account are dropped, except at the builtin contracts. */
  predicate Drops(address: Address, a: Account) {
    IsNull(a) && address !in KEEPERS
  }

  /** `commit` of one account: its storage changes become its storage, or are dropped. */
  function CommittedAccount(address: Address, a: Account): Account {
    if Drops(address, a) then a.(changes := map[])
    else
      var storage := map k | k in a.storage.Keys + a.changes.Keys && StorageAt(a, k).Some? :: StorageAt(a, k).value;
      a.(storage := storage, changes := map[])
  }

  /** `State::commit`, which `apply_fvm` calls after every accepted transaction. */
  function Committed(v: View): View {
    map a | a in v :: CommittedAccount(a, v[a])
  }

  /** Committing leaves no change pending, and changes what can be read only where it drops a change that mattered. */
  lemma CommittedReads(v: View, start: nat, a: Address, key: Bytes)
    ensures BalanceOf(Committed(v), a) == BalanceOf(v, a) && NonceOf(Committed(v), start, a) == NonceOf(v, start, a)
    ensures CodeOf(Committed(v), a) == CodeOf(v, a) && (a in Committed(v) <==> a in v)
    ensures a in v ==> Committed(v)[a].changes == map[]
    ensures a in v ==> (StorageAt(Committed(v)[a], key) == StorageAt(v[a], key) <==>
                        (Drops(a, v[a]) ==> StorageAt(v[a].(changes := map[]), key) == StorageAt(v[a], key)))
  {
  }

  /** After a commit, an account whose changes are kept counts as having storage exactly when some key reads as set. */
  lemma CommittedHasStorage(address: Address, a: Account)
    requires !Drops(address, a)
    ensures HasStorage(CommittedAccount(address, a)) <==> exists key :: StorageAt(a, key).Some?
  {
    var c := CommittedAccount(address, a);
    if key :| StorageAt(a, key).Some? {
      assert key in c.storage;
    } else {
      assert c.storage == map[];
    }
  }
}
