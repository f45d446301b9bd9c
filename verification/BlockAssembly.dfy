/**
 * Filling a block with transactions: one at a time, or in batches for the AVM virtual machine
 * (core/src/block.rs, core/src/state/mod.rs, core/src/executor/avm_exec.rs). The two virtual machines
 * are parameters; gas accounting, acceptance, ordering and fees are the code's.
 */
module BlockAssembly {
  import opened Basics
  import opened WorldState
  import opened Execution

  datatype Tx = Tx(hash: Hash, inner: Transaction)

  datatype Receipt = Receipt(gasUsed: nat, transactionFee: nat)

  /** What the AVM reports for one transaction of a batch. */
  datatype AvmResult = AvmResult(rejected: bool, gasUsed: nat)

  /** The header of the block being filled, and everything outside the code modelled here. */
  datatype Machine = Machine(
    number: nat, author: Address, gasLimit: nat, afterUnity: bool, avmHardfork: bool,
    env: Env, fvmRun: (View, Tx) -> Run,
    isAvm: (View, Tx) -> bool, avmRun: (View, seq<Tx>, nat) -> AvmResult, avmView: (View, seq<Tx>) -> View)

  /** The executed block so far. */
  datatype Block = Block(view: View, transactions: seq<Tx>, receipts: seq<Receipt>, hashes: set<Hash>, fee: nat)

  datatype PushOutcome = Pushed | AlreadyImported | Refused | Crashed

  function GasOf(receipts: seq<Receipt>): nat {
    if receipts == [] then 0 else GasOf(receipts[..|receipts| - 1]) + receipts[|receipts| - 1].gasUsed
  }

  function FeesOf(receipts: seq<Receipt>): nat {
    if receipts == [] then 0 else FeesOf(receipts[..|receipts| - 1]) + receipts[|receipts| - 1].transactionFee
  }

  lemma SumsAppend(receipts: seq<Receipt>, r: Receipt)
    ensures GasOf(receipts + [r]) == GasOf(receipts) + r.gasUsed
    ensures FeesOf(receipts + [r]) == FeesOf(receipts) + r.transactionFee
  {
    assert (receipts + [r])[..|receipts|] == receipts;
  }

  function Hashes(txs: seq<Tx>): set<Hash> {
    set t | t in txs :: t.hash
  }

  // ---------------------------------------------------------------------------------------------
  // Execution of one transaction and of an AVM batch

  const EXCEPTION_001_HASH: Hash := Hash(0xbc7422952fb73d0cab9ca96bb1489857674342e9e2bdec989651a6f691814061)

  const EXCEPTION_001_BLOCKS: set<nat> := {4735401, 4735403, 4735405}

  /** `accept_transaction_exception_001`. */
  predicate Exceptional(number: nat, t: Tx) {
    number in EXCEPTION_001_BLOCKS && t.hash == EXCEPTION_001_HASH
  }

  /** The AVM did not reject the `i`-th transaction, and it fits after the `total` gas of those before it. */
  predicate Fits(m: Machine, view: View, used: nat, txs: seq<Tx>, i: nat, total: nat, building: bool)
    requires i < |txs|
  {
    var result := m.avmRun(view, txs, i);
    (building ==> used + txs[i].inner.gas <= m.gasLimit) && !result.rejected
      && result.gasUsed + total + used <= m.gasLimit
  }

  /** The gas counted by `finalize` before the `i`-th transaction. */
  function TotalBefore(m: Machine, view: View, used: nat, txs: seq<Tx>, i: nat, building: bool): nat
    requires i <= |txs|
  {
    if i == 0 then 0
    else
      var total := TotalBefore(m, view, used, txs, i - 1, building);
      total + if Fits(m, view, used, txs, i - 1, total, building) then m.avmRun(view, txs, i - 1).gasUsed else 0
  }

  /** The receipt of the `i`-th transaction of a batch, unless it is refused. */
  function AvmReceipt(m: Machine, view: View, used: nat, txs: seq<Tx>, i: nat, building: bool): Option<Receipt>
    requires i < |txs|
  {
    var gasUsed := m.avmRun(view, txs, i).gasUsed;
    if Fits(m, view, used, txs, i, TotalBefore(m, view, used, txs, i, building), building) then
      Some(Receipt(gasUsed, gasUsed * txs[i].inner.gasPrice))
    else if Exceptional(m.number, txs[i]) then Some(Receipt(txs[i].inner.gas, GasCost(txs[i].inner)))
    else None
  }

  function AvmView(m: Machine, view: View, used: nat, t: Tx, building: bool): View {
    if building && used + t.inner.gas > m.gasLimit then view else m.avmView(view, [t])
  }

  /** `finalize` of the AVM executor and `apply_avm`: a receipt for every accepted transaction of the batch. */
  method ApplyAvm(m: Machine, view: View, used: nat, txs: seq<Tx>, building: bool)
    returns (outcomes: seq<Option<Receipt>>)
    ensures |outcomes| == |txs|
            && forall i :: 0 <= i < |txs| ==> outcomes[i] == AvmReceipt(m, view, used, txs, i, building)
  {
    outcomes := [];
    var total := 0;
    for i := 0 to |txs|
      invariant total == TotalBefore(m, view, used, txs, i, building) && |outcomes| == i
      invariant forall j :: 0 <= j < i ==> outcomes[j] == AvmReceipt(m, view, used, txs, j, building)
    {
      var result := m.avmRun(view, txs, i);
      if (building && used + txs[i].inner.gas > m.gasLimit) || result.rejected
        || result.gasUsed + total + used > m.gasLimit {
        if Exceptional(m.number, txs[i]) {
          outcomes := outcomes + [Some(Receipt(txs[i].inner.gas, txs[i].inner.gas * txs[i].inner.gasPrice))];
        } else {
          outcomes := outcomes + [None];
        }
      } else {
        total := total + result.gasUsed;
        outcomes := outcomes + [Some(Receipt(result.gasUsed, result.gasUsed * txs[i].inner.gasPrice))];
      }
    }
  }

  // ---------------------------------------------------------------------------------------------
  // Pushing

  function Appended(b: Block, t: Tx, r: Receipt): Block {
    b.(transactions := b.transactions + [t], receipts := b.receipts + [r], hashes := b.hashes + {t.hash},
       fee := b.fee + r.transactionFee)
  }

  function InfoOf(m: Machine, b: Block): BlockEnv {
    BlockEnv(m.author, GasOf(b.receipts), m.gasLimit, m.afterUnity)
  }

  function FvmOutcome(m: Machine, b: Block, t: Tx, building: bool): TransactOutcome {
    Transact(m.env, InfoOf(m, b), b.view, t.inner, Mode(true, false, building), m.fvmRun(b.view, t))
  }

  /** `push_transaction`. */
  function PushOne(m: Machine, b: Block, t: Tx, building: bool): (Block, PushOutcome) {
    if t.hash in b.hashes then (b, AlreadyImported)
    else if m.avmHardfork && m.isAvm(b.view, t) then
      var used := GasOf(b.receipts);
      var after := b.(view := AvmView(m, b.view, used, t, building));
      var receipt := AvmReceipt(m, b.view, used, [t], 0, building);
      if receipt.Some? then (Appended(after, t, receipt.value), Pushed) else (after, Refused)
    else
      match FvmOutcome(m, b, t, building)
      case Panicked => (b, Crashed)
      case Rejected(_) => (b, Refused)
      case Accepted(view, executed) =>
        (Appended(b.(view := Committed(view)), t, Receipt(executed.gasUsed, executed.transactionFee)), Pushed)
  }

  /** Transactions pushed one by one, up to the first that is not accepted. */
  function PushEach(m: Machine, b: Block, txs: seq<Tx>): (Block, PushOutcome) {
    if txs == [] then (b, Pushed)
    else
      var (b1, o1) := PushEach(m, b, txs[..|txs| - 1]);
      if o1 == Pushed then PushOne(m, b1, txs[|txs| - 1], false) else (b1, o1)
  }

  /** The first `i` results of a batch recorded, up to the first that is refused. */
  function RecordedBatch(m: Machine, b: Block, txs: seq<Tx>, i: nat): (Block, PushOutcome)
    requires i <= |txs|
  {
    if i == 0 then (b.(view := m.avmView(b.view, txs)), Pushed)
    else
      var (b1, o1) := RecordedBatch(m, b, txs, i - 1);
      if o1 != Pushed then (b1, o1)
      else
        var receipt := AvmReceipt(m, b.view, GasOf(b.receipts), txs, i - 1, false);
        if receipt.Some? then (Appended(b1, txs[i - 1], receipt.value), Pushed) else (b1, Refused)
  }

  /** `apply_avm_batch_transactions`. */
  function PushBatch(m: Machine, b: Block, txs: seq<Tx>): (Block, PushOutcome) {
    if exists t :: t in txs && t.hash in b.hashes then (b, AlreadyImported) else RecordedBatch(m, b, txs, |txs|)
  }

  function PushPending(m: Machine, b: Block, batch: seq<Tx>): (Block, PushOutcome) {
    if batch == [] then (b, Pushed) else PushBatch(m, b, batch)
  }

  /** `push_transactions` after the fork, over `txs`: the block, the batch not yet executed, and the outcome. */
  function Batched(m: Machine, b: Block, txs: seq<Tx>): (Block, seq<Tx>, PushOutcome) {
    if txs == [] then (b, [], Pushed)
    else
      var (b1, batch, o1) := Batched(m, b, txs[..|txs| - 1]);
      var t := txs[|txs| - 1];
      if o1 != Pushed then (b1, batch, o1)
      else if m.isAvm(b1.view, t) then (b1, batch + [t], Pushed)
      else
        var (b2, o2) := PushPending(m, b1, batch);
        if o2 != Pushed then (b2, [], o2)
        else
          var (b3, o3) := PushOne(m, b2, t, false);
          (b3, [], o3)
  }

  /** `push_transactions`. */
  function PushAll(m: Machine, b: Block, txs: seq<Tx>): (Block, PushOutcome) {
    if m.avmHardfork then
      var (b1, batch, o1) := Batched(m, b, txs);
      if o1 == Pushed then PushPending(m, b1, batch) else (b1, o1)
    else PushEach(m, b, txs)
  }

  class OpenBlock {
    const m: Machine
    var block: Block

    constructor (m: Machine, view: View)
      ensures this.m == m && block == Block(view, [], [], {}, 0)
    {
      this.m, block := m, Block(view, [], [], {}, 0);
    }

    /** The gas used so far, folded from the receipts (`env_info`). */
    method GasUsed() returns (used: nat)
      ensures used == GasOf(block.receipts)
    {
      used := 0;
      for i := 0 to |block.receipts|
        invariant used == GasOf(block.receipts[..i])
      {
        assert block.receipts[..i + 1][..i] == block.receipts[..i];
        used := used + block.receipts[i].gasUsed;
      }
      assert block.receipts[..|block.receipts|] == block.receipts;
    }

    method PushTransaction(t: Tx, building: bool) returns (outcome: PushOutcome)
      modifies this
      ensures (block, outcome) == PushOne(m, old(block), t, building)
    {
      if t.hash in block.hashes {
        return AlreadyImported;
      }
      var used := GasUsed();
      if m.avmHardfork && m.isAvm(block.view, t) {
        var outcomes := ApplyAvm(m, block.view, used, [t], building);
        block := block.(view := AvmView(m, block.view, used, t, building));
        if outcomes[0].None? {
          return Refused;
        }
        block := Appended(block, t, outcomes[0].value);
      } else {
        match FvmOutcome(m, block, t, building)
        case Panicked => return Crashed;
        case Rejected(_) => return Refused;
        case Accepted(view, executed) =>
          block := Appended(block.(view := Committed(view)), t, Receipt(executed.gasUsed, executed.transactionFee));
      }
      return Pushed;
    }

    method ApplyAvmBatchTransactions(txs: seq<Tx>) returns (outcome: PushOutcome)
      modifies this
      ensures (block, outcome) == PushBatch(m, old(block), txs)
    {
      if exists t :: t in txs && t.hash in block.hashes {
        return AlreadyImported;
      }
      ghost var b := block;
      var used := GasUsed();
      var outcomes := ApplyAvm(m, block.view, used, txs, false);
      block := block.(view := m.avmView(block.view, txs));
      for i := 0 to |txs|
        invariant RecordedBatch(m, b, txs, i) == (block, Pushed)
      {
        if outcomes[i].None? {
          RecordedBatchStops(m, b, txs, i + 1, |txs|);
          return Refused;
        }
        block := Appended(block, txs[i], outcomes[i].value);
      }
      return Pushed;
    }

    method PushTransactions(txs: seq<Tx>) returns (outcome: PushOutcome)
      modifies this
      ensures (block, outcome) == PushAll(m, old(block), txs)
    {
      if m.avmHardfork {
        outcome := PushBatched(txs);
      } else {
        outcome := PushOneByOne(txs);
      }
    }

    /** After the fork: batches of consecutive AVM transactions, the others one by one between them. */
    method PushBatched(txs: seq<Tx>) returns (outcome: PushOutcome)
      requires m.avmHardfork
      modifies this
      ensures (block, outcome) == PushAll(m, old(block), txs)
    {
      ghost var b := block;
      outcome := Pushed;
      var batch: seq<Tx> := [];
      for i := 0 to |txs|
        invariant Batched(m, b, txs[..i]) == (block, batch, Pushed) && outcome == Pushed
      {
        assert txs[..i + 1][..i] == txs[..i];
        if m.isAvm(block.view, txs[i]) {
          batch := batch + [txs[i]];
        } else {
          if |batch| >= 1 {
            outcome := ApplyAvmBatchTransactions(batch);
            if outcome != Pushed {
              BatchedStops(m, b, txs, i + 1);
              return;
            }
            batch := [];
          }
          outcome := PushTransaction(txs[i], false);
          if outcome != Pushed {
            BatchedStops(m, b, txs, i + 1);
            return;
          }
        }
      }
      assert txs[..|txs|] == txs;
      if batch != [] {
        outcome := ApplyAvmBatchTransactions(batch);
      }
    }

    /** Before the fork. */
    method PushOneByOne(txs: seq<Tx>) returns (outcome: PushOutcome)
      modifies this
      ensures (block, outcome) == PushEach(m, old(block), txs)
    {
      ghost var b := block;
      outcome := Pushed;
      for i := 0 to |txs|
        invariant PushEach(m, b, txs[..i]) == (block, Pushed) && outcome == Pushed
      {
        assert txs[..i + 1][..i] == txs[..i];
        outcome := PushTransaction(txs[i], false);
        if outcome != Pushed {
          PushEachStops(m, b, txs, i + 1);
          return;
        }
      }
      assert txs[..|txs|] == txs;
    }
  }

  lemma {:induction false} RecordedBatchStops(m: Machine, b: Block, txs: seq<Tx>, i: nat, n: nat)
    requires i <= n <= |txs| && RecordedBatch(m, b, txs, i).1 != Pushed
    ensures RecordedBatch(m, b, txs, n) == RecordedBatch(m, b, txs, i)
    decreases n
  {
    if i < n {
      RecordedBatchStops(m, b, txs, i, n - 1);
    }
  }

  lemma {:induction false} BatchedStops(m: Machine, b: Block, txs: seq<Tx>, i: nat)
    requires i <= |txs| && Batched(m, b, txs[..i]).2 != Pushed
    ensures Batched(m, b, txs) == Batched(m, b, txs[..i])
    decreases |txs|
  {
    if i < |txs| {
      assert txs[..|txs| - 1][..i] == txs[..i];
      BatchedStops(m, b, txs[..|txs| - 1], i);
    } else {
      assert txs[..i] == txs;
    }
  }

  lemma {:induction false} PushEachStops(m: Machine, b: Block, txs: seq<Tx>, i: nat)
    requires i <= |txs| && PushEach(m, b, txs[..i]).1 != Pushed
    ensures PushEach(m, b, txs) == PushEach(m, b, txs[..i])
    decreases |txs|
  {
    if i < |txs| {
      assert txs[..|txs| - 1][..i] == txs[..i];
      PushEachStops(m, b, txs[..|txs| - 1], i);
    } else {
      assert txs[..i] == txs;
    }
  }
}
