/**
 * What filling a block guarantees: order, alignment, fees, the gas limit, and the agreement of a batch
 * with pushing its transactions one by one.
 */
module AssemblyLaws {
  import opened Basics
  import opened WorldState
  import opened Execution
  import opened BlockAssembly

  // ---------------------------------------------------------------------------------------------
  // Order and bookkeeping

  /** Every receipt charges its transaction's price for the gas it reports. */
  ghost predicate Priced(txs: seq<Tx>, receipts: seq<Receipt>) {
    && |txs| == |receipts|
    && forall i :: 0 <= i < |txs| ==> Charges(txs[i], receipts[i])
  }

  ghost predicate Charges(t: Tx, r: Receipt) {
    r.transactionFee == r.gasUsed * t.inner.gasPrice
  }

  /**
   * One receipt per transaction, at its price, the hashes of exactly the transactions, and the fees of
   * exactly the receipts.
   */
  ghost predicate Tidy(b: Block) {
    Priced(b.transactions, b.receipts) && b.hashes == Hashes(b.transactions) && b.fee == FeesOf(b.receipts)
  }

  lemma AppendedTidy(b: Block, t: Tx, r: Receipt)
    requires Tidy(b) && Charges(t, r)
    ensures Tidy(Appended(b, t, r))
  {
    SumsAppend(b.receipts, r);
    var txs := b.transactions + [t];
    forall h
      ensures h in Hashes(txs) <==> h in b.hashes || h == t.hash
    {
      if h in b.hashes {
        var u :| u in b.transactions && u.hash == h;
        assert u in txs;
      }
      assert t in txs;
    }
  }

  /** `b` grew into `b'` by the first `k` of `txs`, by all of them if and only if the outcome is a success. */
  ghost predicate Took(b: Block, b': Block, txs: seq<Tx>, k: nat, o: PushOutcome) {
    Tidy(b') && k <= |txs| && b'.transactions == b.transactions + txs[..k] && (o == Pushed <==> k == |txs|)
  }

  lemma PushOneTook(m: Machine, b: Block, t: Tx, building: bool) returns (k: nat)
    requires Tidy(b)
    ensures Took(b, PushOne(m, b, t, building).0, [t], k, PushOne(m, b, t, building).1)
  {
    if t.hash in b.hashes {
      k := 0;
      NotTaken(b, b, t, AlreadyImported);
    } else if m.avmHardfork && m.isAvm(b.view, t) {
      k := AvmTook(m, b, t, building);
    } else {
      k := FvmTook(m, b, t, building);
    }
  }

  /** Nothing is taken when only the view changes. */
  lemma NotTaken(b: Block, b': Block, t: Tx, o: PushOutcome)
    requires Tidy(b) && b'.(view := b.view) == b && o != Pushed
    ensures Took(b, b', [t], 0, o)
  {
  }

  /** The one transaction is taken when its receipt is appended. */
  lemma Taken(b: Block, view: View, t: Tx, r: Receipt)
    requires Tidy(b) && Charges(t, r)
    ensures Took(b, Appended(b.(view := view), t, r), [t], 1, Pushed)
  {
    AppendedTidy(b.(view := view), t, r);
    assert [t][..1] == [t];
  }

  lemma AvmTook(m: Machine, b: Block, t: Tx, building: bool) returns (k: nat)
    requires Tidy(b) && t.hash !in b.hashes && m.avmHardfork && m.isAvm(b.view, t)
    ensures Took(b, PushOne(m, b, t, building).0, [t], k, PushOne(m, b, t, building).1)
  {
    var used := GasOf(b.receipts);
    var view, receipt := AvmView(m, b.view, used, t, building), AvmReceipt(m, b.view, used, [t], 0, building);
    if receipt.Some? {
      k := 1;
      ReceiptCharges(m, b.view, used, [t], 0, building);
      Taken(b, view, t, receipt.value);
    } else {
      k := 0;
      NotTaken(b, b.(view := view), t, Refused);
    }
  }

  lemma FvmTook(m: Machine, b: Block, t: Tx, building: bool) returns (k: nat)
    requires Tidy(b) && t.hash !in b.hashes && !(m.avmHardfork && m.isAvm(b.view, t))
    ensures Took(b, PushOne(m, b, t, building).0, [t], k, PushOne(m, b, t, building).1)
  {
    match FvmOutcome(m, b, t, building)
    case Panicked =>
      k := 0;
      NotTaken(b, b, t, Crashed);
    case Rejected(_) =>
      k := 0;
      NotTaken(b, b, t, Refused);
    case Accepted(view, executed) =>
      k := 1;
      Taken(b, Committed(view), t, Receipt(executed.gasUsed, executed.transactionFee));
  }

  lemma ReceiptCharges(m: Machine, view: View, used: nat, txs: seq<Tx>, i: nat, building: bool)
    requires i < |txs| && AvmReceipt(m, view, used, txs, i, building).Some?
    ensures Charges(txs[i], AvmReceipt(m, view, used, txs, i, building).value)
  {
  }

  /** One more recorded, or refused. */
  lemma TookOneMore(b: Block, b1: Block, txs: seq<Tx>, j: nat, r: Receipt)
    requires j < |txs| && Tidy(b1) && b1.transactions == b.transactions + txs[..j] && Charges(txs[j], r)
    ensures Took(b, Appended(b1, txs[j], r), txs[..j + 1], j + 1, Pushed)
    ensures Took(b, b1, txs[..j + 1], j, Refused)
  {
    AppendedTidy(b1, txs[j], r);
    assert txs[..j + 1][..j] == txs[..j] && txs[..j + 1][..j + 1] == txs[..j] + [txs[j]];
  }

  lemma {:induction false} RecordedBatchTook(m: Machine, b: Block, txs: seq<Tx>, i: nat) returns (k: nat)
    requires Tidy(b) && i <= |txs|
    ensures Took(b, RecordedBatch(m, b, txs, i).0, txs[..i], k, RecordedBatch(m, b, txs, i).1)
    decreases i
  {
    if i == 0 {
      k := 0;
    } else {
      var j := i - 1;
      k := RecordedBatchTook(m, b, txs, j);
      var (b1, o1) := RecordedBatch(m, b, txs, j);
      if o1 == Pushed {
        var receipt := AvmReceipt(m, b.view, GasOf(b.receipts), txs, j, false);
        assert txs[..j][..k] == txs[..j];
        if receipt.Some? {
          ReceiptCharges(m, b.view, GasOf(b.receipts), txs, j, false);
        }
        TookOneMore(b, b1, txs, j, if receipt.Some? then receipt.value else Receipt(0, 0));
        NextRecorded(m, b, txs, j, b1);
        k := if receipt.Some? then i else j;
      } else {
        assert txs[..j] <= txs[..i];
        TookPart(b, b1, txs[..j], txs[..i], k, o1);
      }
    }
  }

  lemma PushPendingTook(m: Machine, b: Block, batch: seq<Tx>) returns (k: nat)
    requires Tidy(b)
    ensures Took(b, PushPending(m, b, batch).0, batch, k, PushPending(m, b, batch).1)
  {
    k := 0;
    if batch != [] && !exists t :: t in batch && t.hash in b.hashes {
      k := RecordedBatchTook(m, b, batch, |batch|);
      assert batch[..|batch|] == batch;
    }
  }

  /** Adding up two steps. */
  lemma TookThen(b: Block, b1: Block, b2: Block, first: seq<Tx>, second: seq<Tx>, k: nat, o: PushOutcome)
    requires b1.transactions == b.transactions + first && Took(b1, b2, second, k, o)
    ensures Took(b, b2, first + second, |first| + k, o)
  {
    assert (first + second)[..|first| + k] == first + second[..k];
  }

  /** Taking part of a beginning is taking part of the whole. */
  lemma TookPart(b: Block, b': Block, part: seq<Tx>, txs: seq<Tx>, k: nat, o: PushOutcome)
    requires Took(b, b', part, k, o) && part <= txs && o != Pushed
    ensures Took(b, b', txs, k, o)
  {
    assert part[..k] == txs[..k];
  }

  lemma {:induction false} PushEachTook(m: Machine, b: Block, txs: seq<Tx>) returns (k: nat)
    requires Tidy(b)
    ensures Took(b, PushEach(m, b, txs).0, txs, k, PushEach(m, b, txs).1)
    decreases |txs|
  {
    if txs == [] {
      k := 0;
    } else {
      var front, t := txs[..|txs| - 1], txs[|txs| - 1];
      k := PushEachTook(m, b, front);
      var (b1, o1) := PushEach(m, b, front);
      assert front + [t] == txs;
      if o1 == Pushed {
        assert front[..k] == front;
        var j := PushOneTook(m, b1, t, false);
        var (b2, o2) := PushOne(m, b1, t, false);
        TookThen(b, b1, b2, front, [t], j, o2);
        k := |front| + j;
        assert PushEach(m, b, txs) == (b2, o2);
      } else {
        assert PushEach(m, b, txs) == (b1, o1);
        TookPart(b, b1, front, txs, k, o1);
      }
    }
  }

  /** While batching succeeds, the block and the waiting batch together hold the transactions seen so far. */
  lemma {:induction false} BatchedTook(m: Machine, b: Block, txs: seq<Tx>) returns (k: nat)
    requires Tidy(b)
    ensures var (b', batch, o) := Batched(m, b, txs);
            && Tidy(b')
            && (o == Pushed ==>
                b'.transactions + batch == b.transactions + txs && |b'.transactions| >= |b.transactions|)
            && (o != Pushed ==> Took(b, b', txs, k, o))
    decreases |txs|
  {
    k := 0;
    if txs != [] {
      var front, t := txs[..|txs| - 1], txs[|txs| - 1];
      k := BatchedTook(m, b, front);
      var (b1, batch, o1) := Batched(m, b, front);
      assert front + [t] == txs;
      if o1 != Pushed {
        TookPart(b, b1, front, txs, k, o1);
      } else if m.isAvm(b1.view, t) {
        assert b1.transactions + (batch + [t]) == b1.transactions + batch + [t];
        assert b.transactions + txs == b.transactions + front + [t];
      } else {
        k := FlushedTook(m, b, b1, batch, front, t);
      }
    }
  }

  lemma Leftover<T>(before: seq<T>, added: seq<T>, done: seq<T>, rest: seq<T>)
    requires done + rest == before + added && |done| >= |before|
    ensures |rest| <= |added| && done == before + added[..|added| - |rest|] && added[..|added| - |rest|] + rest == added
  {
    var whole := before + added;
    assert done == whole[..|done|] && rest == whole[|done|..];
  }

  /** The batch is flushed and a transaction of the other machine follows. */
  lemma FlushedTook(m: Machine, b: Block, b1: Block, batch: seq<Tx>, front: seq<Tx>, t: Tx) returns (k: nat)
    requires Tidy(b1) && b1.transactions + batch == b.transactions + front && |b1.transactions| >= |b.transactions|
    ensures var (b2, o2) := PushPending(m, b1, batch);
            && (o2 != Pushed ==> Took(b, b2, front + [t], k, o2))
            && (o2 == Pushed ==> Took(b, PushOne(m, b2, t, false).0, front + [t], k, PushOne(m, b2, t, false).1))
  {
    var done := front[..|front| - |batch|];
    Leftover(b.transactions, front, b1.transactions, batch);
    k := PushPendingTook(m, b1, batch);
    var (b2, o2) := PushPending(m, b1, batch);
    TookThen(b, b1, b2, done, batch, k, o2);
    k := |done| + k;
    if o2 != Pushed {
      TookPart(b, b2, front, front + [t], k, o2);
    } else {
      assert front[..k] == front;
      var j := PushOneTook(m, b2, t, false);
      TookThen(b, b2, PushOne(m, b2, t, false).0, front, [t], j, PushOne(m, b2, t, false).1);
      k := |front| + j;
    }
  }

  /**
   * `push_transactions` takes the transactions in order: all of them if and only if it succeeds, else
   * those before some transaction. Receipts, hashes and fees stay aligned with them.
   */
  lemma PushAllInOrder(m: Machine, b: Block, txs: seq<Tx>) returns (k: nat)
    requires Tidy(b)
    ensures Took(b, PushAll(m, b, txs).0, txs, k, PushAll(m, b, txs).1)
  {
    if m.avmHardfork {
      k := BatchedTook(m, b, txs);
      var (b1, batch, o1) := Batched(m, b, txs);
      if o1 == Pushed {
        var done := txs[..|txs| - |batch|];
        Leftover(b.transactions, txs, b1.transactions, batch);
        k := PushPendingTook(m, b1, batch);
        TookThen(b, b1, PushPending(m, b1, batch).0, done, batch, k, PushPending(m, b1, batch).1);
        k := |done| + k;
      }
    } else {
      k := PushEachTook(m, b, txs);
    }
  }

  // ---------------------------------------------------------------------------------------------
  // The gas limit

  ghost predicate Within(m: Machine, b: Block) {
    GasOf(b.receipts) <= m.gasLimit
  }

  /**
   * One push keeps within the block's gas limit, except when the AVM path accepts, by the historical
   * exception, a transaction that does not fit.
   */
  lemma PushOneWithinIff(m: Machine, b: Block, t: Tx, building: bool)
    requires Within(m, b)
    ensures Within(m, PushOne(m, b, t, building).0) <==>
            !(&& t.hash !in b.hashes && m.avmHardfork && m.isAvm(b.view, t)
              && !Fits(m, b.view, GasOf(b.receipts), [t], 0, 0, building)
              && Exceptional(m.number, t) && GasOf(b.receipts) + t.inner.gas > m.gasLimit)
  {
    if t.hash !in b.hashes {
      if m.avmHardfork && m.isAvm(b.view, t) {
        var receipt := AvmReceipt(m, b.view, GasOf(b.receipts), [t], 0, building);
        if receipt.Some? {
          SumsAppend(b.receipts, receipt.value);
        }
      } else {
        match FvmOutcome(m, b, t, building)
        case Accepted(view, executed) =>
          SumsAppend(b.receipts, Receipt(executed.gasUsed, executed.transactionFee));
        case _ =>
      }
    }
  }

  ghost predicate NoneExceptional(m: Machine, txs: seq<Tx>) {
    forall t :: t in txs ==> !Exceptional(m.number, t)
  }

  lemma ReceiptGas(m: Machine, view: View, used: nat, txs: seq<Tx>, j: nat)
    requires j < |txs| && !Exceptional(m.number, txs[j]) && AvmReceipt(m, view, used, txs, j, false).Some?
    ensures var gasUsed := AvmReceipt(m, view, used, txs, j, false).value.gasUsed;
            && TotalBefore(m, view, used, txs, j + 1, false) == TotalBefore(m, view, used, txs, j, false) + gasUsed
            && used + TotalBefore(m, view, used, txs, j + 1, false) <= m.gasLimit
  {
  }

  lemma {:induction false} RecordedBatchGas(m: Machine, b: Block, txs: seq<Tx>, i: nat)
    requires Within(m, b) && i <= |txs| && NoneExceptional(m, txs)
    ensures var (b1, o1) := RecordedBatch(m, b, txs, i);
            && Within(m, b1)
            && (o1 == Pushed ==>
                GasOf(b1.receipts) == GasOf(b.receipts) + TotalBefore(m, b.view, GasOf(b.receipts), txs, i, false))
    decreases i
  {
    if i > 0 {
      RecordedBatchGas(m, b, txs, i - 1);
      var (b1, o1) := RecordedBatch(m, b, txs, i - 1);
      if o1 == Pushed {
        var receipt := AvmReceipt(m, b.view, GasOf(b.receipts), txs, i - 1, false);
        if receipt.Some? {
          ReceiptGas(m, b.view, GasOf(b.receipts), txs, i - 1);
          SumsAppend(b1.receipts, receipt.value);
          assert RecordedBatch(m, b, txs, i) == (Appended(b1, txs[i - 1], receipt.value), Pushed);
        } else {
          assert RecordedBatch(m, b, txs, i) == (b1, Refused);
        }
      }
    }
  }

  lemma PushPendingWithin(m: Machine, b: Block, batch: seq<Tx>)
    requires Within(m, b) && NoneExceptional(m, batch)
    ensures Within(m, PushPending(m, b, batch).0)
  {
    RecordedBatchGas(m, b, batch, |batch|);
  }

  lemma {:induction false} PushEachWithin(m: Machine, b: Block, txs: seq<Tx>)
    requires Within(m, b) && NoneExceptional(m, txs)
    ensures Within(m, PushEach(m, b, txs).0)
    decreases |txs|
  {
    if txs != [] {
      PushEachWithin(m, b, txs[..|txs| - 1]);
      PushOneWithinIff(m, PushEach(m, b, txs[..|txs| - 1]).0, txs[|txs| - 1], false);
    }
  }

  lemma {:induction false} BatchedWithin(m: Machine, b: Block, txs: seq<Tx>)
    requires Within(m, b) && NoneExceptional(m, txs)
    ensures Within(m, Batched(m, b, txs).0) && NoneExceptional(m, Batched(m, b, txs).1)
    decreases |txs|
  {
    if txs != [] {
      BatchedWithin(m, b, txs[..|txs| - 1]);
      var (b1, batch, o1) := Batched(m, b, txs[..|txs| - 1]);
      PushPendingWithin(m, b1, batch);
      PushOneWithinIff(m, PushPending(m, b1, batch).0, txs[|txs| - 1], false);
    }
  }

  /** Without the exceptional transaction, whatever is pushed, the receipts never use more than the gas limit. */
  lemma PushAllWithin(m: Machine, b: Block, txs: seq<Tx>)
    requires Within(m, b) && NoneExceptional(m, txs)
    ensures Within(m, PushAll(m, b, txs).0)
  {
    if m.avmHardfork {
      BatchedWithin(m, b, txs);
      var (b1, batch, o1) := Batched(m, b, txs);
      PushPendingWithin(m, b1, batch);
    } else {
      PushEachWithin(m, b, txs);
    }
  }

  const NEW_BLOCK: Block := Block(map[], [], [], {}, 0)

  /**
   * At the three heights, whatever the limit and whatever the block already holds, the exceptional
   * transaction is accepted at its full gas though the AVM rejects it, and overruns the limit if it does not fit.
   */
  lemma ExceptionOverruns(m: Machine, b: Block, t: Tx)
    requires Exceptional(m.number, t) && t.hash !in b.hashes && m.avmHardfork && m.isAvm(b.view, t)
    requires m.avmRun(b.view, [t], 0).rejected && GasOf(b.receipts) + t.inner.gas > m.gasLimit
    ensures PushAll(m, b, [t]).1 == Pushed && !Within(m, PushAll(m, b, [t]).0)
  {
    var txs, after := [t], b.(view := m.avmView(b.view, [t]));
    assert txs[..|txs| - 1] == [] && [] + [t] == txs;
    assert Batched(m, b, []) == (b, [], Pushed);
    assert Batched(m, b, txs) == (b, txs, Pushed);
    var receipt := Receipt(t.inner.gas, GasCost(t.inner));
    assert AvmReceipt(m, b.view, GasOf(b.receipts), txs, 0, false) == Some(receipt);
    NextRecorded(m, b, txs, 0, after);
    assert PushBatch(m, b, txs) == (Appended(after, t, receipt), Pushed);
    SumsAppend(b.receipts, receipt);
  }

  /** An AVM that rejects everything, under the gas limit the main network starts with. */
  function RejectingMachine(number: nat): Machine {
    Machine(number, EXCEPTION_001_HASH, 15_000_000, true, true, Env(0, true, (a: Address, n: nat) => a),
            (v: View, t: Tx) => Return(Success, 0), (v: View, t: Tx) => true,
            (v: View, txs: seq<Tx>, i: nat) => AvmResult(true, 0), (v: View, txs: seq<Tx>) => v)
  }

  /** The exceptional hash on a transaction of too much gas. */
  function Oversized(): Tx {
    Tx(EXCEPTION_001_HASH, Transaction(EXCEPTION_001_HASH, 0, 15_000_001, 1, 0, CreateAction, []))
  }

  /**
   * The gas limit binds every filling of a block of a given height if and only if that height is not one of
   * the three.
   */
  lemma LimitBindsIff(number: nat)
    ensures (forall m: Machine, txs: seq<Tx> :: m.number == number ==> Within(m, PushAll(m, NEW_BLOCK, txs).0)) <==>
            number !in EXCEPTION_001_BLOCKS
  {
    if number in EXCEPTION_001_BLOCKS {
      var m := RejectingMachine(number);
      ExceptionOverruns(m, NEW_BLOCK, Oversized());
      assert m.number == number && !Within(m, PushAll(m, NEW_BLOCK, [Oversized()]).0);
    } else {
      forall m: Machine, txs: seq<Tx> | m.number == number
        ensures Within(m, PushAll(m, NEW_BLOCK, txs).0)
      {
        PushAllWithin(m, NEW_BLOCK, txs);
      }
    }
  }

  // ---------------------------------------------------------------------------------------------
  // Repeated transactions

  ghost predicate Distinct(txs: seq<Tx>) {
    forall i, j :: 0 <= i < j < |txs| ==> txs[i].hash != txs[j].hash
  }

  lemma DistinctAppend(txs: seq<Tx>, t: Tx)
    requires Distinct(txs)
    ensures Distinct(txs + [t]) <==> t.hash !in Hashes(txs)
  {
    var all := txs + [t];
    if t.hash in Hashes(txs) {
      var u :| u in txs && u.hash == t.hash;
      var i :| 0 <= i < |txs| && txs[i] == u;
      assert all[i].hash == all[|txs|].hash;
    } else {
      forall i, j | 0 <= i < j < |all|
        ensures all[i].hash != all[j].hash
      {
        assert all[i] in txs;
      }
    }
  }

  /** Pushed one by one, no transaction gets in twice. */
  lemma {:induction false} PushEachDistinct(m: Machine, b: Block, txs: seq<Tx>)
    requires Tidy(b) && Distinct(b.transactions)
    ensures Tidy(PushEach(m, b, txs).0) && Distinct(PushEach(m, b, txs).0.transactions)
    decreases |txs|
  {
    if txs != [] {
      var t := txs[|txs| - 1];
      PushEachDistinct(m, b, txs[..|txs| - 1]);
      var (b1, o1) := PushEach(m, b, txs[..|txs| - 1]);
      if o1 == Pushed {
        var k := PushOneTook(m, b1, t, false);
        DistinctAppend(b1.transactions, t);
        assert [t][..1] == [t] && [t][..0] == [];
      }
    }
  }

  /** A batch checks only against the block: it brings no repetition if and only if it has none itself. */
  lemma BatchDistinctIff(m: Machine, b: Block, txs: seq<Tx>)
    requires Tidy(b) && Distinct(b.transactions) && PushBatch(m, b, txs).1 == Pushed
    ensures Distinct(PushBatch(m, b, txs).0.transactions) <==> Distinct(txs)
  {
    var k := RecordedBatchTook(m, b, txs, |txs|);
    assert txs[..|txs|] == txs;
    assert PushBatch(m, b, txs).0.transactions == b.transactions + txs;
    forall x, y | x in b.transactions && y in txs
      ensures x.hash != y.hash
    {
      assert x.hash in Hashes(b.transactions);
    }
    DistinctJoin(b.transactions, txs);
  }

  lemma DistinctJoin(a: seq<Tx>, b: seq<Tx>)
    requires Distinct(a) && forall x, y :: x in a && y in b ==> x.hash != y.hash
    ensures Distinct(a + b) <==> Distinct(b)
  {
    var all := a + b;
    if Distinct(b) {
      forall i, j | 0 <= i < j < |all|
        ensures all[i].hash != all[j].hash
      {
        if i < |a| <= j {
          assert all[i] in a && all[j] in b;
        } else if |a| <= i {
          assert b[i - |a|].hash != b[j - |a|].hash;
        }
      }
    } else {
      var i, j :| 0 <= i < j < |b| && b[i].hash == b[j].hash;
      assert all[|a| + i].hash == all[|a| + j].hash;
    }
  }

  // ---------------------------------------------------------------------------------------------
  // A batch against one by one

  /** The AVM gives a batch the results and the state of running its transactions in turn. */
  ghost predicate RunsInTurn(m: Machine, view: View, txs: seq<Tx>) {
    && m.avmView(view, []) == view
    && forall i :: 0 <= i < |txs| ==>
         && m.avmView(view, txs[..i + 1]) == m.avmView(m.avmView(view, txs[..i]), [txs[i]])
         && m.avmRun(view, txs, i) == m.avmRun(m.avmView(view, txs[..i]), [txs[i]], 0)
  }

  /** Every state lets these transactions go to the AVM, and none is the exceptional one. */
  ghost predicate PlainAvm(m: Machine, txs: seq<Tx>) {
    m.avmHardfork && NoneExceptional(m, txs) && forall t, v :: t in txs ==> m.isAvm(v, t)
  }

  /** The block after one more transaction: appended with its receipt, or as it was. */
  function Next(b: Block, t: Tx, receipt: Option<Receipt>): (Block, PushOutcome) {
    if receipt.Some? then (Appended(b, t, receipt.value), Pushed) else (b, Refused)
  }

  /** The next transaction fares the same in the batch and alone. */
  lemma OneMoreInTurn(m: Machine, b: Block, b2: Block, txs: seq<Tx>, j: nat)
    requires j < |txs| && m.avmHardfork && m.isAvm(b2.view, txs[j]) && !Exceptional(m.number, txs[j])
             && txs[j].hash !in b2.hashes
    requires m.avmRun(b.view, txs, j) == m.avmRun(b2.view, [txs[j]], 0)
    requires GasOf(b2.receipts) == GasOf(b.receipts) + TotalBefore(m, b.view, GasOf(b.receipts), txs, j, false)
    ensures var receipt := AvmReceipt(m, b.view, GasOf(b.receipts), txs, j, false);
            PushOne(m, b2, txs[j], false) == Next(b2.(view := m.avmView(b2.view, [txs[j]])), txs[j], receipt)
  {
  }

  /** The batch can be compared with its transactions pushed one by one. */
  ghost predicate Comparable(m: Machine, b: Block, txs: seq<Tx>) {
    && Tidy(b) && Within(m, b) && Distinct(txs) && RunsInTurn(m, b.view, txs) && PlainAvm(m, txs)
    && forall t :: t in txs ==> t.hash !in b.hashes
  }

  /** The blocks agree in everything but the state; while all goes well, that is the state of the batch so far. */
  ghost predicate Agree(m: Machine, b: Block, txs: seq<Tx>, i: nat, b1: Block, o1: PushOutcome, b2: Block,
                        o2: PushOutcome)
    requires i <= |txs|
  {
    o1 == o2 && b1.(view := b2.view) == b2 && (o1 == Pushed ==> b2.view == m.avmView(b.view, txs[..i]))
  }

  /** What the next step of the comparison relies on. */
  lemma ReadyForNext(m: Machine, b: Block, txs: seq<Tx>, j: nat, b2: Block)
    requires Comparable(m, b, txs) && j < |txs|
    requires RecordedBatch(m, b, txs, j).1 == Pushed
             && Agree(m, b, txs, j, RecordedBatch(m, b, txs, j).0, Pushed, b2, Pushed)
    ensures m.avmHardfork && m.isAvm(b2.view, txs[j]) && !Exceptional(m.number, txs[j]) && txs[j].hash !in b2.hashes
    ensures m.avmRun(b.view, txs, j) == m.avmRun(b2.view, [txs[j]], 0)
    ensures m.avmView(b.view, txs[..j + 1]) == m.avmView(b2.view, [txs[j]])
    ensures GasOf(b2.receipts) == GasOf(b.receipts) + TotalBefore(m, b.view, GasOf(b.receipts), txs, j, false)
  {
    var b1 := RecordedBatch(m, b, txs, j).0;
    assert txs[j] in txs;
    RecordedBatchGas(m, b, txs, j);
    var k := RecordedBatchTook(m, b, txs, j);
    assert txs[..j][..k] == txs[..j];
    NotYetIn(b, b1, txs, j);
  }

  lemma NextOfAlike(m: Machine, b: Block, txs: seq<Tx>, j: nat, b1: Block, b2: Block, after: Block,
                    receipt: Option<Receipt>)
    requires j < |txs| && b1.(view := b2.view) == b2 && after == b2.(view := m.avmView(b.view, txs[..j + 1]))
    ensures var (c1, o1) := Next(b1, txs[j], receipt);
            var (c2, o2) := Next(after, txs[j], receipt); Agree(m, b, txs, j + 1, c1, o1, c2, o2)
  {
  }

  lemma NextRecorded(m: Machine, b: Block, txs: seq<Tx>, j: nat, b1: Block)
    requires j < |txs| && RecordedBatch(m, b, txs, j) == (b1, Pushed)
    ensures RecordedBatch(m, b, txs, j + 1) == Next(b1, txs[j], AvmReceipt(m, b.view, GasOf(b.receipts), txs, j, false))
  {
  }

  lemma NextPushed(m: Machine, b: Block, txs: seq<Tx>, j: nat, b2: Block)
    requires j < |txs| && PushEach(m, b, txs[..j]) == (b2, Pushed)
    ensures PushEach(m, b, txs[..j + 1]) == PushOne(m, b2, txs[j], false)
  {
    assert txs[..j + 1][..j] == txs[..j];
  }

  /** One step of the comparison. */
  lemma NextAgrees(m: Machine, b: Block, txs: seq<Tx>, j: nat, b1: Block, b2: Block)
    requires j < |txs| && RecordedBatch(m, b, txs, j) == (b1, Pushed) && PushEach(m, b, txs[..j]) == (b2, Pushed)
    requires b1.(view := b2.view) == b2 && m.avmView(b.view, txs[..j + 1]) == m.avmView(b2.view, [txs[j]])
    requires var receipt := AvmReceipt(m, b.view, GasOf(b.receipts), txs, j, false);
             PushOne(m, b2, txs[j], false) == Next(b2.(view := m.avmView(b2.view, [txs[j]])), txs[j], receipt)
    ensures var (c1, o1) := RecordedBatch(m, b, txs, j + 1); var (c2, o2) := PushEach(m, b, txs[..j + 1]);
            Agree(m, b, txs, j + 1, c1, o1, c2, o2)
  {
    NextRecorded(m, b, txs, j, b1);
    NextPushed(m, b, txs, j, b2);
    NextOfAlike(m, b, txs, j, b1, b2, b2.(view := m.avmView(b2.view, [txs[j]])),
                AvmReceipt(m, b.view, GasOf(b.receipts), txs, j, false));
  }

  /** Once stopped, both stay as they are. */
  lemma StopAgrees(m: Machine, b: Block, txs: seq<Tx>, j: nat, b1: Block, b2: Block, o: PushOutcome)
    requires j < |txs| && o != Pushed && RecordedBatch(m, b, txs, j) == (b1, o) && PushEach(m, b, txs[..j]) == (b2, o)
    ensures RecordedBatch(m, b, txs, j + 1) == (b1, o) && PushEach(m, b, txs[..j + 1]) == (b2, o)
  {
    assert txs[..j + 1][..j] == txs[..j];
  }

  /** Up to the first refusal, the blocks agree. */
  lemma {:induction false} InTurn(m: Machine, b: Block, txs: seq<Tx>, i: nat)
    requires Comparable(m, b, txs) && i <= |txs|
    ensures var (b1, o1) := RecordedBatch(m, b, txs, i); var (b2, o2) := PushEach(m, b, txs[..i]);
            Agree(m, b, txs, i, b1, o1, b2, o2)
    decreases i
  {
    if i > 0 {
      var j := i - 1;
      InTurn(m, b, txs, j);
      var (b1, o1) := RecordedBatch(m, b, txs, j);
      var (b2, o2) := PushEach(m, b, txs[..j]);
      if o1 == Pushed {
        ReadyForNext(m, b, txs, j, b2);
        OneMoreInTurn(m, b, b2, txs, j);
        NextAgrees(m, b, txs, j, b1, b2);
      } else {
        StopAgrees(m, b, txs, j, b1, b2, o1);
      }
    } else {
      assert txs[..0] == [];
    }
  }

  lemma NotYetIn(b: Block, b1: Block, txs: seq<Tx>, j: nat)
    requires Tidy(b) && Tidy(b1) && j < |txs| && b1.transactions == b.transactions + txs[..j] && Distinct(txs)
             && txs[j].hash !in b.hashes
    ensures txs[j].hash !in b1.hashes
  {
    forall u | u in b1.transactions
      ensures u.hash != txs[j].hash
    {
      if u in b.transactions {
        assert u.hash in Hashes(b.transactions);
      } else {
        var i :| 0 <= i < j && txs[..j][i] == u;
      }
    }
  }

  /**
   * If the AVM runs a batch as it would run its transactions in turn, then pushing the batch and pushing
   * its distinct, unknown transactions one by one succeed together, with the same block.
   */
  lemma BatchIsOneByOne(m: Machine, b: Block, txs: seq<Tx>)
    requires Comparable(m, b, txs)
    ensures var (b1, o1) := PushBatch(m, b, txs); var (b2, o2) := PushEach(m, b, txs);
            o1 == o2 && b1.(view := b2.view) == b2 && (o1 == Pushed ==> b1 == b2)
  {
    InTurn(m, b, txs, |txs|);
    assert txs[..|txs|] == txs;
    RecordedView(m, b, txs, |txs|);
  }

  lemma {:induction false} RecordedView(m: Machine, b: Block, txs: seq<Tx>, i: nat)
    requires i <= |txs|
    ensures RecordedBatch(m, b, txs, i).0.view == m.avmView(b.view, txs)
    decreases i
  {
    if i > 0 {
      RecordedView(m, b, txs, i - 1);
    }
  }
}
