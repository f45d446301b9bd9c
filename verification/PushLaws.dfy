/**
 * Which transactions a block takes, and with what receipts (core/src/block.rs, `push_transaction` and
 * `apply_avm_batch_transactions`).
 */
module PushLaws {
  import opened Basics
  import opened WorldState
  import opened Execution
  import opened TransactLaws
  import opened BlockAssembly

  /** `b'` is `b` with one more transaction and its receipt, which charges the price of the gas used. */
  ghost predicate TookOne(b: Block, b': Block, t: Tx, used: nat) {
    && b'.transactions == b.transactions + [t] && b'.hashes == b.hashes + {t.hash}
    && b'.receipts == b.receipts + [Receipt(used, Price(t.inner, used))] && b'.fee == b.fee + Price(t.inner, used)
  }

  /** The gas of the receipts is their sum. */
  lemma {:induction false} GasIsSum(rs: seq<Receipt>, more: seq<Receipt>)
    ensures GasOf([]) == 0 && GasOf(rs + more) == GasOf(rs) + GasOf(more)
    ensures |more| == 1 ==> GasOf(more) == more[0].gasUsed
    decreases |more|
  {
    if more == [] {
      assert rs + more == rs;
    } else {
      var n := |more| - 1;
      assert (rs + more)[..|rs + more| - 1] == rs + more[..n];
      GasIsSum(rs, more[..n]);
    }
  }

  /** Everything `transact` asks of a transaction that is pushed. */
  ghost predicate Welcome(m: Machine, b: Block, t: Transaction, building: bool, run: Run) {
    var info, used := BlockEnv(m.author, GasOf(b.receipts), m.gasLimit, m.afterUnity), GasOf(b.receipts);
    && t.nonce == AccountNonce(m.env, b.view, t.sender)
    && LeastGas(info, t) <= t.gas <= MostGas(t) && (building ==> used + t.gas <= m.gasLimit)
    && Cost(t) <= BalanceOf(b.view, t.sender)
    && TopFrame(m.env, b.view, t, run).Done?
    && GivenBack(m.env, b.view, t, run) <= t.gas
    && used + t.gas - GivenBack(m.env, b.view, t, run) <= m.gasLimit
  }

  /** A FastVM transaction is taken if and only if it is new and welcome, and its receipt says what it used. */
  lemma FvmPushDecides(m: Machine, b: Block, t: Tx, building: bool)
    requires !(m.avmHardfork && m.isAvm(b.view, t))
    ensures var (b', o) := PushOne(m, b, t, building);
            var run := m.fvmRun(b.view, t);
            && (o == AlreadyImported <==> t.hash in b.hashes)
            && (o == Pushed <==> t.hash !in b.hashes && Welcome(m, b, t.inner, building, run))
            && (o == Pushed ==> TookOne(b, b', t, t.inner.gas - GivenBack(m.env, b.view, t.inner, run)))
            && (o != Pushed ==> b' == b)
  {
    if t.hash !in b.hashes {
      TransactDecides(m.env, InfoOf(m, b), b.view, t.inner, Mode(true, false, building), m.fvmRun(b.view, t));
    }
  }

  /**
   * An AVM transaction is taken if and only if it is new, and the AVM does not reject it and its gas fits or
   * it is the historical exception, which is charged its whole limit.
   */
  lemma AvmPushDecides(m: Machine, b: Block, t: Tx, building: bool)
    requires m.avmHardfork && m.isAvm(b.view, t)
    ensures var (b', o) := PushOne(m, b, t, building);
            var used, result := GasOf(b.receipts), m.avmRun(b.view, [t], 0);
            var fits := && (building ==> used + t.inner.gas <= m.gasLimit) && !result.rejected
                        && used + result.gasUsed <= m.gasLimit;
            && (o == AlreadyImported <==> t.hash in b.hashes)
            && (o == Pushed <==> t.hash !in b.hashes && (fits || Exceptional(m.number, t)))
            && (o == Pushed ==> TookOne(b, b', t, if fits then result.gasUsed else t.inner.gas))
            && (t.hash !in b.hashes ==>
                  b'.view == if building && used + t.inner.gas > m.gasLimit then b.view else m.avmView(b.view, [t]))
  {
  }

  // ---------------------------------------------------------------------------------------------
  // Batches

  /** The gas the first `i` transactions of a batch use. */
  function BatchGas(m: Machine, view: View, txs: seq<Tx>, i: nat): nat
    requires i <= |txs|
  {
    if i == 0 then 0 else BatchGas(m, view, txs, i - 1) + m.avmRun(view, txs, i - 1).gasUsed
  }

  /** None of the first `n` is rejected, and each fits after those before it. */
  ghost predicate AllFit(m: Machine, b: Block, txs: seq<Tx>, n: nat)
    requires n <= |txs|
  {
    forall i: nat :: i < n ==> FitsAt(m, b, txs, i)
  }

  predicate FitsAt(m: Machine, b: Block, txs: seq<Tx>, i: nat)
    requires i < |txs|
  {
    !m.avmRun(b.view, txs, i).rejected && GasOf(b.receipts) + BatchGas(m, b.view, txs, i + 1) <= m.gasLimit
  }

  function BatchReceipts(m: Machine, view: View, txs: seq<Tx>, n: nat): seq<Receipt>
    requires n <= |txs|
  {
    if n == 0 then []
    else
      var used := m.avmRun(view, txs, n - 1).gasUsed;
      BatchReceipts(m, view, txs, n - 1) + [Receipt(used, Price(txs[n - 1].inner, used))]
  }

  lemma {:induction false} RecordedDecides(m: Machine, b: Block, txs: seq<Tx>, n: nat)
    requires n <= |txs| && forall t :: t in txs ==> !Exceptional(m.number, t)
    ensures var (b', o) := RecordedBatch(m, b, txs, n);
            && (o == Pushed <==> AllFit(m, b, txs, n))
            && (o == Pushed ==>
                  && b'.receipts == b.receipts + BatchReceipts(m, b.view, txs, n)
                  && TotalBefore(m, b.view, GasOf(b.receipts), txs, n, false) == BatchGas(m, b.view, txs, n))
    decreases n
  {
    if n == 0 {
      assert b.receipts + [] == b.receipts;
    } else {
      RecordedDecides(m, b, txs, n - 1);
      assert txs[n - 1] in txs;
      assert AllFit(m, b, txs, n) <==> AllFit(m, b, txs, n - 1) && FitsAt(m, b, txs, n - 1);
    }
  }

  /**
   * A batch without the historical exception is taken whole if and only if none of it is in the block yet,
   * none is rejected, and the gas of all of them together fits; every receipt says what its transaction used.
   */
  lemma BatchDecides(m: Machine, b: Block, txs: seq<Tx>)
    requires forall t :: t in txs ==> !Exceptional(m.number, t)
    ensures var (b', o) := PushBatch(m, b, txs);
            && (o == Pushed <==> (forall t :: t in txs ==> t.hash !in b.hashes) && AllFit(m, b, txs, |txs|))
            && (o == Pushed ==> b'.receipts == b.receipts + BatchReceipts(m, b.view, txs, |txs|))
  {
    RecordedDecides(m, b, txs, |txs|);
  }
}
