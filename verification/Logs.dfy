/**
 * Enumerating the logs of many blocks: newest first, in chunks, with a decreasing index, until a limit
 * is reached (core/src/blockchain/blockchain.rs, `logs`), against a plain forward scan and against the
 * numbering of a single receipt (core/src/client/client.rs, `transaction_receipt`).
 */
module Logs {
  import opened Basics
  import opened Execution

  datatype LocalizedLogEntry = LocalizedLogEntry(
    entry: LogEntry, blockHash: Hash, blockNumber: nat, transactionHash: Hash,
    transactionIndex: nat, transactionLogIndex: nat, logIndex: nat)

  /** The logs of a block's receipts, one list a transaction, and the transaction hashes. */
  datatype BlockLogs = BlockLogs(number: nat, hash: Hash, receipts: seq<seq<LogEntry>>, txs: seq<Hash>)

  /** The number index, the receipts and the bodies. */
  datatype Store = Store(hashes: map<nat, Hash>, receipts: map<Hash, seq<seq<LogEntry>>>, bodies: map<Hash, seq<Hash>>)

  /** The block of a number, if index, receipts and body are all there. */
  function Find(store: Store, number: nat): Option<BlockLogs> {
    if number in store.hashes && store.hashes[number] in store.receipts && store.hashes[number] in store.bodies then
      var hash := store.hashes[number];
      Some(BlockLogs(number, hash, store.receipts[hash], store.bodies[hash]))
    else None
  }

  /** A receipt for every transaction, as the enumeration asserts. */
  ghost predicate Intact(store: Store) {
    forall h :: h in store.receipts && h in store.bodies ==> |store.receipts[h]| == |store.bodies[h]|
  }

  const CHUNK: nat := 128

  // ---------------------------------------------------------------------------------------------
  // The forward scan

  function Count(receipts: seq<seq<LogEntry>>): nat {
    if receipts == [] then 0 else Count(receipts[..|receipts| - 1]) + |receipts[|receipts| - 1]|
  }

  /** Log `i` of transaction `j`, when `before` logs of the block come before that transaction. */
  function Localized(b: BlockLogs, j: nat, before: nat, i: nat): LocalizedLogEntry
    requires j < |b.receipts| == |b.txs| && i < |b.receipts[j]|
  {
    LocalizedLogEntry(b.receipts[j][i], b.hash, b.number, b.txs[j], j, i, before + i)
  }

  /** The logs of transaction `j`, numbered as in its own receipt (`transaction_receipt`). */
  function ReceiptLogs(b: BlockLogs, j: nat): seq<LocalizedLogEntry>
    requires j < |b.receipts| == |b.txs|
  {
    seq(|b.receipts[j]|, i requires 0 <= i < |b.receipts[j]| => Localized(b, j, Count(b.receipts[..j]), i))
  }

  /** The logs of the first `j` transactions of a block. */
  function ForwardUpTo(b: BlockLogs, j: nat): seq<LocalizedLogEntry>
    requires j <= |b.receipts| == |b.txs|
  {
    if j == 0 then [] else ForwardUpTo(b, j - 1) + ReceiptLogs(b, j - 1)
  }

  function Forward(b: BlockLogs): seq<LocalizedLogEntry>
    requires |b.receipts| == |b.txs|
  {
    ForwardUpTo(b, |b.receipts|)
  }

  /** The logs of the listed blocks, one after the other. */
  function Scan(store: Store, numbers: seq<nat>): seq<LocalizedLogEntry>
    requires Intact(store)
  {
    if numbers == [] then []
    else (match Find(store, numbers[0]) case Some(b) => Forward(b) case None => []) + Scan(store, numbers[1..])
  }

  /** In the forward scan of a block, every log stands at the position its in-block index says. */
  lemma {:induction false} ForwardPositions(b: BlockLogs, j: nat, g: nat)
    requires j <= |b.receipts| == |b.txs|
    ensures |ForwardUpTo(b, j)| == Count(b.receipts[..j])
    ensures g < |ForwardUpTo(b, j)| ==>
              var e := ForwardUpTo(b, j)[g];
              && e.logIndex == g && e.blockHash == b.hash && e.blockNumber == b.number
              && e.transactionIndex < j && e.transactionHash == b.txs[e.transactionIndex]
              && e.transactionLogIndex < |b.receipts[e.transactionIndex]|
              && e.entry == b.receipts[e.transactionIndex][e.transactionLogIndex]
              && g == Count(b.receipts[..e.transactionIndex]) + e.transactionLogIndex
  {
    if j > 0 {
      ForwardPositions(b, j - 1, g);
      assert b.receipts[..j][..j - 1] == b.receipts[..j - 1];
      var before := ForwardUpTo(b, j - 1);
      if |before| <= g < |ForwardUpTo(b, j)| {
        assert ForwardUpTo(b, j)[g] == ReceiptLogs(b, j - 1)[g - |before|];
      }
    }
  }

  /** `part` stands in `s` at position `at`. */
  ghost predicate Holds<T>(s: seq<T>, at: nat, part: seq<T>) {
    at + |part| <= |s| && s[at..at + |part|] == part
  }

  lemma HoldsLonger<T>(s: seq<T>, more: seq<T>, at: nat, part: seq<T>)
    requires Holds(s, at, part)
    ensures Holds(s + more, at, part)
  {
  }

  lemma HoldsLast<T>(s: seq<T>, part: seq<T>)
    ensures Holds(s + part, |s|, part)
  {
  }

  /** The numbering within a single receipt agrees with the scan of the whole block. */
  lemma {:induction false} ReceiptAgreesWithScan(b: BlockLogs, j: nat, n: nat)
    requires j < n <= |b.receipts| == |b.txs|
    ensures Holds(ForwardUpTo(b, n), Count(b.receipts[..j]), ReceiptLogs(b, j))
  {
    if j < n - 1 {
      ReceiptAgreesWithScan(b, j, n - 1);
      HoldsLonger(ForwardUpTo(b, n - 1), ReceiptLogs(b, n - 1), Count(b.receipts[..j]), ReceiptLogs(b, j));
    } else {
      ForwardPositions(b, j, 0);
      HoldsLast(ForwardUpTo(b, j), ReceiptLogs(b, j));
    }
  }

  /** `transaction_receipt`: given the receipts up to and including its own, number the last one's logs. */
  method TransactionReceiptLogs(b: BlockLogs, j: nat) returns (r: seq<LocalizedLogEntry>)
    requires j < |b.receipts| == |b.txs|
    ensures r == ReceiptLogs(b, j)
    ensures Holds(Forward(b), Count(b.receipts[..j]), r)
  {
    var noOfLogs := CountLogs(b.receipts[..j]);
    r := [];
    for i := 0 to |b.receipts[j]|
      invariant r == ReceiptLogs(b, j)[..i]
    {
      r := r + [LocalizedLogEntry(b.receipts[j][i], b.hash, b.number, b.txs[j], j, i, noOfLogs + i)];
    }
    assert ReceiptLogs(b, j)[..|b.receipts[j]|] == ReceiptLogs(b, j);
    ReceiptAgreesWithScan(b, j, |b.receipts|);
  }

  // ---------------------------------------------------------------------------------------------
  // Lists

  function Filter(es: seq<LocalizedLogEntry>, matches: LogEntry -> bool): seq<LocalizedLogEntry> {
    if es == [] then [] else (if matches(es[0].entry) then [es[0]] else []) + Filter(es[1..], matches)
  }

  function Take<T>(s: seq<T>, limit: Option<nat>): (r: seq<T>) {
    if limit.Some? && limit.value < |s| then s[..limit.value] else s
  }

  /** The last `limit` elements. */
  function Last<T>(s: seq<T>, limit: Option<nat>): seq<T> {
    if limit.Some? && limit.value < |s| then s[|s| - limit.value..] else s
  }

  lemma {:induction false} FilterAppend(es: seq<LocalizedLogEntry>, fs: seq<LocalizedLogEntry>,
                                        matches: LogEntry -> bool)
    ensures Filter(es + fs, matches) == Filter(es, matches) + Filter(fs, matches)
  {
    if es == [] {
      assert es + fs == fs;
    } else {
      var head := if matches(es[0].entry) then [es[0]] else [];
      assert (es + fs)[1..] == es[1..] + fs && (es + fs)[0] == es[0];
      FilterAppend(es[1..], fs, matches);
      Associate(head, Filter(es[1..], matches), Filter(fs, matches));
    }
  }

  lemma {:induction false} FilterReversed(es: seq<LocalizedLogEntry>, matches: LogEntry -> bool)
    ensures Filter(Reversed(es), matches) == Reversed(Filter(es, matches))
  {
    if es != [] {
      FilterReversed(es[1..], matches);
      assert es == [es[0]] + es[1..] && Reversed([es[0]]) == [es[0]];
      ReversedAppend([es[0]], es[1..]);
      FilterAppend(Reversed(es[1..]), [es[0]], matches);
      var kept := if matches(es[0].entry) then [es[0]] else [];
      assert Filter([es[0]], matches) == kept;
      ReversedAppend(kept, Filter(es[1..], matches));
      assert Reversed(kept) == kept;
    }
  }

  /** Taking from the front of the reversed list is taking the last, reversed. */
  lemma TakeReversed<T>(s: seq<T>, limit: Option<nat>)
    ensures Reversed(Take(Reversed(s), limit)) == Last(s, limit)
  {
    if limit.Some? && limit.value < |s| {
      var n := limit.value;
      var l, r := Reversed(Reversed(s)[..n]), s[|s| - n..];
      forall i | 0 <= i < n
        ensures l[i] == r[i]
      {
        assert l[i] == Reversed(s)[..n][n - 1 - i] == Reversed(s)[n - 1 - i];
      }
      assert l == r;
    } else {
      ReversedTwice(s);
    }
  }

  /** Lists that are alike up to the limit, part by part, are alike up to the limit. */
  lemma CutAlike<T>(s: seq<T>, q: seq<T>, t: seq<T>, u: seq<T>, limit: Option<nat>)
    requires Take(s, limit) == Take(q, limit) && Take(t, limit) == Take(u, limit)
    ensures Take(s + t, limit) == Take(q + u, limit)
  {
    if limit.Some? {
      var n := limit.value;
      if n <= |s| {
        TakeEnough(s, t, limit);
        TakeEnough(q, u, limit);
      } else {
        assert s == q;
        if n < |s| + |t| {
          assert (s + t)[..n] == s + t[..n - |s|];
          assert (q + u)[..n] == q + u[..n - |s|];
          assert t[..n - |s|] == Take(t, limit)[..n - |s|];
          assert u[..n - |s|] == Take(u, limit)[..n - |s|];
        }
      }
    }
  }

  lemma TakeEnough<T>(s: seq<T>, t: seq<T>, limit: Option<nat>)
    requires limit.Some? && limit.value <= |s|
    ensures Take(s + t, limit) == Take(s, limit)
  {
    assert (s + t)[..limit.value] == s[..limit.value];
  }

  // ---------------------------------------------------------------------------------------------
  // The reverse enumeration

  /** `sort_by(|a, b| b.cmp(a))`. */
  function InsertDescending(n: nat, s: seq<nat>): seq<nat> {
    if s == [] || n >= s[0] then [n] + s else [s[0]] + InsertDescending(n, s[1..])
  }

  function Descending(s: seq<nat>): seq<nat> {
    if s == [] then [] else InsertDescending(s[0], Descending(s[1..]))
  }

  ghost predicate IsDescending(s: seq<nat>) {
    forall i, j :: 0 <= i < j < |s| ==> s[i] >= s[j]
  }

  lemma {:induction false} InsertDescendingKeeps(n: nat, s: seq<nat>)
    ensures multiset(InsertDescending(n, s)) == multiset(s) + multiset{n}
    ensures forall x :: x in InsertDescending(n, s) <==> x in s || x == n
  {
    if s != [] {
      assert s == [s[0]] + s[1..];
      InsertDescendingKeeps(n, s[1..]);
    }
  }

  lemma {:induction false} InsertDescendingSorts(n: nat, s: seq<nat>)
    requires IsDescending(s)
    ensures IsDescending(InsertDescending(n, s))
  {
    if s != [] && n < s[0] {
      InsertDescendingSorts(n, s[1..]);
      InsertDescendingKeeps(n, s[1..]);
      var r := InsertDescending(n, s[1..]);
      forall i | 0 <= i < |r|
        ensures r[i] <= s[0]
      {
        assert r[i] in r;
      }
    }
  }

  /** The result is the input, sorted from the highest number down. */
  lemma {:induction false} DescendingSorts(s: seq<nat>)
    ensures IsDescending(Descending(s)) && multiset(Descending(s)) == multiset(s)
  {
    if s != [] {
      DescendingSorts(s[1..]);
      InsertDescendingSorts(s[0], Descending(s[1..]));
      InsertDescendingKeeps(s[0], Descending(s[1..]));
      assert s == [s[0]] + s[1..];
    }
  }

  /** The logs of one block, last first, counting the in-block index down, filtered and cut to the limit. */
  method BlockLogsReversed(b: BlockLogs, matches: LogEntry -> bool, limit: Option<nat>)
    returns (r: seq<LocalizedLogEntry>)
    requires |b.receipts| == |b.txs|
    ensures r == Take(Filter(Reversed(Forward(b)), matches), limit)
  {
    var all := [];
    var logIndex := CountLogs(b.receipts);
    var j := |b.receipts|;
    assert b.receipts[..j] == b.receipts;
    assert Reversed<LocalizedLogEntry>([]) == [];
    while j > 0
      invariant 0 <= j <= |b.receipts| && logIndex == Count(b.receipts[..j])
      invariant all + Reversed(ForwardUpTo(b, j)) == Reversed(Forward(b))
    {
      j := j - 1;
      assert b.receipts[..j + 1][..j] == b.receipts[..j];
      var currentLogIndex, noOfLogs := logIndex, |b.receipts[j]|;
      logIndex := logIndex - noOfLogs;
      var part := ReceiptLogsReversed(b, j, currentLogIndex);
      ReversedAppend(ForwardUpTo(b, j), ReceiptLogs(b, j));
      assert all + (part + Reversed(ForwardUpTo(b, j))) == (all + part) + Reversed(ForwardUpTo(b, j));
      all := all + part;
    }
    assert all + [] == all;
    r := Take(Filter(all, matches), limit);
  }

  /** The logs of transaction `j`, last one first, with indices counted down from `currentLogIndex`. */
  method ReceiptLogsReversed(b: BlockLogs, j: nat, currentLogIndex: nat) returns (part: seq<LocalizedLogEntry>)
    requires j < |b.receipts| == |b.txs| && currentLogIndex == Count(b.receipts[..j]) + |b.receipts[j]|
    ensures part == Reversed(ReceiptLogs(b, j))
  {
    part := [];
    var noOfLogs := |b.receipts[j]|;
    ghost var whole := Reversed(ReceiptLogs(b, j));
    for i := 0 to noOfLogs
      invariant part == whole[..i]
    {
      var e := LocalizedLogEntry(
        b.receipts[j][noOfLogs - 1 - i], b.hash, b.number, b.txs[j], j, noOfLogs - i - 1, currentLogIndex - i - 1);
      assert e == whole[i];
      assert whole[..i + 1] == whole[..i] + [e];
      part := part + [e];
    }
    assert whole[..noOfLogs] == whole;
  }

  method CountLogs(receipts: seq<seq<LogEntry>>) returns (n: nat)
    ensures n == Count(receipts)
  {
    n := 0;
    for i := 0 to |receipts|
      invariant n == Count(receipts[..i])
    {
      assert receipts[..i + 1][..i] == receipts[..i];
      n := n + |receipts[i]|;
    }
    assert receipts[..|receipts|] == receipts;
  }

  /** Scanning a list of blocks splits where the list does; backwards, the reversed lists come in reverse. */
  lemma {:induction false} ScanAppend(store: Store, a: seq<nat>, b: seq<nat>)
    requires Intact(store)
    ensures Scan(store, a + b) == Scan(store, a) + Scan(store, b)
  {
    if a == [] {
      assert a + b == b;
    } else {
      assert (a + b)[1..] == a[1..] + b;
      ScanAppend(store, a[1..], b);
    }
  }

  /** The matching logs of the listed blocks, last block first and last log first. */
  function Backwards(store: Store, numbers: seq<nat>, matches: LogEntry -> bool): seq<LocalizedLogEntry>
    requires Intact(store)
  {
    if numbers == [] then []
    else Backwards(store, numbers[..|numbers| - 1], matches) +
         Filter(Reversed(Scan(store, [numbers[|numbers| - 1]])), matches)
  }

  lemma {:induction false} BackwardsIsReversedScan(store: Store, numbers: seq<nat>, matches: LogEntry -> bool)
    requires Intact(store)
    ensures Backwards(store, numbers, matches) == Reversed(Filter(Scan(store, Reversed(numbers)), matches))
  {
    if numbers != [] {
      var n := |numbers| - 1;
      var rest, last := numbers[..n], [numbers[n]];
      assert numbers == rest + last;
      BackwardsIsReversedScan(store, rest, matches);
      ReversedAppend(rest, last);
      assert Reversed(last) == last;
      ScanAppend(store, last, Reversed(rest));
      FilterAppend(Scan(store, last), Scan(store, Reversed(rest)), matches);
      ReversedAppend(Filter(Scan(store, last), matches), Filter(Scan(store, Reversed(rest)), matches));
      FilterReversed(Scan(store, last), matches);
    }
  }

  lemma {:induction false} BackwardsAppend(store: Store, a: seq<nat>, b: seq<nat>, matches: LogEntry -> bool)
    requires Intact(store)
    ensures Backwards(store, a + b, matches) == Backwards(store, a, matches) + Backwards(store, b, matches)
  {
    if b == [] {
      assert a + b == a;
    } else {
      var n := |b| - 1;
      assert (a + b)[..|a + b| - 1] == a + b[..n];
      BackwardsAppend(store, a, b[..n], matches);
    }
  }

  /** Up to the limit, `logs` are the matching logs of the listed blocks, backwards. */
  ghost predicate Enumerates(store: Store, logs: seq<LocalizedLogEntry>, numbers: seq<nat>, matches: LogEntry -> bool,
                             limit: Option<nat>)
    requires Intact(store)
  {
    Take(logs, limit) == Take(Backwards(store, numbers, matches), limit)
  }

  lemma EnumeratesAppend(store: Store, logs: seq<LocalizedLogEntry>, a: seq<nat>, more: seq<LocalizedLogEntry>,
                         b: seq<nat>,
                         matches: LogEntry -> bool, limit: Option<nat>)
    requires Intact(store) && Enumerates(store, logs, a, matches, limit) && Enumerates(store, more, b, matches, limit)
    ensures Enumerates(store, logs + more, a + b, matches, limit)
  {
    BackwardsAppend(store, a, b, matches);
    CutAlike(logs, Backwards(store, a, matches), more, Backwards(store, b, matches), limit);
  }

  /** What lies beyond a full enumeration does not matter. */
  lemma EnumeratesEnough(store: Store, logs: seq<LocalizedLogEntry>, a: seq<nat>, b: seq<nat>,
                         matches: LogEntry -> bool, limit: Option<nat>)
    requires Intact(store) && Enumerates(store, logs, a, matches, limit) && limit.Some? && |logs| >= limit.value
    ensures Enumerates(store, logs, a + b, matches, limit)
  {
    BackwardsAppend(store, a, b, matches);
    TakeEnough(Backwards(store, a, matches), Backwards(store, b, matches), limit);
  }

  /** A single block, cut on its own. */
  method OneBlockLogs(store: Store, number: nat, matches: LogEntry -> bool, limit: Option<nat>)
    returns (part: seq<LocalizedLogEntry>)
    requires Intact(store)
    ensures Enumerates(store, part, [number], matches, limit)
  {
    var b := Find(store, number);
    part := [];
    if b.Some? {
      part := BlockLogsReversed(b.value, matches, limit);
    }
    ghost var scan := if b.Some? then Forward(b.value) else [];
    assert Scan(store, [number]) == scan;
    ghost var whole := Filter(Reversed(scan), matches);
    ghost var numbers := [number];
    assert numbers[..|numbers| - 1] == [] && Backwards(store, [], matches) == [];
    assert Backwards(store, numbers, matches) == [] + whole == whole;
    TakeTwice(whole, limit);
  }

  lemma TakeTwice<T>(s: seq<T>, limit: Option<nat>)
    ensures Take(Take(s, limit), limit) == Take(s, limit)
  {
  }

  /** The enumeration of one chunk of blocks: every block is cut to the limit on its own. */
  method ChunkLogs(store: Store, chunk: seq<nat>, matches: LogEntry -> bool, limit: Option<nat>)
    returns (r: seq<LocalizedLogEntry>)
    requires Intact(store)
    ensures Enumerates(store, r, chunk, matches, limit)
  {
    r := [];
    for i := 0 to |chunk|
      invariant Enumerates(store, r, chunk[..i], matches, limit)
    {
      var part := OneBlockLogs(store, chunk[i], matches, limit);
      EnumeratesAppend(store, r, chunk[..i], part, [chunk[i]], matches, limit);
      assert chunk[..i] + [chunk[i]] == chunk[..i + 1];
      r := r + part;
    }
    assert chunk[..|chunk|] == chunk;
  }

  // ---------------------------------------------------------------------------------------------
  // What a query is owed

  /** `e` is a log of a stored block, at the place its indices name. */
  ghost predicate Stands(store: Store, e: LocalizedLogEntry) {
    && e.blockNumber in store.hashes && store.hashes[e.blockNumber] == e.blockHash
    && e.blockHash in store.receipts && e.blockHash in store.bodies
    && InBlock(store.receipts[e.blockHash], store.bodies[e.blockHash], e)
  }

  ghost predicate InBlock(receipts: seq<seq<LogEntry>>, txs: seq<Hash>, e: LocalizedLogEntry) {
    && e.transactionIndex < |receipts| == |txs| && e.transactionHash == txs[e.transactionIndex]
    && e.transactionLogIndex < |receipts[e.transactionIndex]|
    && e.entry == receipts[e.transactionIndex][e.transactionLogIndex]
    && e.logIndex == |Flat(receipts[..e.transactionIndex])| + e.transactionLogIndex
  }

  /** All the logs of a block, one after the other. */
  ghost function Flat(receipts: seq<seq<LogEntry>>): seq<LogEntry> {
    if receipts == [] then [] else Flat(receipts[..|receipts| - 1]) + receipts[|receipts| - 1]
  }

  /** How often the answer to an unlimited query holds `e`: once for every time its block is listed, if it matches. */
  ghost function Due(store: Store, blocks: seq<nat>, matches: LogEntry -> bool, e: LocalizedLogEntry): nat {
    if Stands(store, e) && matches(e.entry) then multiset(blocks)[e.blockNumber] else 0
  }

  predicate Before(e: LocalizedLogEntry, f: LocalizedLogEntry) {
    e.blockNumber < f.blockNumber || (e.blockNumber == f.blockNumber && e.logIndex < f.logIndex)
  }

  ghost predicate InOrder(es: seq<LocalizedLogEntry>) {
    forall i, j :: 0 <= i < j < |es| ==> es[i].blockNumber <= es[j].blockNumber
  }

  ghost predicate InStrictOrder(es: seq<LocalizedLogEntry>) {
    forall i, j :: 0 <= i < j < |es| ==> Before(es[i], es[j])
  }

  ghost predicate HeldAsDue(store: Store, blocks: seq<nat>, matches: LogEntry -> bool, full: seq<LocalizedLogEntry>,
                            e: LocalizedLogEntry) {
    multiset(full)[e] == Due(store, blocks, matches, e)
  }

  /** The whole answer: what is due and nothing else, by block; strictly in order where no block is listed twice. */
  ghost predicate WholeAnswer(store: Store, blocks: seq<nat>, matches: LogEntry -> bool,
                              full: seq<LocalizedLogEntry>) {
    && (forall e :: HeldAsDue(store, blocks, matches, full, e))
    && InOrder(full) && (NoDuplicates(blocks) ==> InStrictOrder(full))
  }

  /** The answer cut to the limit: the end of the whole one. */
  ghost predicate CutAnswer(full: seq<LocalizedLogEntry>, limit: Option<nat>, r: seq<LocalizedLogEntry>) {
    && |r| <= |full| && r == full[|full| - |r|..]
    && |r| == if limit.Some? && limit.value < |full| then limit.value else |full|
  }

  ghost predicate Answers(store: Store, blocks: seq<nat>, matches: LogEntry -> bool, limit: Option<nat>,
                          r: seq<LocalizedLogEntry>) {
    exists full :: WholeAnswer(store, blocks, matches, full) && CutAnswer(full, limit, r)
  }

  lemma {:induction false} CountIsFlat(receipts: seq<seq<LogEntry>>)
    ensures Count(receipts) == |Flat(receipts)|
  {
    if receipts != [] {
      CountIsFlat(receipts[..|receipts| - 1]);
    }
  }

  lemma OnceIn<T>(s: seq<T>, g: nat)
    requires g < |s| && forall i :: 0 <= i < |s| && i != g ==> s[i] != s[g]
    ensures multiset(s)[s[g]] == 1
  {
    var x := s[g];
    assert s == s[..g] + [x] + s[g + 1..];
    assert x !in s[..g] && x !in s[g + 1..];
    assert multiset(s[..g])[x] == 0 && multiset(s[g + 1..])[x] == 0;
  }

  /** The scan of a block holds each of its logs once. */
  lemma ForwardOnce(b: BlockLogs, e: LocalizedLogEntry)
    requires |b.receipts| == |b.txs|
    ensures multiset(Forward(b))[e] ==
            if e.blockHash == b.hash && e.blockNumber == b.number && InBlock(b.receipts, b.txs, e) then 1 else 0
  {
    var s, n := Forward(b), |b.receipts|;
    assert b.receipts[..n] == b.receipts;
    forall g: nat | g < |s|
      ensures s[g].logIndex == g && s[g].blockHash == b.hash && s[g].blockNumber == b.number
      ensures InBlock(b.receipts, b.txs, s[g])
    {
      ForwardPositions(b, n, g);
      CountIsFlat(b.receipts[..s[g].transactionIndex]);
    }
    if e.blockHash == b.hash && e.blockNumber == b.number && InBlock(b.receipts, b.txs, e) {
      ForwardHasAll(b, e);
      OnceIn(s, e.logIndex);
    }
  }

  lemma ForwardHasAll(b: BlockLogs, e: LocalizedLogEntry)
    requires |b.receipts| == |b.txs|
    requires e.blockHash == b.hash && e.blockNumber == b.number && InBlock(b.receipts, b.txs, e)
    ensures e in Forward(b)
  {
    var s, j := Forward(b), e.transactionIndex;
    ReceiptAgreesWithScan(b, j, |b.receipts|);
    CountIsFlat(b.receipts[..j]);
    var at := Count(b.receipts[..j]);
    assert s[at..at + |b.receipts[j]|][e.transactionLogIndex] == ReceiptLogs(b, j)[e.transactionLogIndex] == e;
  }

  /** What stands in the block of number `n`. */
  lemma ScanOneOnce(store: Store, n: nat, e: LocalizedLogEntry)
    requires Intact(store)
    ensures multiset(Scan(store, [n]))[e] == if Stands(store, e) && e.blockNumber == n then 1 else 0
  {
    var b := Find(store, n);
    if b.Some? {
      ForwardOnce(b.value, e);
      assert Scan(store, [n]) == Forward(b.value);
    } else {
      assert Scan(store, [n]) == [];
    }
  }

  lemma {:induction false} ScanHolds(store: Store, numbers: seq<nat>, e: LocalizedLogEntry)
    requires Intact(store)
    ensures multiset(Scan(store, numbers))[e] == if Stands(store, e) then multiset(numbers)[e.blockNumber] else 0
  {
    if numbers != [] {
      var head, rest := [numbers[0]], numbers[1..];
      assert numbers == head + rest;
      ScanAppend(store, head, rest);
      ScanHolds(store, rest, e);
      ScanOneOnce(store, numbers[0], e);
      assert multiset(numbers) == multiset(head) + multiset(rest);
    }
  }

  lemma {:induction false} FilterHolds(es: seq<LocalizedLogEntry>, matches: LogEntry -> bool, e: LocalizedLogEntry)
    ensures multiset(Filter(es, matches))[e] == if matches(e.entry) then multiset(es)[e] else 0
  {
    if es != [] {
      FilterHolds(es[1..], matches, e);
      assert es == [es[0]] + es[1..];
    }
  }

  lemma FilterPart(es: seq<LocalizedLogEntry>, matches: LogEntry -> bool, e: LocalizedLogEntry)
    requires e in Filter(es, matches)
    ensures e in es && matches(e.entry)
  {
    assert multiset(Filter(es, matches))[e] > 0;
    FilterHolds(es, matches, e);
  }

  lemma {:induction false} FilterOrder(es: seq<LocalizedLogEntry>, matches: LogEntry -> bool)
    ensures InOrder(es) ==> InOrder(Filter(es, matches))
    ensures InStrictOrder(es) ==> InStrictOrder(Filter(es, matches))
  {
    if es != [] {
      FilterOrder(es[1..], matches);
      var tail := Filter(es[1..], matches);
      forall i | 0 <= i < |tail|
        ensures InOrder(es) ==> es[0].blockNumber <= tail[i].blockNumber
        ensures InStrictOrder(es) ==> Before(es[0], tail[i])
      {
        FilterPart(es[1..], matches, tail[i]);
        var j :| 0 <= j < |es[1..]| && es[1..][j] == tail[i];
        assert es[j + 1] == tail[i];
      }
    }
  }

  ghost predicate IsAscending(s: seq<nat>) {
    forall i, j :: 0 <= i < j < |s| ==> s[i] <= s[j]
  }

  lemma ScanNumbers(store: Store, numbers: seq<nat>, e: LocalizedLogEntry)
    requires Intact(store) && e in Scan(store, numbers)
    ensures e.blockNumber in numbers
  {
    assert multiset(Scan(store, numbers))[e] > 0;
    ScanHolds(store, numbers, e);
    assert multiset(numbers)[e.blockNumber] > 0;
  }

  lemma BlockInOrder(store: Store, n: nat)
    requires Intact(store)
    ensures InStrictOrder(Scan(store, [n]))
    ensures forall i :: 0 <= i < |Scan(store, [n])| ==> Scan(store, [n])[i].blockNumber == n
  {
    var b := Find(store, n);
    if b.Some? {
      var s := Forward(b.value);
      assert Scan(store, [n]) == s;
      forall g: nat | g < |s|
        ensures s[g].logIndex == g && s[g].blockNumber == n
      {
        ForwardPositions(b.value, |b.value.receipts|, g);
      }
    } else {
      assert Scan(store, [n]) == [];
    }
  }

  lemma JoinOrder(a: seq<LocalizedLogEntry>, b: seq<LocalizedLogEntry>, n: nat)
    requires InStrictOrder(a) && forall i :: 0 <= i < |a| ==> a[i].blockNumber == n
    requires forall i :: 0 <= i < |b| ==> b[i].blockNumber >= n
    ensures InOrder(b) ==> InOrder(a + b)
    ensures InStrictOrder(b) && (forall i :: 0 <= i < |b| ==> b[i].blockNumber > n) ==> InStrictOrder(a + b)
  {
  }

  lemma {:induction false} ScanOrder(store: Store, numbers: seq<nat>)
    requires Intact(store) && IsAscending(numbers)
    ensures InOrder(Scan(store, numbers)) && (NoDuplicates(numbers) ==> InStrictOrder(Scan(store, numbers)))
  {
    if numbers != [] {
      var head, rest := [numbers[0]], numbers[1..];
      assert numbers == head + rest;
      ScanAppend(store, head, rest);
      ScanOrder(store, rest);
      BlockInOrder(store, numbers[0]);
      var a, b := Scan(store, head), Scan(store, rest);
      forall i | 0 <= i < |b|
        ensures b[i].blockNumber >= numbers[0] && (NoDuplicates(numbers) ==> b[i].blockNumber > numbers[0])
      {
        ScanNumbers(store, rest, b[i]);
        var j :| 0 <= j < |rest| && rest[j] == b[i].blockNumber;
        assert numbers[j + 1] == b[i].blockNumber;
      }
      JoinOrder(a, b, numbers[0]);
    }
  }

  lemma ReversedMultiset<T>(s: seq<T>)
    ensures multiset(Reversed(s)) == multiset(s)
    decreases |s|
  {
    if s != [] {
      var n := |s| - 1;
      assert s == s[..n] + [s[n]];
      ReversedAppend(s[..n], [s[n]]);
      assert Reversed([s[n]]) == [s[n]];
      ReversedMultiset(s[..n]);
    }
  }

  lemma DuplicatesByCount<T>(s: seq<T>, t: seq<T>)
    requires multiset(s) == multiset(t) && NoDuplicates(s)
    ensures NoDuplicates(t)
  {
    forall i, j | 0 <= i < j < |t|
      ensures t[i] != t[j]
    {
      if t[i] == t[j] {
        assert t == t[..i] + [t[i]] + t[i + 1..j] + [t[j]] + t[j + 1..];
        assert multiset(t)[t[i]] >= 2;
        assert multiset(s)[t[i]] >= 2 && t[i] in multiset(s);
        var g :| 0 <= g < |s| && s[g] == t[i];
        OnceIn(s, g);
      }
    }
  }

  /** The filtered scan of the blocks in ascending order is the whole answer. */
  lemma ScanAnswers(store: Store, blocks: seq<nat>, matches: LogEntry -> bool)
    requires Intact(store)
    ensures WholeAnswer(store, blocks, matches, Filter(Scan(store, Reversed(Descending(blocks))), matches))
  {
    var numbers := Reversed(Descending(blocks));
    DescendingSorts(blocks);
    ReversedMultiset(Descending(blocks));
    assert IsAscending(numbers);
    var full := Filter(Scan(store, numbers), matches);
    forall e
      ensures HeldAsDue(store, blocks, matches, full, e)
    {
      FilterHolds(Scan(store, numbers), matches, e);
      ScanHolds(store, numbers, e);
    }
    if NoDuplicates(blocks) {
      DuplicatesByCount(blocks, numbers);
    }
    ScanOrder(store, numbers);
    FilterOrder(Scan(store, numbers), matches);
  }

  lemma LastIsCut(full: seq<LocalizedLogEntry>, limit: Option<nat>)
    ensures CutAnswer(full, limit, Last(full, limit))
  {
  }

  lemma LastAnswers(store: Store, blocks: seq<nat>, matches: LogEntry -> bool, limit: Option<nat>)
    requires Intact(store)
    ensures Answers(store, blocks, matches, limit,
                    Last(Filter(Scan(store, Reversed(Descending(blocks))), matches), limit))
  {
    ScanAnswers(store, blocks, matches);
    LastIsCut(Filter(Scan(store, Reversed(Descending(blocks))), matches), limit);
  }

  /**
   * What an answer means: it holds only matching logs that stand in listed blocks, and below the limit all
   * of them; whatever it omits stands in no later block than its first entry, and before it where no block
   * is listed twice.
   */
  lemma AnswersMean(store: Store, blocks: seq<nat>, matches: LogEntry -> bool, limit: Option<nat>,
                    r: seq<LocalizedLogEntry>, e: LocalizedLogEntry)
    requires Answers(store, blocks, matches, limit, r)
    ensures e in r ==> Stands(store, e) && matches(e.entry) && e.blockNumber in blocks
    ensures limit.None? || |r| < limit.value ==> multiset(r)[e] == Due(store, blocks, matches, e)
    ensures limit.Some? ==> |r| <= limit.value
    ensures multiset(r)[e] <= Due(store, blocks, matches, e)
    ensures multiset(r)[e] < Due(store, blocks, matches, e) && r != [] ==>
              && e.blockNumber <= r[0].blockNumber && (NoDuplicates(blocks) ==> Before(e, r[0]))
    ensures InOrder(r) && (NoDuplicates(blocks) ==> InStrictOrder(r))
  {
    var full :| WholeAnswer(store, blocks, matches, full) && CutAnswer(full, limit, r);
    var due := DueIn(store, blocks, matches, full, e);
    CutMeans(full, limit, r, e, due);
  }

  lemma DueIn(store: Store, blocks: seq<nat>, matches: LogEntry -> bool, full: seq<LocalizedLogEntry>,
              e: LocalizedLogEntry) returns (due: nat)
    requires WholeAnswer(store, blocks, matches, full)
    ensures due == multiset(full)[e] == Due(store, blocks, matches, e)
    ensures due > 0 ==> Stands(store, e) && matches(e.entry) && e.blockNumber in blocks
  {
    assert HeldAsDue(store, blocks, matches, full, e);
    due := multiset(full)[e];
  }

  lemma CutMeans(full: seq<LocalizedLogEntry>, limit: Option<nat>, r: seq<LocalizedLogEntry>, e: LocalizedLogEntry,
                 due: nat)
    requires CutAnswer(full, limit, r) && InOrder(full) && due == multiset(full)[e]
    ensures e in r ==> due > 0
    ensures limit.None? || |r| < limit.value ==> multiset(r)[e] == due
    ensures limit.Some? ==> |r| <= limit.value
    ensures multiset(r)[e] <= due
    ensures multiset(r)[e] < due && r != [] ==>
              e.blockNumber <= r[0].blockNumber && (InStrictOrder(full) ==> Before(e, r[0]))
    ensures InOrder(r) && (InStrictOrder(full) ==> InStrictOrder(r))
  {
    CutCounts(full, limit, r, e);
    CutOrder(full, limit, r, e);
    if e in r {
      assert multiset(r)[e] > 0;
    }
  }

  lemma CutCounts(full: seq<LocalizedLogEntry>, limit: Option<nat>, r: seq<LocalizedLogEntry>, e: LocalizedLogEntry)
    requires CutAnswer(full, limit, r)
    ensures multiset(r)[e] <= multiset(full)[e]
    ensures limit.None? || |r| < limit.value ==> r == full
    ensures multiset(r)[e] < multiset(full)[e] ==> e in full[..|full| - |r|]
  {
    var k := |full| - |r|;
    assert full == full[..k] + r;
    assert multiset(full) == multiset(full[..k]) + multiset(r);
  }

  lemma CutOrder(full: seq<LocalizedLogEntry>, limit: Option<nat>, r: seq<LocalizedLogEntry>, e: LocalizedLogEntry)
    requires CutAnswer(full, limit, r) && InOrder(full)
    ensures InOrder(r) && (InStrictOrder(full) ==> InStrictOrder(r))
    ensures e in full[..|full| - |r|] && r != [] ==>
              e.blockNumber <= r[0].blockNumber && (InStrictOrder(full) ==> Before(e, r[0]))
  {
    var k := |full| - |r|;
    forall i | 0 <= i < |r|
      ensures r[i] == full[k + i]
    {
    }
    if e in full[..k] && r != [] {
      var i :| 0 <= i < k && full[..k][i] == e;
      assert full[i] == e && full[k] == r[0];
    }
  }

  /**
   * `logs`: sort the blocks from the highest down, enumerate chunk by chunk until the limit is reached,
   * and reverse. The result is the last `limit` matching logs of the plain forward scan over the blocks
   * in ascending order.
   */
  method FindLogs(store: Store, blocks: seq<nat>, matches: LogEntry -> bool, limit: Option<nat>)
    returns (r: seq<LocalizedLogEntry>)
    requires Intact(store)
    ensures r == Last(Filter(Scan(store, Reversed(Descending(blocks))), matches), limit)
    ensures Answers(store, blocks, matches, limit, r)
  {
    var sorted := Descending(blocks);
    var logs := EnumerateLogs(store, sorted, matches, limit);
    BackwardsIsReversedScan(store, sorted, matches);
    TakeReversed(Filter(Scan(store, Reversed(sorted)), matches), limit);
    r := Reversed(Take(logs, limit));
    LastAnswers(store, blocks, matches, limit);
  }

  method EnumerateLogs(store: Store, sorted: seq<nat>, matches: LogEntry -> bool, limit: Option<nat>)
    returns (logs: seq<LocalizedLogEntry>)
    requires Intact(store)
    ensures Enumerates(store, logs, sorted, matches, limit)
  {
    logs := [];
    var start := 0;
    while start < |sorted| && (limit.None? || |logs| < limit.value)
      invariant 0 <= start <= |sorted|
      invariant Enumerates(store, logs, sorted[..start], matches, limit)
      decreases |sorted| - start
    {
      var end := if start + CHUNK < |sorted| then start + CHUNK else |sorted|;
      var more := ChunkLogs(store, sorted[start..end], matches, limit);
      EnumeratesAppend(store, logs, sorted[..start], more, sorted[start..end], matches, limit);
      assert sorted[..start] + sorted[start..end] == sorted[..end];
      logs := logs + more;
      start := end;
    }
    assert sorted[..start] + sorted[start..] == sorted;
    if start < |sorted| {
      EnumeratesEnough(store, logs, sorted[..start], sorted[start..], matches, limit);
    } else {
      assert sorted[..start] == sorted;
    }
  }
}
