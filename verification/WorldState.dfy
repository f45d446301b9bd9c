/**
 * The account state of a transaction: a cache over the trie, with a stack of checkpoints that record,
 * for every account touched since, what it was (core/src/state/mod.rs, core/src/state/account_state.rs).
 * The stack of differences is proved to behave as a stack of whole snapshots.
 */
module WorldState {
  import opened Basics

  type Bytes = seq<nat>

  /** An account: committed storage, and the storage changes not yet committed (`None` removes a key). */
  datatype Account = Account(balance: nat, nonce: nat, code: Bytes, storage: map<Bytes, Bytes>,
                             changes: map<Bytes, Option<Bytes>>)

  /** The accounts that exist. */
  type View = map<Address, Account>

  /** What to do about null accounts; the touched set of the last mode is passed along. */
  datatype CleanupMode = ForceCreate | NoEmpty | TrackTouched

  /** A cached account, or the knowledge that there is none. */
  datatype AccountEntry = AccountEntry(account: Option<Account>, dirty: bool)

  type LocalCache = map<Address, AccountEntry>

  /** What each touched account was when the checkpoint was made; `None` if it was not cached. */
  type Checkpoint = map<Address, Option<AccountEntry>>

  function NewAccount(balance: nat, nonce: nat): Account {
    Account(balance, nonce, [], map[], map[])
  }

  function At(v: View, a: Address): Option<Account> {
    if a in v then Some(v[a]) else None
  }

  function Put(v: View, a: Address, account: Option<Account>): View {
    if account.Some? then v[a := account.value] else v - {a}
  }

  function BalanceOf(v: View, a: Address): nat {
    if a in v then v[a].balance else 0
  }

  function NonceOf(v: View, start: nat, a: Address): nat {
    if a in v then v[a].nonce else start
  }

  function CodeOf(v: View, a: Address): Bytes {
    if a in v then v[a].code else []
  }

  /** `require`: the account, or a fresh one. */
  function Fetch(v: View, start: nat, a: Address): Account {
    if a in v then v[a] else NewAccount(0, start)
  }

  /** `add_balance`: adding nothing creates nothing. */
  function Credited(v: View, start: nat, a: Address, x: nat): View {
    if x == 0 then v else v[a := Fetch(v, start, a).(balance := BalanceOf(v, a) + x)]
  }

  /** `sub_balance`: subtracting even nothing creates a missing account. */
  function Debited(v: View, start: nat, a: Address, x: nat): View
    requires x <= BalanceOf(v, a)
  {
    if x == 0 && a in v then v else v[a := Fetch(v, start, a).(balance := BalanceOf(v, a) - x)]
  }

  function Transferred(v: View, start: nat, from: Address, to: Address, x: nat): View
    requires x <= BalanceOf(v, from)
  {
    Credited(Debited(v, start, from, x), start, to, x)
  }

  /** The addresses a tracked transfer marks as touched: the payer, and the payee of nothing. */
  function TransferTouches(v: View, start: nat, from: Address, to: Address, x: nat): set<Address>
    requires x <= BalanceOf(v, from)
  {
    {from} + if x == 0 && to in Debited(v, start, from, x) then {to} else {}
  }

  function IncNonce(v: View, start: nat, a: Address): View {
    v[a := Fetch(v, start, a).(nonce := NonceOf(v, start, a) + 1)]
  }

  /** All zeros mean removal in FastVM. */
  function StorageTag(value: Bytes): Option<Bytes> {
    if forall i :: 0 <= i < |value| ==> value[i] == 0 then None else Some(value)
  }

  function SetStorage(v: View, start: nat, a: Address, key: Bytes, value: Bytes): View {
    var account := Fetch(v, start, a);
    v[a := account.(changes := account.changes[key := StorageTag(value)])]
  }

  function InitCode(v: View, start: nat, a: Address, code: Bytes): View {
    v[a := Fetch(v, start, a).(code := code)]
  }

  /** What storage reads: an uncommitted change first, then what is committed. */
  function StorageAt(a: Account, key: Bytes): Option<Bytes> {
    if key in a.changes then a.changes[key] else if key in a.storage then Some(a.storage[key]) else None
  }

  /** The account at `a` as seen through the cache. */
  function Seen(trie: View, cache: LocalCache, a: Address): Option<Account> {
    if a in cache then cache[a].account else At(trie, a)
  }

  ghost function ViewOf(trie: View, cache: LocalCache): View {
    map a | a in trie.Keys + cache.Keys && Seen(trie, cache, a).Some? :: Seen(trie, cache, a).value
  }

  lemma ViewAt(trie: View, cache: LocalCache, a: Address)
    ensures At(ViewOf(trie, cache), a) == Seen(trie, cache, a)
  {
  }

  /** What the checkpoint says about `a`. */
  function Recorded(trie: View, cp: Checkpoint, a: Address): Option<Account>
    requires a in cp
  {
    match cp[a]
    case None => At(trie, a)
    case Some(entry) => entry.account
  }

  /** The view a checkpoint goes back to. */
  ghost function Undo(trie: View, v: View, cp: Checkpoint): View {
    map a | a in trie.Keys + v.Keys + cp.Keys && (if a in cp then Recorded(trie, cp, a) else At(v, a)).Some? ::
      (if a in cp then Recorded(trie, cp, a) else At(v, a)).value
  }

  lemma UndoAt(trie: View, v: View, cp: Checkpoint, a: Address)
    ensures At(Undo(trie, v, cp), a) == if a in cp then Recorded(trie, cp, a) else At(v, a)
  {
  }

  /** The views the checkpoints on the stack go back to, oldest first. */
  ghost function SnapshotsOf(trie: View, v: View, cps: seq<Checkpoint>): (s: seq<View>)
    ensures |s| == |cps|
    decreases |cps|
  {
    if cps == [] then []
    else
      var n := |cps| - 1;
      var w := Undo(trie, v, cps[n]);
      SnapshotsOf(trie, w, cps[..n]) + [w]
  }

  /** Views are equal when they show the same account everywhere. */
  lemma SameView(v: View, w: View)
    requires forall a :: At(v, a) == At(w, a)
    ensures v == w
  {
    forall a
      ensures a in v <==> a in w
      ensures a in v ==> v[a] == w[a]
    {
      assert At(v, a) == At(w, a);
    }
  }

  lemma UndoNothing(trie: View, v: View)
    ensures Undo(trie, v, map[]) == v
  {
    forall a
      ensures At(Undo(trie, v, map[]), a) == At(v, a)
    {
      UndoAt(trie, v, map[], a);
    }
    SameView(Undo(trie, v, map[]), v);
  }

  /** Recording what an account was, before changing it, leaves the snapshot as it was. */
  lemma UndoRecorded(trie: View, v: View, cp: Checkpoint, cp': Checkpoint, a: Address, account: Option<Account>)
    requires a in cp' && (a in cp ==> cp' == cp)
             && (a !in cp ==> cp' == cp[a := cp'[a]] && Recorded(trie, cp', a) == At(v, a))
    ensures Undo(trie, Put(v, a, account), cp') == Undo(trie, v, cp)
  {
    var l, r := Undo(trie, Put(v, a, account), cp'), Undo(trie, v, cp);
    forall x
      ensures At(l, x) == At(r, x)
    {
      UndoAt(trie, Put(v, a, account), cp', x);
      UndoAt(trie, v, cp, x);
      if x != a {
        assert At(Put(v, a, account), x) == At(v, x);
        assert x in cp <==> x in cp';
      }
    }
    SameView(l, r);
  }

  /** Merging a checkpoint into the one below it, whose records win, undoes both at once. */
  lemma UndoMerged(trie: View, v: View, lower: Checkpoint, upper: Checkpoint)
    ensures Undo(trie, Undo(trie, v, upper), lower) == Undo(trie, v, upper + lower)
  {
    var l, r := Undo(trie, Undo(trie, v, upper), lower), Undo(trie, v, upper + lower);
    forall x
      ensures At(l, x) == At(r, x)
    {
      UndoAt(trie, Undo(trie, v, upper), lower, x);
      UndoAt(trie, v, upper, x);
      UndoAt(trie, v, upper + lower, x);
    }
    SameView(l, r);
  }

  /** Entries that are not dirty say what the trie says. */
  ghost predicate CleanCache(trie: View, cache: LocalCache) {
    forall a :: a in cache && !cache[a].dirty ==> cache[a].account == At(trie, a)
  }

  ghost predicate CleanCheckpoint(trie: View, cp: Checkpoint) {
    forall a :: a in cp && cp[a].Some? && !cp[a].value.dirty ==> cp[a].value.account == At(trie, a)
  }

  /** `AccountEntry::overwrite_with`: an account that is gone does not come back. */
  function OverwriteWith(ours: AccountEntry, other: AccountEntry): AccountEntry {
    AccountEntry(
      match other.account
      case Some(acc) => if ours.account.Some? then Some(acc) else None
      case None => None,
      other.dirty)
  }

  /** One entry of `revert_to_checkpoint`; `None` when the entry leaves the cache. */
  function RevertEntry(cache: LocalCache, a: Address, saved: Option<AccountEntry>): Option<AccountEntry> {
    match saved
    case Some(v) => Some(if a in cache then OverwriteWith(cache[a], v) else v)
    case None => if a in cache && !cache[a].dirty then Some(cache[a]) else None
  }

  /** `revert_to_checkpoint`. */
  function Reverted(cache: LocalCache, cp: Checkpoint): LocalCache {
    map a | a in cache.Keys + cp.Keys && (if a in cp then RevertEntry(cache, a, cp[a]) else Some(cache[a])).Some? ::
      (if a in cp then RevertEntry(cache, a, cp[a]) else Some(cache[a])).value
  }

  /** No account recorded as existing has been removed from the cache since. */
  ghost predicate NoneKilled(cache: LocalCache, cp: Checkpoint) {
    forall a :: a in cp && cp[a].Some? && cp[a].value.account.Some? && a in cache ==> cache[a].account.Some?
  }

  lemma RevertedSeen(trie: View, cache: LocalCache, cp: Checkpoint, a: Address)
    requires CleanCache(trie, cache)
    ensures Seen(trie, Reverted(cache, cp), a) ==
            if a in cp && cp[a].Some? && a in cache then OverwriteWith(cache[a], cp[a].value).account
            else if a in cp then Recorded(trie, cp, a)
            else Seen(trie, cache, a)
  {
    var r := Reverted(cache, cp);
    if a in cp && cp[a].None? && a in cache && !cache[a].dirty {
      assert r[a] == cache[a];
    }
  }

  /** Where every account of the snapshot still exists, none was killed. */
  lemma GrownKillsNone(trie: View, cache: LocalCache, cp: Checkpoint)
    requires Undo(trie, ViewOf(trie, cache), cp).Keys <= ViewOf(trie, cache).Keys
    ensures NoneKilled(cache, cp)
  {
    forall a | a in cp && cp[a].Some? && cp[a].value.account.Some? && a in cache
      ensures cache[a].account.Some?
    {
      UndoAt(trie, ViewOf(trie, cache), cp, a);
      ViewAt(trie, cache, a);
    }
  }

  /**
   * Reverting restores the snapshot if and only if no account that existed at the checkpoint has been
   * killed since.
   */
  lemma RevertRestoresIff(trie: View, cache: LocalCache, cp: Checkpoint)
    requires CleanCache(trie, cache)
    ensures ViewOf(trie, Reverted(cache, cp)) == Undo(trie, ViewOf(trie, cache), cp) <==> NoneKilled(cache, cp)
  {
    var l, r := ViewOf(trie, Reverted(cache, cp)), Undo(trie, ViewOf(trie, cache), cp);
    forall a
      ensures At(l, a) == Seen(trie, Reverted(cache, cp), a)
      ensures At(r, a) == if a in cp then Recorded(trie, cp, a) else Seen(trie, cache, a)
    {
      ViewAt(trie, Reverted(cache, cp), a);
      UndoAt(trie, ViewOf(trie, cache), cp, a);
      ViewAt(trie, cache, a);
    }
    if NoneKilled(cache, cp) {
      forall a
        ensures At(l, a) == At(r, a)
      {
        RevertedSeen(trie, cache, cp, a);
      }
      SameView(l, r);
    } else {
      var a :| a in cp && cp[a].Some? && cp[a].value.account.Some? && a in cache && cache[a].account.None?;
      RevertedSeen(trie, cache, cp, a);
      assert At(l, a) != At(r, a);
    }
  }

  lemma RevertedClean(trie: View, cache: LocalCache, cp: Checkpoint)
    requires CleanCache(trie, cache) && CleanCheckpoint(trie, cp) && NoneKilled(cache, cp)
    ensures CleanCache(trie, Reverted(cache, cp))
  {
  }

  /** A killed account does not come back: an account killed after the checkpoint stays gone. */
  lemma KilledStaysGone(a: Address, account: Account)
    ensures var trie: View := map[a := account];
            var cp: Checkpoint := map[a := Some(AccountEntry(Some(account), false))];
            var cache: LocalCache := map[a := AccountEntry(None, true)];
            && CleanCache(trie, cache) && CleanCheckpoint(trie, cp)
            && a in Undo(trie, ViewOf(trie, cache), cp)
            && a !in ViewOf(trie, Reverted(cache, cp))
  {
    var trie: View := map[a := account];
    var cp: Checkpoint := map[a := Some(AccountEntry(Some(account), false))];
    var cache: LocalCache := map[a := AccountEntry(None, true)];
    UndoAt(trie, ViewOf(trie, cache), cp, a);
    RevertedSeen(trie, cache, cp, a);
    ViewAt(trie, Reverted(cache, cp), a);
  }

  /** No account disappears from one snapshot to the next, nor from the last one to the present. */
  ghost predicate Growing(s: seq<View>, v: View) {
    && (forall i, j :: 0 <= i <= j < |s| ==> s[i].Keys <= s[j].Keys)
    && (forall i :: 0 <= i < |s| ==> s[i].Keys <= v.Keys)
  }

  ghost predicate CleanStack(trie: View, cps: seq<Checkpoint>) {
    forall i :: 0 <= i < |cps| ==> CleanCheckpoint(trie, cps[i])
  }

  /** Replacing the top checkpoint by one that undoes to the same view changes no snapshot. */
  lemma SnapshotsSame(trie: View, v: View, v': View, cps: seq<Checkpoint>, cps': seq<Checkpoint>)
    requires |cps| == |cps'| > 0 && cps[..|cps| - 1] == cps'[..|cps| - 1]
    requires Undo(trie, v, cps[|cps| - 1]) == Undo(trie, v', cps'[|cps| - 1])
    ensures SnapshotsOf(trie, v, cps) == SnapshotsOf(trie, v', cps')
  {
  }

  /** Adding an entry for `a` to the cache. */
  lemma ViewWith(trie: View, cache: LocalCache, a: Address, entry: AccountEntry)
    ensures ViewOf(trie, cache[a := entry]) == Put(ViewOf(trie, cache), a, entry.account)
  {
    var l, r := ViewOf(trie, cache[a := entry]), Put(ViewOf(trie, cache), a, entry.account);
    forall x
      ensures At(l, x) == At(r, x)
    {
      ViewAt(trie, cache[a := entry], x);
      ViewAt(trie, cache, x);
    }
    SameView(l, r);
  }

  /** The record of `a` in the top checkpoint, made on its first change. */
  function NoteIn(cps: seq<Checkpoint>, a: Address, saved: Option<AccountEntry>): seq<Checkpoint> {
    if cps == [] then cps
    else
      var n := |cps| - 1;
      if a in cps[n] then cps else cps[n := cps[n][a := saved]]
  }

  /** Changing an account after noting it changes the view at that account and no snapshot. */
  lemma NotedChange(trie: View, cache: LocalCache, cps: seq<Checkpoint>, a: Address, entry: AccountEntry)
    requires CleanCache(trie, cache) && CleanStack(trie, cps) && entry.dirty
    ensures var saved := if a in cache then Some(cache[a]) else None;
            var cps', v := NoteIn(cps, a, saved), ViewOf(trie, cache);
            && CleanCache(trie, cache[a := entry]) && CleanStack(trie, cps')
            && ViewOf(trie, cache[a := entry]) == Put(v, a, entry.account)
            && SnapshotsOf(trie, ViewOf(trie, cache[a := entry]), cps') == SnapshotsOf(trie, v, cps)
  {
    var saved := if a in cache then Some(cache[a]) else None;
    ViewWith(trie, cache, a, entry);
    ViewAt(trie, cache, a);
    NotedSnapshots(trie, ViewOf(trie, cache), cps, a, saved, entry.account);
    NotedClean(trie, cps, a, saved);
  }

  /** Noting what an account was keeps the snapshots when the account changes. */
  lemma NotedSnapshots(trie: View, v: View, cps: seq<Checkpoint>, a: Address, saved: Option<AccountEntry>,
                       account: Option<Account>)
    requires At(v, a) == if saved.Some? then saved.value.account else At(trie, a)
    ensures SnapshotsOf(trie, Put(v, a, account), NoteIn(cps, a, saved)) == SnapshotsOf(trie, v, cps)
  {
    if cps != [] {
      var n, cps' := |cps| - 1, NoteIn(cps, a, saved);
      UndoRecorded(trie, v, cps[n], cps'[n], a, account);
      SnapshotsSame(trie, v, Put(v, a, account), cps, cps');
    }
  }

  lemma NotedClean(trie: View, cps: seq<Checkpoint>, a: Address, saved: Option<AccountEntry>)
    requires CleanStack(trie, cps) && (saved.Some? && !saved.value.dirty ==> saved.value.account == At(trie, a))
    ensures CleanStack(trie, NoteIn(cps, a, saved))
  {
    var cps' := NoteIn(cps, a, saved);
    forall i | 0 <= i < |cps'|
      ensures CleanCheckpoint(trie, cps'[i])
    {
      assert CleanCheckpoint(trie, cps[i]);
    }
  }

  class State {
    /** The accounts of the trie at the current root. */
    const trie: View
    const startNonce: nat
    var cache: LocalCache
    var checkpoints: seq<Checkpoint>

    ghost function View(): View
      reads this
    {
      ViewOf(trie, cache)
    }

    ghost function Snapshots(): seq<View>
      reads this
    {
      SnapshotsOf(trie, View(), checkpoints)
    }

    ghost predicate Clean()
      reads this
    {
      CleanCache(trie, cache) && CleanStack(trie, checkpoints)
    }

    ghost predicate Valid()
      reads this
    {
      Clean() && Growing(Snapshots(), View())
    }

    constructor (trie: View, startNonce: nat)
      ensures Valid() && View() == trie && checkpoints == [] && this.trie == trie && this.startNonce == startNonce
    {
      this.trie, this.startNonce := trie, startNonce;
      cache, checkpoints := map[], [];
      new;
      forall a
        ensures At(View(), a) == At(trie, a)
      {
        ViewAt(trie, cache, a);
      }
      SameView(View(), trie);
    }

    /** The account at `a`, if there is one. */
    function Lookup(a: Address): (r: Option<Account>)
      reads this
      ensures r == At(View(), a)
    {
      ViewAt(trie, cache, a);
      Seen(trie, cache, a)
    }

    method Checkpoint()
      requires Clean()
      modifies this`checkpoints
      ensures Clean() && Snapshots() == old(Snapshots()) + [View()] && |checkpoints| == old(|checkpoints|) + 1
    {
      UndoNothing(trie, View());
      ghost var cps := checkpoints;
      checkpoints := checkpoints + [map[]];
      assert checkpoints[..|cps|] == cps;
    }

    /** Merge the last checkpoint into the previous one: the present stays, one snapshot goes. */
    method DiscardCheckpoint()
      requires Clean()
      modifies this`checkpoints
      ensures Clean()
      ensures checkpoints == [] <==> old(|checkpoints|) <= 1
      ensures old(checkpoints) != [] ==> Snapshots() == old(Snapshots())[..|old(checkpoints)| - 1]
    {
      if |checkpoints| > 0 {
        var n := |checkpoints| - 1;
        var last := checkpoints[n];
        ghost var cps, v := checkpoints, View();
        checkpoints := checkpoints[..n];
        if n > 0 {
          var prev := checkpoints[n - 1];
          UndoMerged(trie, v, prev, last);
          assert CleanCheckpoint(trie, cps[n]) && CleanCheckpoint(trie, cps[n - 1]);
          checkpoints := checkpoints[n - 1 := if prev == map[] then last else last + prev];
          assert prev == map[] ==> last + prev == last;
          SnapshotsSame(trie, Undo(trie, v, last), v, cps[..n], checkpoints);
        }
      }
    }

    /**
     * Go back to the last checkpoint. The snapshot comes back if and only if no account it holds was killed
     * since, and then the snapshots below stay too; in a valid state none was.
     */
    method RevertToCheckpoint()
      requires Clean() && checkpoints != []
      modifies this
      ensures |checkpoints| == old(|checkpoints|) - 1
      ensures View() == old(Snapshots()[|checkpoints| - 1]) <==> old(NoneKilled(cache, checkpoints[|checkpoints| - 1]))
      ensures old(NoneKilled(cache, checkpoints[|checkpoints| - 1])) ==>
                Clean() && Snapshots() == old(Snapshots())[..|old(checkpoints)| - 1]
      ensures old(Valid()) ==>
                && Valid()
                && View() == old(Snapshots()[|checkpoints| - 1])
                && Snapshots() == old(Snapshots())[..|old(checkpoints)| - 1]
    {
      var n := |checkpoints| - 1;
      var checkpoint := checkpoints[n];
      ghost var s, v, valid := Snapshots(), View(), Valid();
      assert s[n] == Undo(trie, v, checkpoint);
      if valid {
        GrownKillsNone(trie, cache, checkpoint);
      }
      RevertRestoresIff(trie, cache, checkpoint);
      ghost var kept := NoneKilled(cache, checkpoint);
      if kept {
        RevertedClean(trie, cache, checkpoint);
      }
      checkpoints := checkpoints[..n];
      cache := Reverted(cache, checkpoint);
      if kept {
        assert Snapshots() == s[..n] && forall i :: 0 <= i < n ==> s[..n][i] == s[i];
      }
    }

    /** `insert_cache` of a dirty entry: the old entry is what the checkpoint records. */
    method InsertDirty(a: Address, account: Option<Account>)
      requires Clean()
      modifies this
      ensures Clean() && View() == Put(old(View()), a, account) && Snapshots() == old(Snapshots())
    {
      NotedChange(trie, cache, checkpoints, a, AccountEntry(account, true));
      checkpoints := NoteIn(checkpoints, a, if a in cache then Some(cache[a]) else None);
      cache := cache[a := AccountEntry(account, true)];
    }

    /**
     * `require` and the write through the reference it returns: load the account into the cache if it is
     * not there, note it, and store the new value.
     */
    method Update(a: Address, account: Account)
      requires Clean()
      modifies this
      ensures Clean() && View() == old(View())[a := account] && Snapshots() == old(Snapshots())
    {
      if a !in cache {
        ViewWith(trie, cache, a, AccountEntry(At(trie, a), false));
        ViewAt(trie, cache, a);
        SameView(Put(View(), a, At(trie, a)), View());
        cache := cache[a := AccountEntry(At(trie, a), false)];
      }
      NotedChange(trie, cache, checkpoints, a, AccountEntry(Some(account), true));
      checkpoints := NoteIn(checkpoints, a, Some(cache[a]));
      cache := cache[a := AccountEntry(Some(account), true)];
    }

    function Balance(a: Address): (r: nat)
      reads this
      ensures r == BalanceOf(View(), a)
    {
      var account := Lookup(a);
      if account.Some? then account.value.balance else 0
    }

    /** The account at `a`, or the fresh one `require` would create. */
    function Required(a: Address): (r: Account)
      reads this
      ensures r == Fetch(View(), startNonce, a)
    {
      var account := Lookup(a);
      if account.Some? then account.value else NewAccount(0, startNonce)
    }

    /** Adding nothing creates the account if that is forced, and touches it if that is tracked. */
    method AddBalance(a: Address, incr: nat, touched: set<Address>, mode: CleanupMode) returns (touched': set<Address>)
      requires Valid()
      modifies this
      ensures Valid() && Snapshots() == old(Snapshots())
      ensures View() == if mode.ForceCreate? && a !in old(View()) then
                          old(View())[a := NewAccount(incr, startNonce)]
                        else Credited(old(View()), startNonce, a, incr)
      ensures touched' == if mode.TrackTouched? && incr == 0 && a in old(View()) then touched + {a} else touched
    {
      touched' := touched;
      if incr != 0 || (mode.ForceCreate? && Lookup(a).None?) {
        Update(a, Required(a).(balance := Balance(a) + incr));
      } else if mode.TrackTouched? {
        if Lookup(a).Some? {
          touched' := touched + {a};
          Update(a, Required(a));
        }
      }
    }

    method SubBalance(a: Address, decr: nat, touched: set<Address>, mode: CleanupMode) returns (touched': set<Address>)
      requires Valid() && decr <= BalanceOf(View(), a)
      modifies this
      ensures Valid() && Snapshots() == old(Snapshots())
      ensures View() == Debited(old(View()), startNonce, a, decr)
      ensures touched' == if mode.TrackTouched? then touched + {a} else touched
    {
      if decr != 0 || Lookup(a).None? {
        Update(a, Required(a).(balance := Balance(a) - decr));
      }
      touched' := if mode.TrackTouched? then touched + {a} else touched;
    }

    method TransferBalance(from: Address, to: Address, amount: nat, touched: set<Address>)
      returns (touched': set<Address>)
      requires Valid() && amount <= BalanceOf(View(), from)
      modifies this
      ensures Valid() && Snapshots() == old(Snapshots())
      ensures View() == Transferred(old(View()), startNonce, from, to, amount)
      ensures touched' == touched + TransferTouches(old(View()), startNonce, from, to, amount)
    {
      touched' := SubBalance(from, amount, touched, TrackTouched);
      touched' := AddBalance(to, amount, touched', TrackTouched);
    }

    method IncrementNonce(a: Address)
      requires Valid()
      modifies this
      ensures Valid() && Snapshots() == old(Snapshots()) && View() == IncNonce(old(View()), startNonce, a)
    {
      var account := Required(a);
      Update(a, account.(nonce := account.nonce + 1));
    }

    method StoreValue(a: Address, key: Bytes, value: Bytes)
      requires Valid()
      modifies this
      ensures Valid() && Snapshots() == old(Snapshots()) && View() == SetStorage(old(View()), startNonce, a, key, value)
    {
      var account := Required(a);
      Update(a, account.(changes := account.changes[key := StorageTag(value)]));
    }

    method StoreCode(a: Address, code: Bytes)
      requires Valid()
      modifies this
      ensures Valid() && Snapshots() == old(Snapshots()) && View() == InitCode(old(View()), startNonce, a, code)
    {
      Update(a, Required(a).(code := code));
    }

    /** Whatever was at the address is replaced. */
    method NewContract(a: Address, balance: nat, nonceOffset: nat)
      requires Valid()
      modifies this
      ensures Valid() && Snapshots() == old(Snapshots())
      ensures View() == old(View())[a := NewAccount(balance, startNonce + nonceOffset)]
    {
      InsertDirty(a, Some(NewAccount(balance, startNonce + nonceOffset)));
    }

    /** Removes the account; only what holds without the account is kept. */
    method KillAccount(a: Address)
      requires Clean()
      modifies this
      ensures Clean() && Snapshots() == old(Snapshots()) && View() == old(View()) - {a}
    {
      InsertDirty(a, None);
    }
  }
}
