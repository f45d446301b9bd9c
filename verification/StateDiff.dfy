/**
 * Differences between two plain states, and when they suffice to rebuild one from the other
 * (core/src/pod_account.rs, core/src/pod_state.rs).
 */
module StateDiff {
  import opened Basics

  type Bytes = seq<nat>

  datatype PodAccount = PodAccount(balance: nat, nonce: nat, code: Option<Bytes>, storage: map<Bytes, Bytes>)

  datatype Diff<T> = Same | Born(value: T) | Died(value: T) | Changed(from: T, to: T)

  datatype AccountDiff = AccountDiff(balance: Diff<nat>, nonce: Diff<nat>, code: Diff<Bytes>,
                                     storage: map<Bytes, Diff<Bytes>>)

  type PodState = map<Address, PodAccount>

  /** `Diff::new`. */
  function DiffOf<T(==)>(pre: T, post: T): Diff<T> {
    if pre == post then Same else Changed(pre, post)
  }

  /** A missing storage value reads as an empty one. */
  function Stored(a: PodAccount, k: Bytes): Bytes {
    if k in a.storage then a.storage[k] else []
  }

  function StorageDiff(pre: PodAccount, post: PodAccount): map<Bytes, Diff<Bytes>> {
    map k | k in pre.storage.Keys + post.storage.Keys && Stored(pre, k) != Stored(post, k) ::
      DiffOf(Stored(pre, k), Stored(post, k))
  }

  function CodeDiff(pre: Option<Bytes>, post: Option<Bytes>): Diff<Bytes> {
    if pre.Some? && post.Some? then DiffOf(pre.value, post.value) else Same
  }

  /** An account that is created or deleted must have its code at hand. */
  predicate CodeKnown(pre: Option<PodAccount>, post: Option<PodAccount>) {
    && (pre.None? && post.Some? ==> post.value.code.Some?)
    && (pre.Some? && post.None? ==> pre.value.code.Some?)
  }

  /** `pod_account::diff_pod`. */
  function DiffAccount(pre: Option<PodAccount>, post: Option<PodAccount>): Option<AccountDiff>
    requires CodeKnown(pre, post)
  {
    match (pre, post)
    case (None, None) => None
    case (None, Some(x)) =>
      Some(AccountDiff(Born(x.balance), Born(x.nonce), Born(x.code.value),
                       map k | k in x.storage :: Born(x.storage[k])))
    case (Some(x), None) =>
      Some(AccountDiff(Died(x.balance), Died(x.nonce), Died(x.code.value),
                       map k | k in x.storage :: Died(x.storage[k])))
    case (Some(x), Some(y)) =>
      var r := AccountDiff(DiffOf(x.balance, y.balance), DiffOf(x.nonce, y.nonce), CodeDiff(x.code, y.code),
                           StorageDiff(x, y));
      if r.balance.Same? && r.nonce.Same? && r.code.Same? && r.storage == map[] then None else Some(r)
  }

  /** `pod_state::diff_pod`. */
  function DiffState(pre: PodState, post: PodState): map<Address, AccountDiff>
    requires AllCodeKnown(pre, post)
  {
    map a | a in pre.Keys + post.Keys && DiffAccount(Find(pre, a), Find(post, a)).Some? ::
      DiffAccount(Find(pre, a), Find(post, a)).value
  }

  function Find(s: PodState, a: Address): Option<PodAccount> {
    if a in s then Some(s[a]) else None
  }

  predicate AllCodeKnown(pre: PodState, post: PodState) {
    forall a :: a in pre.Keys + post.Keys ==> CodeKnown(Find(pre, a), Find(post, a))
  }

  // ---------------------------------------------------------------------------------------------
  // Applying a difference

  /** What a difference says the value becomes. */
  function Applied<T>(before: T, d: Diff<T>): T {
    match d
    case Same => before
    case Born(x) => x
    case Died(x) => x
    case Changed(_, x) => x
  }

  /** Storage with the changed values written; writing an empty value removes the key. */
  function PatchedStorage(storage: map<Bytes, Bytes>, d: map<Bytes, Diff<Bytes>>): map<Bytes, Bytes> {
    map k | k in storage.Keys + d.Keys && (k in d ==> Applied([], d[k]) != []) ::
      if k in d then Applied([], d[k]) else storage[k]
  }

  function PatchedAccount(pre: Option<PodAccount>, d: Option<AccountDiff>): Option<PodAccount> {
    match (pre, d)
    case (_, None) => pre
    case (None, Some(x)) =>
      Some(PodAccount(Applied(0, x.balance), Applied(0, x.nonce), Some(Applied([], x.code)),
                      map k | k in x.storage :: Applied([], x.storage[k])))
    case (Some(y), Some(x)) =>
      if x.balance.Died? then None
      else Some(PodAccount(
        Applied(y.balance, x.balance), Applied(y.nonce, x.nonce),
        if x.code.Same? then y.code else Some(Applied([], x.code)), PatchedStorage(y.storage, x.storage)))
  }

  function PatchedState(pre: PodState, d: map<Address, AccountDiff>): PodState {
    map a | a in pre.Keys + d.Keys && PatchedAccount(Find(pre, a), FindDiff(d, a)).Some? ::
      PatchedAccount(Find(pre, a), FindDiff(d, a)).value
  }

  function FindDiff(d: map<Address, AccountDiff>, a: Address): Option<AccountDiff> {
    if a in d then Some(d[a]) else None
  }

  // ---------------------------------------------------------------------------------------------
  // When a difference is enough

  /** Between two accounts the code is known on both sides or unchanged, and empty storage values do not come or go. */
  ghost predicate Faithful(pre: PodAccount, post: PodAccount) {
    && ((pre.code.Some? && post.code.Some?) || pre.code == post.code)
    && forall k :: EmptyKept(pre.storage, post.storage, k)
  }

  ghost predicate EmptyKept(pre: map<Bytes, Bytes>, post: map<Bytes, Bytes>, k: Bytes) {
    && (k in post && post[k] == [] ==> k in pre && pre[k] == [])
    && (k in pre && pre[k] == [] ==> k in post)
  }

  lemma PatchedStorageAt(pre: PodAccount, post: PodAccount, k: Bytes)
    ensures var r := PatchedStorage(pre.storage, StorageDiff(pre, post));
            EmptyKept(pre.storage, post.storage, k) <==>
              (k in r <==> k in post.storage) && (k in r ==> r[k] == post.storage[k])
  {
    var d := StorageDiff(pre, post);
    if k in d {
      assert Applied([], d[k]) == Stored(post, k);
    }
  }

  /** Writing the difference gives the new storage exactly when empty values do not come or go. */
  lemma PatchedStorageIff(pre: PodAccount, post: PodAccount)
    ensures PatchedStorage(pre.storage, StorageDiff(pre, post)) == post.storage <==>
            forall k :: EmptyKept(pre.storage, post.storage, k)
  {
    var r := PatchedStorage(pre.storage, StorageDiff(pre, post));
    forall k
      ensures EmptyKept(pre.storage, post.storage, k) <==>
              (k in r <==> k in post.storage) && (k in r ==> r[k] == post.storage[k])
    {
      PatchedStorageAt(pre, post, k);
    }
    if forall k :: EmptyKept(pre.storage, post.storage, k) {
      forall k
        ensures (k in r <==> k in post.storage) && (k in r ==> r[k] == post.storage[k])
      {
        assert EmptyKept(pre.storage, post.storage, k);
      }
      assert r == post.storage;
    }
  }

  lemma NoStorageDiff(pre: PodAccount, post: PodAccount)
    requires StorageDiff(pre, post) == map[]
    ensures PatchedStorage(pre.storage, map[]) == pre.storage
  {
  }

  /**
   * An account difference rebuilds the new account from the old one if and only if it is faithful; creations
   * and deletions always are.
   */
  lemma AccountRoundTripIff(pre: Option<PodAccount>, post: Option<PodAccount>)
    requires CodeKnown(pre, post)
    ensures PatchedAccount(pre, DiffAccount(pre, post)) == post <==>
            (pre.Some? && post.Some? ==> Faithful(pre.value, post.value))
  {
    match (pre, post)
    case (None, Some(x)) =>
      var d := DiffAccount(pre, post).value;
      assert (map k | k in d.storage :: Applied([], d.storage[k])) == x.storage;
    case (Some(x), Some(y)) =>
      PatchedStorageIff(x, y);
      if DiffAccount(pre, post).None? {
        NoStorageDiff(x, y);
      }
    case _ =>
  }

  /** The same for whole states. */
  lemma StateRoundTripIff(pre: PodState, post: PodState)
    requires AllCodeKnown(pre, post)
    ensures PatchedState(pre, DiffState(pre, post)) == post <==>
            forall a :: a in pre && a in post ==> Faithful(pre[a], post[a])
  {
    var d := DiffState(pre, post);
    var r := PatchedState(pre, d);
    forall a
      ensures Find(r, a) == Find(post, a) <==> (a in pre && a in post ==> Faithful(pre[a], post[a]))
    {
      PatchedAt(pre, post, a);
      if a in pre.Keys + post.Keys {
        AccountRoundTripIff(Find(pre, a), Find(post, a));
      }
    }
    if forall a :: a in pre && a in post ==> Faithful(pre[a], post[a]) {
      forall a
        ensures Find(r, a) == Find(post, a)
      {
      }
      SameState(r, post);
    } else {
      var a :| a in pre && a in post && !Faithful(pre[a], post[a]);
      assert Find(r, a) != Find(post, a);
    }
  }

  /** An empty storage value that appears is not in the difference, so the new state is not rebuilt. */
  lemma EmptyValueIsLost(a: Address)
    ensures var pre := map[a := PodAccount(0, 0, Some([]), map[])];
            var post := map[a := PodAccount(0, 0, Some([]), map[[1] := []])];
            AllCodeKnown(pre, post) && DiffState(pre, post) == map[] && PatchedState(pre, DiffState(pre, post)) != post
  {
    var x, y := PodAccount(0, 0, Some([]), map[]), PodAccount(0, 0, Some([]), map[[1] := []]);
    var pre, post := map[a := x], map[a := y];
    assert StorageDiff(x, y) == map[];
    assert DiffAccount(Some(x), Some(y)) == None && Find(pre, a) == Some(x) && Find(post, a) == Some(y);
    assert forall other :: other in pre.Keys + post.Keys ==> other == a;
    assert DiffState(pre, post) == map[];
    assert !EmptyKept(x.storage, y.storage, [1]) && !Faithful(x, y);
    StateRoundTripIff(pre, post);
  }

  lemma PatchedAt(pre: PodState, post: PodState, a: Address)
    requires AllCodeKnown(pre, post)
    ensures CodeKnown(Find(pre, a), Find(post, a))
    ensures Find(PatchedState(pre, DiffState(pre, post)), a) ==
            PatchedAccount(Find(pre, a), DiffAccount(Find(pre, a), Find(post, a)))
  {
    assert a in pre.Keys + post.Keys || (Find(pre, a).None? && Find(post, a).None?);
    var d := DiffState(pre, post);
    assert FindDiff(d, a) == DiffAccount(Find(pre, a), Find(post, a));
  }

  lemma SameState(s: PodState, t: PodState)
    requires forall a :: Find(s, a) == Find(t, a)
    ensures s == t
  {
    forall a
      ensures a in s <==> a in t
      ensures a in s ==> s[a] == t[a]
    {
      assert Find(s, a) == Find(t, a);
    }
  }

  // ---------------------------------------------------------------------------------------------
  // Going back

  /** The difference read backwards. */
  function Inverse<T>(d: Diff<T>): Diff<T> {
    match d
    case Same => Same
    case Born(x) => Died(x)
    case Died(x) => Born(x)
    case Changed(x, y) => Changed(y, x)
  }

  function InverseAccount(d: AccountDiff): AccountDiff {
    AccountDiff(Inverse(d.balance), Inverse(d.nonce), Inverse(d.code), map k | k in d.storage :: Inverse(d.storage[k]))
  }

  function InverseState(d: map<Address, AccountDiff>): map<Address, AccountDiff> {
    map a | a in d :: InverseAccount(d[a])
  }

  lemma AccountDiffBack(pre: Option<PodAccount>, post: Option<PodAccount>)
    requires CodeKnown(pre, post)
    ensures CodeKnown(post, pre)
    ensures DiffAccount(post, pre).Some? <==> DiffAccount(pre, post).Some?
    ensures DiffAccount(pre, post).Some? ==>
              DiffAccount(post, pre).value == InverseAccount(DiffAccount(pre, post).value)
  {
    match (pre, post)
    case (None, None) =>
    case (None, Some(x)) =>
      assert (map k | k in x.storage :: Died(x.storage[k])) ==
             InverseAccount(DiffAccount(pre, post).value).storage;
    case (Some(x), None) =>
      assert (map k | k in x.storage :: Born(x.storage[k])) ==
             InverseAccount(DiffAccount(pre, post).value).storage;
    case (Some(x), Some(y)) =>
      var there, back := StorageDiff(x, y), StorageDiff(y, x);
      assert back == map k | k in there :: Inverse(there[k]);
      assert there.Keys == back.Keys;
  }

  /** The difference back is the inverse of the difference there: it holds the old values as well as the new. */
  lemma DiffBack(pre: PodState, post: PodState)
    requires AllCodeKnown(pre, post)
    ensures AllCodeKnown(post, pre) && DiffState(post, pre) == InverseState(DiffState(pre, post))
  {
    forall a | a in pre.Keys + post.Keys
      ensures CodeKnown(Find(post, a), Find(pre, a))
    {
      AccountDiffBack(Find(pre, a), Find(post, a));
    }
    var there, back := DiffState(pre, post), DiffState(post, pre);
    forall a
      ensures a in back <==> a in there
      ensures a in there ==> back[a] == InverseAccount(there[a])
    {
      if a in pre.Keys + post.Keys {
        AccountDiffBack(Find(pre, a), Find(post, a));
      }
    }
    assert back == InverseState(there);
  }

  /** A difference undoes itself, under the same condition the other way round. */
  lemma UndoIff(pre: PodState, post: PodState)
    requires AllCodeKnown(pre, post)
    ensures PatchedState(post, InverseState(DiffState(pre, post))) == pre <==>
            forall a :: a in pre && a in post ==> Faithful(post[a], pre[a])
  {
    DiffBack(pre, post);
    StateRoundTripIff(post, pre);
  }
}
