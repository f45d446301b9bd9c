/** Values shared by every component: optional results, hashes and the reference functions on sequences. */
module Basics {

  datatype Option<+T> = None | Some(value: T)

  datatype Result<+T, +E> = Ok(value: T) | Err(error: E)

  /** A 256-bit digest; only equality matters. */
  datatype Hash = Hash(id: nat)

  /** Addresses are digests too. */
  type Address = Hash

  /** `H256::default()`, which no block hashes to. */
  const ZERO_HASH := Hash(0)

  function Reversed<T>(s: seq<T>): (r: seq<T>)
    ensures |r| == |s|
    ensures forall i :: 0 <= i < |s| ==> r[i] == s[|s| - 1 - i]
  {
    seq(|s|, i requires 0 <= i < |s| => s[|s| - 1 - i])
  }

  lemma ReversedSame<T>(s: seq<T>)
    ensures forall x :: x in Reversed(s) <==> x in s
  {
    forall x | x in s
      ensures x in Reversed(s)
    {
      var i :| 0 <= i < |s| && s[i] == x;
      assert Reversed(s)[|s| - 1 - i] == x;
    }
  }

  function Max(a: nat, b: nat): nat {
    if a < b then b else a
  }

  ghost predicate NoDuplicates<T>(s: seq<T>) {
    forall i, j :: 0 <= i < j < |s| ==> s[i] != s[j]
  }

  lemma CutApart<T>(s: seq<T>, k: nat)
    requires NoDuplicates(s) && k <= |s|
    ensures s == s[..k] + s[k..]
    ensures forall x :: x in s[..k] ==> x !in s[k..]
  {
  }

  /** The elements of an end of a list are the later elements of the list. */
  lemma SuffixAt<T>(s: seq<T>, k: nat, i: nat)
    requires k <= i < |s|
    ensures s[k..][i - k] == s[i] && s[i] in s[k..]
  {
  }

  lemma SuffixPosition<T>(s: seq<T>, k: nat, x: T) returns (i: nat)
    requires k <= |s| && x in s[k..]
    ensures k <= i < |s| && s[i] == x
  {
    var j :| 0 <= j < |s[k..]| && s[k..][j] == x;
    i := k + j;
  }

  lemma ConsAt<T>(x: T, s: seq<T>, i: nat)
    requires 0 < i <= |s|
    ensures ([x] + s)[i] == s[i - 1]
  {
  }

  lemma SnocAt<T>(s: seq<T>, x: T, i: nat)
    requires i < |s|
    ensures (s + [x])[i] == s[i]
  {
  }

  /** Length of the longest common prefix. */
  function CommonPrefix<T(==)>(a: seq<T>, b: seq<T>): (c: nat)
    ensures c <= |a| && c <= |b|
  {
    CommonFrom(a, b, 0)
  }

  function CommonFrom<T(==)>(a: seq<T>, b: seq<T>, i: nat): (c: nat)
    requires i <= |a| && i <= |b|
    ensures i <= c <= |a| && c <= |b|
    decreases |a| - i
  {
    if i < |a| && i < |b| && a[i] == b[i] then CommonFrom(a, b, i + 1) else i
  }

  lemma PrefixAgrees<T>(a: seq<T>, b: seq<T>, c: nat)
    requires c <= |a| && c <= |b| && a[..c] == b[..c]
    ensures forall i :: 0 <= i < c ==> a[i] == b[i]
  {
    forall i | 0 <= i < c
      ensures a[i] == b[i]
    {
      assert a[i] == a[..c][i] && b[i] == b[..c][i];
    }
  }

  lemma {:induction false} CommonFromIsLongest<T>(a: seq<T>, b: seq<T>, i: nat)
    requires i <= |a| && i <= |b| && a[..i] == b[..i]
    ensures var c := CommonFrom(a, b, i); a[..c] == b[..c] && (c < |a| && c < |b| ==> a[c] != b[c])
    decreases |a| - i
  {
    if i < |a| && i < |b| && a[i] == b[i] {
      assert a[..i + 1] == a[..i] + [a[i]] && b[..i + 1] == b[..i] + [b[i]];
      CommonFromIsLongest(a, b, i + 1);
    }
  }

  /** The common prefix is common, and cannot be extended. */
  lemma CommonPrefixIsLongest<T>(a: seq<T>, b: seq<T>)
    ensures var c := CommonPrefix(a, b);
            a[..c] == b[..c] && (c < |a| && c < |b| ==> a[c] != b[c])
  {
    CommonFromIsLongest(a, b, 0);
  }

  /** No other length has that property. */
  lemma CommonPrefixUnique<T>(a: seq<T>, b: seq<T>, c: nat)
    requires c <= |a| && c <= |b| && a[..c] == b[..c]
    requires c < |a| && c < |b| ==> a[c] != b[c]
    ensures c == CommonPrefix(a, b)
  {
    var d := CommonPrefix(a, b);
    CommonPrefixIsLongest(a, b);
    PrefixAgrees(a, b, c);
    PrefixAgrees(a, b, d);
  }

  /** Appending to a sequence and reversing puts the new elements first. */
  lemma {:induction false} ReversedAppend<T>(s: seq<T>, t: seq<T>)
    ensures Reversed(s + t) == Reversed(t) + Reversed(s)
  {
    var l, r := Reversed(s + t), Reversed(t) + Reversed(s);
    forall i | 0 <= i < |l|
      ensures l[i] == r[i]
    {
      assert l[i] == (s + t)[|s + t| - 1 - i];
    }
    assert l == r;
  }

  lemma ReversedTwice<T>(s: seq<T>)
    ensures Reversed(Reversed(s)) == s
  {
    var r := Reversed(Reversed(s));
    forall i | 0 <= i < |s|
      ensures r[i] == s[i]
    {
      assert r[i] == Reversed(s)[|s| - 1 - i];
    }
  }

  lemma Associate<T>(a: seq<T>, b: seq<T>, c: seq<T>)
    ensures a + b + c == a + (b + c)
  {
  }

  lemma MapAddOne<K, V>(m: map<K, V>, k: K, v: V)
    ensures m + map[k := v] == m[k := v]
  {
  }

  lemma MapRemoveTwice<K, V>(m: map<K, V>, s: set<K>, t: set<K>)
    ensures m - s - t == m - (s + t)
  {
  }
}
