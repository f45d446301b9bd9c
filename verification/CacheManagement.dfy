/**
 * Which cached items were used recently: eight buckets of ids, the first one for the latest
 * (core/src/cache_manager.rs).
 */
module CacheManagement {
  const COLLECTION_QUEUE_SIZE: nat := 8

  ghost function Union<T>(buckets: seq<set<T>>): set<T> {
    set i, x | 0 <= i < |buckets| && x in buckets[i] :: x
  }

  /** No id is in two buckets. */
  ghost predicate Disjoint<T>(buckets: seq<set<T>>) {
    forall i, j :: 0 <= i < j < |buckets| ==> buckets[i] !! buckets[j]
  }

  function Empties<T>(n: nat): (s: seq<set<T>>)
    ensures |s| == n
    ensures forall i :: 0 <= i < n ==> s[i] == {}
  {
    seq(n, i => {})
  }

  /** Noting an id moves it, alone, to the first bucket. */
  ghost predicate Noted<T>(buckets: seq<set<T>>, id: T, buckets': seq<set<T>>) {
    && |buckets'| == |buckets| > 0
    && buckets'[0] == buckets[0] + {id}
    && forall i :: 0 < i < |buckets| ==> buckets'[i] == buckets[i] - {id}
  }

  lemma NotedKeeps<T>(buckets: seq<set<T>>, id: T, buckets': seq<set<T>>)
    requires Disjoint(buckets) && Noted(buckets, id, buckets')
    ensures Disjoint(buckets') && Union(buckets') == Union(buckets) + {id}
  {
    forall x
      ensures x in Union(buckets') <==> x in Union(buckets) || x == id
    {
      if x in Union(buckets) && x != id {
        var i :| 0 <= i < |buckets| && x in buckets[i];
        assert x in buckets'[i];
      }
      assert id in buckets'[0];
    }
  }

  /** Handing the last `k` buckets to the evictor, oldest first, and starting as many empty ones. */
  ghost predicate Collected<T>(buckets: seq<set<T>>, k: nat, evicted: seq<set<T>>, buckets': seq<set<T>>) {
    && k <= |buckets| && |evicted| == k
    && (forall i :: 0 <= i < k ==> evicted[i] == buckets[|buckets| - 1 - i])
    && buckets' == Empties(k) + buckets[..|buckets| - k]
  }

  /** An id is dropped only by being handed to the evictor, and every id handed over is dropped. */
  lemma CollectedKeeps<T>(buckets: seq<set<T>>, k: nat, evicted: seq<set<T>>, buckets': seq<set<T>>)
    requires Disjoint(buckets) && Collected(buckets, k, evicted, buckets')
    ensures |buckets'| == |buckets| && Disjoint(buckets')
    ensures Union(buckets) == Union(buckets') + Union(evicted) && Union(buckets') !! Union(evicted)
  {
    var n := |buckets|;
    forall i | 0 <= i < n
      ensures buckets'[i] == if i < k then {} else buckets[i - k]
    {
    }
    forall x
      ensures x in Union(buckets) <==> x in Union(buckets') || x in Union(evicted)
      ensures !(x in Union(buckets') && x in Union(evicted))
    {
      if x in Union(buckets) {
        var i :| 0 <= i < n && x in buckets[i];
        if i < n - k {
          assert x in buckets'[i + k];
        } else {
          assert x in evicted[n - 1 - i];
        }
      }
      if x in Union(buckets') {
        var i :| 0 <= i < n && x in buckets'[i];
        assert x in buckets[i - k];
      }
      if x in Union(evicted) {
        var j :| 0 <= j < k && x in evicted[j];
        assert x in buckets[n - 1 - j];
      }
    }
  }

  /** One more bucket goes. */
  lemma CollectedStep<T>(buckets: seq<set<T>>, k: nat, evicted: seq<set<T>>, buckets': seq<set<T>>)
    requires Collected(buckets, k, evicted, buckets') && k < |buckets|
    ensures |buckets'| == |buckets|
    ensures Collected(buckets, k + 1, evicted + [buckets'[|buckets'| - 1]], [{}] + buckets'[..|buckets'| - 1])
  {
    var n := |buckets|;
    assert buckets'[n - 1] == buckets[n - 1 - k];
    assert [{}] + buckets'[..n - 1] == Empties(k + 1) + buckets[..n - (k + 1)];
  }

  /** After each of the first `n` evictions the size was still at least `max`. */
  ghost predicate StillTooLarge<T>(sizeAfter: set<T> -> nat, evicted: seq<set<T>>, max: nat, n: nat)
    requires n <= |evicted|
  {
    forall k :: 0 < k <= n ==> sizeAfter(Union(evicted[..k])) >= max
  }

  lemma StillTooLargeStep<T>(sizeAfter: set<T> -> nat, evicted: seq<set<T>>, max: nat, back: set<T>)
    requires StillTooLarge(sizeAfter, evicted, max, |evicted|)
    ensures StillTooLarge(sizeAfter, evicted + [back], max, |evicted|)
    ensures sizeAfter(Union(evicted + [back])) >= max ==> StillTooLarge(sizeAfter, evicted + [back], max, |evicted| + 1)
  {
    var longer := evicted + [back];
    assert longer[..|evicted| + 1] == longer;
    forall k | 0 < k <= |evicted|
      ensures longer[..k] == evicted[..k]
    {
    }
  }

  /** If the first bucket is over its share, the last one has come to the front. */
  ghost predicate Rotated<T>(buckets: seq<set<T>>, bytesPerEntry: nat, prefSize: nat, buckets': seq<set<T>>) {
    var n := |buckets| - 1;
    n >= 0 && buckets' ==
              if |buckets[0]| * bytesPerEntry > prefSize / COLLECTION_QUEUE_SIZE
              then [buckets[n]] + buckets[..n] else buckets
  }

  /** The oldest buckets were handed over, at least one, until the size was below the maximum. */
  ghost predicate Evicted<T>(sizeAfter: set<T> -> nat, buckets: seq<set<T>>, max: nat,
                             evicted: seq<set<T>>, buckets': seq<set<T>>) {
    && 1 <= |evicted| <= COLLECTION_QUEUE_SIZE && Collected(buckets, |evicted|, evicted, buckets')
    && (|evicted| < COLLECTION_QUEUE_SIZE ==> sizeAfter(Union(evicted)) < max)
    && StillTooLarge(sizeAfter, evicted, max, |evicted| - 1)
  }

  class CacheManager<T(==)> {
    const prefCacheSize: nat
    const maxCacheSize: nat
    const bytesPerCacheEntry: nat
    var cacheUsage: seq<set<T>>

    ghost predicate Valid()
      reads this
    {
      |cacheUsage| == COLLECTION_QUEUE_SIZE && Disjoint(cacheUsage)
    }

    constructor (prefCacheSize: nat, maxCacheSize: nat, bytesPerCacheEntry: nat)
      ensures Valid() && Union(cacheUsage) == {}
    {
      this.prefCacheSize, this.maxCacheSize, this.bytesPerCacheEntry := prefCacheSize, maxCacheSize, bytesPerCacheEntry;
      cacheUsage := Empties(COLLECTION_QUEUE_SIZE);
    }

    method NoteUsed(id: T)
      requires Valid()
      modifies this
      ensures Valid() && Union(cacheUsage) == old(Union(cacheUsage)) + {id}
      ensures Noted(old(cacheUsage), id, cacheUsage)
    {
      if id !in cacheUsage[0] {
        var i := 1;
        while i < |cacheUsage| && id !in cacheUsage[i]
          invariant 1 <= i <= |cacheUsage| && cacheUsage == old(cacheUsage)
          invariant forall j :: 1 <= j < i ==> id !in cacheUsage[j]
        {
          i := i + 1;
        }
        if i < |cacheUsage| {
          cacheUsage := cacheUsage[i := cacheUsage[i] - {id}];
        }
        cacheUsage := cacheUsage[0 := cacheUsage[0] + {id}];
      }
      NotedKeeps(old(cacheUsage), id, cacheUsage);
    }

    /**
     * `collect_garbage`. The evictor is `sizeAfter`: the size that remains once the given ids have been
     * handed over. Either the cache was small enough, and at most the buckets rotate, or the oldest
     * buckets go, at least one, until the size is below the maximum.
     */
    method CollectGarbage(currentSize: nat, sizeAfter: set<T> -> nat) returns (evicted: seq<set<T>>)
      requires Valid()
      modifies this
      ensures Valid()
      ensures old(Union(cacheUsage)) == Union(cacheUsage) + Union(evicted) && Union(cacheUsage) !! Union(evicted)
      ensures currentSize < prefCacheSize ==>
                evicted == [] && Rotated(old(cacheUsage), bytesPerCacheEntry, prefCacheSize, cacheUsage)
      ensures currentSize >= prefCacheSize ==>
                Evicted(sizeAfter, old(cacheUsage), maxCacheSize, evicted, cacheUsage)
    {
      if currentSize < prefCacheSize {
        RotateCacheIfNeeded();
        evicted := [];
      } else {
        evicted := EvictOldest(sizeAfter);
      }
    }

    method EvictOldest(sizeAfter: set<T> -> nat) returns (evicted: seq<set<T>>)
      requires Valid()
      modifies this
      ensures Valid()
      ensures old(Union(cacheUsage)) == Union(cacheUsage) + Union(evicted) && Union(cacheUsage) !! Union(evicted)
      ensures Evicted(sizeAfter, old(cacheUsage), maxCacheSize, evicted, cacheUsage)
    {
      evicted := [];
      ghost var start := cacheUsage;
      var removed: set<T> := {};
      var i := 0;
      var done := false;
      while i < COLLECTION_QUEUE_SIZE && !done
        invariant 0 <= i <= COLLECTION_QUEUE_SIZE && |evicted| == i && (i == 0 ==> !done)
        invariant Collected(start, i, evicted, cacheUsage) && removed == Union(evicted)
        invariant done ==> sizeAfter(removed) < maxCacheSize && StillTooLarge(sizeAfter, evicted, maxCacheSize, i - 1)
        invariant !done ==> StillTooLarge(sizeAfter, evicted, maxCacheSize, i)
        decreases COLLECTION_QUEUE_SIZE - i
      {
        CollectedStep(start, i, evicted, cacheUsage);
        var back := cacheUsage[|cacheUsage| - 1];
        StillTooLargeStep(sizeAfter, evicted, maxCacheSize, back);
        UnionGrow(evicted, back);
        evicted := evicted + [back];
        removed := removed + back;
        cacheUsage := [{}] + cacheUsage[..|cacheUsage| - 1];
        i := i + 1;
        done := sizeAfter(removed) < maxCacheSize;
      }
      CollectedKeeps(start, i, evicted, cacheUsage);
    }

    /** A full enough first bucket is pushed back by the oldest one, which comes to the front as it is. */
    method RotateCacheIfNeeded()
      requires Valid()
      modifies this
      ensures Valid() && Union(cacheUsage) == old(Union(cacheUsage))
      ensures Rotated(old(cacheUsage), bytesPerCacheEntry, prefCacheSize, cacheUsage)
    {
      if |cacheUsage[0]| * bytesPerCacheEntry > prefCacheSize / COLLECTION_QUEUE_SIZE {
        var n := |cacheUsage| - 1;
        ghost var before := cacheUsage;
        var cache := cacheUsage[n];
        cacheUsage := [cache] + cacheUsage[..n];
        RotatedKeeps(before, cacheUsage);
      }
    }
  }

  lemma UnionGrow<T>(s: seq<set<T>>, x: set<T>)
    ensures Union(s + [x]) == Union(s) + x
  {
    forall y
      ensures y in Union(s + [x]) <==> y in Union(s) || y in x
    {
      if y in Union(s) {
        var i :| 0 <= i < |s| && y in s[i];
        assert y in (s + [x])[i];
      }
      if y in x {
        assert y in (s + [x])[|s|];
      }
    }
  }

  lemma RotatedKeeps<T>(s: seq<set<T>>, r: seq<set<T>>)
    requires s != [] && r == [s[|s| - 1]] + s[..|s| - 1] && Disjoint(s)
    ensures Disjoint(r) && Union(r) == Union(s)
  {
    var n := |s| - 1;
    forall y
      ensures y in Union(r) <==> y in Union(s)
    {
      if y in Union(s) {
        var i :| 0 <= i <= n && y in s[i];
        assert y in r[if i == n then 0 else i + 1];
      }
      if y in Union(r) {
        var i :| 0 <= i <= n && y in r[i];
        assert y in s[if i == 0 then n else i - 1];
      }
    }
  }
}
