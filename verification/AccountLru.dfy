/**
 * The bounded cache of accounts behind the shared cache: least recently used entries go first
 * (core/src/db/state_db.rs, `AccountCache`).
 */
module AccountLru {
  import opened Basics
  import opened StateCache

  /** An LRU map: `order` lists the keys, least recently used first. */
  datatype Lru = Lru(capacity: nat, order: seq<Address>, entries: map<Address, Option<Account>>)

  function Without(order: seq<Address>, keys: set<Address>): seq<Address> {
    if order == [] then []
    else (if order[0] in keys then [] else [order[0]]) + Without(order[1..], keys)
  }

  function Remove(l: Lru, keys: set<Address>): Lru {
    Lru(l.capacity, Without(l.order, keys), l.entries - keys)
  }

  /** Look up a key, which makes it the most recently used. */
  function Touch(l: Lru, a: Address): Lru {
    if a in l.entries then l.(order := Without(l.order, {a}) + [a]) else l
  }

  /** Insert a key as the most recently used, evicting the least recently used one if there is no room. */
  function Put(l: Lru, a: Address, v: Option<Account>): Lru {
    var order, entries := Without(l.order, {a}) + [a], l.entries[a := v];
    if |order| > l.capacity then Lru(l.capacity, order[1..], entries - {order[0]})
    else Lru(l.capacity, order, entries)
  }

  /** How one item of the local cache goes into the shared one. */
  function DrainItem(l: Lru, item: CacheQueueItem): Lru {
    var touched := Touch(l, item.address);
    if item.address in l.entries && l.entries[item.address].Some? && item.account.Some? then
      if item.modified then touched.(entries := touched.entries[item.address := item.account]) else touched
    else Put(touched, item.address, item.account)
  }

  function DrainItems(l: Lru, items: seq<CacheQueueItem>): Lru {
    if items == [] then l else DrainItem(DrainItems(l, items[..|items| - 1]), items[|items| - 1])
  }

  /** Whatever the LRU evicts, draining stays within what `Drained` allows. */
  lemma {:induction false} DrainItemsDrained(l: Lru, items: seq<CacheQueueItem>)
    ensures Drained(l.entries, items, DrainItems(l, items).entries)
  {
    if items != [] {
      var n := |items| - 1;
      var rest, last := items[..n], items[n];
      assert items == rest + [last];
      DrainItemsDrained(l, rest);
      var before, after := DrainItems(l, rest).entries, DrainItems(l, items).entries;
      forall a | a in after
        ensures || (&& a in l.entries && after[a] == l.entries[a]
                    && forall item :: item in items && item.address == a ==> !item.modified)
                || (exists item :: item in items && item.address == a && after[a] == item.account)
      {
        if a == last.address && after[a] == last.account {
          assert last in items;
        } else {
          assert a in before && after[a] == before[a];
          if item :| item in rest && item.address == a && before[a] == item.account {
            assert item in items;
          }
        }
      }
    }
  }

  // ---------------------------------------------------------------------------------------------
  // Order and capacity

  /** The order lists every key once, and there is room for all. */
  ghost predicate Orderly(l: Lru) {
    NoDuplicates(l.order) && (forall a :: a in l.order <==> a in l.entries) && |l.order| <= l.capacity
  }

  lemma {:induction false} WithoutKeeps(order: seq<Address>, keys: set<Address>)
    ensures forall a :: a in Without(order, keys) <==> a in order && a !in keys
    ensures |Without(order, keys)| <= |order|
    ensures (exists a :: a in order && a in keys) ==> |Without(order, keys)| < |order|
    ensures NoDuplicates(order) ==> NoDuplicates(Without(order, keys))
    decreases |order|
  {
    if order != [] {
      var tail := order[1..];
      assert order == [order[0]] + tail;
      WithoutKeeps(tail, keys);
      if NoDuplicates(order) {
        assert NoDuplicates(tail) && order[0] !in tail;
        ConsNoDuplicates(order[0], Without(tail, keys));
      }
    }
  }

  lemma {:induction false} WithoutAppend(a: seq<Address>, b: seq<Address>, keys: set<Address>)
    ensures Without(a + b, keys) == Without(a, keys) + Without(b, keys)
    decreases |a|
  {
    if a == [] {
      assert a + b == b;
    } else {
      assert (a + b)[0] == a[0] && (a + b)[1..] == a[1..] + b;
      WithoutAppend(a[1..], b, keys);
      Associate(if a[0] in keys then [] else [a[0]], Without(a[1..], keys), Without(b, keys));
    }
  }

  lemma {:induction false} WithoutNone(order: seq<Address>, keys: set<Address>)
    requires forall a :: a in keys ==> a !in order
    ensures Without(order, keys) == order
    decreases |order|
  {
    if order != [] {
      assert order == [order[0]] + order[1..] && order[0] in order;
      WithoutNone(order[1..], keys);
    }
  }

  lemma ConsNoDuplicates(a: Address, s: seq<Address>)
    requires a !in s && NoDuplicates(s)
    ensures NoDuplicates([a] + s)
  {
  }

  lemma SnocNoDuplicates(s: seq<Address>, a: Address)
    requires a !in s && NoDuplicates(s)
    ensures NoDuplicates(s + [a])
  {
  }

  lemma TouchOrderly(l: Lru, a: Address)
    requires Orderly(l)
    ensures Orderly(Touch(l, a)) && Touch(l, a).entries == l.entries
  {
    if a in l.entries {
      WithoutKeeps(l.order, {a});
      SnocNoDuplicates(Without(l.order, {a}), a);
    }
  }

  lemma RemoveOrderly(l: Lru, keys: set<Address>)
    requires Orderly(l)
    ensures Orderly(Remove(l, keys))
  {
    WithoutKeeps(l.order, keys);
  }

  lemma PutOrderly(l: Lru, a: Address, v: Option<Account>)
    requires Orderly(l)
    ensures var l' := Put(l, a, v); Orderly(l') && (l.capacity > 0 ==> a in l'.entries && l'.entries[a] == v)
  {
    var kept := Without(l.order, {a});
    WithoutKeeps(l.order, {a});
    SnocNoDuplicates(kept, a);
    var order := kept + [a];
    if |order| > l.capacity {
      assert order == [order[0]] + order[1..] && order[0] !in order[1..];
      assert l.capacity > 0 ==> order[0] == kept[0] != a;
      forall x
        ensures x in order[1..] <==> x in l.entries[a := v] - {order[0]}
      {
        assert x in order <==> x == order[0] || x in order[1..];
        assert x in order <==> x == a || x in kept;
      }
    }
  }

  /** What is drained last is in the cache, and the cache never outgrows its capacity. */
  lemma DrainItemHeld(l: Lru, item: CacheQueueItem)
    requires Orderly(l)
    ensures var l' := DrainItem(l, item);
            && Orderly(l') && l'.capacity == l.capacity
            && (l.capacity > 0 ==> item.address in l'.entries)
            && (l.capacity > 0 && (item.modified || item.account.None?) ==> l'.entries[item.address] == item.account)
            && (item.address in l.entries && l.entries[item.address].Some? && item.account.Some? && !item.modified ==>
                  l'.entries == l.entries)
            && (forall a :: a in l'.entries && a != item.address ==> a in l.entries && l'.entries[a] == l.entries[a])
  {
    TouchOrderly(l, item.address);
    if !(item.address in l.entries && l.entries[item.address].Some? && item.account.Some?) {
      PutOrderly(Touch(l, item.address), item.address, item.account);
    } else {
      assert item.address in l.order;
    }
  }

  lemma {:induction false} DrainItemsOrderly(l: Lru, items: seq<CacheQueueItem>)
    requires Orderly(l)
    ensures Orderly(DrainItems(l, items)) && DrainItems(l, items).capacity == l.capacity
    decreases |items|
  {
    if items != [] {
      DrainItemsOrderly(l, items[..|items| - 1]);
      DrainItemHeld(DrainItems(l, items[..|items| - 1]), items[|items| - 1]);
    }
  }

  // ---------------------------------------------------------------------------------------------
  // Recency

  /** Draining an item moves or puts its address to the end, and drops the front when there is no room. */
  lemma DrainItemOrder(l: Lru, item: CacheQueueItem)
    requires Orderly(l)
    ensures var order := Without(l.order, {item.address}) + [item.address];
            DrainItem(l, item).order == if |order| > l.capacity then order[1..] else order
  {
    var a := item.address;
    WithoutKeeps(l.order, {a});
    var kept := Without(l.order, {a});
    if a in l.entries {
      WithoutAppend(kept, [a], {a});
      WithoutNone(kept, {a});
      assert Without([a], {a}) == [] && kept + [] == kept;
      assert a in l.order && |kept + [a]| <= l.capacity;
    }
  }

  /** The order ends with `recent`, which has room in the cache. */
  ghost predicate EndsWith(l: Lru, recent: seq<Address>) {
    |recent| <= |l.order| && l.order[|l.order| - |recent|..] == recent
  }

  /** One more item, while there is room for the recent ones and it. */
  lemma RecentStep(l: Lru, recent: seq<Address>, item: CacheQueueItem)
    requires Orderly(l) && EndsWith(l, recent) && |recent| < l.capacity
    ensures var recent' := Without(recent, {item.address}) + [item.address];
            EndsWith(DrainItem(l, item), recent') && |recent'| <= |recent| + 1
  {
    var a, front := item.address, l.order[..|l.order| - |recent|];
    assert l.order == front + recent;
    WithoutAppend(front, recent, {a});
    WithoutKeeps(recent, {a});
    DrainItemOrder(l, item);
    Associate(Without(front, {a}), Without(recent, {a}), [a]);
    KeepEnd(Without(front, {a}), Without(recent, {a}) + [a], l.capacity);
  }

  /** Dropping the front of a list that is too long keeps an end that is not. */
  lemma KeepEnd(front: seq<Address>, end: seq<Address>, capacity: nat)
    requires |end| <= capacity
    ensures var whole := front + end; var kept := if |whole| > capacity then whole[1..] else whole;
            |end| <= |kept| && kept[|kept| - |end|..] == end
  {
    if |front + end| > capacity {
      assert (front + end)[1..] == front[1..] + end;
    }
  }

  /** The most recent addresses of a queue, each once, in order of their last use. */
  function Recent(items: seq<CacheQueueItem>): seq<Address> {
    if items == [] then []
    else
      var a := items[|items| - 1].address;
      Without(Recent(items[..|items| - 1]), {a}) + [a]
  }

  lemma {:induction false} RecentHolds(items: seq<CacheQueueItem>)
    ensures |Recent(items)| <= |items| && forall item :: item in items ==> item.address in Recent(items)
    decreases |items|
  {
    if items != [] {
      var rest, last := items[..|items| - 1], items[|items| - 1];
      assert items == rest + [last];
      RecentHolds(rest);
      WithoutKeeps(Recent(rest), {last.address});
    }
  }

  lemma {:induction false} DrainEndsWith(l: Lru, items: seq<CacheQueueItem>)
    requires Orderly(l) && |items| <= l.capacity
    ensures EndsWith(DrainItems(l, items), Recent(items))
    decreases |items|
  {
    if items == [] {
      assert l.order[|l.order|..] == [];
    } else {
      var rest := items[..|items| - 1];
      DrainEndsWith(l, rest);
      DrainItemsOrderly(l, rest);
      RecentHolds(rest);
      RecentStep(DrainItems(l, rest), Recent(rest), items[|items| - 1]);
    }
  }

  lemma {:induction false} DrainItemsAppend(l: Lru, a: seq<CacheQueueItem>, b: seq<CacheQueueItem>)
    ensures DrainItems(l, a + b) == DrainItems(DrainItems(l, a), b)
    decreases |b|
  {
    if b == [] {
      assert a + b == a;
    } else {
      assert (a + b)[..|a + b| - 1] == a + b[..|b| - 1];
      DrainItemsAppend(l, a, b[..|b| - 1]);
    }
  }

  /** After a queue of any length is drained, its last entries, as many as the capacity, are in the cache. */
  lemma LastDrainedAreHeld(l: Lru, items: seq<CacheQueueItem>, k: nat)
    requires Orderly(l) && k <= |items| <= k + l.capacity
    ensures forall item :: item in items[k..] ==> item.address in DrainItems(l, items).entries
  {
    var early, late := items[..k], items[k..];
    assert items == early + late;
    DrainItemsAppend(l, early, late);
    DrainItemsOrderly(l, early);
    DrainEndsWith(DrainItems(l, early), late);
    DrainItemsOrderly(l, items);
    RecentHolds(late);
  }
}
