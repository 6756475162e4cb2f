/** The generic least-recently-used cache: an `OrderedDict` whose order runs
    from least to most recently used, bounded by a fixed capacity. Values are
    `Option<V>`, with `None` standing for a stored Python `None`. */
module LruCache {
  import opened Wrappers
  import opened OrderedDicts

  // ---------- the specification, on values ----------

  /** What `get` returns: the stored value, or `None` for a missing key. */
  function GetValue<K(==,!new), V>(d: ODict<K, Option<V>>, k: K): (r: Option<V>)
    ensures k !in d.values ==> r.None?
    ensures k in d.values ==> r == d.values[k]
  {
    match Get(d, k)
    case None => None
    case Some(v) => v
  }

  /** The store after `get`: only a value other than `None` refreshes its key. */
  function AfterGet<K(==,!new), V>(d: ODict<K, Option<V>>, k: K): (r: ODict<K, Option<V>>)
    requires WellFormed(d)
    ensures WellFormed(r) && r.values == d.values && Len(r) == Len(d)
  {
    if GetValue(d, k).Some? then MoveToEnd(d, k) else d
  }

  /** The store after `put`: refresh an existing key, assign, then drop the oldest entry if over capacity. */
  function AfterPut<K(==,!new), W>(d: ODict<K, W>, k: K, v: W, cap: int): (r: ODict<K, W>)
    requires WellFormed(d)
    ensures WellFormed(r)
    ensures Len(d) <= cap ==> Len(r) <= cap
    ensures forall x :: x in r.values ==> x in d.values[k := v] && r.values[x] == d.values[k := v][x]
  {
    var moved := if k in d.values then MoveToEnd(d, k) else d;
    var stored := Assign(moved, k, v);
    if Len(stored) > cap then PopFirst(stored) else stored
  }

  /** The entries of `d` under the keys `ks`, in the order of `ks`. */
  function Entries<K(==,!new), V>(d: ODict<K, V>, ks: seq<K>): (r: seq<(K, V)>)
    requires forall i :: 0 <= i < |ks| ==> ks[i] in d.values
    ensures |r| == |ks| && forall i :: 0 <= i < |ks| ==> r[i] == (ks[i], d.values[ks[i]])
  {
    if ks == [] then [] else [(ks[0], d.values[ks[0]])] + Entries(d, ks[1..])
  }

  // ---------- the cache ----------

  class LRUCache<K(==,!new), V> {
    var cap: int
    var data: ODict<K, Option<V>>

    /** The store is a well-formed ordered dictionary within a positive capacity. */
    ghost predicate Valid()
      reads this
    {
      WellFormed(data) && cap > 0 && Len(data) <= cap
    }

    constructor (capacity: int)
      requires capacity > 0
      ensures Valid() && cap == capacity && data == Empty()
    {
      cap := capacity;
      data := Empty();
    }

    /** `key in cache`. */
    function Contains(key: K): (r: bool)
      reads this
      requires Valid()
      ensures r <==> key in data.order
    {
      key in data.values
    }

    /** `len(cache)`, never above the capacity. */
    function Length(): (n: nat)
      reads this
      requires Valid()
      ensures n <= cap && n == |data.order|
    {
      Len(data)
    }

    /** `cache.items()`, oldest first. */
    function Items(): (r: seq<(K, Option<V>)>)
      reads this
      requires Valid()
      ensures |r| == Len(data)
      ensures forall i :: 0 <= i < |r| ==> r[i].0 == data.order[i] && r[i].1 == data.values[data.order[i]]
    {
      Entries(data, data.order)
    }

    method Get(key: K) returns (r: Option<V>)
      requires Valid()
      modifies this
      ensures Valid() && cap == old(cap)
      ensures r == GetValue(old(data), key)
      ensures data == AfterGet(old(data), key)
    {
      var val := GetValue(data, key);
      if val.Some? {
        data := MoveToEnd(data, key);
      }
      r := val;
    }

    method Put(key: K, value: Option<V>)
      requires Valid()
      modifies this
      ensures Valid() && cap == old(cap)
      ensures data == AfterPut(old(data), key, value, cap)
    {
      if key in data.values {
        data := MoveToEnd(data, key);
      }
      data := Assign(data, key, value);
      if Len(data) > cap {
        data := PopFirst(data);
      }
    }

    method Clear()
      requires Valid()
      modifies this
      ensures Valid() && cap == old(cap) && data == Empty()
      ensures forall k :: !Contains(k)
    {
      data := Empty();
    }
  }

  /** `LRUCache(capacity)`: a capacity of zero or less is refused (`ValueError`). */
  method NewCache<K(==,!new), V>(capacity: int) returns (r: Option<LRUCache<K, V>>)
    ensures r.None? <==> capacity <= 0
    ensures r.Some? ==> fresh(r.value) && r.value.Valid() && r.value.cap == capacity && r.value.data == Empty()
  {
    if capacity <= 0 {
      r := None;
    } else {
      var c := new LRUCache<K, V>(capacity);
      r := Some(c);
    }
  }

  // ---------- what get and put promise ----------

  /** A hit makes the key the most recent one and keeps the others in their order;
      a miss, or a stored `None`, changes nothing. */
  lemma GetRefreshes<K(!new), V>(d: ODict<K, Option<V>>, k: K)
    requires WellFormed(d)
    ensures GetValue(d, k).Some? ==> AfterGet(d, k).order == Without(d.order, k) + [k]
    ensures GetValue(d, k).None? ==> AfterGet(d, k) == d
    ensures GetValue(d, k).Some? ==> AfterGet(d, k).order[Len(d) - 1] == k
  {
    if GetValue(d, k).Some? {
      assert k in d.order;
    }
  }

  /** The value just put is what `get` returns next. */
  lemma PutThenGet<K(!new), V>(d: ODict<K, Option<V>>, k: K, v: Option<V>, cap: int)
    requires WellFormed(d) && cap > 0
    ensures GetValue(AfterPut(d, k, v, cap), k) == v
  {
    PutStores(d, k, v, cap);
  }

  /** Whatever the value type, the key just put is stored, with its value, and is the newest. */
  lemma PutStores<K(!new), W>(d: ODict<K, W>, k: K, v: W, cap: int)
    requires WellFormed(d) && cap > 0
    ensures k in AfterPut(d, k, v, cap).values && AfterPut(d, k, v, cap).values[k] == v
    ensures AfterPut(d, k, v, cap).order[Len(AfterPut(d, k, v, cap)) - 1] == k
  {
    var moved := if k in d.values then MoveToEnd(d, k) else d;
    var stored := Assign(moved, k, v);
    assert stored.order[|stored.order| - 1] == k;
    if Len(stored) > cap {
      assert stored.order[0] != k by {
        assert |stored.order| >= 2;
        assert stored.order[0] != stored.order[|stored.order| - 1];
      }
    }
  }

  /** Overwriting a stored key evicts nothing and keeps the size; the key becomes the most recent. */
  lemma PutExisting<K(!new), W>(d: ODict<K, W>, k: K, v: W, cap: int)
    requires WellFormed(d) && Len(d) <= cap && k in d.values
    ensures AfterPut(d, k, v, cap).values == d.values[k := v]
    ensures AfterPut(d, k, v, cap).order == Without(d.order, k) + [k]
    ensures Len(AfterPut(d, k, v, cap)) == Len(d)
  {
  }

  /** A new key into a cache with room is appended as the most recent. */
  lemma PutNewWithRoom<K(!new), W>(d: ODict<K, W>, k: K, v: W, cap: int)
    requires WellFormed(d) && Len(d) < cap && k !in d.values
    ensures AfterPut(d, k, v, cap).order == d.order + [k]
    ensures AfterPut(d, k, v, cap).values == d.values[k := v]
  {
  }

  /** A new key into a full cache evicts exactly the least recently used key. */
  lemma PutNewWhenFull<K(!new), W>(d: ODict<K, W>, k: K, v: W, cap: int)
    requires WellFormed(d) && cap > 0 && Len(d) == cap && k !in d.values
    ensures AfterPut(d, k, v, cap).order == d.order[1..] + [k]
    ensures AfterPut(d, k, v, cap).values == (d.values - {d.order[0]})[k := v]
    ensures d.order[0] !in AfterPut(d, k, v, cap).values
    ensures forall x :: x in d.values && x != d.order[0] ==> x in AfterPut(d, k, v, cap).values
  {
    var a := Assign(d, k, v);
    assert a.order == d.order + [k];
    assert (d.order + [k])[1..] == d.order[1..] + [k];
    assert d.order[0] != k;
    assert (d.values[k := v]) - {d.order[0]} == (d.values - {d.order[0]})[k := v];
  }

  // ---------- the example of the tests ----------

  /** Capacity 2: put a, put b, get a, put c; then b is gone while a and c remain. */
  lemma {:induction false} EvictsOldestFor<K(!new), V>(a: K, b: K, c: K, x: V, y: V, z: V)
    requires a != b && b != c && a != c
    ensures var d1 := AfterPut(Empty(), a, Some(x), 2);
            var d2 := AfterPut(d1, b, Some(y), 2);
            var d3 := AfterGet(d2, a);
            var d4 := AfterPut(d3, c, Some(z), 2);
            && GetValue(d2, a) == Some(x)
            && GetValue(d4, b) == None
            && GetValue(d4, a) == Some(x)
            && GetValue(AfterGet(d4, a), c) == Some(z)
  {
    var d2 := AfterPut(AfterPut(Empty(), a, Some(x), 2), b, Some(y), 2);
    FillTwo(a, b, x, y);
    var d3 := AfterGet(d2, a);
    GetRefreshes(d2, a);
    assert d3.order == [b, a];
    var d4 := AfterPut(d3, c, Some(z), 2);
    PutNewWhenFull(d3, c, Some(z), 2);
    assert d4.order == [a, c];
  }

  /** Two puts of distinct keys into an empty cache of capacity 2 keep both, oldest first. */
  lemma FillTwo<K(!new), V>(a: K, b: K, x: V, y: V)
    requires a != b
    ensures AfterPut(AfterPut(Empty(), a, Some(x), 2), b, Some(y), 2) == ODict([a, b], map[a := Some(x), b := Some(y)])
  {
    var d0: ODict<K, Option<V>> := Empty();
    var d1 := AfterPut(d0, a, Some(x), 2);
    PutNewWithRoom(d0, a, Some(x), 2);
    assert d1.order == [a];
    PutNewWithRoom(d1, b, Some(y), 2);
  }

  /** The same with the keys and values of the tests. */
  lemma EvictsOldest()
    ensures var d1 := AfterPut(Empty(), "a", Some(1), 2);
            var d2 := AfterPut(d1, "b", Some(2), 2);
            var d3 := AfterGet(d2, "a");
            var d4 := AfterPut(d3, "c", Some(3), 2);
            && GetValue(d2, "a") == Some(1)
            && GetValue(d4, "b") == None
            && GetValue(d4, "a") == Some(1)
            && GetValue(AfterGet(d4, "a"), "c") == Some(3)
  {
    EvictsOldestFor("a", "b", "c", 1, 2, 3);
  }
}
