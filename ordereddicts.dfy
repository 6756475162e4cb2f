/** Python's `OrderedDict` as the caches use it: an order of keys (oldest
    first) and the values stored under them. */
module OrderedDicts {
  import opened Wrappers

  datatype ODict<K, V> = ODict(order: seq<K>, values: map<K, V>)

  predicate Distinct<K(==)>(s: seq<K>) {
    forall i, j :: 0 <= i < j < |s| ==> s[i] != s[j]
  }

  /** Every key occurs once in the order, and the order lists exactly the stored keys. */
  ghost predicate WellFormed<K(!new), V>(d: ODict<K, V>) {
    Distinct(d.order) && (forall k :: k in d.values <==> k in d.order)
  }

  /** In a sequence without repetitions every element occurs once. */
  lemma {:induction false} DistinctMultiset<T>(s: seq<T>)
    requires Distinct(s)
    ensures forall x :: multiset(s)[x] <= 1
  {
    if s != [] {
      assert s == [s[0]] + s[1..];
      DistinctMultiset(s[1..]);
      assert s[0] !in s[1..];
    }
  }

  /** An element at two positions occurs at least twice. */
  lemma OccursTwice<T>(s: seq<T>, i: int, j: int)
    requires 0 <= i < j < |s|
    ensures s[i] == s[j] ==> multiset(s)[s[i]] >= 2
  {
    assert s == s[..j] + s[j..];
    assert s[i] in s[..j];
    assert s[j..] == [s[j]] + s[j + 1..];
  }

  /** `s` with `k` taken out. */
  function Without<K(==,!new)>(s: seq<K>, k: K): (r: seq<K>)
    ensures forall x :: x in r <==> x in s && x != k
    ensures Distinct(s) ==> Distinct(r)
    ensures Distinct(s) ==> |r| == if k in s then |s| - 1 else |s|
    ensures k !in s ==> r == s
  {
    if s == [] then []
    else if s[0] == k then
      assert Distinct(s) ==> k !in s[1..];
      Without(s[1..], k)
    else
      var rest := Without(s[1..], k);
      assert Distinct(s) ==> s[0] !in rest;
      [s[0]] + rest
  }

  function Empty<K(==,!new), V>(): (r: ODict<K, V>)
    ensures WellFormed(r) && Len(r) == 0
  {
    ODict([], map[])
  }

  /** `len(d)`. */
  function Len<K(==,!new), V>(d: ODict<K, V>): nat { |d.order| }

  /** `d.get(k)`, with `None` for a missing key. */
  function Get<K(==,!new), V>(d: ODict<K, V>, k: K): Option<V> {
    if k in d.values then Some(d.values[k]) else None
  }

  /** `d.move_to_end(k)`: `k` becomes the newest key. */
  function MoveToEnd<K(==,!new), V>(d: ODict<K, V>, k: K): (r: ODict<K, V>)
    requires WellFormed(d) && k in d.values
    ensures WellFormed(r) && r.values == d.values && Len(r) == Len(d)
    ensures r.order == Without(d.order, k) + [k]
  {
    ODict(Without(d.order, k) + [k], d.values)
  }

  /** `d[k] = v`: an existing key keeps its place, a new key becomes the newest. */
  function Assign<K(==,!new), V>(d: ODict<K, V>, k: K, v: V): (r: ODict<K, V>)
    requires WellFormed(d)
    ensures WellFormed(r) && r.values == d.values[k := v]
    ensures Len(r) == if k in d.values then Len(d) else Len(d) + 1
  {
    if k in d.values then ODict(d.order, d.values[k := v])
    else ODict(d.order + [k], d.values[k := v])
  }

  /** `d.popitem(last=False)`: drops the oldest entry. */
  function PopFirst<K(==,!new), V>(d: ODict<K, V>): (r: ODict<K, V>)
    requires WellFormed(d) && Len(d) > 0
    ensures WellFormed(r) && r.order == d.order[1..] && r.values == d.values - {d.order[0]}
  {
    assert forall j :: 0 < j < |d.order| ==> d.order[j] != d.order[0];
    ODict(d.order[1..], d.values - {d.order[0]})
  }
}
