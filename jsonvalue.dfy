/** The Python dicts, lists and scalars that the search strategies hand to
    Elasticsearch as a request body. Object members keep insertion order, as
    Python dicts do. */
module JsonValue {
  import opened Wrappers

  datatype Json =
    | Obj(members: seq<(string, Json)>)
    | Arr(items: seq<Json>)
    | Str(str: string)
    | Int(num: int)
    | Num(number: real)

  /** `d.get(key)`: the value of the first member named `key`. */
  function Get(j: Json, key: string): (r: Option<Json>)
    ensures r.Some? ==> j.Obj?
  {
    match j
    case Obj(ms) => Lookup(ms, key)
    case _ => None
  }

  function Lookup(ms: seq<(string, Json)>, key: string): Option<Json> {
    if ms == [] then None
    else if ms[0].0 == key then Some(ms[0].1)
    else Lookup(ms[1..], key)
  }

  /** A value found is the value of a member with that key. */
  lemma {:induction false} LookupFound(ms: seq<(string, Json)>, key: string)
    ensures Lookup(ms, key).Some? ==> exists i :: 0 <= i < |ms| && ms[i] == (key, Lookup(ms, key).value)
  {
    if ms != [] && ms[0].0 != key {
      LookupFound(ms[1..], key);
      if Lookup(ms, key).Some? {
        var i :| 0 <= i < |ms[1..]| && ms[1..][i] == (key, Lookup(ms, key).value);
        assert ms[i + 1] == (key, Lookup(ms, key).value);
      }
    }
  }

  /** The first member named `key` gives the value. */
  lemma {:induction false} LookupAt(ms: seq<(string, Json)>, i: int, key: string)
    requires 0 <= i < |ms| && ms[i].0 == key
    requires forall j :: 0 <= j < i ==> ms[j].0 != key
    ensures Lookup(ms, key) == Some(ms[i].1)
  {
    if i > 0 {
      LookupAt(ms[1..], i - 1, key);
    }
  }

  /** No member named `key`, no value. */
  lemma {:induction false} LookupMissing(ms: seq<(string, Json)>, key: string)
    requires forall j :: 0 <= j < |ms| ==> ms[j].0 != key
    ensures Lookup(ms, key).None?
  {
    if ms != [] {
      LookupMissing(ms[1..], key);
    }
  }

  /** The list `[s0, s1, ...]` of strings. */
  function StrList(ss: seq<string>): (r: Json)
    ensures r.Arr? && |r.items| == |ss| && forall i :: 0 <= i < |ss| ==> r.items[i] == Str(ss[i])
  {
    if ss == [] then Arr([]) else Arr([Str(ss[0])] + StrList(ss[1..]).items)
  }

  /** `{"fields": {"content": {}}}`, the highlight request both strategies send. */
  const ContentHighlight: Json := Obj([("fields", Obj([("content", Obj([]))]))])
}
