/** The search manager: it gathers exact results from Elasticsearch, fuzzy
    results from a similarity ratio and semantic results from embeddings,
    each gated by the settings and scaled by its weight, then keeps one result
    per document page (the best, the first among equals), sorts them best
    first and keeps at most `limit`. The Elasticsearch client, the ratio, the
    embedding model and the cosine are parameters. */
module SearchManager {
  import opened Wrappers
  import opened PyText
  import opened JsonValue
  import opened OrderedDicts
  import opened Sorting
  import opened Configuration
  import opened SearchModels

  datatype SearchRankWeights = SearchRankWeights(exact: real, fuzzy: real, semantic: real)

  /** `SearchRankWeights()`. */
  const DefaultWeights: SearchRankWeights := SearchRankWeights(1.0, 0.7, 0.9)

  // ---------- fusion ----------

  /** The merge key `(document_id, page_number)`. */
  function Key(r: SearchResult): (string, int) {
    (r.documentId, r.pageNumber)
  }

  type Merged = ODict<(string, int), SearchResult>

  /** One turn of the merge: a result replaces the one under its key only if it scores strictly higher. */
  function MergeInto(d: Merged, r: SearchResult): (e: Merged)
    requires WellFormed(d)
    ensures WellFormed(e) && Len(e) <= Len(d) + 1
  {
    var k := Key(r);
    if k !in d.values || r.relevanceScore > d.values[k].relevanceScore then Assign(d, k, r) else d
  }

  /** The merge loop of `search`, over the parts in the order they were gathered. */
  function Merge(parts: seq<SearchResult>): (d: Merged)
    ensures WellFormed(d) && Len(d) <= |parts|
    decreases |parts|
  {
    if parts == [] then Empty() else MergeInto(Merge(parts[..|parts| - 1]), parts[|parts| - 1])
  }

  /** `parts[i]` scores highest among the parts with its key, and strictly higher than the
      earlier ones: it is the one a strictly-greater replacement keeps. */
  ghost predicate FirstBest(parts: seq<SearchResult>, i: int)
    requires 0 <= i < |parts|
  {
    forall j :: 0 <= j < |parts| && Key(parts[j]) == Key(parts[i]) ==>
      parts[j].relevanceScore <= parts[i].relevanceScore && (j < i ==> parts[j].relevanceScore < parts[i].relevanceScore)
  }

  /** The keys of the parts. */
  function KeysOf(parts: seq<SearchResult>): (ks: set<(string, int)>)
    decreases |parts|
  {
    if parts == [] then {} else KeysOf(parts[..|parts| - 1]) + {Key(parts[|parts| - 1])}
  }

  lemma {:induction false} KeysOfMembers(parts: seq<SearchResult>)
    ensures forall k :: k in KeysOf(parts) <==> exists i :: 0 <= i < |parts| && Key(parts[i]) == k
    decreases |parts|
  {
    if parts != [] {
      var n := |parts| - 1;
      var init := parts[..n];
      KeysOfMembers(init);
      assert KeysOf(parts) == KeysOf(init) + {Key(parts[n])};
      forall k | k in KeysOf(parts) ensures exists i :: 0 <= i < |parts| && Key(parts[i]) == k {
        if k != Key(parts[n]) {
          var i :| 0 <= i < |init| && Key(init[i]) == k;
          assert parts[i] == init[i];
        }
      }
      forall k | (exists i :: 0 <= i < |parts| && Key(parts[i]) == k) ensures k in KeysOf(parts) {
        var i :| 0 <= i < |parts| && Key(parts[i]) == k;
        if i < n {
          assert init[i] == parts[i];
        }
      }
    }
  }

  /** Each stored result sits under its own key. */
  predicate KeyedBy(d: Merged) {
    forall k :: k in d.values ==> Key(d.values[k]) == k
  }

  lemma {:induction false} MergeKeys(parts: seq<SearchResult>)
    ensures Merge(parts).values.Keys == KeysOf(parts) && KeyedBy(Merge(parts))
    decreases |parts|
  {
    if parts != [] {
      MergeKeys(parts[..|parts| - 1]);
    }
  }

  /** The merged keys are exactly the keys of the parts, each stored under its own key. */
  lemma MergeDomain(parts: seq<SearchResult>)
    ensures forall k :: k in Merge(parts).values <==> exists i :: 0 <= i < |parts| && Key(parts[i]) == k
    ensures forall k :: k in Merge(parts).values ==> Key(Merge(parts).values[k]) == k
  {
    MergeKeys(parts);
    KeysOfMembers(parts);
  }

  /** A part that was the first best of the earlier parts stays so when the new part has
      another key or does not score higher. */
  lemma FirstBestExtend(parts: seq<SearchResult>, i: int)
    requires 0 <= i < |parts| - 1 && FirstBest(parts[..|parts| - 1], i)
    requires Key(parts[|parts| - 1]) != Key(parts[i]) || parts[|parts| - 1].relevanceScore <= parts[i].relevanceScore
    ensures FirstBest(parts, i)
  {
    var init := parts[..|parts| - 1];
    forall j | 0 <= j < |parts| && Key(parts[j]) == Key(parts[i])
      ensures parts[j].relevanceScore <= parts[i].relevanceScore && (j < i ==> parts[j].relevanceScore < parts[i].relevanceScore)
    {
      if j < |parts| - 1 {
        assert init[j] == parts[j] && init[i] == parts[i];
      }
    }
  }

  /** The new part is the first best when it beats every earlier part with its key. */
  lemma FirstBestLast(parts: seq<SearchResult>)
    requires parts != []
    requires forall j :: 0 <= j < |parts| - 1 && Key(parts[j]) == Key(parts[|parts| - 1]) ==>
               parts[j].relevanceScore < parts[|parts| - 1].relevanceScore
    ensures FirstBest(parts, |parts| - 1)
  {
  }

  /** Each stored result is a part, and the first best of the parts with its key. */
  ghost predicate FromParts(d: Merged, parts: seq<SearchResult>) {
    forall k :: k in d.values ==> exists i :: 0 <= i < |parts| && parts[i] == d.values[k] && FirstBest(parts, i)
  }

  lemma {:induction false} KeysOfHas(parts: seq<SearchResult>, j: int)
    requires 0 <= j < |parts|
    ensures Key(parts[j]) in KeysOf(parts)
    decreases |parts|
  {
    if j < |parts| - 1 {
      KeysOfHas(parts[..|parts| - 1], j);
    }
  }

  /** A result the new part does not replace stays the first best. */
  lemma KeptBest(parts: seq<SearchResult>, d0: Merged, k: (string, int))
    requires parts != [] && FromParts(d0, parts[..|parts| - 1]) && KeyedBy(d0) && k in d0.values
    requires k != Key(parts[|parts| - 1]) || parts[|parts| - 1].relevanceScore <= d0.values[k].relevanceScore
    ensures exists i :: 0 <= i < |parts| && parts[i] == d0.values[k] && FirstBest(parts, i)
  {
    var init := parts[..|parts| - 1];
    var i :| 0 <= i < |init| && init[i] == d0.values[k] && FirstBest(init, i);
    assert parts[i] == init[i];
    FirstBestExtend(parts, i);
  }

  /** A new part that is stored beats every earlier part with its key. */
  lemma StoredBest(parts: seq<SearchResult>, d0: Merged)
    requires parts != [] && KeyedBy(d0) && KeysOf(parts[..|parts| - 1]) == d0.values.Keys
    requires FromParts(d0, parts[..|parts| - 1])
    requires var k := Key(parts[|parts| - 1]); k !in d0.values || parts[|parts| - 1].relevanceScore > d0.values[k].relevanceScore
    ensures FirstBest(parts, |parts| - 1)
  {
    var n := |parts| - 1;
    var init := parts[..n];
    var r := parts[n];
    forall j | 0 <= j < n && Key(parts[j]) == Key(r) ensures parts[j].relevanceScore < r.relevanceScore {
      assert init[j] == parts[j];
      KeysOfHas(init, j);
      assert Key(r) in d0.values;
      var i :| 0 <= i < |init| && init[i] == d0.values[Key(r)] && FirstBest(init, i);
      assert Key(init[i]) == Key(r);
    }
    FirstBestLast(parts);
  }

  /** One turn of the merge keeps every stored result the first best of the parts so far. */
  lemma MergeIntoBest(parts: seq<SearchResult>, d0: Merged)
    requires parts != [] && WellFormed(d0) && KeyedBy(d0) && FromParts(d0, parts[..|parts| - 1])
    requires KeysOf(parts[..|parts| - 1]) == d0.values.Keys
    ensures FromParts(MergeInto(d0, parts[|parts| - 1]), parts)
  {
    var r := parts[|parts| - 1];
    var d := MergeInto(d0, r);
    forall k | k in d.values ensures exists i :: 0 <= i < |parts| && parts[i] == d.values[k] && FirstBest(parts, i) {
      if k in d0.values && (k != Key(r) || r.relevanceScore <= d0.values[k].relevanceScore) {
        KeptBest(parts, d0, k);
      } else {
        StoredBest(parts, d0);
      }
    }
  }

  lemma {:induction false} MergeBest(parts: seq<SearchResult>)
    ensures FromParts(Merge(parts), parts)
    decreases |parts|
  {
    if parts != [] {
      var init := parts[..|parts| - 1];
      var d0 := Merge(init);
      MergeBest(init);
      MergeKeys(init);
      MergeIntoBest(parts, d0);
      assert Merge(parts) == MergeInto(d0, parts[|parts| - 1]);
    }
  }

  /** `merged.values()`, in insertion order. */
  function Values(d: Merged): (vs: seq<SearchResult>)
    requires WellFormed(d)
    ensures |vs| == Len(d) && forall i :: 0 <= i < |vs| ==> vs[i] == d.values[d.order[i]]
  {
    seq(Len(d), i requires 0 <= i < Len(d) && WellFormed(d) => assert d.order[i] in d.order; d.values[d.order[i]])
  }

  /** `key=lambda r: r.relevance_score, reverse=True`: a higher score sorts first. */
  function HigherRelevance(a: SearchResult, b: SearchResult): bool {
    a.relevanceScore > b.relevanceScore
  }

  lemma HigherRelevanceOrder()
    ensures StrictWeakOrder(HigherRelevance)
  {
  }

  /** `sorted(merged.values(), best first)[:limit]`. */
  function Fused(parts: seq<SearchResult>, limit: int): (r: seq<SearchResult>)
    ensures limit >= 0 ==> |r| <= limit
    ensures forall i, j :: 0 <= i < j < |r| ==> r[i].relevanceScore >= r[j].relevanceScore
    ensures forall x :: x in r ==> x in parts
  {
    var s := SortBy(Values(Merge(parts)), HigherRelevance);
    HigherRelevanceOrder();
    SortByOrdered(Values(Merge(parts)), HigherRelevance);
    SortedValuesFromParts(parts);
    TakeIsPrefix(s, limit);
    Take(s, limit)
  }

  /** Every merged value, sorted or not, is one of the parts. */
  lemma SortedValuesFromParts(parts: seq<SearchResult>)
    ensures forall x :: x in SortBy(Values(Merge(parts)), HigherRelevance) ==> x in parts
  {
    var vs := Values(Merge(parts));
    ValuesFacts(parts);
    forall x | x in SortBy(vs, HigherRelevance) ensures x in parts {
      assert x in multiset(SortBy(vs, HigherRelevance));
      assert x in vs;
    }
  }

  /** The merged values have pairwise distinct keys, each a part's key, each the first best. */
  lemma ValuesFacts(parts: seq<SearchResult>)
    ensures forall i, j :: 0 <= i < j < |Values(Merge(parts))| ==> Key(Values(Merge(parts))[i]) != Key(Values(Merge(parts))[j])
    ensures forall r :: r in Values(Merge(parts)) ==> exists i :: 0 <= i < |parts| && parts[i] == r && FirstBest(parts, i)
  {
    var d := Merge(parts);
    var vs := Values(d);
    MergeDomain(parts);
    MergeBest(parts);
    forall i, j | 0 <= i < j < |vs| ensures Key(vs[i]) != Key(vs[j]) {
      assert d.order[i] in d.order && d.order[j] in d.order;
      assert Key(vs[i]) == d.order[i] && Key(vs[j]) == d.order[j];
    }
    forall r | r in vs ensures exists i :: 0 <= i < |parts| && parts[i] == r && FirstBest(parts, i) {
      var p :| 0 <= p < |vs| && vs[p] == r;
      assert d.order[p] in d.order;
    }
  }

  /** Distinct keys make distinct elements. */
  lemma DistinctByKey(vs: seq<SearchResult>)
    requires forall i, j :: 0 <= i < j < |vs| ==> Key(vs[i]) != Key(vs[j])
    ensures Distinct(vs)
  {
  }

  /** Two elements of `vs` with one key are the same element. */
  lemma SameKeySame(vs: seq<SearchResult>, x: SearchResult, y: SearchResult)
    requires forall i, j :: 0 <= i < j < |vs| ==> Key(vs[i]) != Key(vs[j])
    ensures x in vs && y in vs && Key(x) == Key(y) ==> x == y
  {
    if x in vs && y in vs && Key(x) == Key(y) {
      var p :| 0 <= p < |vs| && vs[p] == x;
      var q :| 0 <= q < |vs| && vs[q] == y;
      assert !(p < q) && !(q < p);
    }
  }

  /** Sorting keeps the keys distinct. */
  lemma SortedDistinctKeys(vs: seq<SearchResult>)
    requires forall i, j :: 0 <= i < j < |vs| ==> Key(vs[i]) != Key(vs[j])
    ensures forall i, j :: 0 <= i < j < |SortBy(vs, HigherRelevance)| ==>
              Key(SortBy(vs, HigherRelevance)[i]) != Key(SortBy(vs, HigherRelevance)[j])
  {
    var s := SortBy(vs, HigherRelevance);
    DistinctByKey(vs);
    DistinctMultiset(vs);
    forall i, j | 0 <= i < j < |s| ensures Key(s[i]) != Key(s[j]) {
      assert s[i] in multiset(vs) && s[j] in multiset(vs);
      SameKeySame(vs, s[i], s[j]);
      OccursTwice(s, i, j);
    }
  }

  /** The fused list is a prefix of the sorted merged values, so best first and within `limit`. */
  lemma FusedOrdered(parts: seq<SearchResult>, limit: int)
    ensures Fused(parts, limit) == SortBy(Values(Merge(parts)), HigherRelevance)[..|Fused(parts, limit)|]
    ensures limit >= 0 ==> |Fused(parts, limit)| <= limit
    ensures |Fused(parts, limit)| <= |parts|
    ensures limit >= |parts| ==> Fused(parts, limit) == SortBy(Values(Merge(parts)), HigherRelevance)
    ensures forall i, j :: 0 <= i < j < |Fused(parts, limit)| ==>
              Fused(parts, limit)[i].relevanceScore >= Fused(parts, limit)[j].relevanceScore
  {
    var vs := Values(Merge(parts));
    var s := SortBy(vs, HigherRelevance);
    HigherRelevanceOrder();
    SortByOrdered(vs, HigherRelevance);
    TakeIsPrefix(s, limit);
  }

  lemma FusedDistinct(parts: seq<SearchResult>, limit: int)
    ensures forall i, j :: 0 <= i < j < |Fused(parts, limit)| ==> Key(Fused(parts, limit)[i]) != Key(Fused(parts, limit)[j])
  {
    var vs := Values(Merge(parts));
    var s := SortBy(vs, HigherRelevance);
    var out := Fused(parts, limit);
    FusedOrdered(parts, limit);
    ValuesFacts(parts);
    SortedDistinctKeys(vs);
    forall i, j | 0 <= i < j < |out| ensures Key(out[i]) != Key(out[j]) {
      assert out[i] == s[i] && out[j] == s[j];
    }
  }

  lemma FusedFromParts(parts: seq<SearchResult>, limit: int)
    ensures forall r :: r in Fused(parts, limit) ==> exists i :: 0 <= i < |parts| && parts[i] == r && FirstBest(parts, i)
  {
    var vs := Values(Merge(parts));
    var s := SortBy(vs, HigherRelevance);
    FusedOrdered(parts, limit);
    ValuesFacts(parts);
    forall r | r in Fused(parts, limit) ensures r in vs {
      assert r in s;
      assert r in multiset(s);
    }
  }

  lemma FusedComplete(parts: seq<SearchResult>, limit: int)
    requires limit >= |parts|
    ensures forall i :: 0 <= i < |parts| ==> exists r :: r in Fused(parts, limit) && Key(r) == Key(parts[i])
  {
    var d := Merge(parts);
    var vs := Values(d);
    var s := SortBy(vs, HigherRelevance);
    FusedOrdered(parts, limit);
    MergeDomain(parts);
    forall i | 0 <= i < |parts| ensures exists r :: r in s && Key(r) == Key(parts[i]) {
      var k := Key(parts[i]);
      assert k in d.order;
      var p :| 0 <= p < |d.order| && d.order[p] == k;
      assert vs[p] in multiset(s);
    }
  }

  /** What `search` promises of the fused list: best first, at most `limit` results, no two
      for the same document page, each the first best of the parts for its page, and with
      room for all, every page of the parts is present. */
  lemma FusedRanked(parts: seq<SearchResult>, limit: int)
    ensures limit >= 0 ==> |Fused(parts, limit)| <= limit
    ensures |Fused(parts, limit)| <= |parts|
    ensures forall i, j :: 0 <= i < j < |Fused(parts, limit)| ==>
              Fused(parts, limit)[i].relevanceScore >= Fused(parts, limit)[j].relevanceScore
    ensures forall i, j :: 0 <= i < j < |Fused(parts, limit)| ==> Key(Fused(parts, limit)[i]) != Key(Fused(parts, limit)[j])
    ensures forall r :: r in Fused(parts, limit) ==> exists i :: 0 <= i < |parts| && parts[i] == r && FirstBest(parts, i)
    ensures limit >= |parts| ==> forall i :: 0 <= i < |parts| ==> exists r :: r in Fused(parts, limit) && Key(r) == Key(parts[i])
  {
    FusedOrdered(parts, limit);
    FusedDistinct(parts, limit);
    FusedFromParts(parts, limit);
    if limit >= |parts| {
      FusedComplete(parts, limit);
    }
  }

  // ---------- reading the Elasticsearch response ----------

  /** `d.get(key, default)`, or `None` when `d` is not a dict (the call raises). */
  function GetOr(d: Json, key: string, default: Json): (r: Option<Json>)
    ensures r.Some? <==> d.Obj?
    ensures d.Obj? && JsonValue.Get(d, key).None? ==> r == Some(default)
    ensures JsonValue.Get(d, key).Some? ==> r == JsonValue.Get(d, key)
  {
    if !d.Obj? then None
    else
      match JsonValue.Get(d, key)
      case Some(v) => Some(v)
      case None => Some(default)
  }

  /** `str(x)`, for the values the model represents as text: a string, or a whole number in decimal. */
  function StrOf(j: Json): (r: Option<string>)
    ensures j.Str? ==> r == Some(j.str)
    ensures r.Some? <==> j.Str? || j.Int?
  {
    match j
    case Str(t) => Some(t)
    case Int(n) => Some(IntToDecimal(n))
    case _ => None
  }

  /** `float(x)` for a number. */
  function RealOf(j: Json): (r: Option<real>)
    ensures j.Num? ==> r == Some(j.number)
    ensures j.Int? ==> r == Some(j.num as real)
    ensures r.Some? <==> j.Num? || j.Int?
  {
    match j
    case Num(x) => Some(x)
    case Int(n) => Some(n as real)
    case _ => None
  }

  /** Python's truth value of a JSON value. */
  predicate Truthy(j: Json) {
    match j
    case Obj(ms) => ms != []
    case Arr(xs) => xs != []
    case Str(t) => t != []
    case Int(n) => n != 0
    case Num(x) => x != 0.0
  }

  /** `highlight_list[0] if highlight_list else content[:200]`, when both are usable as text. */
  function SnippetOf(highlights: Json, content: Json): (r: Option<string>)
    ensures highlights.Arr? && highlights.items != [] && highlights.items[0].Str? ==> r == Some(highlights.items[0].str)
    ensures !Truthy(highlights) && content.Str? ==> r == Some(Take(content.str, 200))
  {
    if Truthy(highlights) then
      match highlights
      case Arr(xs) => if xs[0].Str? then Some(xs[0].str) else None
      case Str(t) => Some([t[0]])
      case _ => None
    else if content.Str? then Some(Take(content.str, 200))
    else None
  }

  /** `min(a, b)`: the first of two equal values. */
  function MinReal(a: real, b: real): (m: real)
    ensures m <= a && m <= b && (m == a || m == b)
  {
    if b < a then b else a
  }

  datatype SearchError =
    | InvalidResult(reason: ResultError)   // the result's own check raised
    | UnreadableHit                        // a response value of a shape the code cannot use

  function Lift(r: Result<SearchResult, ResultError>): (e: Result<SearchResult, SearchError>)
    ensures e.Success? <==> r.Success?
    ensures r.Success? ==> e.value == r.value
    ensures r.Failure? ==> e.error == InvalidResult(r.error)
  {
    match r
    case Success(v) => Success(v)
    case Failure(x) => Failure(InvalidResult(x))
  }

  /** The result an exact hit makes, before its check: the id is `_id`, else the source's
      `file_path`, else its title; the score is `min(1, _score / 10)` times the weight. */
  function ExactResult(id: string, title: string, snippet: string, rawScore: real, weight: real): SearchResult {
    SearchResult(id, title, 0, snippet, MinReal(1.0, rawScore / 10.0) * weight, Exact, snippet, None)
  }

  /** What `_search_exact` reads from one hit. */
  datatype HitData = HitData(id: string, title: string, rawScore: real, snippet: string)

  /** The hit's fields, or `None` where one of the reads raises or yields a value the model
      does not represent as text or number. */
  function HitFields(h: Json): (r: Option<HitData>)
    ensures r.Some? ==> h.Obj?
  {
    var src := GetOr(h, "_source", Obj([]));
    if src.None? || !src.value.Obj? then None
    else
      var title := GetOr(src.value, "title", Str("")).value;
      var docId := GetOr(h, "_id", GetOr(src.value, "file_path", title).value).value;
      var score := RealOf(GetOr(h, "_score", Num(0.0)).value);
      var highlight := GetOr(h, "highlight", Obj([])).value;
      if !title.Str? || StrOf(docId).None? || score.None? || !highlight.Obj? then None
      else
        var snippet := SnippetOf(GetOr(highlight, "content", Arr([])).value, GetOr(src.value, "content", Str("")).value);
        if snippet.None? then None
        else Some(HitData(StrOf(docId).value, title.str, score.value, snippet.value))
  }

  /** One hit of the response as a result. */
  function MapHit(h: Json, weight: real): (r: Result<SearchResult, SearchError>)
    ensures r.Success? ==> r.value.pageNumber == 0 && r.value.matchType == Exact && ValidResult(r.value)
                           && r.value.highlightedText == r.value.snippet
    ensures HitFields(h).None? ==> r == Failure(UnreadableHit)
    ensures HitFields(h).Some? ==>
              var f := HitFields(h).value;
              r.Success? <==> 0.0 <= MinReal(1.0, f.rawScore / 10.0) * weight <= 1.0
  {
    match HitFields(h)
    case None => Failure(UnreadableHit)
    case Some(f) => Lift(NewSearchResult(ExactResult(f.id, f.title, f.snippet, f.rawScore, weight)))
  }

  /** The hits loop of `_search_exact`: the first hit that cannot be mapped raises. */
  function MapHits(hs: seq<Json>, weight: real): (r: Result<seq<SearchResult>, SearchError>)
    ensures r.Success? ==> |r.value| == |hs| && forall x :: x in r.value ==> x.matchType == Exact && x.pageNumber == 0 && ValidResult(x)
    decreases |hs|
  {
    if hs == [] then Success([])
    else
      match MapHits(hs[..|hs| - 1], weight)
      case Failure(e) => Failure(e)
      case Success(rs) =>
        match MapHit(hs[|hs| - 1], weight)
        case Failure(e) => Failure(e)
        case Success(x) => Success(rs + [x])
  }

  /** `resp.get("hits", {}).get("hits", [])` as a list to iterate: an empty string or dict
      iterates over nothing, and anything else but a list raises. */
  function HitsOf(resp: Json): (r: Option<seq<Json>>)
    ensures resp.Obj? && JsonValue.Get(resp, "hits").None? ==> r == Some([])
  {
    var outer := GetOr(resp, "hits", Obj([]));
    if outer.None? then None
    else
      var inner := GetOr(outer.value, "hits", Arr([]));
      if inner.None? then None
      else
        match inner.value
        case Arr(xs) => Some(xs)
        case Str(t) => if t == [] then Some([]) else None
        case Obj(ms) => if ms == [] then Some([]) else None
        case _ => None
  }

  /** `{"multi_match": {"query": query, "fields": ["title^2", "content"]}}`. */
  function ExactQuery(query: string): Json {
    Obj([("multi_match", Obj([("query", Str(query)), ("fields", StrList(["title^2", "content"]))]))])
  }

  /** `es.search(index=..., size=..., query=..., highlight=...)`: the response, or `None` when the call raises. */
  type EsClient = (string, int, Json, Json) -> Option<Json>

  /** `(doc_id, text)` candidates for a query, at most the given number wanted. */
  type Provider = (string, int) -> seq<(string, string)>

  type Vector = seq<real>

  /** The manager's state. `es` is the client `_get_es` yields (the injected one, or one it
      could create), `ratio` is `rapidfuzz.fuzz.ratio` when that import succeeds, `model`
      the text encoder `_get_model` yields, and `cosine` is `_cosine`. */
  datatype SearchManager = SearchManager(
    config: ApplicationConfig,
    es: Option<EsClient>,
    provider: Provider,
    weights: SearchRankWeights,
    ratio: Option<(string, string) -> real>,
    model: Option<string -> Vector>,
    cosine: (Vector, Vector) -> real)

  /** `SearchManager(config, es_client, candidate_provider, weights)`: absent arguments
      take the defaults, and an absent provider yields no candidates. */
  function NewSearchManager(config: Option<ApplicationConfig>, es: Option<EsClient>, provider: Option<Provider>,
                            weights: Option<SearchRankWeights>, ratio: Option<(string, string) -> real>,
                            model: Option<string -> Vector>, cosine: (Vector, Vector) -> real): (m: SearchManager)
    ensures config.None? ==> m.config == DefaultFields
    ensures config.Some? ==> m.config == config.value
    ensures m.es == es && m.ratio == ratio && m.model == model && m.cosine == cosine
    ensures provider.Some? ==> m.provider == provider.value
    ensures provider.None? ==> forall q, n :: m.provider(q, n) == []
    ensures weights.None? ==> m.weights == DefaultWeights
    ensures weights.Some? ==> m.weights == weights.value
  {
    var none: Provider := (q, n) => [];
    SearchManager(if config.Some? then config.value else DefaultFields, es,
                  if provider.Some? then provider.value else none,
                  if weights.Some? then weights.value else DefaultWeights, ratio, model, cosine)
  }

  /** What `_search_exact` returns: nothing without a client or when the call raises. */
  function ExactPart(m: SearchManager, query: string, limit: int): Result<seq<SearchResult>, SearchError> {
    if m.es.None? then Success([])
    else
      match m.es.value("documents", limit, ExactQuery(query), ContentHighlight)
      case None => Success([])
      case Some(resp) =>
        match HitsOf(resp)
        case None => Failure(UnreadableHit)
        case Some(hs) => MapHits(hs, m.weights.exact)
  }

  /** `MapHits` on one more hit. */
  lemma MapHitsStep(hs: seq<Json>, i: int, weight: real)
    requires 0 <= i < |hs|
    ensures MapHits(hs[..i + 1], weight) ==
            if MapHits(hs[..i], weight).Failure? then MapHits(hs[..i], weight)
            else if MapHit(hs[i], weight).Failure? then Failure(MapHit(hs[i], weight).error)
            else Success(MapHits(hs[..i], weight).value + [MapHit(hs[i], weight).value])
  {
    assert hs[..i + 1][..i] == hs[..i];
  }

  /** The first hit that cannot be mapped decides the outcome, whatever follows it. */
  lemma {:induction false} MapHitsFailurePersists(hs: seq<Json>, j: int, weight: real)
    requires 0 <= j <= |hs|
    ensures MapHits(hs[..j], weight).Failure? ==> MapHits(hs, weight) == MapHits(hs[..j], weight)
    decreases |hs| - j
  {
    if j < |hs| {
      MapHitsStep(hs, j, weight);
      MapHitsFailurePersists(hs, j + 1, weight);
    } else {
      assert hs[..j] == hs;
    }
  }

  method MapAll(hs: seq<Json>, weight: real) returns (r: Result<seq<SearchResult>, SearchError>)
    ensures r == MapHits(hs, weight)
  {
    var out: seq<SearchResult> := [];
    for i := 0 to |hs|
      invariant MapHits(hs[..i], weight) == Success(out)
    {
      MapHitsStep(hs, i, weight);
      var x := MapHit(hs[i], weight);
      if x.Failure? {
        MapHitsFailurePersists(hs, i + 1, weight);
        return Failure(x.error);
      }
      out := out + [x.value];
    }
    assert hs[..|hs|] == hs;
    r := Success(out);
  }

  method SearchExact(m: SearchManager, query: string, limit: int) returns (r: Result<seq<SearchResult>, SearchError>)
    ensures r == ExactPart(m, query, limit)
  {
    if m.es.None? {
      return Success([]);
    }
    var resp := m.es.value("documents", limit, ExactQuery(query), ContentHighlight);
    if resp.None? {
      return Success([]);
    }
    var hits := HitsOf(resp.value);
    if hits.None? {
      return Failure(UnreadableHit);
    }
    r := MapAll(hits.value, m.weights.exact);
  }

  // ---------- fuzzy and semantic candidates ----------

  /** How a candidate text is scored: the ratio to the query over 100, or the cosine of the
      query's embedding and the text's. */
  datatype Scorer =
    | FuzzyRatio(ratio: (string, string) -> real, query: string)
    | Cosine(encode: string -> Vector, cosine: (Vector, Vector) -> real, queryVector: Vector)

  function ScoreOf(sc: Scorer, text: string): real {
    match sc
    case FuzzyRatio(ratio, query) => ratio(query, text) / 100.0
    case Cosine(encode, cosine, qv) => cosine(qv, encode(text))
  }

  /** The result a candidate `(doc_id, text)` makes: titled by its id, page 0, the first
      200 characters of the text as snippet and highlight. */
  function CandidateResult(c: (string, string), score: real, mt: MatchType): (r: SearchResult) {
    SearchResult(c.0, c.0, 0, Take(c.1, 200), score, mt, Take(c.1, 200), None)
  }

  /** Whether a candidate passes the threshold. */
  predicate Passes(c: (string, string), sc: Scorer, threshold: real) {
    ScoreOf(sc, c.1) >= threshold
  }

  function Weighted(c: (string, string), sc: Scorer, weight: real, mt: MatchType): SearchResult {
    CandidateResult(c, ScoreOf(sc, c.1) * weight, mt)
  }

  /** The candidate loop of `_search_fuzzy` and `_search_semantic`: each candidate that
      passes the threshold becomes a result with its weighted score, and the first such
      result that fails its check raises. */
  function Scored(cands: seq<(string, string)>, sc: Scorer, threshold: real, weight: real, mt: MatchType)
    : (r: Result<seq<SearchResult>, ResultError>)
    ensures r.Success? ==> |r.value| <= |cands|
    decreases |cands|
  {
    if cands == [] then Success([])
    else
      var c := cands[|cands| - 1];
      match Scored(cands[..|cands| - 1], sc, threshold, weight, mt)
      case Failure(e) => Failure(e)
      case Success(rs) =>
        if !Passes(c, sc, threshold) then Success(rs)
        else
          match NewSearchResult(Weighted(c, sc, weight, mt))
          case Failure(e) => Failure(e)
          case Success(x) => Success(rs + [x])
  }

  lemma ScoredStep(cands: seq<(string, string)>, i: int, sc: Scorer, threshold: real, weight: real, mt: MatchType)
    requires 0 <= i < |cands|
    ensures Scored(cands[..i + 1], sc, threshold, weight, mt) ==
            if Scored(cands[..i], sc, threshold, weight, mt).Failure? then Scored(cands[..i], sc, threshold, weight, mt)
            else if !Passes(cands[i], sc, threshold) then Scored(cands[..i], sc, threshold, weight, mt)
            else if !ValidResult(Weighted(cands[i], sc, weight, mt)) then Failure(NewSearchResult(Weighted(cands[i], sc, weight, mt)).error)
            else Success(Scored(cands[..i], sc, threshold, weight, mt).value + [Weighted(cands[i], sc, weight, mt)])
  {
    assert cands[..i + 1][..i] == cands[..i];
  }

  lemma {:induction false} ScoredFailurePersists(cands: seq<(string, string)>, j: int, sc: Scorer, threshold: real,
                                                 weight: real, mt: MatchType)
    requires 0 <= j <= |cands|
    ensures Scored(cands[..j], sc, threshold, weight, mt).Failure? ==>
              Scored(cands, sc, threshold, weight, mt) == Scored(cands[..j], sc, threshold, weight, mt)
    decreases |cands| - j
  {
    if j < |cands| {
      ScoredStep(cands, j, sc, threshold, weight, mt);
      ScoredFailurePersists(cands, j + 1, sc, threshold, weight, mt);
    } else {
      assert cands[..j] == cands;
    }
  }

  /** Every result is a passing candidate's, with its weighted score and the given match type. */
  lemma {:induction false} ScoredSound(cands: seq<(string, string)>, sc: Scorer, threshold: real, weight: real, mt: MatchType)
    ensures Scored(cands, sc, threshold, weight, mt).Success? ==>
              forall x :: x in Scored(cands, sc, threshold, weight, mt).value ==>
                exists c :: c in cands && Passes(c, sc, threshold) && x == Weighted(c, sc, weight, mt)
    decreases |cands|
  {
    if cands != [] {
      var init := cands[..|cands| - 1];
      var c := cands[|cands| - 1];
      ScoredSound(init, sc, threshold, weight, mt);
      var r := Scored(cands, sc, threshold, weight, mt);
      if r.Success? {
        forall x | x in r.value ensures exists c :: c in cands && Passes(c, sc, threshold) && x == Weighted(c, sc, weight, mt) {
          if x !in Scored(init, sc, threshold, weight, mt).value {
            assert x == Weighted(c, sc, weight, mt) && Passes(c, sc, threshold);
          } else {
            var c' :| c' in init && Passes(c', sc, threshold) && x == Weighted(c', sc, weight, mt);
            assert c' in cands;
          }
        }
      }
    }
  }

  /** Every passing candidate's result is there, and every result is valid. */
  lemma {:induction false} ScoredComplete(cands: seq<(string, string)>, sc: Scorer, threshold: real, weight: real, mt: MatchType)
    ensures Scored(cands, sc, threshold, weight, mt).Success? ==>
              (forall c :: c in cands && Passes(c, sc, threshold) ==> Weighted(c, sc, weight, mt) in Scored(cands, sc, threshold, weight, mt).value)
              && forall x :: x in Scored(cands, sc, threshold, weight, mt).value ==> ValidResult(x)
    decreases |cands|
  {
    if cands != [] {
      var init := cands[..|cands| - 1];
      ScoredComplete(init, sc, threshold, weight, mt);
      var r := Scored(cands, sc, threshold, weight, mt);
      if r.Success? {
        forall c | c in cands && Passes(c, sc, threshold) ensures Weighted(c, sc, weight, mt) in r.value {
          if c != cands[|cands| - 1] {
            var p :| 0 <= p < |cands| && cands[p] == c;
            assert init[p] == c;
          }
        }
      }
    }
  }

  /** The loop raises exactly when some passing candidate's result fails its check. */
  lemma {:induction false} ScoredFails(cands: seq<(string, string)>, sc: Scorer, threshold: real, weight: real, mt: MatchType)
    ensures Scored(cands, sc, threshold, weight, mt).Failure? <==>
              exists c :: c in cands && Passes(c, sc, threshold) && !ValidResult(Weighted(c, sc, weight, mt))
    decreases |cands|
  {
    if cands != [] {
      var init := cands[..|cands| - 1];
      var last := cands[|cands| - 1];
      ScoredFails(init, sc, threshold, weight, mt);
      if exists c :: c in cands && Passes(c, sc, threshold) && !ValidResult(Weighted(c, sc, weight, mt)) {
        var c :| c in cands && Passes(c, sc, threshold) && !ValidResult(Weighted(c, sc, weight, mt));
        if c != last {
          var p :| 0 <= p < |cands| && cands[p] == c;
          assert init[p] == c;
        }
      }
      if Scored(init, sc, threshold, weight, mt).Failure? {
        var c :| c in init && Passes(c, sc, threshold) && !ValidResult(Weighted(c, sc, weight, mt));
        var p :| 0 <= p < |init| && init[p] == c;
        assert cands[p] == c;
      }
    }
  }

  /** With a weight in [0, 1], a threshold of at least 0 and no score above 1, the loop never raises. */
  lemma NeverRaisesWhenBounded(cands: seq<(string, string)>, sc: Scorer, threshold: real, weight: real, mt: MatchType)
    requires 0.0 <= weight <= 1.0 && threshold >= 0.0
    requires forall c :: c in cands ==> ScoreOf(sc, c.1) <= 1.0
    ensures Scored(cands, sc, threshold, weight, mt).Success?
  {
    ScoredFails(cands, sc, threshold, weight, mt);
    forall c | c in cands && Passes(c, sc, threshold) ensures ValidResult(Weighted(c, sc, weight, mt)) {
      UnitProduct(ScoreOf(sc, c.1), weight);
    }
  }

  /** Two numbers in [0, 1] multiply to one in [0, 1]. */
  lemma UnitProduct(s: real, w: real)
    requires 0.0 <= s <= 1.0 && 0.0 <= w <= 1.0
    ensures 0.0 <= s * w <= 1.0
  {
    assert 0.0 * w <= s * w <= 1.0 * w;
  }

  /** A negative threshold lets a candidate with a negative score through, and its result raises. */
  lemma NegativeScoreRaises(c: (string, string), sc: Scorer, threshold: real, weight: real, mt: MatchType)
    requires threshold <= ScoreOf(sc, c.1) < 0.0 && weight > 0.0
    ensures Scored([c], sc, threshold, weight, mt) == Failure(ScoreOutOfRange)
  {
    assert [c][..0] == [];
    assert ScoreOf(sc, c.1) * weight < 0.0;
  }

  method ScoreCandidates(cands: seq<(string, string)>, sc: Scorer, threshold: real, weight: real, mt: MatchType)
    returns (r: Result<seq<SearchResult>, ResultError>)
    ensures r == Scored(cands, sc, threshold, weight, mt)
  {
    var out: seq<SearchResult> := [];
    for i := 0 to |cands|
      invariant Scored(cands[..i], sc, threshold, weight, mt) == Success(out)
    {
      ScoredStep(cands, i, sc, threshold, weight, mt);
      if Passes(cands[i], sc, threshold) {
        var x := NewSearchResult(Weighted(cands[i], sc, weight, mt));
        if x.Failure? {
          ScoredFailurePersists(cands, i + 1, sc, threshold, weight, mt);
          return Failure(x.error);
        }
        out := out + [x.value];
      }
    }
    assert cands[..|cands|] == cands;
    r := Success(out);
  }

  /** A part of `search` as the list it contributes, at most `limit` long. */
  function Trim(r: Result<seq<SearchResult>, ResultError>, limit: int): (e: Result<seq<SearchResult>, SearchError>)
    ensures e.Success? <==> r.Success?
    ensures r.Success? ==> e.value == Take(r.value, limit)
  {
    match r
    case Success(v) => Success(Take(v, limit))
    case Failure(x) => Failure(InvalidResult(x))
  }

  /** What `_search_fuzzy` returns: nothing when the ratio is unavailable. */
  function FuzzyPart(m: SearchManager, query: string, limit: int): Result<seq<SearchResult>, SearchError> {
    if m.ratio.None? then Success([])
    else Trim(Scored(m.provider(query, limit * 3), FuzzyRatio(m.ratio.value, query),
                     m.config.searchSettings.fuzzyAccuracyTarget, m.weights.fuzzy, Fuzzy), limit)
  }

  /** What `_search_semantic` returns: nothing without a model. */
  function SemanticPart(m: SearchManager, query: string, limit: int): Result<seq<SearchResult>, SearchError> {
    if m.model.None? then Success([])
    else Trim(Scored(m.provider(query, limit * 3), Cosine(m.model.value, m.cosine, m.model.value(query)),
                     m.config.searchSettings.semanticSimilarityThreshold, m.weights.semantic, Semantic), limit)
  }

  method SearchFuzzy(m: SearchManager, query: string, limit: int) returns (r: Result<seq<SearchResult>, SearchError>)
    ensures r == FuzzyPart(m, query, limit)
  {
    if m.ratio.None? {
      return Success([]);
    }
    var cands := m.provider(query, limit * 3);
    var s := ScoreCandidates(cands, FuzzyRatio(m.ratio.value, query), m.config.searchSettings.fuzzyAccuracyTarget,
                             m.weights.fuzzy, Fuzzy);
    r := Trim(s, limit);
  }

  method SearchSemantic(m: SearchManager, query: string, limit: int) returns (r: Result<seq<SearchResult>, SearchError>)
    ensures r == SemanticPart(m, query, limit)
  {
    if m.model.None? {
      return Success([]);
    }
    var qv := m.model.value(query);
    var cands := m.provider(query, limit * 3);
    var s := ScoreCandidates(cands, Cosine(m.model.value, m.cosine, qv), m.config.searchSettings.semanticSimilarityThreshold,
                             m.weights.semantic, Semantic);
    r := Trim(s, limit);
  }

  // ---------- search ----------

  /** `a + b` when both succeed, else the first failure. */
  function Then(a: Result<seq<SearchResult>, SearchError>, b: Result<seq<SearchResult>, SearchError>)
    : (r: Result<seq<SearchResult>, SearchError>)
    ensures a.Success? && b.Success? ==> r == Success(a.value + b.value)
    ensures a.Failure? ==> r == a
    ensures a.Success? && b.Failure? ==> r == b
  {
    if a.Failure? then a else if b.Failure? then b else Success(a.value + b.value)
  }

  /** The parts of `search`, in order: exact always, fuzzy when spelling correction is on,
      semantic when AI search is on. */
  function Parts(m: SearchManager, query: string, limit: int): (r: Result<seq<SearchResult>, SearchError>)
    ensures r.Success? ==>
              forall x :: x in r.value ==>
                && x.pageNumber == 0 && ValidResult(x)
                && (x.matchType == Fuzzy ==> m.config.searchSettings.enableSpellingCorrection)
                && (x.matchType == Semantic ==> m.config.searchSettings.enableAiSearch)
  {
    var s := m.config.searchSettings;
    TrimmedFacts(m.provider(query, limit * 3), if m.ratio.Some? then FuzzyRatio(m.ratio.value, query) else FuzzyRatio((a, b) => 0.0, query),
                 s.fuzzyAccuracyTarget, m.weights.fuzzy, Fuzzy, limit);
    if m.model.Some? then
      TrimmedFacts(m.provider(query, limit * 3), Cosine(m.model.value, m.cosine, m.model.value(query)),
                   s.semanticSimilarityThreshold, m.weights.semantic, Semantic, limit);
      PartsOf(m, query, limit)
    else PartsOf(m, query, limit)
  }

  /** The gated concatenation of the three adapters' contributions. */
  function PartsOf(m: SearchManager, query: string, limit: int): Result<seq<SearchResult>, SearchError> {
    var s := m.config.searchSettings;
    Then(Then(ExactPart(m, query, limit), if s.enableSpellingCorrection then FuzzyPart(m, query, limit) else Success([])),
         if s.enableAiSearch then SemanticPart(m, query, limit) else Success([]))
  }

  /** What `search` returns. */
  function SearchOutcome(m: SearchManager, query: string, limit: int): (r: Result<seq<SearchResult>, SearchError>)
    ensures r.Failure? <==> Parts(m, query, limit).Failure?
    ensures r.Success? ==> limit >= 0 ==> |r.value| <= limit
    ensures r.Success? ==> forall i, j :: 0 <= i < j < |r.value| ==> r.value[i].relevanceScore >= r.value[j].relevanceScore
    ensures r.Success? ==> forall x :: x in r.value ==> x in Parts(m, query, limit).value && x.pageNumber == 0 && ValidResult(x)
  {
    match Parts(m, query, limit)
    case Failure(e) => Failure(e)
    case Success(parts) => Success(Fused(parts, limit))
  }

  /** The merge loop of `search`. */
  method MergeParts(parts: seq<SearchResult>) returns (d: Merged)
    ensures d == Merge(parts)
  {
    d := Empty();
    for i := 0 to |parts|
      invariant d == Merge(parts[..i])
    {
      assert parts[..i + 1][..i] == parts[..i];
      var k := Key(parts[i]);
      if k !in d.values || parts[i].relevanceScore > d.values[k].relevanceScore {
        d := Assign(d, k, parts[i]);
      }
    }
    assert parts[..|parts|] == parts;
  }

  /** The gathering half of `search`. */
  method GatherParts(m: SearchManager, query: string, limit: int) returns (r: Result<seq<SearchResult>, SearchError>)
    ensures r == Parts(m, query, limit)
  {
    var exact := SearchExact(m, query, limit);
    var fuzzy: Result<seq<SearchResult>, SearchError> := Success([]);
    if exact.Success? && m.config.searchSettings.enableSpellingCorrection {
      fuzzy := SearchFuzzy(m, query, limit);
    }
    r := Then(exact, fuzzy);
    var semantic: Result<seq<SearchResult>, SearchError> := Success([]);
    if r.Success? && m.config.searchSettings.enableAiSearch {
      semantic := SearchSemantic(m, query, limit);
    }
    r := Then(r, semantic);
  }

  method Search(m: SearchManager, query: string, limit: int) returns (r: Result<seq<SearchResult>, SearchError>)
    ensures r == SearchOutcome(m, query, limit)
  {
    var parts := GatherParts(m, query, limit);
    if parts.Failure? {
      return Failure(parts.error);
    }
    var merged := MergeParts(parts.value);
    r := Success(Take(SortBy(Values(merged), HigherRelevance), limit));
  }

  // ---------- what a search returns ----------

  /** What a trimmed candidate list holds: valid results of the given type on page 0. */
  lemma TrimmedFacts(cands: seq<(string, string)>, sc: Scorer, threshold: real, weight: real, mt: MatchType, limit: int)
    ensures Trim(Scored(cands, sc, threshold, weight, mt), limit).Success? ==>
              forall x :: x in Trim(Scored(cands, sc, threshold, weight, mt), limit).value ==>
                x.pageNumber == 0 && ValidResult(x) && x.matchType == mt
  {
    var r := Scored(cands, sc, threshold, weight, mt);
    ScoredSound(cands, sc, threshold, weight, mt);
    ScoredComplete(cands, sc, threshold, weight, mt);
    if r.Success? {
      TakeIsPrefix(r.value, limit);
      forall x | x in Take(r.value, limit) ensures x in r.value {
        var p :| 0 <= p < |Take(r.value, limit)| && Take(r.value, limit)[p] == x;
        assert r.value[p] == x;
      }
    }
  }

  /** What `search` promises: best first, at most `limit` results when `limit` is not
      negative, one per document page, each a gathered part that is the first best for its
      page, valid and on page 0, with no fuzzy result unless spelling correction is on and
      no semantic result unless AI search is on. */
  lemma SearchRanked(m: SearchManager, query: string, limit: int)
    ensures SearchOutcome(m, query, limit).Failure? <==> Parts(m, query, limit).Failure?
    ensures SearchOutcome(m, query, limit).Success? ==>
              var out := SearchOutcome(m, query, limit).value;
              && (limit >= 0 ==> |out| <= limit)
              && (forall i, j :: 0 <= i < j < |out| ==> out[i].relevanceScore >= out[j].relevanceScore)
              && (forall i, j :: 0 <= i < j < |out| ==> Key(out[i]) != Key(out[j]))
              && (forall r :: r in out ==> exists i :: 0 <= i < |Parts(m, query, limit).value| &&
                                             Parts(m, query, limit).value[i] == r && FirstBest(Parts(m, query, limit).value, i))
              && (forall r :: r in out ==> r.pageNumber == 0 && ValidResult(r))
              && (forall r :: r in out && r.matchType == Fuzzy ==> m.config.searchSettings.enableSpellingCorrection)
              && (forall r :: r in out && r.matchType == Semantic ==> m.config.searchSettings.enableAiSearch)
  {
    var p := Parts(m, query, limit);
    if p.Success? {
      FusedRanked(p.value, limit);
      forall r | r in Fused(p.value, limit) ensures r in p.value {
        var i :| 0 <= i < |p.value| && p.value[i] == r && FirstBest(p.value, i);
      }
    }
  }

  // ---------- the cases the tests exercise ----------

  /** A candidate provider over a fixed list: the first `n` items. */
  function ProviderOf(items: seq<(string, string)>): Provider {
    (q, n) => Take(items, n)
  }

  /** The one hit the fake client answers with. */
  const SampleHit: Json :=
    Obj([("_id", Str("1")), ("_score", Num(2.0)),
         ("_source", Obj([("title", Str("Doc ES")), ("content", Str("lorem ipsum"))])),
         ("highlight", Obj([("content", Arr([Str("<em>lorem</em> ipsum")]))]))])

  function FakeEs(): EsClient {
    (index, size, query, highlight) => Some(Obj([("hits", Obj([("hits", Arr([SampleHit]))]))]))
  }

  /** A hit maps to an exact result with its highlight as snippet and a score of `2.0 / 10`. */
  lemma SampleHitFields()
    ensures HitFields(SampleHit) == Some(HitData("1", "Doc ES", 2.0, "<em>lorem</em> ipsum"))
  {
    var sm := [("title", Str("Doc ES")), ("content", Str("lorem ipsum"))];
    var hl := [("content", Arr([Str("<em>lorem</em> ipsum")]))];
    var hm := SampleHit.members;
    LookupAt(hm, 2, "_source");
    LookupAt(sm, 0, "title");
    LookupMissing(sm, "file_path");
    LookupAt(sm, 1, "content");
    LookupAt(hm, 0, "_id");
    LookupAt(hm, 1, "_score");
    LookupAt(hm, 3, "highlight");
    LookupAt(hl, 0, "content");
  }

  /** The sample hit maps to an exact result with its highlight as snippet and a score of
      `2.0 / 10` times the weight. */
  lemma SampleHitMaps(weight: real)
    requires 0.0 <= weight <= 5.0
    ensures MapHit(SampleHit, weight) ==
              Success(SearchResult("1", "Doc ES", 0, "<em>lorem</em> ipsum", 0.2 * weight, Exact, "<em>lorem</em> ipsum", None))
  {
    SampleHitFields();
    assert MinReal(1.0, 2.0 / 10.0) == 0.2;
    assert 0.0 <= 0.2 * weight <= 1.0;
  }

  /** The fake client's response maps to the sample hit's result. */
  lemma SampleExactPart(m: SearchManager, query: string, limit: int)
    requires m.es == Some(FakeEs()) && m.weights.exact == 1.0
    ensures ExactPart(m, query, limit) ==
              Success([SearchResult("1", "Doc ES", 0, "<em>lorem</em> ipsum", 0.2, Exact, "<em>lorem</em> ipsum", None)])
  {
    FakeEsHits(query, limit);
    SampleMapHits();
  }

  /** The fake client's response holds the one sample hit. */
  lemma FakeEsHits(query: string, limit: int)
    ensures FakeEs()("documents", limit, ExactQuery(query), ContentHighlight).Some?
    ensures HitsOf(FakeEs()("documents", limit, ExactQuery(query), ContentHighlight).value) == Some([SampleHit])
  {
    var inner := [("hits", Arr([SampleHit]))];
    var resp := Obj([("hits", Obj(inner))]);
    assert FakeEs()("documents", limit, ExactQuery(query), ContentHighlight) == Some(resp);
    LookupAt(resp.members, 0, "hits");
    LookupAt(inner, 0, "hits");
  }

  /** The sample hit alone maps to its exact result. */
  lemma SampleMapHits()
    ensures MapHits([SampleHit], 1.0) ==
              Success([SearchResult("1", "Doc ES", 0, "<em>lorem</em> ipsum", 0.2, Exact, "<em>lorem</em> ipsum", None)])
  {
    var x := SearchResult("1", "Doc ES", 0, "<em>lorem</em> ipsum", 0.2, Exact, "<em>lorem</em> ipsum", None);
    SampleHitMaps(1.0);
    MapHitsStep([SampleHit], 0, 1.0);
    assert [SampleHit][..0] == [] && [SampleHit][..1] == [SampleHit];
    assert MapHits([], 1.0) == Success([]);
    assert [] + [x] == [x];
  }

  /** No candidates, no fuzzy or semantic results. */
  lemma NoCandidatesNoParts(m: SearchManager, query: string, limit: int)
    requires forall q, n :: m.provider(q, n) == []
    ensures FuzzyPart(m, query, limit) == Success([]) && SemanticPart(m, query, limit) == Success([])
  {
    assert m.provider(query, limit * 3) == [];
  }

  /** With the fake client and no candidates, whatever the ratio and the model, the one
      hit is the whole answer. */
  lemma ExactViaClientFor(ratio: Option<(string, string) -> real>, model: Option<string -> Vector>, cosine: (Vector, Vector) -> real)
    ensures SearchOutcome(NewSearchManager(Some(DefaultFields), Some(FakeEs()), Some(ProviderOf([])), None, ratio, model, cosine), "lorem", 5)
            == Success([SearchResult("1", "Doc ES", 0, "<em>lorem</em> ipsum", 0.2, Exact, "<em>lorem</em> ipsum", None)])
  {
    var m := NewSearchManager(Some(DefaultFields), Some(FakeEs()), Some(ProviderOf([])), None, ratio, model, cosine);
    var x := SearchResult("1", "Doc ES", 0, "<em>lorem</em> ipsum", 0.2, Exact, "<em>lorem</em> ipsum", None);
    SampleExactPart(m, "lorem", 5);
    NoCandidatesNoParts(m, "lorem", 5);
    assert [x] + [] + [] == [x];
    assert Parts(m, "lorem", 5) == Success([x]);
    SingleFused(x, 5);
  }

  /** One part fuses to itself. */
  lemma SingleFused(x: SearchResult, limit: int)
    requires limit >= 1
    ensures Fused([x], limit) == [x]
  {
    assert [x][..0] == [];
    var d := Merge([x]);
    assert d.order == [Key(x)] && d.values == map[Key(x) := x];
    assert Values(d) == [x];
  }

  /** Settings as `SearchSettings(fuzzy_accuracy_target=...)` or
      `SearchSettings(semantic_similarity_threshold=...)` make them. */
  function WithFuzzyTarget(t: real): ApplicationConfig {
    DefaultFields.(searchSettings := DefaultSearchSettings.(fuzzyAccuracyTarget := t))
  }

  function WithSemanticThreshold(t: real): ApplicationConfig {
    DefaultFields.(searchSettings := DefaultSearchSettings.(semanticSimilarityThreshold := t))
  }

  /** A candidate that passes with a valid result, then one that does not pass. */
  lemma ScoredPassThenFail(a: (string, string), b: (string, string), sc: Scorer, threshold: real, weight: real, mt: MatchType)
    requires Passes(a, sc, threshold) && ValidResult(Weighted(a, sc, weight, mt)) && !Passes(b, sc, threshold)
    ensures Scored([a, b], sc, threshold, weight, mt) == Success([Weighted(a, sc, weight, mt)])
  {
    var w := Weighted(a, sc, weight, mt);
    ScoredStep([a, b], 0, sc, threshold, weight, mt);
    ScoredStep([a, b], 1, sc, threshold, weight, mt);
    assert [a, b][..0] == [] && [a, b][..1] == [a] && [a, b][..2] == [a, b];
    assert Scored([], sc, threshold, weight, mt) == Success([]);
    assert Scored([a], sc, threshold, weight, mt) == Success([] + [w]);
    assert [] + [w] == [w];
  }

  /** A single candidate that passes with a valid result. */
  lemma ScoredOne(a: (string, string), sc: Scorer, threshold: real, weight: real, mt: MatchType)
    requires Passes(a, sc, threshold) && ValidResult(Weighted(a, sc, weight, mt))
    ensures Scored([a], sc, threshold, weight, mt) == Success([Weighted(a, sc, weight, mt)])
  {
    var w := Weighted(a, sc, weight, mt);
    ScoredStep([a], 0, sc, threshold, weight, mt);
    assert [a][..0] == [] && [a][..1] == [a];
    assert Scored([], sc, threshold, weight, mt) == Success([]);
    assert [] + [w] == [w];
  }

  /** A ratio of 90 passes a target of 0.5 and one of 10 does not: only the close candidate
      comes back, as a fuzzy result scored `0.9 * 0.7`. */
  lemma FuzzyFiltersFor(ratio: (string, string) -> real, cosine: (Vector, Vector) -> real)
    requires ratio("hello world", "helo world") == 90.0 && ratio("hello world", "unrelated text") == 10.0
    ensures SearchOutcome(NewSearchManager(Some(WithFuzzyTarget(0.5)), None, Some(ProviderOf([("D1", "helo world"), ("D2", "unrelated text")])),
                                           None, Some(ratio), None, cosine), "hello world", 5)
            == Success([SearchResult("D1", "D1", 0, "helo world", 0.9 * 0.7, Fuzzy, "helo world", None)])
  {
    var items := [("D1", "helo world"), ("D2", "unrelated text")];
    var m := NewSearchManager(Some(WithFuzzyTarget(0.5)), None, Some(ProviderOf(items)), None, Some(ratio), None, cosine);
    var x := SearchResult("D1", "D1", 0, "helo world", 0.9 * 0.7, Fuzzy, "helo world", None);
    var sc := FuzzyRatio(ratio, "hello world");
    assert m.provider("hello world", 15) == items;
    assert Take("helo world", 200) == "helo world";
    assert Weighted(items[0], sc, 0.7, Fuzzy) == x;
    ScoredPassThenFail(items[0], items[1], sc, 0.5, 0.7, Fuzzy);
    assert m.ratio == Some(ratio) && m.weights == DefaultWeights;
    assert m.config.searchSettings.fuzzyAccuracyTarget == 0.5;
    assert Take([x], 5) == [x];
    assert FuzzyPart(m, "hello world", 5) == Success([x]);
    assert [] + [x] + [] == [x];
    assert Parts(m, "hello world", 5) == Success([x]);
    SingleFused(x, 5);
  }

  /** With a threshold of 0 and a cosine in [0, 1], the one candidate comes back as a semantic result. */
  lemma SemanticUsesModelFor(model: string -> Vector, cosine: (Vector, Vector) -> real)
    requires 0.0 <= cosine(model("x"), model("semantic candidate")) <= 1.0
    ensures var m := NewSearchManager(Some(WithSemanticThreshold(0.0)), None, Some(ProviderOf([("D3", "semantic candidate")])),
                                      None, None, Some(model), cosine);
            SearchOutcome(m, "x", 5) ==
              Success([SearchResult("D3", "D3", 0, "semantic candidate", cosine(model("x"), model("semantic candidate")) * 0.9,
                                    Semantic, "semantic candidate", None)])
  {
    var m := NewSearchManager(Some(WithSemanticThreshold(0.0)), None, Some(ProviderOf([("D3", "semantic candidate")])),
                              None, None, Some(model), cosine);
    var x := SearchResult("D3", "D3", 0, "semantic candidate", cosine(model("x"), model("semantic candidate")) * 0.9,
                          Semantic, "semantic candidate", None);
    SampleSemanticPart(model, cosine);
    assert [] + [] + [x] == [x];
    assert Parts(m, "x", 5) == Success([x]);
    SingleFused(x, 5);
  }

  /** The semantic part of that search: the one candidate, weighted by 0.9. */
  lemma SampleSemanticPart(model: string -> Vector, cosine: (Vector, Vector) -> real)
    requires 0.0 <= cosine(model("x"), model("semantic candidate")) <= 1.0
    ensures var m := NewSearchManager(Some(WithSemanticThreshold(0.0)), None, Some(ProviderOf([("D3", "semantic candidate")])),
                                      None, None, Some(model), cosine);
            && m.es.None? && m.provider("x", 15) == [("D3", "semantic candidate")] && m.model == Some(model)
            && SemanticPart(m, "x", 5) ==
                 Success([SearchResult("D3", "D3", 0, "semantic candidate", cosine(model("x"), model("semantic candidate")) * 0.9,
                                       Semantic, "semantic candidate", None)])
  {
    var c := ("D3", "semantic candidate");
    var m := NewSearchManager(Some(WithSemanticThreshold(0.0)), None, Some(ProviderOf([c])), None, None, Some(model), cosine);
    var sim := cosine(model("x"), model("semantic candidate"));
    var x := SearchResult("D3", "D3", 0, "semantic candidate", sim * 0.9, Semantic, "semantic candidate", None);
    var sc := Cosine(model, cosine, model("x"));
    assert m.provider("x", 15) == [c];
    assert Take("semantic candidate", 200) == "semantic candidate";
    assert Weighted(c, sc, 0.9, Semantic) == x;
    assert 0.0 <= sim * 0.9 <= 1.0;
    ScoredOne(c, sc, 0.0, 0.9, Semantic);
    assert m.model == Some(model) && m.cosine == cosine && m.weights == DefaultWeights;
    assert m.config.searchSettings.semanticSimilarityThreshold == 0.0;
    assert Take([x], 5) == [x];
  }

  /** Without `_id` the identifier is the source's `file_path`; without a highlight the
      snippet is the content's first 200 characters; a raw score above 10 counts as 10. */
  lemma PathFallback(title: string, path: string, content: string)
    ensures MapHit(Obj([("_score", Num(20.0)), ("_source", Obj([("title", Str(title)), ("file_path", Str(path)), ("content", Str(content))]))]), 1.0)
            == Success(ExactResult(path, title, Take(content, 200), 20.0, 1.0))
  {
    var sm := [("title", Str(title)), ("file_path", Str(path)), ("content", Str(content))];
    var hm := [("_score", Num(20.0)), ("_source", Obj(sm))];
    LookupAt(hm, 1, "_source");
    LookupAt(sm, 0, "title");
    LookupAt(sm, 1, "file_path");
    LookupAt(sm, 2, "content");
    LookupMissing(hm, "_id");
    LookupAt(hm, 0, "_score");
    LookupMissing(hm, "highlight");
    LookupMissing([], "content");
    assert HitFields(Obj(hm)) == Some(HitData(path, title, 20.0, Take(content, 200)));
    assert MinReal(1.0, 20.0 / 10.0) == 1.0;
  }

  /** Without `_id` or `file_path` the identifier is the title, and a missing score is 0. */
  lemma TitleFallback(title: string)
    ensures MapHit(Obj([("_source", Obj([("title", Str(title))]))]), 1.0) == Success(ExactResult(title, title, "", 0.0, 1.0))
  {
    var sm := [("title", Str(title))];
    var hm := [("_source", Obj(sm))];
    LookupAt(hm, 0, "_source");
    LookupAt(sm, 0, "title");
    LookupMissing(sm, "file_path");
    LookupMissing(sm, "content");
    LookupMissing(hm, "_id");
    LookupMissing(hm, "_score");
    LookupMissing(hm, "highlight");
    LookupMissing([], "content");
    assert Take("", 200) == "";
    assert HitFields(Obj(hm)) == Some(HitData(title, title, 0.0, ""));
  }
}
