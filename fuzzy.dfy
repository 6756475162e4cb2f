/** The fuzzy strategy: a `multi_match` query with a fuzziness for
    Elasticsearch, and spelling suggestions from a corpus, kept when their
    similarity ratio (out of 100) reaches the accuracy target. The matcher
    that ranks the corpus is a parameter; its absence stands for the library
    failing to import. */
module Fuzzy {
  import opened Wrappers
  import opened PyText
  import opened JsonValue
  import opened Configuration
  import ExactStrategy

  /** `str | int`: `"AUTO"` or an edit distance. */
  datatype Fuzziness = FuzzText(text: string) | FuzzEdits(edits: int)

  datatype FuzzyConfig = FuzzyConfig(fields: seq<string>, fuzziness: Fuzziness, prefixLength: int)

  /** `FuzzyConfig()`. */
  const DefaultFuzzyConfig: FuzzyConfig := FuzzyConfig(["title^2", "content"], FuzzText("AUTO"), 0)

  /** The fuzziness as it appears in the query: a string stays a string, a number a number. */
  function FuzzinessJson(f: Fuzziness): (j: Json)
    ensures j.Str? || j.Int?
  {
    match f
    case FuzzText(t) => Str(t)
    case FuzzEdits(n) => Int(n)
  }

  /** Reading the fuzziness back from the query. */
  function FuzzinessOf(j: Json): (r: Option<Fuzziness>)
    ensures r.Some? <==> j.Str? || j.Int?
  {
    match j
    case Str(t) => Some(FuzzText(t))
    case Int(n) => Some(FuzzEdits(n))
    case _ => None
  }

  /** The fuzziness is passed through unchanged: `f if f != "AUTO" else "AUTO"` is `f`. */
  lemma FuzzinessRoundTrip(f: Fuzziness)
    ensures FuzzinessOf(FuzzinessJson(f)) == Some(f)
  {
  }

  datatype FuzzySearchStrategy = FuzzySearchStrategy(settings: SearchSettings, fuzzy: FuzzyConfig, corpus: seq<string>)

  /** `FuzzySearchStrategy(app_config, corpus_provider, fuzzy_config)`; the corpus provider is
      modelled by the corpus it returns, and none gives an empty corpus. */
  function NewFuzzyStrategy(appConfig: Option<ApplicationConfig>, corpus: Option<seq<string>>,
                            fuzzyConfig: Option<FuzzyConfig>): (s: FuzzySearchStrategy)
    ensures s.settings == SettingsOf(appConfig)
    ensures fuzzyConfig.None? ==> s.fuzzy == DefaultFuzzyConfig
    ensures fuzzyConfig.Some? ==> s.fuzzy == fuzzyConfig.value
    ensures corpus.None? ==> s.corpus == []
    ensures corpus.Some? ==> s.corpus == corpus.value
  {
    FuzzySearchStrategy(SettingsOf(appConfig),
                        if fuzzyConfig.Some? then fuzzyConfig.value else DefaultFuzzyConfig,
                        if corpus.Some? then corpus.value else [])
  }

  // ---------- the Elasticsearch query ----------

  /** The members of `multi_match`. */
  function MatchMembers(s: FuzzySearchStrategy, text: string): seq<(string, Json)> {
    [("query", Str(text)), ("fields", StrList(s.fuzzy.fields)),
     ("fuzziness", FuzzinessJson(s.fuzzy.fuzziness)), ("prefix_length", Int(s.fuzzy.prefixLength))]
  }

  lemma MatchMembersLookup(s: FuzzySearchStrategy, text: string)
    ensures Lookup(MatchMembers(s, text), "query") == Some(Str(text))
    ensures Lookup(MatchMembers(s, text), "fields") == Some(StrList(s.fuzzy.fields))
    ensures Lookup(MatchMembers(s, text), "fuzziness") == Some(FuzzinessJson(s.fuzzy.fuzziness))
    ensures Lookup(MatchMembers(s, text), "prefix_length") == Some(Int(s.fuzzy.prefixLength))
  {
    var ms := MatchMembers(s, text);
    assert ms[1..][1..][1..] == [("prefix_length", Int(s.fuzzy.prefixLength))];
    assert Lookup(ms[1..][1..][1..], "prefix_length") == Some(Int(s.fuzzy.prefixLength));
    assert Lookup(ms[1..][1..], "fuzziness") == Some(FuzzinessJson(s.fuzzy.fuzziness));
    assert Lookup(ms[1..][1..], "prefix_length") == Some(Int(s.fuzzy.prefixLength));
    assert Lookup(ms[1..], "fields") == Some(StrList(s.fuzzy.fields));
  }

  /** `build_query(text)`: a `multi_match` over the configured fields, with the text, the
      configured fuzziness unchanged and the prefix length. */
  function BuildQuery(s: FuzzySearchStrategy, text: string): (q: Json)
    ensures Get(q, "multi_match") == Some(Obj(MatchMembers(s, text)))
    ensures Get(Obj(MatchMembers(s, text)), "query") == Some(Str(text))
    ensures Get(Obj(MatchMembers(s, text)), "fields") == Some(StrList(s.fuzzy.fields))
    ensures Get(Obj(MatchMembers(s, text)), "fuzziness") == Some(FuzzinessJson(s.fuzzy.fuzziness))
    ensures Get(Obj(MatchMembers(s, text)), "prefix_length") == Some(Int(s.fuzzy.prefixLength))
  {
    MatchMembersLookup(s, text);
    Obj([("multi_match", Obj(MatchMembers(s, text)))])
  }

  /** `search(es_client, index, text, size)`: one call of the client with the index and the
      body of size, query and content highlight. */
  function Search<R>(s: FuzzySearchStrategy, client: (string, Json) -> R, index: string, text: string, size: int): (r: R)
    ensures r == client(index, ExactStrategy.SearchBody(size, BuildQuery(s, text)))
  {
    client(index, ExactStrategy.SearchBody(size, BuildQuery(s, text)))
  }

  // ---------- suggestions ----------

  /** `process.extract(text, corpus, scorer=fuzz.ratio, limit=limit)`: `(choice, score, index)`
      with the score out of 100. */
  type Extractor = (string, seq<string>, int) -> seq<(string, real, int)>

  /** The loop of `suggest`: each candidate whose score, scaled to one, reaches the target,
      with that scaled score, in the matcher's order. */
  function Accepted(cands: seq<(string, real, int)>, target: real): (r: seq<(string, real)>)
    ensures |r| <= |cands|
    decreases |cands|
  {
    if cands == [] then []
    else
      var rest := Accepted(cands[..|cands| - 1], target);
      var c := cands[|cands| - 1];
      if c.1 / 100.0 >= target then rest + [(c.0, c.1 / 100.0)] else rest
  }

  /** Every suggestion reaches the target and is a candidate with its score scaled to one. */
  lemma {:induction false} AcceptedSound(cands: seq<(string, real, int)>, target: real)
    ensures forall p :: p in Accepted(cands, target) ==>
              p.1 >= target && exists i :: 0 <= i < |cands| && p == (cands[i].0, cands[i].1 / 100.0)
    decreases |cands|
  {
    if cands != [] {
      var init := cands[..|cands| - 1];
      AcceptedSound(init, target);
      forall p | p in Accepted(init, target)
        ensures exists i :: 0 <= i < |cands| && p == (cands[i].0, cands[i].1 / 100.0)
      {
        var i :| 0 <= i < |init| && p == (init[i].0, init[i].1 / 100.0);
        assert init[i] == cands[i];
      }
    }
  }

  /** One more candidate: perhaps one more suggestion. */
  lemma AcceptedStep(cands: seq<(string, real, int)>, target: real, i: nat)
    requires i < |cands|
    ensures Accepted(cands[..i + 1], target)
         == if cands[i].1 / 100.0 >= target then Accepted(cands[..i], target) + [(cands[i].0, cands[i].1 / 100.0)]
            else Accepted(cands[..i], target)
  {
    assert cands[..i + 1][..i] == cands[..i];
  }

  /** No candidate that reaches the target is dropped. */
  lemma {:induction false} AcceptedComplete(cands: seq<(string, real, int)>, target: real, i: int)
    requires 0 <= i < |cands| && cands[i].1 / 100.0 >= target
    ensures (cands[i].0, cands[i].1 / 100.0) in Accepted(cands, target)
    decreases |cands|
  {
    if i < |cands| - 1 {
      var init := cands[..|cands| - 1];
      assert init[i] == cands[i];
      AcceptedComplete(init, target, i);
    }
  }

  /** What `suggest` returns: nothing without the matcher or without a corpus. */
  function Suggestions(s: FuzzySearchStrategy, text: string, limit: int, extract: Option<Extractor>): (r: seq<(string, real)>)
    ensures extract.None? || s.corpus == [] ==> r == []
    ensures forall p :: p in r ==> p.1 >= s.settings.fuzzyAccuracyTarget
  {
    if extract.None? || s.corpus == [] then []
    else
      AcceptedSound(Extracted(extract.value, text, s.corpus, limit), s.settings.fuzzyAccuracyTarget);
      Accepted(Extracted(extract.value, text, s.corpus, limit), s.settings.fuzzyAccuracyTarget)
  }

  /** `process.extract(text, corpus, limit=limit)`. */
  function Extracted(extract: Extractor, text: string, corpus: seq<string>, limit: int): seq<(string, real, int)> {
    extract(text, corpus, limit)
  }

  /** `suggest(text, limit)`. */
  method Suggest(s: FuzzySearchStrategy, text: string, limit: int, extract: Option<Extractor>)
    returns (out: seq<(string, real)>)
    ensures out == Suggestions(s, text, limit, extract)
  {
    if extract.None? {
      return [];
    }
    var corpus := s.corpus;
    if corpus == [] {
      return [];
    }
    var candidates := Extracted(extract.value, text, corpus, limit);
    out := [];
    for i := 0 to |candidates|
      invariant out == Accepted(candidates[..i], s.settings.fuzzyAccuracyTarget)
    {
      var conf := candidates[i].1 / 100.0;
      if conf >= s.settings.fuzzyAccuracyTarget {
        out := out + [(candidates[i].0, conf)];
      }
      AcceptedStep(candidates, s.settings.fuzzyAccuracyTarget, i);
    }
    assert candidates[..|candidates|] == candidates;
  }

  /** `confidence(a, b)`: the ratio scaled to one, or 0 without the matcher; a ratio out of
      100 gives a confidence between 0 and 1. */
  function Confidence(a: string, b: string, ratio: Option<(string, string) -> real>): (c: real)
    ensures ratio.None? ==> c == 0.0
    ensures ratio.Some? ==> c * 100.0 == ratio.value(a, b)
    ensures ratio.Some? && 0.0 <= ratio.value(a, b) <= 100.0 ==> 0.0 <= c <= 1.0
  {
    if ratio.None? then 0.0 else ratio.value(a, b) / 100.0
  }

  // ---------- the examples of the tests ----------

  /** The default query carries the fuzziness `AUTO` and the fields. */
  lemma DefaultQueryFuzziness(text: string)
    ensures var mm := Get(BuildQuery(NewFuzzyStrategy(None, None, None), text), "multi_match");
            && mm.Some?
            && Get(mm.value, "fuzziness") == Some(Str("AUTO"))
            && Get(mm.value, "fields").Some?
  {
  }

  /** `search(es, index="documents", text=..., size=7)`: the client sees that index, size 7
      and a query with a fuzziness. */
  lemma SearchPassesSize<R>(client: (string, Json) -> R, text: string)
    ensures var s := NewFuzzyStrategy(None, None, None);
            var body := ExactStrategy.SearchBody(7, BuildQuery(s, text));
            && Search(s, client, "documents", text, 7) == client("documents", body)
            && Get(body, "size") == Some(Int(7))
            && Get(Get(Get(body, "query").value, "multi_match").value, "fuzziness").Some?
  {
  }

  /** The test's matcher: 90 for the choice `hit`, 20 for every other, in corpus order. */
  function HitScores(corpus: seq<string>, hit: string): (r: seq<(string, real, int)>)
    ensures |r| == |corpus|
    ensures forall i :: 0 <= i < |corpus| ==> r[i] == (corpus[i], if corpus[i] == hit then 90.0 else 20.0, i)
  {
    seq(|corpus|, i requires 0 <= i < |corpus| => (corpus[i], if corpus[i] == hit then 90.0 else 20.0, i))
  }

  /** Three candidates of which only `h` scores 90: with a target of 0.6 it alone is suggested. */
  lemma OnlyHitAccepted(a: string, h: string, b: string)
    requires a != h && b != h
    ensures Accepted([(a, 20.0, 0), (h, 90.0, 1), (b, 20.0, 2)], 0.6) == [(h, 0.9)]
  {
    var cs := [(a, 20.0, 0), (h, 90.0, 1), (b, 20.0, 2)];
    assert cs[..2][..1] == [(a, 20.0, 0)];
    assert Accepted([(a, 20.0, 0)][..0], 0.6) == [];
    assert Accepted(cs[..2][..1], 0.6) == [];
    assert Accepted(cs[..2], 0.6) == [(h, 0.9)];
  }

  /** The corpus of four, the target 0.6 and at most three candidates: the first suggestion
      is `hello world`, with a confidence of 0.9. */
  method SuggestionsWithThresholdFor(a: string, h: string, b: string, e: string)
    requires a != h && b != h
  {
    var cfg := DefaultFields.(searchSettings := DefaultSearchSettings.(fuzzyAccuracyTarget := 0.6));
    var s := NewFuzzyStrategy(Some(cfg), Some([a, h, b, e]), None);
    var extract: Extractor := (q, corpus, n) => Take(HitScores(corpus, h), n);
    var out := Suggest(s, h, 3, Some(extract));
    assert Take(HitScores([a, h, b, e], h), 3) == [(a, 20.0, 0), (h, 90.0, 1), (b, 20.0, 2)];
    OnlyHitAccepted(a, h, b);
    assert out[0].0 == h && out[0].1 >= 0.6;
  }

  method SuggestionsWithThreshold()
  {
    SuggestionsWithThresholdFor("introduction", "hello world", "banana bread", "elasticsearch");
  }
}
