/** The semantic strategy: a bounded cache of text embeddings kept in
    least-recently-used order, and a search that embeds the query and each
    candidate text, keeps the candidates whose similarity reaches the
    threshold, and returns the best ones first. The embedding model and the
    cosine similarity are parameters. */
module Semantic {
  import opened Wrappers
  import opened PyText
  import opened OrderedDicts
  import opened Sorting
  import opened Configuration
  import LruCache

  type Vector = seq<real>

  /** `(doc_id, similarity, text)`. */
  type Hit = (string, real, string)

  datatype SemanticConfig = SemanticConfig(modelName: string, threshold: real, cacheSize: int)

  /** `SemanticConfig()`. */
  const DefaultSemanticConfig: SemanticConfig := SemanticConfig("all-MiniLM-L6-v2", 0.7, 1000)

  // ---------- the embedding cache ----------

  /** `max(1, int(max_size))`. */
  function CacheBound(maxSize: int): (m: int)
    ensures m >= 1 && m >= maxSize && (m == 1 || m == maxSize)
  {
    if maxSize < 1 then 1 else maxSize
  }

  /** The store after `get`: a stored key becomes the newest, a miss changes nothing. */
  function AfterLookup(d: ODict<string, Vector>, k: string): (r: ODict<string, Vector>)
    requires WellFormed(d)
    ensures WellFormed(r) && r.values == d.values && Len(r) == Len(d)
    ensures k in d.values ==> r.order == Without(d.order, k) + [k]
    ensures k !in d.values ==> r == d
  {
    if k in d.values then MoveToEnd(d, k) else d
  }

  class EmbeddingCache {
    var max: int
    var store: ODict<string, Vector>

    /** A well-formed store, never more entries than the bound. */
    ghost predicate Valid()
      reads this
    {
      WellFormed(store) && max >= 1 && Len(store) <= max
    }

    /** `EmbeddingCache(max_size)`. */
    constructor (maxSize: int)
      ensures Valid() && max == CacheBound(maxSize) && store == Empty()
    {
      max := CacheBound(maxSize);
      store := Empty();
    }

    method Get(key: string) returns (r: Option<Vector>)
      requires Valid()
      modifies this
      ensures Valid() && max == old(max)
      ensures r == OrderedDicts.Get(old(store), key)
      ensures store == AfterLookup(old(store), key)
    {
      r := OrderedDicts.Get(store, key);
      if r.Some? {
        store := MoveToEnd(store, key);
      }
    }

    method Put(key: string, vec: Vector)
      requires Valid()
      modifies this
      ensures Valid() && max == old(max)
      ensures store == LruCache.AfterPut(old(store), key, vec, max)
    {
      if key in store.values {
        store := MoveToEnd(store, key);
      }
      store := Assign(store, key, vec);
      if Len(store) > max {
        store := PopFirst(store);
      }
    }
  }

  // ---------- embedding through the cache, as values ----------

  /** Every cached vector is the model's embedding of its key. */
  ghost predicate Faithful(d: ODict<string, Vector>, embed: string -> Vector) {
    forall k :: k in d.values ==> d.values[k] == embed(k)
  }

  /** The store after `_embed_text(t)`: a hit refreshes `t`, a miss stores its new embedding. */
  function EmbedStep(d: ODict<string, Vector>, t: string, embed: string -> Vector, cap: int): (r: ODict<string, Vector>)
    requires WellFormed(d)
    ensures WellFormed(r) && (Len(d) <= cap ==> Len(r) <= cap)
  {
    if t in d.values then AfterLookup(d, t) else LruCache.AfterPut(d, t, embed(t), cap)
  }

  /** The calls of the model `_embed_text(t)` makes: one on a miss, none on a hit. */
  function Miss(d: ODict<string, Vector>, t: string): nat {
    if t in d.values then 0 else 1
  }

  /** The store after embedding `ts` one after the other. */
  function EmbedAll(d: ODict<string, Vector>, ts: seq<string>, embed: string -> Vector, cap: int): (r: ODict<string, Vector>)
    requires WellFormed(d)
    ensures WellFormed(r) && (Len(d) <= cap ==> Len(r) <= cap)
    decreases |ts|
  {
    if ts == [] then d
    else EmbedStep(EmbedAll(d, ts[..|ts| - 1], embed, cap), ts[|ts| - 1], embed, cap)
  }

  /** The calls of the model embedding `ts` one after the other makes: at most one per text. */
  function Misses(d: ODict<string, Vector>, ts: seq<string>, embed: string -> Vector, cap: int): (n: nat)
    requires WellFormed(d)
    ensures n <= |ts|
    decreases |ts|
  {
    if ts == [] then 0
    else
      Misses(d, ts[..|ts| - 1], embed, cap)
        + Miss(EmbedAll(d, ts[..|ts| - 1], embed, cap), ts[|ts| - 1])
  }

  lemma EmbedAllAppend(d: ODict<string, Vector>, ts: seq<string>, t: string, embed: string -> Vector, cap: int)
    requires WellFormed(d)
    ensures EmbedAll(d, ts + [t], embed, cap) == EmbedStep(EmbedAll(d, ts, embed, cap), t, embed, cap)
    ensures Misses(d, ts + [t], embed, cap) == Misses(d, ts, embed, cap) + Miss(EmbedAll(d, ts, embed, cap), t)
  {
    assert (ts + [t])[..|ts|] == ts;
  }

  /** Embedding keeps every cached vector equal to the model's embedding of its text. */
  lemma EmbedStepFaithful(d: ODict<string, Vector>, t: string, embed: string -> Vector, cap: int)
    requires WellFormed(d) && Faithful(d, embed)
    ensures Faithful(EmbedStep(d, t, embed, cap), embed)
  {
  }

  lemma {:induction false} EmbedAllFaithful(d: ODict<string, Vector>, ts: seq<string>, embed: string -> Vector, cap: int)
    requires WellFormed(d) && Faithful(d, embed)
    ensures Faithful(EmbedAll(d, ts, embed, cap), embed)
    decreases |ts|
  {
    if ts != [] {
      EmbedAllFaithful(d, ts[..|ts| - 1], embed, cap);
      EmbedStepFaithful(EmbedAll(d, ts[..|ts| - 1], embed, cap), ts[|ts| - 1], embed, cap);
    }
  }

  /** Texts that are all cached already cost no call of the model, and keep the same keys cached. */
  lemma {:induction false} AllCachedNoEncodes(d: ODict<string, Vector>, ts: seq<string>, embed: string -> Vector, cap: int)
    requires WellFormed(d)
    requires forall i :: 0 <= i < |ts| ==> ts[i] in d.values
    ensures Misses(d, ts, embed, cap) == 0
    ensures EmbedAll(d, ts, embed, cap).values == d.values
    decreases |ts|
  {
    if ts != [] {
      var init := ts[..|ts| - 1];
      assert forall i :: 0 <= i < |init| ==> init[i] in d.values by {
        forall i | 0 <= i < |init| ensures init[i] in d.values {
          assert init[i] == ts[i];
        }
      }
      AllCachedNoEncodes(d, init, embed, cap);
    }
  }

  /** With a bound of at least one, the text embedded last is cached afterwards. */
  lemma LastEmbeddedCached(d: ODict<string, Vector>, ts: seq<string>, embed: string -> Vector, cap: int)
    requires WellFormed(d) && cap >= 1 && ts != []
    ensures ts[|ts| - 1] in EmbedAll(d, ts, embed, cap).values
  {
    var p := EmbedAll(d, ts[..|ts| - 1], embed, cap);
    var t := ts[|ts| - 1];
    if t !in p.values {
      LruCache.PutStores(p, t, embed(t), cap);
    }
  }

  // ---------- the candidates that reach the threshold ----------

  /** The texts of the candidates, in order. */
  function TextsOf(cands: seq<(string, string)>): (ts: seq<string>)
    ensures |ts| == |cands| && forall i :: 0 <= i < |cands| ==> ts[i] == cands[i].1
    decreases |cands|
  {
    if cands == [] then [] else TextsOf(cands[..|cands| - 1]) + [cands[|cands| - 1].1]
  }

  /** The loop of `search`: each candidate whose similarity to the query reaches the
      threshold, with that similarity, in the order of the candidates. */
  function Hits(cands: seq<(string, string)>, qv: Vector, embed: string -> Vector,
                similarity: (Vector, Vector) -> real, threshold: real): (r: seq<Hit>)
    ensures |r| <= |cands|
    ensures forall h :: h in r ==> h.1 >= threshold && (h.0, h.2) in cands && h.1 == similarity(qv, embed(h.2))
    decreases |cands|
  {
    if cands == [] then []
    else
      var rest := Hits(cands[..|cands| - 1], qv, embed, similarity, threshold);
      var c := cands[|cands| - 1];
      var sim := similarity(qv, embed(c.1));
      if sim >= threshold then rest + [(c.0, sim, c.1)] else rest
  }

  /** No candidate that reaches the threshold is dropped. */
  lemma {:induction false} HitsComplete(cands: seq<(string, string)>, qv: Vector, embed: string -> Vector,
                                        similarity: (Vector, Vector) -> real, threshold: real, i: int)
    requires 0 <= i < |cands| && similarity(qv, embed(cands[i].1)) >= threshold
    ensures (cands[i].0, similarity(qv, embed(cands[i].1)), cands[i].1) in Hits(cands, qv, embed, similarity, threshold)
    decreases |cands|
  {
    if i < |cands| - 1 {
      var init := cands[..|cands| - 1];
      assert init[i] == cands[i];
      HitsComplete(init, qv, embed, similarity, threshold, i);
    }
  }

  /** When every candidate reaches the threshold, every one is a hit. */
  lemma {:induction false} HitsAllPass(cands: seq<(string, string)>, qv: Vector, embed: string -> Vector,
                                       similarity: (Vector, Vector) -> real, threshold: real)
    requires forall i :: 0 <= i < |cands| ==> similarity(qv, embed(cands[i].1)) >= threshold
    ensures |Hits(cands, qv, embed, similarity, threshold)| == |cands|
    decreases |cands|
  {
    if cands != [] {
      var init := cands[..|cands| - 1];
      assert forall i :: 0 <= i < |init| ==> similarity(qv, embed(init[i].1)) >= threshold by {
        forall i | 0 <= i < |init| ensures similarity(qv, embed(init[i].1)) >= threshold {
          assert init[i] == cands[i];
        }
      }
      HitsAllPass(init, qv, embed, similarity, threshold);
    }
  }

  // ---------- ranking ----------

  /** `sort(key=lambda x: x[1], reverse=True)`: a higher similarity sorts first; the sort stays stable. */
  function HigherScore(a: Hit, b: Hit): bool {
    a.1 > b.1
  }

  lemma HigherScoreOrder()
    ensures StrictWeakOrder(HigherScore)
  {
  }

  /** `sorted(hits, best first)[:limit]`. */
  function Ranked(hits: seq<Hit>, limit: int): seq<Hit> {
    Take(SortBy(hits, HigherScore), limit)
  }

  /** The ranked hits: at most `limit` of them, best first, all taken from the hits, and
      none of the hits left out scores above any that was kept; with room for all, all are kept. */
  lemma RankedTop(hits: seq<Hit>, limit: int)
    ensures |Ranked(hits, limit)| <= |hits|
    ensures limit >= 0 ==> |Ranked(hits, limit)| <= limit
    ensures limit >= |hits| ==> multiset(Ranked(hits, limit)) == multiset(hits)
    ensures forall h :: h in Ranked(hits, limit) ==> h in hits
    ensures forall i, j :: 0 <= i < j < |Ranked(hits, limit)| ==> Ranked(hits, limit)[i].1 >= Ranked(hits, limit)[j].1
    ensures forall h, i ::
              h in hits && h !in Ranked(hits, limit) && 0 <= i < |Ranked(hits, limit)| ==> h.1 <= Ranked(hits, limit)[i].1
  {
    var s := SortBy(hits, HigherScore);
    var r := Ranked(hits, limit);
    HigherScoreOrder();
    SortByOrdered(hits, HigherScore);
    TakeIsPrefix(s, limit);
    assert r == s[..|r|];
    if limit >= |hits| {
      assert r == s;
    }
    forall h | h in r ensures h in hits {
      assert h in multiset(s);
    }
    forall h, i | h in hits && h !in r && 0 <= i < |r| ensures h.1 <= r[i].1 {
      assert h in multiset(s);
      var j :| 0 <= j < |s| && s[j] == h;
      PrefixHas(s, |r|, j);
      assert !HigherScore(s[j], s[i]);
    }
  }

  /** One more candidate: one more text to embed, and perhaps one more hit. */
  lemma PrefixStep(query: string, cands: seq<(string, string)>, i: nat, qv: Vector, embed: string -> Vector,
                   similarity: (Vector, Vector) -> real, threshold: real)
    requires i < |cands|
    ensures [query] + TextsOf(cands[..i + 1]) == [query] + TextsOf(cands[..i]) + [cands[i].1]
    ensures Hits(cands[..i + 1], qv, embed, similarity, threshold)
         == var sim := similarity(qv, embed(cands[i].1));
            var hs := Hits(cands[..i], qv, embed, similarity, threshold);
            if sim >= threshold then hs + [(cands[i].0, sim, cands[i].1)] else hs
  {
    assert cands[..i + 1][..i] == cands[..i];
  }

  lemma PrefixHas<T>(s: seq<T>, n: nat, j: nat)
    requires n <= |s| && j < |s|
    ensures j < n ==> s[j] in s[..n]
  {
    if j < n {
      assert s[..n][j] == s[j];
    }
  }

  // ---------- the strategy ----------

  /** `SemanticConfig(threshold=...)` unless one is given. */
  function ConfigOf(settings: SearchSettings, semConfig: Option<SemanticConfig>): (c: SemanticConfig)
    ensures semConfig.Some? ==> c == semConfig.value
    ensures semConfig.None? ==> c == DefaultSemanticConfig.(threshold := settings.semanticSimilarityThreshold)
  {
    match semConfig
    case Some(sc) => sc
    case None => DefaultSemanticConfig.(threshold := settings.semanticSimilarityThreshold)
  }

  /** With nothing given, the strategy's configuration is exactly `SemanticConfig()`: the
      default similarity threshold of the settings agrees with the strategy's own. */
  lemma DefaultsAgree()
    ensures ConfigOf(SettingsOf(None), None) == DefaultSemanticConfig
  {
  }

  class SemanticSearchStrategy {
    const settings: SearchSettings
    const conf: SemanticConfig
    /** `candidate_provider(query, n)`: the candidates `(doc_id, text)` to rank. */
    const provider: (string, int) -> seq<(string, string)>
    const cache: EmbeddingCache
    /** The model's `encode`, one text at a time. */
    const embed: string -> Vector
    /** `cosine_similarity_numba`. */
    const similarity: (Vector, Vector) -> real
    /** How many times the model has been called. */
    var encodes: nat

    /** A valid cache that holds only the model's own embeddings. */
    ghost predicate Valid()
      reads this, cache
    {
      cache.Valid() && Faithful(cache.store, embed)
    }

    constructor (appConfig: Option<ApplicationConfig>,
                 candidateProvider: Option<(string, int) -> seq<(string, string)>>,
                 semConfig: Option<SemanticConfig>,
                 embeddingCache: Option<EmbeddingCache>,
                 embed: string -> Vector,
                 similarity: (Vector, Vector) -> real)
      requires embeddingCache.Some? ==> embeddingCache.value.Valid() && Faithful(embeddingCache.value.store, embed)
      ensures Valid() && encodes == 0
      ensures settings == SettingsOf(appConfig) && conf == ConfigOf(settings, semConfig)
      ensures candidateProvider.Some? ==> provider == candidateProvider.value
      ensures candidateProvider.None? ==> forall q, n :: provider(q, n) == []
      ensures embeddingCache.Some? ==> cache == embeddingCache.value
      ensures embeddingCache.None? ==> fresh(cache) && cache.max == CacheBound(conf.cacheSize) && cache.store == Empty()
      ensures this.embed == embed && this.similarity == similarity
    {
      var s := SettingsOf(appConfig);
      var c := ConfigOf(s, semConfig);
      settings := s;
      conf := c;
      var nothing: (string, int) -> seq<(string, string)> := (q, n) => [];
      if candidateProvider.Some? {
        provider := candidateProvider.value;
      } else {
        provider := nothing;
      }
      if embeddingCache.Some? {
        cache := embeddingCache.value;
      } else {
        cache := new EmbeddingCache(c.cacheSize);
      }
      this.embed := embed;
      this.similarity := similarity;
      encodes := 0;
    }

    /** `provider(query, limit * 3)`. */
    function Candidates(query: string, limit: int): seq<(string, string)> {
      provider(query, limit * 3)
    }

    /** Whether `search` gets as far as embedding: AI search on, candidates found,
        and not restricted to pre-encoded vectors. */
    predicate Embeds(query: string, limit: int) {
      settings.enableAiSearch && Candidates(query, limit) != [] && !settings.fallbackToPreencodedOnly
    }

    /** The texts `search` embeds, in order: the query, then each candidate's text. */
    function Embedded(query: string, limit: int): seq<string> {
      if Embeds(query, limit) then [query] + TextsOf(Candidates(query, limit)) else []
    }

    /** What `search` returns. */
    function Results(query: string, limit: int): (r: seq<Hit>)
      ensures !Embeds(query, limit) ==> r == []
      ensures limit >= 0 ==> |r| <= limit
      ensures forall i, j :: 0 <= i < j < |r| ==> r[i].1 >= r[j].1
      ensures forall h :: h in r ==> h.1 >= conf.threshold && (h.0, h.2) in Candidates(query, limit)
    {
      var hits := Hits(Candidates(query, limit), embed(query), embed, similarity, conf.threshold);
      RankedTop(hits, limit);
      if Embeds(query, limit) then Ranked(Hits(Candidates(query, limit), embed(query), embed, similarity, conf.threshold), limit)
      else []
    }

    /** `encode_texts`: one call of the model for the whole batch. */
    method EncodeTexts(texts: seq<string>) returns (vs: seq<Vector>)
      modifies this
      ensures encodes == old(encodes) + 1
      ensures |vs| == |texts| && forall i :: 0 <= i < |texts| ==> vs[i] == embed(texts[i])
    {
      encodes := encodes + 1;
      vs := seq(|texts|, i requires 0 <= i < |texts| => embed(texts[i]));
    }

    /** `_embed_text`: the cached vector on a hit; otherwise the model's, which is then cached.
        Either way it is the model's embedding of the text. */
    method EmbedText(text: string) returns (v: Vector)
      requires Valid()
      modifies this, cache
      ensures Valid() && cache.max == old(cache.max)
      ensures v == embed(text)
      ensures cache.store == EmbedStep(old(cache.store), text, embed, cache.max)
      ensures encodes == old(encodes) + Miss(old(cache.store), text)
    {
      var cached := cache.Get(text);
      if cached.Some? {
        v := cached.value;
        return;
      }
      var vs := EncodeTexts([text]);
      v := vs[0];
      cache.Put(text, v);
      EmbedStepFaithful(old(cache.store), text, embed, cache.max);
    }

    /** `search(query, limit)`: nothing when AI search is off, when there is no candidate,
        or when only pre-encoded vectors may be used; otherwise the ranked hits. */
    method Search(query: string, limit: int) returns (out: seq<Hit>)
      requires Valid()
      modifies this, cache
      ensures Valid() && cache.max == old(cache.max)
      ensures out == Results(query, limit)
      ensures !settings.enableAiSearch || settings.fallbackToPreencodedOnly ==> out == []
      ensures cache.store == EmbedAll(old(cache.store), Embedded(query, limit), embed, cache.max)
      ensures encodes == old(encodes) + Misses(old(cache.store), Embedded(query, limit), embed, cache.max)
    {
      if !settings.enableAiSearch {
        return [];
      }
      var cands := provider(query, limit * 3);
      if cands == [] {
        return [];
      }
      if settings.fallbackToPreencodedOnly {
        return [];
      }
      var hits := EmbedAndMatch(query, cands);
      out := Ranked(hits, limit);
    }

    /** The body of `search` past its checks: embed the query, then each candidate in turn,
        keeping those that reach the threshold. */
    method EmbedAndMatch(query: string, cands: seq<(string, string)>) returns (hits: seq<Hit>)
      requires Valid()
      modifies this, cache
      ensures Valid() && cache.max == old(cache.max)
      ensures hits == Hits(cands, embed(query), embed, similarity, conf.threshold)
      ensures cache.store == EmbedAll(old(cache.store), [query] + TextsOf(cands), embed, cache.max)
      ensures encodes == old(encodes) + Misses(old(cache.store), [query] + TextsOf(cands), embed, cache.max)
    {
      ghost var d0 := cache.store;
      var qv := EmbedText(query);
      EmbedAllAppend(d0, [], query, embed, cache.max);
      assert [] + [query] == [query] + TextsOf(cands[..0]);
      hits := [];
      for i := 0 to |cands|
        invariant Valid() && cache.max == old(cache.max)
        invariant hits == Hits(cands[..i], qv, embed, similarity, conf.threshold)
        invariant cache.store == EmbedAll(d0, [query] + TextsOf(cands[..i]), embed, cache.max)
        invariant encodes == old(encodes) + Misses(d0, [query] + TextsOf(cands[..i]), embed, cache.max)
      {
        hits := MatchOne(qv, cands[i], hits);
        PrefixStep(query, cands, i, qv, embed, similarity, conf.threshold);
        EmbedAllAppend(d0, [query] + TextsOf(cands[..i]), cands[i].1, embed, cache.max);
      }
      assert cands[..|cands|] == cands;
    }

    /** One turn of the loop of `search`: embed the candidate's text and keep the candidate
        if its similarity to the query reaches the threshold. */
    method MatchOne(qv: Vector, c: (string, string), hits: seq<Hit>) returns (r: seq<Hit>)
      requires Valid()
      modifies this, cache
      ensures Valid() && cache.max == old(cache.max)
      ensures r == if similarity(qv, embed(c.1)) >= conf.threshold then hits + [(c.0, similarity(qv, embed(c.1)), c.1)] else hits
      ensures cache.store == EmbedStep(old(cache.store), c.1, embed, cache.max)
      ensures encodes == old(encodes) + Miss(old(cache.store), c.1)
    {
      var dv := EmbedText(c.1);
      var sim := similarity(qv, dv);
      r := hits;
      if sim >= conf.threshold {
        r := r + [(c.0, sim, c.1)];
      }
    }
  }

  // ---------- the examples of the tests ----------

  /** The settings of the tests: the defaults with a similarity threshold of zero. */
  function ZeroThreshold(): ApplicationConfig {
    DefaultFields.(searchSettings := DefaultSearchSettings.(semanticSimilarityThreshold := 0.0))
  }

  /** Three candidates, every one as similar as can be, at most two returned: two come back. */
  method ScoresAndSorts(embed: string -> Vector)
  {
    var prov := (q: string, n: int) => [("D1", "alpha beta"), ("D2", "gamma delta"), ("D3", "alpha gamma")];
    var s := new SemanticSearchStrategy(Some(ZeroThreshold()), Some(prov), None, None, embed, (a: Vector, b: Vector) => 1.0);
    var out := s.Search("alpha", 2);
    HitsAllPass(s.Candidates("alpha", 2), embed("alpha"), embed, s.similarity, 0.0);
    RankedTop(Hits(s.Candidates("alpha", 2), embed("alpha"), embed, s.similarity, 0.0), 2);
    assert |out| == 2;
  }

  /** Embedding a text twice calls the model at most once, and leaves the text cached. */
  lemma EmbedTwice(d: ODict<string, Vector>, t: string, embed: string -> Vector, cap: int)
    requires WellFormed(d) && cap >= 1
    ensures Misses(d, [t, t], embed, cap) == Miss(d, t)
    ensures t in EmbedAll(d, [t, t], embed, cap).values
  {
    assert Misses(d, [t], embed, cap) == Miss(d, t) by {
      EmbedAllAppend(d, [], t, embed, cap);
      assert [] + [t] == [t];
    }
    assert t in EmbedAll(d, [t], embed, cap).values by {
      LastEmbeddedCached(d, [t], embed, cap);
    }
    assert Misses(d, [t, t], embed, cap) == Misses(d, [t], embed, cap) + Miss(EmbedAll(d, [t], embed, cap), t) by {
      EmbedAllAppend(d, [t], t, embed, cap);
      assert [t] + [t] == [t, t];
    }
    LastEmbeddedCached(d, [t, t], embed, cap);
  }

  /** Embedding the same text twice into an empty cache calls the model once; doing
      it again calls it no more. */
  lemma RepeatedText(t: string, embed: string -> Vector, cap: int)
    requires cap >= 1
    ensures Misses(Empty(), [t, t], embed, cap) == 1
    ensures Misses(EmbedAll(Empty(), [t, t], embed, cap), [t, t], embed, cap) == 0
  {
    EmbedTwice(Empty(), t, embed, cap);
    EmbedTwice(EmbedAll(Empty(), [t, t], embed, cap), t, embed, cap);
  }

  /** The strategy of the test: defaults but a zero threshold, and the single candidate `(id, t)`. */
  method SingleCandidate(id: string, t: string, embed: string -> Vector, similarity: (Vector, Vector) -> real)
    returns (s: SemanticSearchStrategy)
    ensures fresh(s) && fresh(s.cache) && s.Valid() && s.encodes == 0
    ensures s.cache.store == Empty() && s.cache.max == 1000 && s.embed == embed
    ensures s.settings.enableAiSearch && !s.settings.fallbackToPreencodedOnly
    ensures forall limit :: s.Embedded(t, limit) == [t, t]
  {
    var prov := (q: string, n: int) => [(id, t)];
    s := new SemanticSearchStrategy(Some(ZeroThreshold()), Some(prov), None, None, embed, similarity);
    assert forall limit :: s.Candidates(t, limit) == [(id, t)];
    assert TextsOf([(id, t)]) == [t];
  }

  /** Searching `t` twice with the single candidate `t`: the first search calls the model
      once, for the query (the candidate's text is then a hit), and the second not at all. */
  method CacheAvoidsRecomputeFor(id: string, t: string, embed: string -> Vector, similarity: (Vector, Vector) -> real)
  {
    var s := SingleCandidate(id, t, embed, similarity);
    assert s.Embedded(t, 1) == [t, t];
    SearchFirst(s, t);
    SearchAgain(s, t);
  }

  /** From an empty cache, searching `t` with its candidate `t` calls the model once. */
  method SearchFirst(s: SemanticSearchStrategy, t: string)
    requires s.Valid() && s.encodes == 0 && s.cache.max == 1000 && s.Embedded(t, 1) == [t, t]
    requires s.cache.store == Empty()
    modifies s, s.cache
    ensures s.Valid() && s.encodes == 1 && s.cache.max == 1000
    ensures s.cache.store == EmbedAll(Empty(), [t, t], s.embed, 1000)
  {
    RepeatedText(t, s.embed, 1000);
    var first := s.Search(t, 1);
  }

  /** Once `t` and its candidate `t` are cached, searching `t` again calls the model not at all. */
  method SearchAgain(s: SemanticSearchStrategy, t: string)
    requires s.Valid() && s.cache.max == 1000 && s.Embedded(t, 1) == [t, t]
    requires s.cache.store == EmbedAll(Empty(), [t, t], s.embed, 1000)
    modifies s, s.cache
  {
    RepeatedText(t, s.embed, 1000);
    var calls := s.encodes;
    var second := s.Search(t, 1);
    assert s.encodes == calls;
  }

  method CacheAvoidsRecompute(embed: string -> Vector, similarity: (Vector, Vector) -> real)
  {
    CacheAvoidsRecomputeFor("D1", "x", embed, similarity);
  }
}
