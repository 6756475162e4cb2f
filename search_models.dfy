/** The search result record, the kinds of match, and the rule for topic
    paths (`a/b/c`: slash-separated, no slash at either end). */
module SearchModels {
  import opened Wrappers
  import opened PyText

  datatype MatchType = Exact | Fuzzy | Semantic

  /** The enum's string value. */
  function MatchTypeValue(m: MatchType): (s: string)
    ensures s in ["EXACT", "FUZZY", "SEMANTIC"]
  {
    match m
    case Exact => "EXACT"
    case Fuzzy => "FUZZY"
    case Semantic => "SEMANTIC"
  }

  /** `MatchType(s)`: the member whose value is `s`, if any. */
  function MatchTypeOf(s: string): (r: Option<MatchType>)
    ensures r.Some? <==> s in ["EXACT", "FUZZY", "SEMANTIC"]
  {
    if s == "EXACT" then Some(Exact)
    else if s == "FUZZY" then Some(Fuzzy)
    else if s == "SEMANTIC" then Some(Semantic)
    else None
  }

  /** Value and lookup are inverse to each other. */
  lemma MatchTypeRoundTrip(m: MatchType, s: string)
    ensures MatchTypeOf(MatchTypeValue(m)) == Some(m)
    ensures MatchTypeOf(s).Some? ==> MatchTypeValue(MatchTypeOf(s).value) == s
  {
  }

  // ---------- topic paths ----------

  datatype PathError = SlashedPath | NoSegments

  /** No slash at either end, and not empty. */
  predicate WellFormedPath(path: string) {
    path != [] && path[0] != '/' && path[|path| - 1] != '/'
  }

  /** `_validate_topic_path` (and `TopicNode._validate_path`): first the strip test, then the
      segment test; the second can never fail once the first has passed. */
  function ValidatePath(path: string): (r: Result<(), PathError>)
    ensures r.Success? <==> WellFormedPath(path)
    ensures r != Failure(NoSegments)
  {
    StripFixpoint(path, '/');
    if path == [] || Strip(path, '/') != path then Failure(SlashedPath)
    else if NonEmpty(Split(path, '/')) == [] then
      SplitFirstPiece(path, '/');
      Failure(NoSegments)
    else Success(())
  }

  /** An accepted path has a first segment that is not empty. */
  lemma AcceptedPathHasSegment(path: string)
    requires ValidatePath(path).Success?
    ensures Split(path, '/')[0] != "" && NonEmpty(Split(path, '/')) != []
  {
    SplitFirstPiece(path, '/');
  }

  /** Empty segments inside a path pass the check. */
  lemma InnerEmptySegmentAccepted(a: string, b: string)
    requires a != [] && b != [] && a[0] != '/' && b[|b| - 1] != '/'
    ensures ValidatePath(a + "//" + b).Success?
  {
    var p := a + "//" + b;
    assert p[0] == a[0] && p[|p| - 1] == b[|b| - 1];
  }

  // ---------- the record ----------

  datatype SearchResult = SearchResult(
    documentId: string,
    documentTitle: string,
    pageNumber: int,
    snippet: string,
    relevanceScore: real,
    matchType: MatchType,
    highlightedText: string,
    topicPath: Option<string>)

  datatype ResultError = NegativePage | ScoreOutOfRange | BadTopicPath(reason: PathError)

  /** What construction accepts. */
  predicate ValidResult(r: SearchResult) {
    && r.pageNumber >= 0
    && 0.0 <= r.relevanceScore <= 1.0
    && (r.topicPath.Some? ==> WellFormedPath(r.topicPath.value))
  }

  /** `SearchResult(...)` with its `__post_init__`: the checks run in order, the first failure raises. */
  function NewSearchResult(r: SearchResult): (res: Result<SearchResult, ResultError>)
    ensures res.Success? <==> ValidResult(r)
    ensures res.Success? ==> res.value == r
    ensures r.pageNumber < 0 ==> res == Failure(NegativePage)
    ensures r.pageNumber >= 0 && !(0.0 <= r.relevanceScore <= 1.0) ==> res == Failure(ScoreOutOfRange)
    ensures res.Failure? && res.error.BadTopicPath? ==> res.error.reason == SlashedPath
  {
    if r.pageNumber < 0 then Failure(NegativePage)
    else if !(0.0 <= r.relevanceScore <= 1.0) then Failure(ScoreOutOfRange)
    else if r.topicPath.Some? && ValidatePath(r.topicPath.value).Failure? then
      Failure(BadTopicPath(ValidatePath(r.topicPath.value).error))
    else Success(r)
  }

  /** A result whose topic path is absent is not path-checked at all. */
  lemma NoTopicPathUnchecked(r: SearchResult)
    requires r.topicPath.None?
    ensures NewSearchResult(r).Success? <==> r.pageNumber >= 0 && 0.0 <= r.relevanceScore <= 1.0
  {
  }

  // ---------- the examples of the tests ----------

  function Sample(page: int, path: Option<string>): SearchResult {
    SearchResult("1", "Doc", page, "...", 0.9, Fuzzy, "<b>hit</b>", path)
  }

  /** Page 0 with path `algorithms/trees` is accepted, page -1 is refused. */
  lemma SampleResults()
    ensures NewSearchResult(Sample(0, Some("algorithms/trees"))) == Success(Sample(0, Some("algorithms/trees")))
    ensures NewSearchResult(Sample(-1, None)) == Failure(NegativePage)
  {
    var p := "algorithms/trees";
    assert p[0] == 'a' && p[|p| - 1] == 's';
  }
}
