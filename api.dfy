/** The arithmetic of the HTTP layer: rejecting an empty query, clamping and
    slicing pages of search results and of the document listing, choosing a free
    name for an upload, and reading a `Range` header into the part of a file to
    serve. The directory listing, file sizes and the set of existing paths are
    parameters; streaming, uploads and web sockets are not modelled. */
module Api {
  import opened Wrappers
  import opened PyText
  import opened PyPath
  import opened Sorting
  import opened SearchModels
  import Manager = SearchManager
  import Configuration

  /** An HTTP error response: `HTTPException(status_code, detail)`, or 500 for an
      exception the endpoint does not catch. */
  datatype HttpError = HttpError(status: int, detail: string)

  const EmptyQuery: HttpError := HttpError(400, "query must not be empty")
  const ServerError: HttpError := HttpError(500, "Internal Server Error")

  // ---------- pages ----------

  /** `max(lo, min(hi, n))`. */
  function Clamp(n: int, lo: int, hi: int): (r: int)
    requires lo <= hi
    ensures lo <= r <= hi
    ensures lo <= n <= hi ==> r == n
    ensures n < lo ==> r == lo
    ensures n > hi ==> r == hi
  {
    if n < lo then lo else if n > hi then hi else n
  }

  /** `max(1, n)`. */
  function AtLeastOne(n: int): (r: int)
    ensures r >= 1 && (n >= 1 ==> r == n) && (n < 1 ==> r == 1)
  {
    if n < 1 then 1 else n
  }

  /** A page of a reordering of `ys` holds only elements of `ys`. */
  lemma PageDrawnFrom<T>(xs: seq<T>, ys: seq<T>, page: int, size: int)
    requires page >= 1 && size >= 1 && multiset(xs) == multiset(ys)
    ensures forall x :: x in PageSlice(xs, page, size) ==> x in ys
  {
    PageSliceWithin(xs, page, size);
    forall x | x in PageSlice(xs, page, size) ensures x in ys {
      assert x in multiset(PageSlice(xs, page, size));
      assert x in multiset(xs);
    }
  }

  /** `xs[start:start + size]` for a start that is not negative. */
  function Window<T>(xs: seq<T>, start: nat, size: nat): (r: seq<T>)
    ensures |r| <= size
  {
    if start < |xs| then xs[start..if start + size < |xs| then start + size else |xs|] else []
  }

  /** Where page `page` starts: `(page - 1) * size`. */
  function PageStart(page: int, size: int): (s: nat)
    requires page >= 1 && size >= 1
  {
    (page - 1) * size
  }

  /** `xs[(page - 1) * size : (page - 1) * size + size]`. */
  function PageSlice<T>(xs: seq<T>, page: int, size: int): (r: seq<T>)
    requires page >= 1 && size >= 1
    ensures r == Window(xs, PageStart(page, size), size)
    ensures |r| <= size
  {
    PySlice(xs, (page - 1) * size, (page - 1) * size + size)
  }

  /** The first `n` pages, one after another. */
  function Pages<T>(xs: seq<T>, size: int, n: nat): seq<T>
    requires size >= 1
  {
    if n == 0 then [] else Pages(xs, size, n - 1) + PageSlice(xs, n, size)
  }

  /** The prefix up to a window, followed by the window, is the prefix up to its end. */
  lemma WindowExtends<T>(xs: seq<T>, start: nat, size: nat)
    ensures xs[..if start < |xs| then start else |xs|] + Window(xs, start, size)
            == xs[..if start + size < |xs| then start + size else |xs|]
  {
    var ca := if start < |xs| then start else |xs|;
    var cb := if start + size < |xs| then start + size else |xs|;
    assert Window(xs, start, size) == xs[ca..cb];
    assert xs[..cb] == xs[..ca] + xs[ca..cb];
  }

  /** Pages tile the list: the first `n` pages are its first `n * size` elements, so no
      element is on two pages and, with enough pages, every element is on one. */
  lemma {:induction false} PagesTile<T>(xs: seq<T>, size: int, n: nat)
    requires size >= 1
    ensures Pages(xs, size, n) == xs[..if n * size < |xs| then n * size else |xs|]
  {
    if n > 0 {
      PagesTile(xs, size, n - 1);
      var a := PageStart(n, size);
      MulStep(n, size);
      assert Pages(xs, size, n) == Pages(xs, size, n - 1) + Window(xs, a, size);
      WindowExtends(xs, a, size);
    }
  }

  lemma MulStep(n: int, size: int)
    requires n >= 1 && size >= 1
    ensures n * size == PageStart(n, size) + size && (n - 1) * size == PageStart(n, size)
  {
  }

  /** A window of an ordered list is ordered. */
  lemma WindowOrdered<T>(xs: seq<T>, start: nat, size: nat, before: (T, T) -> bool)
    requires Ordered(xs, before)
    ensures Ordered(Window(xs, start, size), before)
  {
    var p := Window(xs, start, size);
    forall i, j | 0 <= i < j < |p| ensures !before(p[j], p[i]) {
      assert p[i] == xs[start + i] && p[j] == xs[start + j];
    }
  }

  /** A page of an ordered list is ordered. */
  lemma PageSliceOrdered<T>(xs: seq<T>, page: int, size: int, before: (T, T) -> bool)
    requires page >= 1 && size >= 1 && Ordered(xs, before)
    ensures Ordered(PageSlice(xs, page, size), before)
  {
    WindowOrdered(xs, PageStart(page, size), size, before);
  }

  /** A window holds only elements of the list. */
  lemma WindowWithin<T>(xs: seq<T>, start: nat, size: nat)
    ensures multiset(Window(xs, start, size)) <= multiset(xs)
  {
    if start < |xs| {
      var stop := if start + size < |xs| then start + size else |xs|;
      assert xs == xs[..start] + xs[start..stop] + xs[stop..];
    }
  }

  /** A page holds only elements of the list. */
  lemma PageSliceWithin<T>(xs: seq<T>, page: int, size: int)
    requires page >= 1 && size >= 1
    ensures multiset(PageSlice(xs, page, size)) <= multiset(xs)
  {
    WindowWithin(xs, PageStart(page, size), size);
  }

  // ---------- search endpoints ----------

  /** `api_search` as written: a non-empty query reaches `search(..., topic_filter=...)`,
      a keyword the manager's `search(query, limit)` does not accept, so the call raises
      `TypeError` and the endpoint answers 500. */
  function ApiSearchAsWritten(m: Manager.SearchManager, query: string, limit: int, topic: Option<string>)
    : (r: Result<seq<SearchResult>, HttpError>)
    ensures query == [] ==> r == Failure(EmptyQuery)
    ensures query != [] ==> r == Failure(ServerError)
  {
    if query == [] then Failure(EmptyQuery) else Failure(ServerError)
  }

  /** `api_search` with the search called as `search(query, limit=limit)`. */
  function ApiSearch(m: Manager.SearchManager, query: string, limit: int): (r: Result<seq<SearchResult>, HttpError>)
    ensures r == Failure(EmptyQuery) <==> query == []
    ensures query != [] && Manager.SearchOutcome(m, query, limit).Success? ==>
              r == Success(Manager.SearchOutcome(m, query, limit).value)
    ensures query != [] && Manager.SearchOutcome(m, query, limit).Failure? ==> r == Failure(ServerError)
  {
    if query == [] then Failure(EmptyQuery)
    else
      match Manager.SearchOutcome(m, query, limit)
      case Failure(_) => Failure(ServerError)
      case Success(rs) => Success(rs)
  }

  /** As written, no non-empty query is ever answered, while the intended call answers
      the exact-search example of the manager. */
  lemma AsWrittenNeverAnswers(ratio: Option<(string, string) -> real>, model: Option<string -> Manager.Vector>,
                              cosine: (Manager.Vector, Manager.Vector) -> real)
    ensures var m := Manager.NewSearchManager(Some(Configuration.DefaultFields), Some(Manager.FakeEs()),
                                              Some(Manager.ProviderOf([])), None, ratio, model, cosine);
            && ApiSearchAsWritten(m, "lorem", 5, None) == Failure(ServerError)
            && ApiSearch(m, "lorem", 5) == Success([SearchResult("1", "Doc ES", 0, "<em>lorem</em> ipsum", 0.2, Exact, "<em>lorem</em> ipsum", None)])
  {
    Manager.ExactViaClientFor(ratio, model, cosine);
  }

  datatype AdvancedRequest = AdvancedRequest(query: string, page: int, size: int, sort: string)

  /** `{"total": ..., "page": ..., "size": ..., "items": ...}`. */
  datatype Listing<T> = Listing(total: int, page: int, size: int, items: seq<T>)

  /** `key=lambda r: r.document_title or ""`: titles in string order. */
  function TitleBefore(a: SearchResult, b: SearchResult): bool {
    StrBefore(a.documentTitle, b.documentTitle)
  }

  lemma TitleOrder()
    ensures StrictWeakOrder(TitleBefore)
  {
    StrBeforeOrder();
    forall a, b | TitleBefore(a, b) ensures !TitleBefore(b, a) {
      assert StrBefore(a.documentTitle, b.documentTitle);
    }
    forall a, b, c | !TitleBefore(a, b) && !TitleBefore(b, c) ensures !TitleBefore(a, c) {
      assert !StrBefore(a.documentTitle, b.documentTitle) && !StrBefore(b.documentTitle, c.documentTitle);
    }
  }

  /** The order `sort` asks for: by title for `"name"`, by score, best first, otherwise. */
  function SortOrder(sort: string): (before: (SearchResult, SearchResult) -> bool) {
    if sort == "name" then TitleBefore else Manager.HigherRelevance
  }

  lemma SortOrderIsStrictWeak(sort: string)
    ensures StrictWeakOrder(SortOrder(sort))
  {
    TitleOrder();
    Manager.HigherRelevanceOrder();
  }

  /** The page the endpoint cuts from the results it fetched. */
  function AdvancedPage(sup: seq<SearchResult>, page: int, size: int, sort: string): (l: Listing<SearchResult>)
    requires page >= 1 && size >= 1
    ensures l.total == |sup| && l.page == page && l.size == size && |l.items| <= size
    ensures forall x :: x in l.items ==> x in sup
  {
    PageDrawnFrom(SortBy(sup, SortOrder(sort)), sup, page, size);
    Listing(|sup|, page, size, PageSlice(SortBy(sup, SortOrder(sort)), page, size))
  }

  /** `api_search_advanced` with the search called as `search(query, limit=page * size)`:
      size clamped to [1, 100], page to at least 1. */
  function AdvancedSearch(m: Manager.SearchManager, req: AdvancedRequest): (r: Result<Listing<SearchResult>, HttpError>)
    ensures r == Failure(EmptyQuery) <==> req.query == []
    ensures r.Success? ==> 1 <= r.value.size <= 100 && r.value.page >= 1 && |r.value.items| <= r.value.size
    ensures req.query != [] ==>
              var size := Clamp(req.size, 1, 100);
              var page := AtLeastOne(req.page);
              var o := Manager.SearchOutcome(m, req.query, page * size);
              && (r.Success? <==> o.Success?)
              && (o.Success? ==> r.value == AdvancedPage(o.value, page, size, req.sort))
              && (o.Failure? ==> r == Failure(ServerError))
  {
    if req.query == [] then Failure(EmptyQuery)
    else
      var size := Clamp(req.size, 1, 100);
      var page := AtLeastOne(req.page);
      match Manager.SearchOutcome(m, req.query, page * size)
      case Failure(_) => Failure(ServerError)
      case Success(sup) => Success(AdvancedPage(sup, page, size, req.sort))
  }

  /** `api_search_advanced` as written: like `api_search`, a non-empty query raises at the
      `topic_filter` keyword. */
  function AdvancedSearchAsWritten(m: Manager.SearchManager, req: AdvancedRequest, topic: Option<string>)
    : (r: Result<Listing<SearchResult>, HttpError>)
    ensures req.query == [] ==> r == Failure(EmptyQuery)
    ensures req.query != [] ==> r == Failure(ServerError)
  {
    if req.query == [] then Failure(EmptyQuery) else Failure(ServerError)
  }

  /** The items are the requested page of the fetched results in the requested order, a
      reordering of what was fetched; the total counts everything fetched. */
  lemma AdvancedPageFacts(sup: seq<SearchResult>, page: int, size: int, sort: string)
    requires page >= 1 && size >= 1
    ensures var l := AdvancedPage(sup, page, size, sort);
            var sorted := SortBy(sup, SortOrder(sort));
            && l.total == |sup|
            && multiset(sorted) == multiset(sup)
            && Ordered(sorted, SortOrder(sort))
            && Ordered(l.items, SortOrder(sort))
            && l.items == PageSlice(sorted, page, size)
            && multiset(l.items) <= multiset(sup)
  {
    var sorted := SortBy(sup, SortOrder(sort));
    SortOrderIsStrictWeak(sort);
    SortByOrdered(sup, SortOrder(sort));
    PageSliceOrdered(sorted, page, size, SortOrder(sort));
    PageSliceWithin(sorted, page, size);
  }

  /** Sorted by score, the page is a slice of the manager's own ranking: re-sorting the
      already ranked results changes nothing. */
  lemma ScorePageIsRankingSlice(sup: seq<SearchResult>, page: int, size: int, sort: string)
    requires page >= 1 && size >= 1 && sort != "name"
    requires forall i, j :: 0 <= i < j < |sup| ==> sup[i].relevanceScore >= sup[j].relevanceScore
    ensures AdvancedPage(sup, page, size, sort).items == PageSlice(sup, page, size)
  {
    assert Ordered(sup, Manager.HigherRelevance);
    SortByOrderedIdentity(sup, Manager.HigherRelevance);
  }

  /** Sorted by score, a successful advanced search answers the requested page of the
      manager's own ranking, fetched with room for exactly the pages up to it. */
  lemma AdvancedSearchRanked(m: Manager.SearchManager, req: AdvancedRequest)
    requires req.query != [] && req.sort != "name"
    ensures var size := Clamp(req.size, 1, 100);
            var page := AtLeastOne(req.page);
            var o := Manager.SearchOutcome(m, req.query, page * size);
            && (AdvancedSearch(m, req).Success? <==> o.Success?)
            && (o.Success? ==>
                  && |o.value| <= page * size
                  && AdvancedSearch(m, req) == Success(Listing(|o.value|, page, size, PageSlice(o.value, page, size))))
  {
    var size := Clamp(req.size, 1, 100);
    var page := AtLeastOne(req.page);
    var o := Manager.SearchOutcome(m, req.query, page * size);
    if o.Success? {
      ProductPositive(page, size);
      ScorePageIsRankingSlice(o.value, page, size, req.sort);
    }
  }

  lemma ProductPositive(a: int, b: int)
    requires a >= 1 && b >= 1
    ensures a * b >= b
  {
  }

  // ---------- document listing ----------

  /** A file of the documents directory, with what `stat` reports for it. */
  datatype FileEntry = FileEntry(name: string, size: int, modified: real)

  /** `q.lower() in p.name.lower()`. */
  predicate NameMatches(f: FileEntry, q: string) {
    Contains(Lower(f.name), Lower(q))
  }

  /** The files a query keeps, in listing order; an absent or empty query keeps all. */
  function Matching(files: seq<FileEntry>, q: Option<string>): (r: seq<FileEntry>)
    ensures |r| <= |files|
    ensures forall f :: f in r <==> f in files && (q.Some? && q.value != [] ==> NameMatches(f, q.value))
    ensures forall f :: multiset(r)[f] == if q.Some? && q.value != [] && !NameMatches(f, q.value) then 0 else multiset(files)[f]
    decreases |files|
  {
    if files == [] then []
    else
      var rest := Matching(files[..|files| - 1], q);
      var f := files[|files| - 1];
      assert files == files[..|files| - 1] + [f];
      if q.Some? && q.value != [] && !NameMatches(f, q.value) then rest else rest + [f]
  }

  /** `key=lambda p: p.name.lower()`. */
  function NameBefore(a: FileEntry, b: FileEntry): bool {
    StrBefore(Lower(a.name), Lower(b.name))
  }

  lemma NameOrder()
    ensures StrictWeakOrder(NameBefore)
  {
    StrBeforeOrder();
    forall a, b | NameBefore(a, b) ensures !NameBefore(b, a) {
      assert StrBefore(Lower(a.name), Lower(b.name));
    }
    forall a, b, c | !NameBefore(a, b) && !NameBefore(b, c) ensures !NameBefore(a, c) {
      assert !StrBefore(Lower(a.name), Lower(b.name)) && !StrBefore(Lower(b.name), Lower(c.name));
    }
  }

  /** `list_documents`: size clamped to [1, 200], page to at least 1. */
  function ListDocuments(files: seq<FileEntry>, page: int, size: int, q: Option<string>): (l: Listing<FileEntry>)
    ensures 1 <= l.size <= 200 && l.page >= 1 && |l.items| <= l.size
    ensures l.total == |Matching(files, q)|
  {
    var sz := Clamp(size, 1, 200);
    var pg := AtLeastOne(page);
    var kept := SortBy(Matching(files, q), NameBefore);
    Listing(|Matching(files, q)|, pg, sz, PageSlice(kept, pg, sz))
  }

  /** Every listed file is a file of the directory that matches the query, the page is
      in lower-cased name order, and it is a page of a reordering of the matching files. */
  lemma ListDocumentsFacts(files: seq<FileEntry>, page: int, size: int, q: Option<string>)
    ensures var l := ListDocuments(files, page, size, q);
            && (forall f :: f in l.items ==> f in files && (q.Some? && q.value != [] ==> NameMatches(f, q.value)))
            && (forall i, j :: 0 <= i < j < |l.items| ==> !StrLess(Lower(l.items[j].name), Lower(l.items[i].name)))
    ensures var kept := SortBy(Matching(files, q), NameBefore);
            multiset(kept) == multiset(Matching(files, q)) &&
            ListDocuments(files, page, size, q).items == PageSlice(kept, AtLeastOne(page), Clamp(size, 1, 200))
  {
    var sz := Clamp(size, 1, 200);
    var pg := AtLeastOne(page);
    var matching := Matching(files, q);
    var kept := SortBy(matching, NameBefore);
    var items := PageSlice(kept, pg, sz);
    assert ListDocuments(files, page, size, q).items == items;
    NameOrder();
    SortByOrdered(matching, NameBefore);
    PageSliceOrdered(kept, pg, sz, NameBefore);
    PageSliceWithin(kept, pg, sz);
    forall f | f in items ensures f in matching {
      assert f in multiset(kept);
    }
    forall i, j | 0 <= i < j < |items| ensures !StrLess(Lower(items[j].name), Lower(items[i].name)) {
      assert !NameBefore(items[j], items[i]);
    }
  }

  // ---------- upload names ----------

  /** `path.parent / f"{stem} ({i}){suffix}"`. */
  function Candidate(path: string, i: int): (r: string)
    ensures Dir(r) == Dir(path)
    ensures Name(r) == Stem(path) + " (" + IntToDecimal(i) + ")" + Suffix(path)
  {
    NoSlashInName(path, i);
    WithName(path, Stem(path) + " (" + IntToDecimal(i) + ")" + Suffix(path))
  }

  /** The new name has no slash: the stem, the counter's digits and the suffix have none. */
  lemma NoSlashInName(path: string, i: int)
    ensures '/' !in Stem(path) + " (" + IntToDecimal(i) + ")" + Suffix(path)
  {
    StemNoSlash(path);
    DecimalNoSlash(i);
  }

  lemma StemNoSlash(path: string)
    ensures '/' !in Stem(path)
  {
    var name := Name(path);
    assert forall k :: 0 <= k < |Stem(path)| ==> Stem(path)[k] == name[k];
  }

  lemma DecimalNoSlash(i: int)
    ensures '/' !in IntToDecimal(i)
  {
    var d := IntToDecimal(i);
    if i < 0 {
      var n := NatToDecimal(-i);
      assert d == "-" + n;
      assert forall k :: 0 <= k < |n| ==> IsAsciiDigit(n[k]);
    }
  }

  lemma Cancel(a: string, x: string, y: string, b: string)
    requires a + x + b == a + y + b
    ensures x == y
  {
    assert |x| == |y|;
    assert x == (a + x + b)[|a|..|a| + |x|];
    assert y == (a + y + b)[|a|..|a| + |y|];
  }

  lemma Regroup(d: string, s: string, x: string, t: string)
    ensures d + (s + " (" + x + ")" + t) == (d + s + " (") + x + (")" + t)
  {
  }

  /** A candidate is the counter's digits between a fixed prefix and a fixed suffix. */
  lemma CandidateParts(path: string, i: int)
    ensures Candidate(path, i) == (Dir(path) + Stem(path) + " (") + IntToDecimal(i) + (")" + Suffix(path))
  {
    var n := Stem(path) + " (" + IntToDecimal(i) + ")" + Suffix(path);
    assert Candidate(path, i) == Dir(path) + n;
    Regroup(Dir(path), Stem(path), IntToDecimal(i), Suffix(path));
  }

  /** Different counters make different names. */
  lemma CandidateInjective(path: string, i: int, j: int)
    requires Candidate(path, i) == Candidate(path, j)
    ensures i == j
  {
    CandidateParts(path, i);
    CandidateParts(path, j);
    Cancel(Dir(path) + Stem(path) + " (", IntToDecimal(i), IntToDecimal(j), ")" + Suffix(path));
    ParseIntRoundTrip(i);
    ParseIntRoundTrip(j);
  }

  /** `_unique_path` over the set of paths that exist: the path itself when it is free,
      otherwise `stem (i)suffix` in the same directory for the smallest free `i >= 1`. */
  method UniquePath(path: string, existing: set<string>) returns (c: string)
    ensures c !in existing
    ensures path !in existing ==> c == path
    ensures path in existing ==>
              exists i :: i >= 1 && c == Candidate(path, i) && forall j :: 1 <= j < i ==> Candidate(path, j) in existing
  {
    if path !in existing {
      return path;
    }
    var i := 1;
    ghost var tried: set<string> := {};
    while true
      invariant i >= 1
      invariant tried == set j | 1 <= j < i :: Candidate(path, j)
      invariant tried <= existing && |tried| == i - 1
      invariant forall j :: 1 <= j < i ==> Candidate(path, j) in existing
      decreases |existing| - |tried|
    {
      c := Candidate(path, i);
      if c !in existing {
        return c;
      }
      assert c !in tried by {
        forall j | 1 <= j < i ensures Candidate(path, j) != c {
          if Candidate(path, j) == c {
            CandidateInjective(path, i, j);
          }
        }
      }
      tried := tried + {c};
      assert tried == set j | 1 <= j < i + 1 :: Candidate(path, j);
      assert |tried| <= |existing| by {
        SubsetCard(tried, existing);
      }
      i := i + 1;
    }
  }

  lemma SubsetCard<T>(a: set<T>, b: set<T>)
    requires a <= b
    ensures |a| <= |b|
  {
    assert b == a + (b - a);
  }

  // ---------- byte ranges ----------

  /** What `get_document_content` sends: the whole file, or the bytes
      `start..end` (inclusive) of a file of `fileSize` bytes with status 206. */
  datatype Served = WholeFile | Partial(start: int, end: int, fileSize: int, length: int)

  /** The range's bounds, before clamping: an empty first position reads as 0 and an empty
      or missing last position as the last byte; `None` where `int()` raises. */
  function RangeBounds(rng: string, fileSize: int): (r: Option<(int, int)>)
    ensures rng == [] ==> r == Some((0, fileSize - 1))
    ensures r.Some? && |rng| > 0 && rng[0] == '-' ==> r.value.0 == 0
    ensures r.Some? && '-' !in rng ==> r.value.1 == fileSize - 1
  {
    var (startS, endS) := if SplitOnce(rng, '-').Some? then SplitOnce(rng, '-').value else (rng, "");
    var start := if startS == [] then Some(0) else ParseInt(startS);
    var end := if endS == [] then Some(fileSize - 1) else ParseInt(endS);
    if start.None? || end.None? then None else Some((start.value, end.value))
  }

  /** The bounds clamped to the file; a range that is empty after clamping becomes the
      whole file. */
  function ClampRange(first: int, last: int, fileSize: nat): (s: Served)
    ensures s.Partial? && s.fileSize == fileSize && s.length == s.end - s.start + 1
    ensures 0 <= s.start && s.end <= fileSize - 1 && 0 <= s.length <= fileSize
    ensures fileSize > 0 ==> s.start <= s.end
    ensures 0 <= first <= last < fileSize ==> s == Partial(first, last, fileSize, last - first + 1)
    ensures first >= fileSize || last < 0 || first > last ==> s == Partial(0, fileSize - 1, fileSize, fileSize)
  {
    var start := if first < 0 then 0 else first;
    var end := if last > fileSize - 1 then fileSize - 1 else last;
    if start > end then Partial(0, fileSize - 1, fileSize, fileSize)
    else Partial(start, end, fileSize, end - start + 1)
  }

  /** The response for a `Range` header value (absent or empty: no header). The unit
      before `=` is not looked at; a header without `=` or with bounds `int()` cannot
      read serves the whole file. */
  function ServeRange(header: Option<string>, fileSize: nat): (s: Served)
    ensures s.Partial? ==> s.fileSize == fileSize && s.length == s.end - s.start + 1
    ensures s.Partial? ==> 0 <= s.start && s.end <= fileSize - 1 && 0 <= s.length <= fileSize
    ensures s.Partial? && fileSize > 0 ==> s.start <= s.end
    ensures header.None? || header == Some("") ==> s == WholeFile
    ensures header.Some? && '=' !in header.value ==> s == WholeFile
  {
    if header.None? || header.value == [] then WholeFile
    else
      match SplitOnce(header.value, '=')
      case None => WholeFile
      case Some((_, rng)) =>
        match RangeBounds(rng, fileSize)
        case None => WholeFile
        case Some((first, last)) => ClampRange(first, last, fileSize)
  }

  /** The `Content-Range`, `Accept-Ranges` and `Content-Length` headers of a partial response. */
  function RangeHeaders(s: Served): (h: seq<(string, string)>)
    requires s.Partial?
    ensures |h| == 3 && h[2].0 == "Content-Length" && ParseInt(h[2].1) == Some(s.length)
    ensures h[0] == ("Content-Range", "bytes " + IntToDecimal(s.start) + "-" + IntToDecimal(s.end) + "/" + IntToDecimal(s.fileSize))
  {
    ParseIntRoundTrip(s.length);
    [("Content-Range", "bytes " + IntToDecimal(s.start) + "-" + IntToDecimal(s.end) + "/" + IntToDecimal(s.fileSize)),
     ("Accept-Ranges", "bytes"),
     ("Content-Length", IntToDecimal(s.length))]
  }

  /** A position as a client writes it: decimal digits, or nothing. */
  function Position(p: Option<nat>): string {
    if p.Some? then NatToDecimal(p.value) else ""
  }

  /** `bytes=first-last`, the form of section 2.1 of RFC 7233. */
  function ByteRange(first: Option<nat>, last: Option<nat>): string {
    "bytes=" + Position(first) + "-" + Position(last)
  }

  lemma PositionReads(p: Option<nat>, missing: int)
    ensures '-' !in Position(p)
    ensures (if Position(p) == [] then Some(missing) else ParseInt(Position(p))) ==
              Some(if p.Some? then p.value else missing)
  {
    if p.Some? {
      ParseIntRoundTrip(p.value);
      assert IntToDecimal(p.value) == Position(p);
    }
  }

  /** The two positions of `first-last`, a missing first one read as 0 and a missing last
      one as the last byte. */
  lemma BoundsRead(first: Option<nat>, last: Option<nat>, fileSize: nat)
    ensures RangeBounds(Position(first) + "-" + Position(last), fileSize) ==
              Some((if first.Some? then first.value else 0, if last.Some? then last.value else fileSize - 1))
  {
    var f := Position(first);
    var l := Position(last);
    PositionReads(first, 0);
    PositionReads(last, fileSize - 1);
    assert f + "-" + l == f + ['-'] + l;
    SplitOnceOf(f, '-', l);
  }

  /** Reading `bytes=first-last` gives back both positions: the response is their
      clamped range. */
  lemma ByteRangeRead(first: Option<nat>, last: Option<nat>, fileSize: nat)
    ensures ServeRange(Some(ByteRange(first, last)), fileSize) ==
              ClampRange(if first.Some? then first.value else 0,
                         if last.Some? then last.value else fileSize - 1, fileSize)
  {
    var rng := Position(first) + "-" + Position(last);
    assert ByteRange(first, last) == "bytes" + ['='] + rng;
    SplitOnceOf("bytes", '=', rng);
    BoundsRead(first, last, fileSize);
  }

  /** A satisfiable `bytes=first-last` is served as exactly those bytes, as RFC 7233 asks;
      a last position past the end stops at the last byte. */
  lemma SatisfiableRange(first: nat, last: nat, fileSize: nat)
    requires first <= last && first < fileSize
    ensures ServeRange(Some(ByteRange(Some(first), Some(last))), fileSize) ==
              var end := if last < fileSize then last else fileSize - 1;
              Partial(first, end, fileSize, end - first + 1)
  {
    ByteRangeRead(Some(first), Some(last), fileSize);
    ClampSatisfiable(first, last, fileSize);
  }

  lemma ClampSatisfiable(first: nat, last: nat, fileSize: nat)
    requires first <= last && first < fileSize
    ensures ClampRange(first, last, fileSize) ==
              var end := if last < fileSize then last else fileSize - 1;
              Partial(first, end, fileSize, end - first + 1)
  {
  }

  /** `bytes=first-` runs to the end of the file. */
  lemma OpenEndedRange(first: nat, fileSize: nat)
    requires first < fileSize
    ensures ServeRange(Some(ByteRange(Some(first), None)), fileSize) == Partial(first, fileSize - 1, fileSize, fileSize - first)
  {
    ByteRangeRead(Some(first), None, fileSize);
    ClampOpenEnded(first, fileSize);
  }

  lemma ClampOpenEnded(first: nat, fileSize: nat)
    requires first < fileSize
    ensures ClampRange(first, fileSize - 1, fileSize) == Partial(first, fileSize - 1, fileSize, fileSize - first)
  {
  }

  /** Not RFC 7233: `bytes=-n` asks for the last `n` bytes, but an empty first position
      reads as 0, so the first `n + 1` bytes are sent. */
  lemma SuffixRangeReadsAsPrefix(n: nat, fileSize: nat)
    requires n < fileSize
    ensures ServeRange(Some(ByteRange(None, Some(n))), fileSize) == Partial(0, n, fileSize, n + 1)
  {
    ByteRangeRead(None, Some(n), fileSize);
  }

  /** Not RFC 7233: a first position at or past the end is unsatisfiable and calls for a
      416, but the whole file is sent as a 206. */
  lemma UnsatisfiableServedWhole(first: nat, last: Option<nat>, fileSize: nat)
    requires first >= fileSize
    ensures ServeRange(Some(ByteRange(Some(first), last)), fileSize) == Partial(0, fileSize - 1, fileSize, fileSize)
  {
    ByteRangeRead(Some(first), last, fileSize);
  }

  /** An empty file answers any readable range with the bytes `0..-1`, zero of them. */
  lemma EmptyFileRange(first: Option<nat>, last: Option<nat>)
    ensures ServeRange(Some(ByteRange(first, last)), 0) == Partial(0, -1, 0, 0)
  {
    ByteRangeRead(first, last, 0);
  }
}
