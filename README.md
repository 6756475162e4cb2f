# GlobalSearch search core in Dafny

This project models the search core of GlobalSearch, a local document search application. It covers:

- **the Boolean query compiler** of the exact strategy: the regular-expression tokenizer, the shunting-yard parser over `Term`/`Not`/`And`/`Or` nodes, and the translation of a tree into an Elasticsearch `bool`/`multi_match` query and search body;
- **the search manager**: the exact, fuzzy and semantic adapters, gated by the configuration flags; the merge that keeps the best result per `(document_id, page_number)`; the stable descending sort; the cut to `limit`;
- **the semantic strategy** with its bounded LRU embedding cache, and **the fuzzy strategy**: its query and body construction, its suggestion filter and its confidence;
- **the generic LRU cache** and **the whitespace tokenizer over bytes**;
- **the validated records**: search results and topic paths, topic nodes and trees with their recursive count, documents, re-encoding results, the configuration defaults and checks, page and document contents;
- **the registries**: the document manager's suffix routing and the event bus's subscription lists;
- **the arithmetic of the HTTP layer**: pagination of advanced search and of the document listing, unique upload names, and byte-range headers.

Each source module is one Dafny module. Python's builtins are modelled once, in helper modules:

- `Wrappers`: `Option` and `Result`;
- `PyText`: string methods, slices and `int`/`str` conversions;
- `PyPath`: the parts of `pathlib` the core reads;
- `Sorting`: the stable `sorted` and `list.sort`;
- `OrderedDicts`: `OrderedDict` and insertion-ordered `dict`;
- `JsonValue`: the JSON dictionaries sent to and read from Elasticsearch.

The source's form is kept:

- Classes whose fields change in place are Dafny classes with `modifies` frames: `LRUCache`, `EmbeddingCache`, `SemanticSearchStrategy` with its encoder call counter, `DocumentManager` and the event `Bus`.
- Loops are methods with invariants, proved equal to specification functions:
  - the tokenizer and the shunting-yard loops (`Tokenize`, `ParseExpression`);
  - the manager's merge and candidate loops;
  - the byte tokenizer;
  - `suggest`;
  - `_unique_path`;
  - `publish`.
- Pure code is functions and lemmas.

Elasticsearch, rapidfuzz, the embedding model and the cosine similarity are parameters: function values, or `Option`s of them where the source checks for a missing library. Scores are `real`.

The lemmas prove what the source promises. A few facts about the code are proved as it is written, even where they are probably not what its authors meant:

- the tokenizer raises exactly on input that ends in whitespace (`ExactLexer.LexFailure`);
- `NOT NOT a` fails (`ExactParser.DoubleNotFails`);
- a quoted `"AND"` is read as an operator (`ExactStrategy.QuotedKeywordIsOperator`);
- the child-path check of a topic node is a plain string prefix (`Topic.PrefixNotSegmentAware`);
- a negative threshold makes the fuzzy and semantic adapters raise (`SearchManager.NegativeScoreRaises`);
- the range arithmetic departs from RFC 7233:
  - `bytes=-n` is read as the first `n + 1` bytes, where section 2.1 means the last `n` (`Api.SuffixRangeReadsAsPrefix`);
  - an unsatisfiable range is answered with the whole file, where section 4.4 calls for status 416 (`Api.UnsatisfiableServedWhole`).

`ServiceStatus` and `IndexingStatus` are plain records without checks, and are modelled as datatypes only.

## Model

| member | source | states |
|---|---|---|
| Configuration.NewApplicationConfig | src/core/models/configuration.py:55-60 | construction succeeds exactly when the memory bound is positive and the edit distance is non-negative; the memory check comes first; success returns the fields unchanged |
| Configuration.DefaultsAccepted | src/core/models/configuration.py:7-53 | the default configuration passes its own check and has edit distance 2, accuracy target 0.8, similarity threshold 0.7, AI search and spelling correction on, pre-encoded fallback off, the local Elasticsearch URL, no document directories, the four file types and `elasticsearch` as the one required service |
| Configuration.WithSearchSettings | src/core/models/configuration.py:45-60 | the defaults with any search settings of non-negative edit distance are accepted |
| DocumentRecord.NewDocument | src/core/models/document.py:21-29 | construction succeeds exactly for a non-negative page count and file size and a modification date not before creation; the checks fail in that order; success keeps the fields |
| DocumentRecord.SameDatesAccepted | src/core/models/document.py:28-29 | a document modified at its creation instant is accepted (the comparison is strict) |
| DocumentRecord.SampleDocuments | tests/core/test_models.py:13-37 | the test's one-page document is accepted with page count 1; page count -1 is refused for the page count |
| Service.NewReEncodingResult | src/core/models/service.py:34-38 | construction succeeds exactly for non-negative counts whose sum does not exceed the total; negative counts are reported first |
| Service.AcceptedCountsBounded | src/core/models/service.py:34-38 | an accepted result has each count between 0 and the total |
| Service.SampleResults | tests/core/test_models.py:80-98 | 7 + 3 of 10 is accepted; 4 + 3 of 5 is refused because the counts exceed the total |
| DocumentsModels.NewPageContent | src/core/documents/models.py:13-15 | construction succeeds exactly for a non-negative page number and keeps both fields |
| DocumentsModels.NewDocumentContent | src/core/documents/models.py:18-23 | a content record without pages or metadata unless given |
| DocumentsModels.FromText | src/core/documents/models.py:31-33 | the whole text becomes the only page, numbered 0, and that page passes the page check |
| SearchModels.MatchTypeValue | src/core/models/search.py:8-11 | every match type has one of the three string values |
| SearchModels.MatchTypeOf | src/core/models/search.py:8-11 | a string names a match type exactly when it is one of the three values |
| SearchModels.MatchTypeRoundTrip | src/core/models/search.py:8-11 | value and lookup are inverse in both directions |
| SearchModels.ValidatePath | src/core/models/search.py:33-40 | a topic path is accepted exactly when it is non-empty with no slash at either end; the at-least-one-segment error can never be raised |
| SearchModels.AcceptedPathHasSegment | src/core/models/search.py:38-40 | an accepted path has a non-empty first segment |
| SearchModels.InnerEmptySegmentAccepted | src/core/models/search.py:36-40 | empty segments inside a path (`a//b`) pass the check |
| SearchModels.NewSearchResult | src/core/models/search.py:25-31 | construction succeeds exactly for a non-negative page, a score in [0, 1] and a well-formed topic path if any; the checks fail in that order; success keeps the fields |
| SearchModels.NoTopicPathUnchecked | src/core/models/search.py:30-31 | without a topic path only the page and the score are checked |
| SearchModels.SampleResults | tests/core/test_models.py:40-62 | the test's page-0 result with path `algorithms/trees` is accepted unchanged; page -1 is refused for the page |
| Topic.FirstStray | src/core/models/topic.py:22-25 | finds the first child whose path does not start with the parent's: none exactly when every child is under the parent; all children before it are |
| Topic.NewTopicNode | src/core/models/topic.py:16-33 | construction succeeds exactly for a non-negative count, a score in [0, 1], a well-formed path and every child path starting with the node's; count and score errors come first; success keeps the node |
| Topic.PrefixNotSegmentAware | src/core/models/topic.py:22-25 | the child test is a plain string prefix: `p` accepts a child `p` + `q` whatever `q` is |
| Topic.CountIsPreorderLength | src/core/models/topic.py:47-49 | the recursive count is the number of nodes in a preorder listing of the forest |
| Topic.CountNodes | src/core/models/topic.py:47-49 | the count is at least the number of roots, and zero exactly for an empty forest |
| Topic.CountAppend | src/core/models/topic.py:47-49 | the count of two forests side by side is the sum of their counts, as `sum` over the roots |
| Topic.CountAtLeastRoots | src/core/models/topic.py:47-49 | every root counts at least once |
| Topic.CountOne | src/core/models/topic.py:49 | one node counts one plus its subtree |
| Topic.NewTopicTree | src/core/models/topic.py:42-45 | a tree is accepted exactly when its declared total is the number of nodes; the error carries the computed and the declared numbers |
| Topic.ChainCounts | tests/core/test_models.py:65-73 | the test's three-level chain counts 3: a total of 3 is accepted and 2 refused |
| Topic.JoinPath | src/core/models/topic.py:22-33 | a slash-joined child path is well formed and starts with its parent's |
| Topic.ChainOfValid | tests/core/test_models.py:65-68 | whatever the non-empty names, each node of a three-level chain passes its own check |
| Topic.ChainNodesValid | tests/core/test_models.py:65-68 | each node of the test's chain passes its check |
| TextProcessing.TokenLen | src/core/performance/text_processing.py:22-29 | the length of the leading run of bytes above 32: all of them are token bytes and the run stops at a separator or at the end |
| TextProcessing.Runs | src/core/performance/text_processing.py:19-32 | the maximal runs of bytes above 32, each non-empty and separator-free |
| TextProcessing.RunsOfToken | src/core/performance/text_processing.py:19-32 | a non-empty separator-free input is a single run |
| TextProcessing.TokenLenAll | src/core/performance/text_processing.py:22-29 | over separator-free input the run covers everything |
| TextProcessing.TokenLenBefore | src/core/performance/text_processing.py:23-26 | a separator ends the run that precedes it |
| TextProcessing.RunsAppend | src/core/performance/text_processing.py:19-32 | input ending in a separator splits into runs independently of what follows |
| TextProcessing.RunsSeparator | src/core/performance/text_processing.py:23-26 | a trailing separator adds no run |
| TextProcessing.TokenBytes | src/core/performance/text_processing.py:19-32 | the input's bytes above 32, in order |
| TextProcessing.FlattenRuns | src/core/performance/text_processing.py:19-32 | the runs concatenated are exactly the input with its separators removed |
| TextProcessing.PyCountTokens | src/core/performance/text_processing.py:6-16 | the counting loop returns the number of maximal runs |
| TextProcessing.PySplitTokens | src/core/performance/text_processing.py:19-32 | the splitting loop returns the maximal runs, including a final one with no separator after it |
| TextProcessing.CountTokens | src/core/performance/text_processing.py:43-49 | the public count is the number of runs |
| TextProcessing.SplitTokens | src/core/performance/text_processing.py:52-58 | the public split is the runs; their count agrees with the count, and together they hold every token byte in order |
| TextProcessing.LayoutRuns | tests/core/performance/test_text_processing.py:6-9 | whatever six non-empty words fill the test's layout of spaces, newline and tab, it splits into exactly those words |
| TextProcessing.SampleRuns | tests/core/performance/test_text_processing.py:6-9 | the test's bytes split into hello, world, this, is, a, test, a count of 6 |
| LruCache.GetValue | src/core/performance/lru_cache.py:29-33 | the stored value for a present key, `None` for an absent one |
| LruCache.AfterGet | src/core/performance/lru_cache.py:29-33 | a get changes no value and no size, only the order |
| LruCache.AfterPut | src/core/performance/lru_cache.py:35-40 | a put keeps the store within capacity, and every value left is the old one or the new one |
| LruCache.Entries | src/core/performance/lru_cache.py:42-43 | the pairs of the given keys with their values, in order |
| LruCache.LRUCache.constructor | src/core/performance/lru_cache.py:17-21 | an empty cache of the given positive capacity |
| LruCache.LRUCache.Contains | src/core/performance/lru_cache.py:23-24 | membership is membership of the key order |
| LruCache.LRUCache.Length | src/core/performance/lru_cache.py:26-27 | the size is the number of keys and never exceeds the capacity |
| LruCache.LRUCache.Items | src/core/performance/lru_cache.py:42-43 | the items, oldest first, each key with its value |
| LruCache.LRUCache.Get | src/core/performance/lru_cache.py:29-33 | returns the stored value and refreshes the key only when that value is not `None`; the cache stays valid |
| LruCache.LRUCache.Put | src/core/performance/lru_cache.py:35-40 | refreshes an existing key, stores the value and evicts the oldest entry when over capacity; the cache stays valid |
| LruCache.LRUCache.Clear | src/core/performance/lru_cache.py:45-46 | the cache is empty afterwards and keeps its capacity |
| LruCache.NewCache | src/core/performance/lru_cache.py:17-21 | a capacity of zero or less is refused; otherwise a fresh empty valid cache |
| LruCache.GetRefreshes | src/core/performance/lru_cache.py:29-33 | a hit moves the key to the most recent end and keeps the others in order; a miss or a stored `None` changes nothing |
| LruCache.PutThenGet | src/core/performance/lru_cache.py:29-40 | a get right after a put returns the value put |
| LruCache.PutStores | src/core/performance/lru_cache.py:35-40 | the key just put is stored with its value and is the most recent |
| LruCache.PutExisting | src/core/performance/lru_cache.py:36-38 | overwriting a key evicts nothing, keeps the size and makes the key the most recent |
| LruCache.PutNewWithRoom | src/core/performance/lru_cache.py:38 | a new key with room is appended as the most recent |
| LruCache.PutNewWhenFull | src/core/performance/lru_cache.py:38-40 | a new key into a full cache evicts exactly the least recently used key and keeps all the others |
| LruCache.EvictsOldestFor | tests/core/performance/test_lru_cache.py:6-16 | with capacity 2 and any three distinct keys: put a, put b, get a, put c evicts b and keeps a and c |
| LruCache.EvictsOldest | tests/core/performance/test_lru_cache.py:6-16 | the same with the test's keys and values |
| EventBus.FirstIndex | src/core/events/bus.py:30-33 | the position of the first occurrence of the handler: it is there, and not before |
| EventBus.RemoveFirst | src/core/events/bus.py:30-33 | `list.remove` cuts out the first occurrence and keeps the other handlers in their order; it changes nothing when the handler is absent (the `ValueError` is swallowed) |
| EventBus.AfterSubscribe | src/core/events/bus.py:21-23 | subscribing appends the handler to the type's list |
| EventBus.AfterUnsubscribe | src/core/events/bus.py:25-35 | unsubscribing removes the first occurrence from the type's list |
| EventBus.OtherTypesUntouched | src/core/events/bus.py:21-35 | subscribing and unsubscribing leave every other type's handlers unchanged |
| EventBus.Raising | src/core/events/bus.py:42-47 | the handlers that raise are exactly those of the snapshot for which the handler raises |
| EventBus.ApplyChangesAppend | src/core/events/bus.py:42-44 | subscription changes made in two batches compose |
| EventBus.SubscribeKeepsLists | src/core/events/bus.py:21-23 | subscribing never stores an empty list |
| EventBus.UnsubscribeKeepsLists | src/core/events/bus.py:34-35 | unsubscribing deletes a type whose list empties, so no empty list is stored |
| EventBus.ApplyChangesKeepsLists | src/core/events/bus.py:21-35 | any sequence of changes keeps every stored list non-empty |
| EventBus.Bus.constructor | src/core/events/bus.py:17-19 | a bus with no subscriptions |
| EventBus.Bus.Subscribe | src/core/events/bus.py:21-23 | the new subscriptions are those of `AfterSubscribe`; the bus stays valid |
| EventBus.Bus.Unsubscribe | src/core/events/bus.py:25-35 | nothing happens for a type with no handlers; otherwise the new subscriptions are those of `AfterUnsubscribe` |
| EventBus.Bus.Publish | src/core/events/bus.py:37-47 | every handler of the snapshot taken before the loop is called, in order, whatever earlier handlers raise or change; the subscriptions end as the handlers' changes applied in call order |
| EventBus.Bus.ApplyAll | src/core/events/bus.py:44 | the changes one handler makes, applied in order |
| EventBus.SubscribeThenUnsubscribe | src/core/events/bus.py:21-35 | subscribing a handler not yet subscribed and then unsubscribing it restores the subscriptions exactly, including deleting an entry it created |
| EventBus.RemoveAbsentLast | src/core/events/bus.py:30-31 | removing a handler appended to a list without it gives the list back |
| EventBus.UnsubscribedOnceIsGone | src/core/events/bus.py:25-35 | a handler registered once is gone from the type after unsubscribing |
| EventBus.UnsubscribeAbsent | src/core/events/bus.py:27-35 | unsubscribing a handler that is not subscribed changes nothing |
| EventBus.DuplicatesKept | src/core/events/bus.py:21-23 | subscribing twice keeps both registrations |
| EventBus.ChangesOfPair | src/core/events/bus.py:42-44 | two handlers' changes are applied first's then second's |
| EventBus.RaisingPair | src/core/events/bus.py:42-47 | which of two handlers raise, in call order |
| DocumentsManager.Normalize | src/core/documents/manager.py:21-23 | a declared suffix becomes lower case with one leading dot; one in that form already is left as is |
| DocumentsManager.SetDefault | src/core/documents/manager.py:24 | `setdefault` keeps the suffix map well formed |
| DocumentsManager.SetDefaults | src/core/documents/manager.py:21-24 | the loop over the declared suffixes keeps the suffix map well formed |
| DocumentsManager.SetDefaultsKeeps | src/core/documents/manager.py:19-24 | the first registration for a suffix wins: every suffix already mapped keeps its processor and its place |
| DocumentsManager.SetDefaultsCovers | src/core/documents/manager.py:21-24 | every declared suffix, normalised, is mapped afterwards |
| DocumentsManager.SetDefaultsNewToP | src/core/documents/manager.py:24 | every newly mapped suffix goes to the processor being registered |
| DocumentsManager.SetDefaultsOnlyDeclared | src/core/documents/manager.py:21-24 | nothing else is mapped: a key is an old one or a declared suffix normalised |
| DocumentsManager.DocumentManager.constructor | src/core/documents/manager.py:14-16 | no processors and an empty suffix map |
| DocumentsManager.DocumentManager.Register | src/core/documents/manager.py:18-24 | the processor is appended and its suffixes are defaulted into the map in order; the manager stays valid |
| DocumentsManager.DocumentManager.GetProcessorFor | src/core/documents/manager.py:26-28 | a processor exactly when the lower-cased suffix is mapped, and then the mapped one, which is registered |
| DocumentsManager.DocumentManager.Process | src/core/documents/manager.py:30-39 | every failure is a document processing error: a missing processor names the suffix, a processing error passes through, any other exception is wrapped with its message and cause; success passes through |
| DocumentsManager.DocumentManager.RegisteredSuffixes | src/core/documents/manager.py:41-43 | exactly the mapped suffixes, in strictly increasing order |
| DocumentsManager.SortedKeys | src/core/documents/manager.py:43 | sorting distinct keys keeps them all and leaves them strictly increasing |
| DocumentsManager.SampleSuffixes | tests/core/documents/test_document_manager.py:21-36 | `.txt`, `.md` and `.rst` are normalised suffixes |
| DocumentsManager.NoteSuffix | tests/core/documents/test_document_manager.py:51 | `note.MD` routes by `.md` |
| DocumentsManager.FileSuffix | tests/core/documents/test_document_manager.py:55 | `file.txt` routes by `.txt` |
| DocumentsManager.TwoRegistrations | tests/core/documents/test_document_manager.py:42-56 | after registering `[a, b]` then `[b, c]`, the shared suffix stays with the first processor |
| DocumentsManager.RegisterTwo | tests/core/documents/test_document_manager.py:43-47 | the manager holds both processors in order and maps `a`, `b` to the first and `c` to the second |
| ExactLexer.TokenKinds | src/core/search/strategies/exact.py:110-118 | the character-wise token tests hold exactly for `AND`, `OR`, `NOT`, `(` and `)` |
| ExactLexer.SpaceRunFacts | src/core/search/strategies/exact.py:42 | the leading `\s*` consumes whitespace only, and all of it |
| ExactLexer.KeywordAt | src/core/search/strategies/exact.py:42 | a keyword match is a non-empty prefix of the text |
| ExactLexer.KeywordAtFacts | src/core/search/strategies/exact.py:42-43 | a keyword matched ignoring case upper-cases to `AND`, `OR` or `NOT` |
| ExactLexer.KeywordAtWord | src/core/search/strategies/exact.py:42-43 | a keyword in any ASCII case followed by a non-word character matches as a keyword |
| ExactLexer.QuoteIndexFacts | src/core/search/strategies/exact.py:42 | the found index is the first double quote, and none is found only when there is none |
| ExactLexer.PhraseEndFacts | src/core/search/strategies/exact.py:42 | a quoted phrase runs from a quote to the next quote with at least one character between |
| ExactLexer.BareRunFacts | src/core/search/strategies/exact.py:42 | a bare word is the longest run of characters that are not whitespace or parentheses |
| ExactLexer.MatchToken | src/core/search/strategies/exact.py:41-44 | a match names one of the five groups, has non-empty text and consumes at least one character |
| ExactLexer.MatchTokenSpace | src/core/search/strategies/exact.py:41-44 | the pattern fails exactly on text that is all whitespace, and a match never ends in whitespace |
| ExactLexer.MatchOpenParen | src/core/search/strategies/exact.py:41-44 | `(` matches group 1 |
| ExactLexer.MatchCloseParen | src/core/search/strategies/exact.py:41-44 | `)` matches group 2 |
| ExactLexer.MatchKeyword | src/core/search/strategies/exact.py:41-44 | an upper-case keyword followed by a non-word character matches group 3 |
| ExactLexer.MatchWord | src/core/search/strategies/exact.py:41-44 | a plain word followed by a delimiter matches group 5 with the word |
| ExactLexer.MatchPhrase | src/core/search/strategies/exact.py:74-75 | a quoted phrase matches group 4 with the text between the quotes |
| ExactLexer.LexStep | src/core/search/strategies/exact.py:63-77 | for any pattern, a match contributes its token and the loop goes on after its end |
| ExactLexer.LexNoMatch | src/core/search/strategies/exact.py:64-66 | for any pattern, no match at position 0 is an error at position 0 |
| ExactLexer.LexFailureWith | src/core/search/strategies/exact.py:60-81 | for a pattern whose matches stop at whitespace, tokenizing fails exactly when the text ends in whitespace, at the start of that whitespace |
| ExactLexer.LexJoinedWith | src/core/search/strategies/exact.py:60-81 | for such a pattern, printable tokens joined by single spaces tokenize back to themselves |
| ExactLexer.LexIsLexWith | src/core/search/strategies/exact.py:60-81 | tokenizing with the compiled pattern is the generic loop applied to it |
| ExactLexer.TokenizeWith | src/core/search/strategies/exact.py:60-81 | for any compiled pattern whose matches consume text, the loop gives what the tokenizing function computes with it: the tokens, or the position where nothing matched |
| ExactLexer.LexAdvance | src/core/search/strategies/exact.py:63-77 | one turn of the loop moves the matched token to the list and the position past the match, and the tokens of the whole text stay the same |
| ExactLexer.Tokenize | src/core/search/strategies/exact.py:60-81 | the loop gives the tokens, or the position where nothing matched, as the tokenizer function does |
| ExactLexer.Lex | src/core/search/strategies/exact.py:60-81 | a non-empty text that tokenizes gives at least one token; a failure names a position inside the text |
| ExactLexer.LexFailure | src/core/search/strategies/exact.py:63-66 | tokenizing raises exactly when the text is non-empty and ends in whitespace, and the position reported starts that trailing whitespace |
| ExactLexer.LexJoined | src/core/search/strategies/exact.py:60-81 | printable tokens joined by single spaces tokenize back to the same tokens |
| ExactLexer.LexOpenParen | src/core/search/strategies/exact.py:68-69 | a leading `(` is the token `(` |
| ExactLexer.LexCloseParen | src/core/search/strategies/exact.py:70-71 | a leading `)` is the token `)` |
| ExactLexer.LexWord | src/core/search/strategies/exact.py:76-77 | a leading plain word is one token |
| ExactLexer.LexSpacedKeyword | src/core/search/strategies/exact.py:72-73 | a space and a keyword give the keyword token |
| ExactLexer.LexSpacedPhrase | src/core/search/strategies/exact.py:74-75 | a space and a quoted phrase give the phrase, without quotes, as one token |
| ExactParser.ApplyOp | src/core/search/strategies/exact.py:94-105 | fails exactly when the output has too few operands (one for `NOT`, two otherwise), with the source's message; otherwise replaces the top one or two operands by one node and keeps the rest |
| ExactParser.CloseParen | src/core/search/strategies/exact.py:112-117 | every failure is a stack error (missing operand or mismatched parenthesis) |
| ExactParser.PushOperator | src/core/search/strategies/exact.py:118-121 | every failure is a stack error |
| ExactParser.Step | src/core/search/strategies/exact.py:109-124 | every failure is a stack error |
| ExactParser.Feed | src/core/search/strategies/exact.py:107-124 | every failure is a stack error |
| ExactParser.Drain | src/core/search/strategies/exact.py:126-130 | every failure is a stack error |
| ExactParser.FeedStep | src/core/search/strategies/exact.py:107-124 | the token loop is one step per token, stopping at the first error |
| ExactParser.ParseExpression | src/core/search/strategies/exact.py:83-134 | the shunting-yard loops give the tree or the error the parser function defines |
| ExactParser.ParseTokens | src/core/search/strategies/exact.py:85-134 | `Empty expression` exactly for no tokens; every other failure is a stack error or `Invalid expression` |
| ExactParser.Parse | src/core/search/strategies/exact.py:83-134 | `Empty expression` exactly for the empty text; a tokenizer error exactly when tokenizing fails, at a position inside the text |
| ExactParser.ParseTokensLeaves | src/core/search/strategies/exact.py:83-134 | a parsed tree's terms are the operand tokens, in order: no term is lost, added or moved |
| ExactParser.ParseTokensBalanced | src/core/search/strategies/exact.py:110-130 | a token list that parses has balanced parentheses, never closing more than it opened |
| ExactParser.FeedAppend | src/core/search/strategies/exact.py:107-124 | feeding two token lists in turn is feeding their concatenation |
| ExactParser.FeedRender | src/core/search/strategies/exact.py:107-124 | feeding a tree printed fully parenthesised pushes exactly that tree |
| ExactParser.ParseTokensRender | src/core/search/strategies/exact.py:83-134 | parsing a tree printed fully parenthesised gives the tree back |
| ExactParser.NotBindsTighterThanAnd | src/core/search/strategies/exact.py:91-121 | `NOT a AND b` is `(NOT a) AND b` |
| ExactParser.AndBindsTighterThanOr | src/core/search/strategies/exact.py:91-121 | `a OR b AND c` is `a OR (b AND c)` |
| ExactParser.OrGroupsLeft | src/core/search/strategies/exact.py:119-120 | equal precedence reduces first, so `a OR b OR c` is `(a OR b) OR c` |
| ExactParser.DoubleNotFails | src/core/search/strategies/exact.py:94-121 | `NOT NOT a` fails with a missing `NOT` operand, since the second `NOT` reduces the first |
| ExactParser.JuxtaposedFails | src/core/search/strategies/exact.py:132-133 | two operands without an operator are an invalid expression |
| ExactParser.MissingLeftOperand | src/core/search/strategies/exact.py:101-102 | `AND a` fails with `AND missing operands` |
| ExactParser.UnclosedParenthesis | src/core/search/strategies/exact.py:126-129 | an unclosed `(` is a mismatched parenthesis |
| ExactParser.UnopenedParenthesis | src/core/search/strategies/exact.py:112-116 | a `)` without `(` is a mismatched parenthesis |
| ExactParser.CloseBeforeOperand | src/core/search/strategies/exact.py:101-116 | `a OR ) b` fails with `OR missing operands` |
| ExactParser.AndOfOperands | src/core/search/strategies/exact.py:105 | `a AND b` is their conjunction |
| ExactParser.AndNotAfter | src/core/search/strategies/exact.py:109-130 | any fully parenthesised `x` followed by `AND NOT c` is `x AND (NOT c)` |
| ExactParser.LexNonEmpty | src/core/search/strategies/exact.py:84-86 | non-empty text that tokenizes gives at least one token |
| ExactParser.ParseTokensError | src/core/search/strategies/exact.py:107-134 | a non-empty token list fails only with a stack error or as an invalid expression |
| ExactParser.ParseEmptyExpression | src/core/search/strategies/exact.py:84-86 | the empty-expression error arises exactly for the empty text |
| ExactParser.ParseUnexpectedToken | src/core/search/strategies/exact.py:63-84 | parsing reports an unexpected token exactly when the text ends in whitespace, at that whitespace |
| ExactParser.PlainTermsOperands | src/core/search/strategies/exact.py:118-123 | plain-word terms are operands, not operators or parentheses |
| ExactParser.RenderPrintable | src/core/search/strategies/exact.py:42 | a tree of plain words prints as tokens the pattern reads back one by one |
| ExactParser.ParseRendered | src/core/search/strategies/exact.py:60-134 | a tree of plain words printed fully parenthesised with single spaces parses back to itself |
| ExactStrategy.ToEs | src/core/search/strategies/exact.py:137-146 | every node becomes a one-member object: `multi_match` for a term, `bool` otherwise |
| ExactStrategy.FromEs | src/core/search/strategies/exact.py:137-146 | only a one-member object reads back as a node |
| ExactStrategy.FromToEs | src/core/search/strategies/exact.py:137-146 | reading back the query of a tree gives the tree |
| ExactStrategy.ToEsInjective | src/core/search/strategies/exact.py:137-146 | two trees give the same query exactly when they are equal |
| ExactStrategy.TermQuery | src/core/search/strategies/exact.py:139 | a term queries its text on `title^2` and `content` |
| ExactStrategy.Query | src/core/search/strategies/exact.py:47-49 | a query exactly when the expression parses, and then one that reads back as the parsed tree; otherwise the parser's error |
| ExactStrategy.BuildQuery | src/core/search/strategies/exact.py:47-49 | the method gives what `Query` defines |
| ExactStrategy.SearchBody | src/core/search/strategies/exact.py:52-56 | the body holds the size, the query and the content highlight |
| ExactStrategy.Search | src/core/search/strategies/exact.py:51-57 | fails exactly when the expression does not parse; otherwise the client's answer to the index and the body built from the parsed tree |
| ExactStrategy.SearchOutcome | src/core/search/strategies/exact.py:51-57 | the parse error when the expression does not parse; otherwise the client's answer to the index and the body built from the parsed tree |
| ExactStrategy.BasicTextTokens | tests/core/search/test_exact_strategy.py:6-8 | `(a OR "p") AND NOT c` tokenizes to its eight tokens |
| ExactStrategy.BasicTextParses | tests/core/search/test_exact_strategy.py:6-16 | it parses to `(a OR p) AND NOT c` |
| ExactStrategy.BasicExpressionParses | tests/core/search/test_exact_strategy.py:6-16 | the test's expression parses to `must(should(apple, banana bread), must_not(cherry))` |
| ExactStrategy.BasicExpressionQuery | tests/core/search/test_exact_strategy.py:6-16 | its query is that tree's query |
| ExactStrategy.LeadingOperatorText | tests/core/search/test_exact_strategy.py:19-26 | `AND a` fails with `AND missing operands` |
| ExactStrategy.LeadingOperatorFails | tests/core/search/test_exact_strategy.py:21 | `AND apple` raises |
| ExactStrategy.UnclosedText | tests/core/search/test_exact_strategy.py:19-26 | `(a OR b` is a mismatched parenthesis |
| ExactStrategy.UnclosedExpressionFails | tests/core/search/test_exact_strategy.py:21 | `(apple OR banana` raises |
| ExactStrategy.MisplacedCloseText | tests/core/search/test_exact_strategy.py:19-26 | `a OR ) b` fails with `OR missing operands` |
| ExactStrategy.MisplacedCloseFails | tests/core/search/test_exact_strategy.py:21 | `apple OR ) banana` raises |
| ExactStrategy.ConjunctionText | tests/core/search/test_exact_strategy.py:40 | `a AND b` parses to their conjunction |
| ExactStrategy.SearchExample | tests/core/search/test_exact_strategy.py:29-47 | the client sees index `documents`, size 5 and the query of `apple AND banana` |
| ExactStrategy.QuotedAlone | src/core/search/strategies/exact.py:74-75 | a lone quoted phrase is one token without its quotes |
| ExactStrategy.QuotedKeywordIsOperator | src/core/search/strategies/exact.py:118-121 | a quoted `"AND"` is read as the operator token `AND` and then fails for missing operands |
| ExactParser.FeedLeaves | src/core/search/strategies/exact.py:107-124 | the token loop appends exactly the operand tokens to the leaves of the output stack |
| ExactParser.FeedOpens | src/core/search/strategies/exact.py:110-117 | a successful token loop never closes more parentheses than are open, and leaves open as many as the tokens' depth |
| ExactParser.DrainOpens | src/core/search/strategies/exact.py:126-129 | the final loop succeeds only with no `(` left on the operator stack |
| SearchManager.MergeInto | src/core/search/manager.py:59-62 | one turn of the merge keeps the dictionary well formed and adds at most one key |
| SearchManager.Merge | src/core/search/manager.py:58-62 | the merged dictionary is well formed and holds no more entries than there are parts |
| SearchManager.KeysOfMembers | src/core/search/manager.py:60 | a key is among the parts' keys exactly when some part has it |
| SearchManager.MergeKeys | src/core/search/manager.py:58-62 | the merged keys are exactly the parts' keys, each result stored under its own key |
| SearchManager.MergeDomain | src/core/search/manager.py:58-62 | a key is merged exactly when some part has it, and the stored result has that key |
| SearchManager.FirstBestExtend | src/core/search/manager.py:61 | a first-best part stays first best when a later part of another key, or of no higher score, arrives |
| SearchManager.FirstBestLast | src/core/search/manager.py:61-62 | a part beating every earlier part of its key strictly is the first best |
| SearchManager.KeysOfHas | src/core/search/manager.py:60 | every part's key is among the parts' keys |
| SearchManager.KeptBest | src/core/search/manager.py:61 | a stored result the new part does not replace stays the first best |
| SearchManager.StoredBest | src/core/search/manager.py:61-62 | a new part that is stored is the first best of its key |
| SearchManager.MergeIntoBest | src/core/search/manager.py:59-62 | each turn keeps every stored result a part that is the first best of its key so far |
| SearchManager.MergeBest | src/core/search/manager.py:57-62 | after the loop every stored result is the part of highest score for its key, the earliest one on a tie (only a strictly higher score replaces) |
| SearchManager.Values | src/core/search/manager.py:65 | `merged.values()` lists the stored results in insertion order |
| SearchManager.HigherRelevanceOrder | src/core/search/manager.py:65 | "higher score first" is a strict weak order, so the sort is well defined |
| SearchManager.ValuesFacts | src/core/search/manager.py:57-65 | the merged values have pairwise distinct keys and each is the first best part of its key |
| SearchManager.DistinctByKey | src/core/search/manager.py:60 | results with distinct keys are distinct |
| SearchManager.SameKeySame | src/core/search/manager.py:60 | in a list with distinct keys, one key names one result |
| SearchManager.SortedDistinctKeys | src/core/search/manager.py:65 | sorting keeps the keys distinct |
| SearchManager.FusedOrdered | src/core/search/manager.py:64-66 | the returned list is a prefix of the sorted merged values: non-increasing scores, at most `limit` results, all of them when `limit` is large enough |
| SearchManager.FusedDistinct | src/core/search/manager.py:57-66 | no two returned results share a `(document_id, page_number)` key |
| SearchManager.FusedFromParts | src/core/search/manager.py:57-66 | every returned result is a gathered part, the best of its key |
| SearchManager.FusedComplete | src/core/search/manager.py:57-66 | with `limit` at least the number of parts, every part's key is represented |
| SearchManager.FusedRanked | src/core/search/manager.py:57-66 | the fusion's guarantees together: bounded, ranked, deduplicated, drawn from the best parts, complete for a large limit |
| SearchManager.Fused | src/core/search/manager.py:57-66 | at most `limit` results, best first, each one of the parts |
| SearchManager.GetOr | src/core/search/manager.py:84-89 | `d.get(key, default)` is the stored value or the default, and raises (none) when `d` is not a dict |
| SearchManager.StrOf | src/core/search/manager.py:93 | `str(x)` of a string is the string; the model reads strings and whole numbers only |
| SearchManager.RealOf | src/core/search/manager.py:88 | `float(x)` of a number is its value; other values are unreadable |
| SearchManager.SnippetOf | src/core/search/manager.py:89-90 | the first highlight when there is one, else the first 200 characters of the content |
| SearchManager.MinReal | src/core/search/manager.py:97 | `min` of two values is one of them and below both |
| SearchManager.Lift | src/core/search/manager.py:91-101 | a result error raised while building a result becomes the search's error, success passes through |
| SearchManager.HitFields | src/core/search/manager.py:84-90 | only a dict hit has readable fields |
| SearchManager.MapHit | src/core/search/manager.py:85-101 | a mapped hit is a valid exact result on page 0 whose highlighted text is its snippet; an unreadable hit fails; a readable one succeeds exactly when `min(1, score / 10) * weight` lies in [0, 1] |
| SearchManager.MapHits | src/core/search/manager.py:83-102 | on success one valid exact page-0 result per hit |
| SearchManager.HitsOf | src/core/search/manager.py:84 | a response without `hits` has no hits |
| SearchManager.NewSearchManager | src/core/search/manager.py:29-40 | absent arguments take their defaults: the default configuration, a provider returning nothing, the default weights; given ones are kept |
| SearchManager.MapHitsStep | src/core/search/manager.py:84-101 | one more hit: an earlier failure stays, a failing hit raises its error, a good one is appended |
| SearchManager.MapHitsFailurePersists | src/core/search/manager.py:84-101 | once a hit fails, the hits after it do not matter |
| SearchManager.MapAll | src/core/search/manager.py:83-102 | the hits loop computes `MapHits` |
| SearchManager.SearchExact | src/core/search/manager.py:69-102 | `_search_exact` returns nothing without a client or when the call raises, and otherwise the mapped hits |
| SearchManager.Scored | src/core/search/manager.py:111-126 | the candidate loop keeps at most one result per candidate |
| SearchManager.ScoredStep | src/core/search/manager.py:112-126 | one more candidate: an earlier failure stays, a failing candidate is skipped, a passing one with an invalid result raises, a passing valid one is appended |
| SearchManager.ScoredFailurePersists | src/core/search/manager.py:112-126 | once a result raises, the later candidates do not matter |
| SearchManager.ScoredSound | src/core/search/manager.py:112-126 | every kept result is a passing candidate's, with its weighted score |
| SearchManager.ScoredComplete | src/core/search/manager.py:112-126 | every passing candidate's result is kept, and every kept result is valid |
| SearchManager.ScoredFails | src/core/search/manager.py:112-126 | the loop raises exactly when some passing candidate's weighted result fails construction |
| SearchManager.NeverRaisesWhenBounded | src/core/search/manager.py:112-126 | with a weight in [0, 1], a non-negative threshold and scores at most 1, the loop never raises |
| SearchManager.NegativeScoreRaises | src/core/search/manager.py:114-122 | a negative threshold lets a negative score through and its result raises |
| SearchManager.ScoreCandidates | src/core/search/manager.py:112-126 | the loop computes `Scored` |
| SearchManager.Trim | src/core/search/manager.py:127 | the result list cut to `limit`, an error passed through |
| SearchManager.SearchFuzzy | src/core/search/manager.py:105-127 | nothing without the ratio function; otherwise candidates fetched with `limit * 3`, scored by ratio / 100 against the accuracy target, weighted by the fuzzy weight, cut to `limit` |
| SearchManager.SearchSemantic | src/core/search/manager.py:130-156 | nothing without a model; otherwise candidates fetched with `limit * 3`, scored by cosine against the similarity threshold, weighted by the semantic weight, cut to `limit` |
| SearchManager.Then | src/core/search/manager.py:44-55 | `parts.extend` in order, the first raising part deciding the outcome |
| SearchManager.MergeParts | src/core/search/manager.py:58-62 | the merge loop computes `Merge` |
| SearchManager.GatherParts | src/core/search/manager.py:44-55 | exact always, fuzzy when spelling correction is on, semantic when AI search is on, in that order |
| SearchManager.Search | src/core/search/manager.py:43-66 | `search` computes the fused parts |
| SearchManager.Parts | src/core/search/manager.py:44-55 | every gathered part is a valid page-0 result, fuzzy ones only with spelling correction on and semantic ones only with AI search on |
| SearchManager.SearchOutcome | src/core/search/manager.py:43-66 | fails exactly when gathering the parts fails; otherwise at most `limit` results, best first, each one of the gathered parts, valid and on page 0 |
| SearchManager.TrimmedFacts | src/core/search/manager.py:111-127 | a trimmed candidate list holds valid page-0 results of its match type |
| SearchManager.SearchRanked | src/core/search/manager.py:43-66 | search fails exactly when a part raises; otherwise at most `limit` results, best first, one per key, each the best gathered part of its key, valid, on page 0, and of a kind the settings enable |
| SearchManager.SampleHitFields | tests/core/search/test_search_manager.py:17-30 | the fake client's hit reads as id "1", title "Doc ES", score 2.0 and its highlight |
| SearchManager.SampleHitMaps | tests/core/search/test_search_manager.py:17-30 | that hit maps to an exact result scoring 0.2 times the weight, highlight as snippet |
| SearchManager.FakeEsHits | tests/core/search/test_search_manager.py:39-43 | the fake client's response holds exactly the one sample hit |
| SearchManager.SampleExactPart | tests/core/search/test_search_manager.py:39-43 | with the fake client and weight 1 the exact part is that one result |
| SearchManager.NoCandidatesNoParts | tests/core/search/test_search_manager.py:10-14 | an empty provider gives no fuzzy and no semantic results |
| SearchManager.ExactViaClientFor | tests/core/search/test_search_manager.py:39-43 | with the fake client and no candidates, whatever the ratio and model, search for "lorem" returns the one exact result with the highlighted snippet |
| SearchManager.SingleFused | src/core/search/manager.py:57-66 | a single part fuses to itself |
| SearchManager.ScoredPassThenFail | src/core/search/manager.py:112-126 | a passing then a failing candidate give the first one's result only |
| SearchManager.ScoredOne | src/core/search/manager.py:112-126 | one passing candidate gives its result |
| SearchManager.FuzzyFiltersFor | tests/core/search/test_search_manager.py:46-60 | with the test's ratios and a target of 0.5, search for "hello world" returns exactly D1, fuzzy, scored 0.9 × 0.7 |
| SearchManager.SampleSemanticPart | tests/core/search/test_search_manager.py:63-68 | with a threshold of 0, the semantic part of the search for "x" is D3 alone, scored cosine × 0.9 |
| SearchManager.SemanticUsesModelFor | tests/core/search/test_search_manager.py:63-68 | with a threshold of 0 and a cosine in [0, 1], search for "x" returns exactly D3, semantic, scored cosine × 0.9 |
| SearchManager.PathFallback | src/core/search/manager.py:86-90 | without `_id` the id is the source's `file_path`; without a highlight the snippet is the content's first 200 characters |
| SearchManager.TitleFallback | src/core/search/manager.py:86-90 | without `_id` or `file_path` the id is the title; a missing score counts as 0 |
| Semantic.CacheBound | src/core/search/strategies/semantic.py:23 | `max(1, max_size)`: at least 1, and the size asked for when that is positive |
| Semantic.AfterLookup | src/core/search/strategies/semantic.py:26-30 | a lookup changes no value and no size; a hit moves the key to the most recent end, a miss changes nothing |
| Semantic.EmbeddingCache.constructor | src/core/search/strategies/semantic.py:22-24 | an empty cache bounded by `max(1, max_size)` |
| Semantic.EmbeddingCache.Get | src/core/search/strategies/semantic.py:26-30 | returns the stored vector and refreshes a hit; the cache stays valid |
| Semantic.EmbeddingCache.Put | src/core/search/strategies/semantic.py:32-37 | the same store update as the generic cache's put: refresh, assign, evict the oldest when over the bound |
| Semantic.EmbedStep | src/core/search/strategies/semantic.py:85-91 | embedding one text keeps the cache well formed and within its bound |
| Semantic.EmbedAll | src/core/search/strategies/semantic.py:69-75 | embedding texts in turn keeps the cache well formed and within its bound |
| Semantic.Misses | src/core/search/strategies/semantic.py:85-91 | the number of encoder calls is at most the number of texts embedded |
| Semantic.EmbedAllAppend | src/core/search/strategies/semantic.py:69-75 | embedding one more text is one more step, adding one encoder call exactly on a miss |
| Semantic.EmbedStepFaithful | src/core/search/strategies/semantic.py:85-91 | when every cached vector is the encoder's vector for its text, that stays so after one step |
| Semantic.EmbedAllFaithful | src/core/search/strategies/semantic.py:69-75 | the same over any number of texts |
| Semantic.AllCachedNoEncodes | src/core/search/strategies/semantic.py:85-88 | texts all in the cache cost no encoder call and change no cached value |
| Semantic.LastEmbeddedCached | src/core/search/strategies/semantic.py:89-90 | the text embedded last is in the cache afterwards |
| Semantic.TextsOf | src/core/search/strategies/semantic.py:71 | the candidates' texts, in order |
| Semantic.Hits | src/core/search/strategies/semantic.py:70-75 | every kept hit is a candidate whose similarity to the query reaches the threshold, with that similarity |
| Semantic.HitsComplete | src/core/search/strategies/semantic.py:73-75 | every candidate reaching the threshold is kept |
| Semantic.HitsAllPass | src/core/search/strategies/semantic.py:73-75 | when every candidate reaches the threshold, all are kept |
| Semantic.HigherScoreOrder | src/core/search/strategies/semantic.py:76 | "higher similarity first" is a strict weak order |
| Semantic.RankedTop | src/core/search/strategies/semantic.py:76-77 | the answer is at most `limit` hits, drawn from the hits, in non-increasing similarity, none left out scoring above one kept, and all of them when `limit` allows |
| Semantic.PrefixStep | src/core/search/strategies/semantic.py:71-75 | one more candidate appends its text to those embedded and its hit when it passes |
| Semantic.PrefixHas | src/core/search/strategies/semantic.py:71 | an element before position `n` is in the first `n` |
| Semantic.ConfigOf | src/core/search/strategies/semantic.py:52 | a given configuration is used as is; otherwise the default one with the settings' similarity threshold |
| Semantic.DefaultsAgree | src/core/search/strategies/semantic.py:14-18 | with no arguments the configuration is the documented default (threshold 0.7, cache size 1000) |
| Semantic.SemanticSearchStrategy.constructor | src/core/search/strategies/semantic.py:43-56 | settings from the application configuration or the defaults, the configuration as `ConfigOf`, an empty provider when none is given, a fresh cache of the configured size when none is given, no encoder calls yet |
| Semantic.SemanticSearchStrategy.EncodeTexts | src/core/search/strategies/semantic.py:79-82 | one encoder call, one vector per text |
| Semantic.SemanticSearchStrategy.EmbedText | src/core/search/strategies/semantic.py:85-91 | the text's vector, from the cache on a hit and from one encoder call on a miss; the cache becomes `EmbedStep` of the old one |
| Semantic.SemanticSearchStrategy.Search | src/core/search/strategies/semantic.py:59-77 | nothing when AI search is off, the provider finds nothing or only pre-encoded vectors may be used; otherwise the candidates at or above the threshold, best first, at most `limit` (`Results`, with `RankedTop`); the texts embedded, the cache afterwards and the encoder calls are those of embedding the query and then each candidate |
| Semantic.SemanticSearchStrategy.Results | src/core/search/strategies/semantic.py:59-77 | nothing unless the search embeds; at most `limit` hits, best first, each a candidate at or above the threshold |
| Semantic.SemanticSearchStrategy.EmbedAndMatch | src/core/search/strategies/semantic.py:69-75 | the hits of the candidates against the query's vector, with the cache and the call count of embedding the query then each text |
| Semantic.SemanticSearchStrategy.MatchOne | src/core/search/strategies/semantic.py:72-75 | one candidate's hit is appended when its similarity reaches the threshold |
| Semantic.EmbedTwice | tests/core/search/test_semantic_strategy.py:31-40 | embedding the same text twice encodes at most once and leaves it cached |
| Semantic.SearchFirst | tests/core/search/test_semantic_strategy.py:35-36 | from an empty cache, the first search for "x" calls the model once and caches both texts |
| Semantic.RepeatedText | tests/core/search/test_semantic_strategy.py:31-40 | from an empty cache, query "x" and candidate "x" cost one encode, and a second search costs none |
| Semantic.SingleCandidate | tests/core/search/test_semantic_strategy.py:31-34 | the test's strategy: AI search on, a fresh empty cache of size 1000, no calls yet, and each search embeds the query and its one candidate |
| Fuzzy.FuzzinessJson | src/core/search/strategies/fuzzy.py:15 | a fuzziness is serialised as a JSON string or integer |
| Fuzzy.FuzzinessOf | src/core/search/strategies/fuzzy.py:15 | a JSON value reads as a fuzziness exactly when it is a string or an integer |
| Fuzzy.FuzzinessRoundTrip | src/core/search/strategies/fuzzy.py:15 | reading back a serialised fuzziness gives it again |
| Fuzzy.NewFuzzyStrategy | src/core/search/strategies/fuzzy.py:22-30 | settings from the application configuration or the defaults; the given fuzzy configuration or the default one; the given corpus or an empty one |
| Fuzzy.MatchMembersLookup | src/core/search/strategies/fuzzy.py:35-40 | the `multi_match` object holds the text, the configured fields, the fuzziness and the prefix length |
| Fuzzy.BuildQuery | src/core/search/strategies/fuzzy.py:33-41 | the query is one `multi_match` object whose `query`, `fields`, `fuzziness` and `prefix_length` are the text and the configuration's values |
| Fuzzy.Search | src/core/search/strategies/fuzzy.py:43-49 | the client's answer to the index and the body holding the size, the fuzzy query and the content highlight |
| Fuzzy.Accepted | src/core/search/strategies/fuzzy.py:62-67 | no more suggestions than candidates |
| Fuzzy.AcceptedSound | src/core/search/strategies/fuzzy.py:63-66 | every suggestion reaches the accuracy target and is a candidate with its score divided by 100 |
| Fuzzy.AcceptedStep | src/core/search/strategies/fuzzy.py:63-66 | one more candidate appends one suggestion exactly when its scaled score reaches the target |
| Fuzzy.AcceptedComplete | src/core/search/strategies/fuzzy.py:63-66 | no candidate whose scaled score reaches the target is dropped |
| Fuzzy.Suggest | src/core/search/strategies/fuzzy.py:52-67 | nothing without the matcher or without a corpus; otherwise the accepted candidates of the matcher, in its order |
| Fuzzy.Suggestions | src/core/search/strategies/fuzzy.py:53-67 | nothing without the matcher or without a corpus; every suggestion reaches the accuracy target |
| Fuzzy.Confidence | src/core/search/strategies/fuzzy.py:69-75 | 0 without the matcher; otherwise the ratio divided by 100, between 0 and 1 for a ratio out of 100 |
| Fuzzy.DefaultQueryFuzziness | tests/core/search/test_fuzzy_strategy.py:13-17 | the default query carries fuzziness `AUTO` and the fields |
| Fuzzy.SearchPassesSize | tests/core/search/test_fuzzy_strategy.py:48-64 | the client sees the index `documents`, the size 7 and a query with a fuzziness |
| Fuzzy.HitScores | tests/core/search/test_fuzzy_strategy.py:27-33 | the test's matcher scores 90 the hit and 20 every other choice, in corpus order |
| Fuzzy.OnlyHitAccepted | tests/core/search/test_fuzzy_strategy.py:20-45 | with the target 0.6, of three candidates only the one scoring 90 is suggested, with confidence 0.9 |
| Api.Clamp | src/api/main.py:94 | `max(lo, min(hi, n))`: within the bounds, the value itself inside them, the nearer bound outside |
| Api.AtLeastOne | src/api/main.py:95 | `max(1, n)` |
| Api.PageSlice | src/api/main.py:102-103 | page `page` of size `size` is the slice from `(page-1)*size` to `page*size`, cut at the end of the list, empty past it, and never longer than `size` |
| Api.PagesTile | src/api/main.py:102-103 | the first `n` pages, one after the other, are the first `n*size` elements: pages tile the list without gap or overlap |
| Api.PageSliceOrdered | src/api/main.py:102-103 | a page of a sorted list is sorted |
| Api.PageSliceWithin | src/api/main.py:102-103 | a page holds only elements of the list, each at most as often |
| Api.ApiSearchAsWritten | src/api/main.py:47-51 | as written: an empty query is refused with 400; every other query ends in an internal server error, because the manager's search takes no `topic_filter` |
| Api.ApiSearch | src/api/main.py:47-66 | 400 `query must not be empty` exactly for the empty query; otherwise the manager's results, or 500 when its search raises |
| Api.AsWrittenNeverAnswers | src/api/main.py:51 | for the manager with the sample Elasticsearch client, `lorem` gives 500 as written and the exact hit once the call is corrected |
| Api.TitleOrder | src/api/main.py:99 | ordering by document title is a strict weak order |
| Api.SortOrderIsStrictWeak | src/api/main.py:98-101 | both sort keys, title and descending relevance, are strict weak orders |
| Api.AdvancedSearch | src/api/main.py:90-118 | 400 exactly for the empty query; otherwise it succeeds exactly when the search over `page * size` results does, answering the page `AdvancedPage` cuts from those results for the requested sort, and answers 500 when the search raises; the size is within 1..100 and the page at least 1 |
| Api.AdvancedSearchAsWritten | src/api/main.py:90-97 | as written: 400 for the empty query, 500 for every other |
| Api.AdvancedPageFacts | src/api/main.py:98-104 | the total is the number of results; the sorted results are a permutation of them in the requested order; the items are the requested page of that order, sorted, and drawn from the results |
| Api.AdvancedPage | src/api/main.py:98-104 | the total is the number fetched, the page and size are the requested ones, and the items are at most one page of fetched results |
| Api.ScorePageIsRankingSlice | src/api/main.py:100-103 | sorting already ranked results by descending relevance keeps them in place (the sort is stable), so the page is a slice of the ranking |
| Api.AdvancedSearchRanked | src/api/main.py:94-104 | with the score sort: success exactly when the search succeeds, at most `page*size` results asked for, and the listing is the requested page of the manager's ranking with its total |
| Api.Matching | src/api/main.py:145-146 | exactly the files whose lower-cased name contains the lower-cased query, or all files when there is no query, each kept as often as it is listed, so the count is the number of matching entries |
| Api.NameOrder | src/api/main.py:147 | ordering by lower-cased name is a strict weak order |
| Api.ListDocuments | src/api/main.py:140-159 | the size is within 1..200, the page at least 1, the items at most one page, and the total the number of matching files |
| Api.ListDocumentsFacts | src/api/main.py:144-150 | every item is a file that matches the query; the items are in lower-cased-name order; they are the requested page of a permutation of the matching files |
| Api.CandidateInjective | src/api/main.py:134 | different counters give different candidate names |
| Api.UniquePath | src/api/main.py:128-137 | the result is not taken; it is the path itself when that is free; otherwise it is `stem (i)suffix` for the least `i >= 1` not taken |
| Api.Candidate | src/api/main.py:131-134 | the candidate stays in the same directory and is named `stem (i)suffix` |
| Api.ClampRange | src/api/main.py:211-217 | a range inside the file of `end - start + 1` bytes; an in-bounds request is served as asked; a request past the end, before the start or reversed is served as the whole file |
| Api.ServeRange | src/api/main.py:204-236 | no header, an empty one or one without `=` serves the whole file; any range served lies inside the file with length `end - start + 1` |
| Api.RangeBounds | src/api/main.py:208-212 | an empty range reads as the whole file; an empty first position reads as 0; without `-` the last position is the last byte |
| Api.RangeHeaders | src/api/main.py:229-233 | three headers: `Content-Range: bytes start-end/size`, `Accept-Ranges`, and a `Content-Length` that reads back as the length |
| Api.PositionReads | src/api/main.py:211-212 | a printed position reads back as itself, and an omitted one as its default |
| Api.BoundsRead | src/api/main.py:209-212 | `first-last` reads back as its two positions, an omitted first as 0 and an omitted last as the last byte |
| Api.ByteRangeRead | src/api/main.py:204-217 | a `bytes=first-last` header is served as those positions clamped to the file |
| Api.SatisfiableRange | src/api/main.py:211-217 | `bytes=first-last` with `first` inside the file serves from `first` to `last`, cut at the last byte |
| Api.OpenEndedRange | src/api/main.py:211-217 | `bytes=first-` serves from `first` to the end of the file |
| Api.SuffixRangeReadsAsPrefix | src/api/main.py:211-212 | `bytes=-n` serves bytes 0..n, not the last `n` bytes |
| Api.UnsatisfiableServedWhole | src/api/main.py:213-216 | a first byte past the end serves the whole file with status 206 rather than refusing the range |
| Api.EmptyFileRange | src/api/main.py:211-217 | any range of an empty file is served as `bytes 0--1/0` with length 0 |
| Sorting.Insert | src/core/search/manager.py:65 | inserting keeps every element and adds the new one |
| Sorting.SortBy | src/core/search/manager.py:65 | sorting is a permutation of its input |
| Sorting.InsertOrdered | src/core/search/manager.py:65 | inserting into a sorted list keeps it sorted |
| Sorting.SortByOrdered | src/core/search/manager.py:65 | the result is sorted for any strict weak order |
| Sorting.InsertTies | src/api/main.py:98-101 | inserting puts an element after the elements it ties with |
| Sorting.SortByStable | src/api/main.py:98-101 | the sort is stable: elements with equal keys keep their order |
| Sorting.SortByOrderedIdentity | src/api/main.py:100-101 | sorting an already sorted list leaves it unchanged |
| Sorting.StrBeforeOrder | src/core/documents/manager.py:43 | string order is a strict weak order |
| PyText.Lower | src/api/main.py:146-147 | `str.lower` on ASCII letters, character by character, same length |
| PyText.Upper | src/core/search/strategies/exact.py:73 | `str.upper` on ASCII letters, character by character, same length |
| PyText.LowerIdempotent | src/api/main.py:146-147 | lower-casing twice is lower-casing once |
| PyText.Find | src/api/main.py:208-209 | the index of the first occurrence, or -1 when there is none |
| PyText.RFind | src/core/documents/manager.py:27 | the index of the last occurrence, or -1 when there is none |
| PyText.RFindAfter | src/core/documents/manager.py:27 | the last occurrence is found after a prefix when none follows |
| PyText.SplitOnce | src/api/main.py:208-209 | `split(c, 1)` splits exactly when `c` occurs, at its first occurrence, and the pieces rebuild the text |
| PyText.SplitOnceOf | src/api/main.py:208-209 | splitting `a + c + b` with no `c` in `a` gives `a` and `b` |
| PyText.ClampIndex | src/core/search/manager.py:66 | a slice bound as Python reads it: negative counts from the end, and bounds are clamped to the length |
| PyText.Take | src/core/search/manager.py:66 | `s[:n]` is the first `n` elements, or fewer when `s` is shorter, and for negative `n` all but the last `-n` |
| PyText.TakeIsPrefix | src/core/search/manager.py:66 | `s[:n]` is a prefix of `s` of at most `n` elements |
| PyText.StrLessIrreflexive | src/core/documents/manager.py:43 | string order is irreflexive |
| PyText.StrLessTransitive | src/core/documents/manager.py:43 | string order is transitive |
| PyText.StrLessTotal | src/core/documents/manager.py:43 | any two strings are equal or ordered one way |
| PyText.StripLeft | src/core/models/topic.py:29 | the suffix left after removing the leading separators, which starts with none |
| PyText.StripRight | src/core/models/topic.py:29 | the prefix left after removing the trailing separators, which ends with none |
| PyText.StripFixpoint | src/core/models/topic.py:29 | `strip(c)` changes nothing exactly when the text is empty or neither starts nor ends with `c` |
| PyText.Split | src/core/models/topic.py:31 | `split(sep)` gives at least one piece, and no piece contains the separator |
| PyText.JoinSplit | src/core/models/topic.py:31 | joining the pieces of a split with the separator gives the text back |
| PyText.NonEmpty | src/core/models/topic.py:31 | the filter keeps only the non-empty pieces |
| PyText.SplitFirstPiece | src/core/models/topic.py:29-31 | a text that does not start with the separator has a non-empty first piece |
| PyText.NatToDecimal | src/api/main.py:230-232 | a number prints as a non-empty string of decimal digits |
| PyText.StripSpaces | src/api/main.py:211-212 | `int` ignores surrounding whitespace: what is left neither starts nor ends with whitespace |
| PyText.DecimalValue | src/api/main.py:230-232 | the digits of a number read back as the number |
| PyText.ParseIntRoundTrip | src/api/main.py:211-232 | `int(str(i))` is `i` for every integer |
| PyText.ParseInt | src/api/main.py:211-212 | blank text does not parse; plain digits read as their decimal value; a negative value needs a leading minus |
| PyPath.Dir | src/api/main.py:134 | the parent part: a prefix of the path ending in `/` (or empty), after which no `/` occurs |
| PyPath.Name | src/api/main.py:131 | the last component: no `/`, and the parent followed by it is the path |
| PyPath.WithName | src/api/main.py:134 | `path.parent / name`: same parent, and the given name |
| PyPath.SuffixStart | src/core/documents/manager.py:27 | the position of the last dot of the name when that dot is neither first nor last, else -1 |
| PyPath.Suffix | src/core/documents/manager.py:27 | `Path.suffix`: empty, or a dot and at least one character with no further dot or `/` |
| PyPath.Stem | src/api/main.py:131 | `Path.stem` is a prefix of the name, no longer than the name |
| PyPath.StemSuffix | src/api/main.py:131 | the stem followed by the suffix is the name, and the stem is non-empty when there is a suffix |
| OrderedDicts.Without | src/core/performance/lru_cache.py:32 | removing a key from the order keeps the others, and their distinctness |
| OrderedDicts.Empty | src/core/performance/lru_cache.py:21 | a new ordered dictionary is empty and well formed |
| OrderedDicts.MoveToEnd | src/core/performance/lru_cache.py:32-37 | `move_to_end` keeps the contents and the size; the key becomes the newest and the other keys keep their order |
| OrderedDicts.Assign | src/core/performance/lru_cache.py:38 | `d[k] = v` maps `k` to `v`, adding one entry only for a new key |
| OrderedDicts.PopFirst | src/core/performance/lru_cache.py:40 | `popitem(last=False)` removes the oldest key and its value |
| JsonValue.Get | src/core/search/strategies/exact.py:137-146 | a lookup succeeds only in an object |
| JsonValue.LookupAt | src/core/search/strategies/exact.py:137-146 | the value of a key is that of its first member |
| JsonValue.StrList | src/core/search/strategies/fuzzy.py:37 | `list(fields)` as a JSON array of the strings, in order |

## Left out

- Elasticsearch, rapidfuzz, sentence-transformers, torch and numba are libraries whose code is not part of this model. Each call into them is a parameter. The parameters are:
  - the Elasticsearch client, as a function from index and body to a response;
  - `process.extract` and `fuzz.ratio`, as functions, or `None` where the import fails;
  - the encoder, as a function from text to vector, wrapped with a call counter;
  - `cosine_similarity_numba`, as a similarity function.
- `SearchManager._cosine` is the manager's own code, but the model takes it as a parameter of the manager. The model therefore does not capture that it returns 0.0 when either vector has zero norm, or that `zip` stops at the shorter vector when the lengths differ.
- Floating point is not modelled. Scores, thresholds and similarities are `real`, and nothing proved depends on rounding.
- The lazy loaders `_get_es` and `_get_model`, and `_detect_device`, are not modelled. The semantic strategy's encoder and its device are given to it.
- `encode_texts` does not model `normalize_embeddings`. It returns the encoder's vectors.
- The accelerated tokenizer is not modelled. `count_tokens_ws` and `split_tokens_ws` take the pure-Python path, which the Cython module is meant to match.
- Decoding tokens as UTF-8 with `errors="ignore"` is not modelled. Tokens stay byte sequences.
- Case conversion covers ASCII letters only. This applies to `str.lower`, `str.upper` and the regex's `IGNORECASE`.
- `\b` in the keyword pattern uses ASCII word characters. A keyword followed by a non-ASCII letter is not modelled as Python reads it.
- `int()` of a string reads ASCII digits, with single underscores between digits, an optional sign and surrounding whitespace. Non-ASCII digits are not read.
- Paths are normalised POSIX strings. `Path(...)` normalisation and `exists()`/`is_file()` are not modelled. `_unique_path` takes the set of existing paths; the directory listing and `stat()` are given as file entries.
- Datetimes are timestamps on one clock.
- The `threading.RLock` of the event bus is not modelled. The bus is single-threaded.
- Handlers are values. What a handler does when called is a parameter of `publish`: the changes it makes to the subscriptions, and whether it raises.
- Elasticsearch responses are JSON values without `null`. A hit whose title is not a string, whose id or score has another type, or whose content is not a string is an unreadable hit. That is the case where the source's `str(...)`, `float(...)` or slicing would produce a value this model does not represent, or would raise.
- The conversion of results to response dictionaries is not modelled. The endpoints return the result values.
- Several endpoints are not modelled:
  - `/health` and `/api/search/suggest`, which calls `suggest`, missing from the manager;
  - the upload endpoint's streaming copy and the web socket progress messages;
  - `DELETE /api/documents/{name}`;
  - the 404 of the content endpoint;
  - the file streaming of `iter_file`.
- The range model does not check the `bytes` unit. Any text before the first `=` is accepted, as the source does.
- Some things the code does not have are not modelled:
  - a TTL search cache;
  - `SearchManager.suggest`;
  - a `topic_filter` parameter of `SearchManager.search`;
  - `auto_register_builtin`, which the GUI worker expects.
- Configuration file I/O, Docker and subprocess management, document extraction (PDF, DOCX, text), the indexing manager, the file watcher, the CLI and the GUI are outside the search core.
- The test-scenario methods state their checks as assertions and have no `ensures`:
  - `DocumentsManager.FirstRegistrationWins`;
  - `Fuzzy.SuggestionsWithThreshold`;
  - `Semantic.CacheAvoidsRecompute`;
  - and the other scenario methods.
  Each relies on a lemma with a row above.
- Semantic.SemanticSearchStrategy.constructor: requires an injected embedding cache to be well formed and to hold only the encoder's own vectors. This keeps `EmbedText` and `Search` able to promise the encoder's vectors. The source accepts any cache, and with a foreign one it would serve whatever vectors that cache holds.

## Findings

| source | as written | input that shows it | evidently intended | confidence | as-written member | corrected member |
|---|---|---|---|---|---|---|
| src/api/main.py:51 | `api_search` calls `search_manager.search(req.query, limit=req.limit, topic_filter=req.topic)`, but `SearchManager.search` takes only `query` and `limit`, so the call raises `TypeError` and the endpoint answers 500 | `POST /api/search` with query `lorem` and the sample Elasticsearch client: 500 instead of the one exact hit (`Api.AsWrittenNeverAnswers`) | call `search(req.query, limit=req.limit)` and return its ranked results | not executed | Api.ApiSearchAsWritten | Api.ApiSearch |
| src/api/main.py:97 | `api_search_advanced` makes the same call with `topic_filter=req.topic`, so every non-empty query answers 500 | `POST /api/search/advanced` with query `lorem` | call `search(req.query, limit=page * size)`, then sort and slice | not executed | Api.AdvancedSearchAsWritten | Api.AdvancedSearch |
