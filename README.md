# Search route: query handling and hybrid re-ranking

This project models the search endpoint of a document question-answering app,
`POST /api/search` (`src/app/api/search/route.ts`), and proves properties of it
in Dafny. The endpoint turns a user's query into an embedding vector, asks a vector
index for the nearest document chunks, re-ranks them with a keyword-overlap score and
returns the best few. The model has five parts:

- **Sanitising** (`QueryText.Sanitize`). The route deletes every character outside
  printable ASCII (0x20 to 0x7E). It deletes rather than replaces, so the kept
  characters close up in their original order. The model is a generic order-preserving
  `Sequences.Filter`, which also models `Array.prototype.filter`.
- **Keyword score** (`KeywordScoring.KeywordScore`). Both strings are lower-cased and
  split on runs of JavaScript whitespace. The score is the number of query tokens,
  counted with multiplicity, that occur among the text's tokens, divided by the number
  of query tokens. It is an exact `real`. `split(/\s+/)` is modelled literally: it
  always yields at least one piece, and the piece is empty at an end with whitespace.
- **Validation** (`SearchRoute.Validate`). `project_id` and `query` must both be truthy
  in the JavaScript sense. The query is converted with `String(...)`, trimmed and then
  sanitised. It must come out neither empty nor the text `undefined`. Both rejections
  are 400 responses made before any external call. Because trimming comes first,
  sanitising can leave spaces at the ends: a query of two accented letters around a
  space is accepted as a single space (`SpacesOnlyQueryAccepted`).
- **Embedding cache** (`SearchRoute.SearchHandler`). The cache is a module-level map
  from cleaned query to vector. A hit returns the stored vector without calling the
  provider. A miss calls the provider once, with model `text-embedding-3-small`, and
  stores the first vector it returns. The embedding provider and the `match_chunks`
  vector index are function-valued parameters. Every call to them, and the query-log
  insert, is recorded in a ghost trace, so the contracts can say which calls happen.
- **Hybrid re-ranking** (`Ranking.Rank`, `Ranking.RankCandidates`). Each candidate is
  enriched with its keyword score and `hybrid_score = distance - keyword_score`. The
  list is sorted ascending by hybrid score and cut with `slice(0, k ?? 8)`. The index
  is asked for `k ?? 20` candidates.
  - `Array.prototype.sort` is stable (ECMA-262, 2019 edition and later,
    `Array.prototype.sort`). The specification of the sort is therefore a functional stable
    insertion sort, `StableSort`. `StableSortUnique` proves that it is the only output
    that is both sorted and keeps the input order among equal scores.
  - The route sorts in place. `SortByHybridScore` sorts an array in place and is
    proved equal to `StableSort`.
  - A negative `k` makes `slice` count back from the end; `SliceEnd` models this.

Modules: `Wrappers` (Option and Result), `Sequences` (filtering), `QueryText`
(whitespace, trim, sanitise, lower-case, split), `KeywordScoring`, `Ranking` and
`SearchRoute`.

A repeated query token counts in the numerator as often as in the denominator, so
the query "margin margin" scores 1.0, not 0.5, against a text containing "margin"
(`RepeatedTokenScoresOne`).

## Model

| member | source | states |
|---|---|---|
| Sequences.Filter | src/app/api/search/route.ts:16 | the kept elements are elements of the input that pass the test, and there are no more of them than input elements |
| Sequences.FilterCounts | src/app/api/search/route.ts:10 | filtering keeps each passing element exactly as often as it occurs and drops every other one |
| Sequences.FilterAppend | src/app/api/search/route.ts:10 | filtering distributes over concatenation, so kept elements keep their relative order |
| Sequences.FilterKeepsAll | src/app/api/search/route.ts:10 | nothing is removed exactly when every element passes |
| Sequences.FilterKeepsNone | src/app/api/search/route.ts:10 | everything is removed exactly when no element passes |
| QueryText.Sanitize | src/app/api/search/route.ts:9-11 | every kept character is printable ASCII; each printable character is kept as often as it occurs, every other character is dropped; the output is never longer than the input |
| QueryText.SanitizeAppend | src/app/api/search/route.ts:10 | sanitising a concatenation sanitises each part, so kept characters stay in order |
| QueryText.SanitizeChar | src/app/api/search/route.ts:10 | one character is kept if and only if it is printable ASCII |
| QueryText.SanitizeIdempotent | src/app/api/search/route.ts:9-11 | sanitising twice is sanitising once |
| QueryText.SanitizeUnchangedIff | src/app/api/search/route.ts:10 | the sanitiser leaves a string unchanged exactly when it is all printable ASCII, and shortens it exactly when it holds another character |
| QueryText.TrimStart | src/app/api/search/route.ts:32 | the result is a suffix that does not start with whitespace, and everything before it is whitespace |
| QueryText.TrimEnd | src/app/api/search/route.ts:32 | the result is a prefix that does not end with whitespace, and everything after it is whitespace |
| QueryText.TrimCuts | src/app/api/search/route.ts:32 | `Trim` (`String(query).trim()`) keeps the infix after the leading whitespace that neither starts nor ends with whitespace; all of the input outside it is whitespace |
| QueryText.TrimOfVisibleEnds | src/app/api/search/route.ts:32 | a string that neither starts nor ends with whitespace is its own trim |
| QueryText.TrimEmptyIff | src/app/api/search/route.ts:32 | trimming gives the empty string exactly when the input is all whitespace |
| QueryText.ToLower | src/app/api/search/route.ts:14-15 | lower-casing keeps the length; an upper-case ASCII letter becomes the letter 32 code points above it, KELVIN SIGN becomes `k`, and every other character is kept; no upper-case ASCII letter is left, and no character moves into or out of whitespace or printable ASCII |
| QueryText.ToLowerIgnoresAsciiCase | src/app/api/search/route.ts:14-15 | two texts that differ only in the case of ASCII letters lower-case to the same text, with the case pairing defined independently of the mapping |
| QueryText.ToLowerIdempotent | src/app/api/search/route.ts:14-15 | lower-casing twice is lower-casing once |
| QueryText.ToLowerAppend | src/app/api/search/route.ts:14-15 | lower-casing a concatenation lower-cases each part |
| QueryText.Split | src/app/api/search/route.ts:14-15 | `split(/\s+/)` yields at least one piece |
| QueryText.SplitPieces | src/app/api/search/route.ts:14-15 | no piece contains whitespace, and leading whitespace yields an empty first piece |
| QueryText.SplitKeepsVisible | src/app/api/search/route.ts:14-15 | the pieces put together are exactly the input's non-whitespace characters in order |
| QueryText.SplitTrailingWhitespace | src/app/api/search/route.ts:14-15 | trailing whitespace yields an empty last piece, after at least one other piece |
| QueryText.CollapseRuns | src/app/api/search/route.ts:14-15 | collapsing keeps emptiness and whether the text starts with whitespace, leaves only single spaces as whitespace, and never two whitespace characters in a row |
| QueryText.SplitCollapsedRuns | src/app/api/search/route.ts:14-15 | a run of whitespace of any length and kind (tabs, newlines, several spaces) separates exactly like one space |
| QueryText.JoinSplitCollapses | src/app/api/search/route.ts:14-15 | round trip on every input: the pieces joined with single spaces are the input with each whitespace run collapsed to one space |
| QueryText.SplitJoinRoundTrip | src/app/api/search/route.ts:14-15 | joining whitespace-free tokens with single spaces and splitting gives the tokens back, when only the first and last may be empty |
| QueryText.SplitToken | src/app/api/search/route.ts:14-15 | a string without whitespace splits into itself alone |
| QueryText.LowerWordSplit | src/app/api/search/route.ts:14-15 | a word of lower-case letters lower-cases and splits into itself |
| QueryText.CleanQuery | src/app/api/search/route.ts:32 | the cleaned query is printable ASCII, holds no whitespace but the space, and is no longer than the raw text |
| QueryText.CleanQueryCanKeepSpaces | src/app/api/search/route.ts:32 | trimming before sanitising can leave a lone space behind |
| QueryText.CleanQueryOfPrintable | src/app/api/search/route.ts:32 | when the trimmed text is printable ASCII, the cleaned query is the trimmed text and neither starts nor ends with a space |
| KeywordScoring.MatchedTokens | src/app/api/search/route.ts:16 | each query token occurring in the text is kept as often as it occurs in the query, and every other token is dropped |
| KeywordScoring.Tokens | src/app/api/search/route.ts:14-15 | the query and the text always have at least one token each, so the denominator is never zero, and no token holds whitespace |
| KeywordScoring.KeywordScore | src/app/api/search/route.ts:13-18 | the score lies between 0 and 1 |
| KeywordScoring.Ratio | src/app/api/search/route.ts:17 | the quotient times the total is the overlap; it is 1 exactly when all tokens match and 0 exactly when none does |
| KeywordScoring.ScoreIsOneIff | src/app/api/search/route.ts:16-17 | the score is 1 exactly when every query token occurs among the text tokens |
| KeywordScoring.ScoreIsZeroIff | src/app/api/search/route.ts:16-17 | the score is 0 exactly when no query token occurs among the text tokens |
| KeywordScoring.ScoreIgnoresCase | src/app/api/search/route.ts:14-15 | lower-casing either argument first does not change the score |
| KeywordScoring.ScoreIgnoresAsciiCase | src/app/api/search/route.ts:14-16 | texts and queries differing only in ASCII letter case score alike, in both arguments, so "Margin" in a chunk matches the query "margin" |
| KeywordScoring.RepeatedTokenScoresOne | src/app/api/search/route.ts:16-17 | a query of one token repeated twice scores 1, not 1/2, against a text containing that token |
| KeywordScoring.MissingTokenScoresZero | src/app/api/search/route.ts:16-17 | a one-token query whose token the text lacks scores 0 |
| KeywordScoring.TwoWordQueryTokens | src/app/api/search/route.ts:14 | two lower-case words separated by a space are the query's two tokens |
| KeywordScoring.OneOfTwoWordsScoresHalf | src/app/api/search/route.ts:13-18 | a text made of one of two distinct query words scores exactly 1/2 |
| KeywordScoring.NeitherWordScoresZero | src/app/api/search/route.ts:13-18 | a one-word text that is neither of two query words scores 0 |
| Ranking.MatchCount | src/app/api/search/route.ts:60 | the index is asked for the request's `k` when present, otherwise 20 |
| Ranking.ResultLimit | src/app/api/search/route.ts:78 | the ranking is cut at the request's `k` when present, otherwise 8 |
| Ranking.Enrich | src/app/api/search/route.ts:69-76 | a candidate keeps its fields and gains its keyword score and a hybrid score equal to the distance minus that score, so at most 1 below the distance |
| Ranking.SliceEnd | src/app/api/search/route.ts:78 | `slice(0, end)` never keeps more than the whole list |
| Ranking.EnrichAll | src/app/api/search/route.ts:69-76 | enrichment keeps one result per candidate |
| Ranking.InsertByScore | src/app/api/search/route.ts:78 | inserting adds exactly the one element |
| Ranking.StableSort | src/app/api/search/route.ts:78 | the sort's output is a permutation of its input |
| Ranking.StableSortSorted | src/app/api/search/route.ts:78 | the sort's output is non-decreasing in hybrid score |
| Ranking.StableSortKeepsTieOrder | src/app/api/search/route.ts:78 | elements of equal hybrid score keep their input order |
| Ranking.SortedTieOrderUnique | src/app/api/search/route.ts:78 | two sorted lists with the same per-score order are equal |
| Ranking.StableSortUnique | src/app/api/search/route.ts:78 | any sorted output that keeps the input order among ties equals the stable sort, so the model pins down what a stable `sort` returns |
| Ranking.InsertAt | src/app/api/search/route.ts:78 | placing an element after the leading elements scoring below it is the insertion of the specification |
| Ranking.InsertIntoSorted | src/app/api/search/route.ts:78 | one pass of the in-place sort inserts an element into the sorted suffix and leaves the prefix alone |
| Ranking.SortByHybridScore | src/app/api/search/route.ts:78 | the in-place array sort leaves the array holding the stable sort of its old contents |
| Ranking.Rank | src/app/api/search/route.ts:69-78 | the result has `min(8, n)` entries without `k`, `min(k, n)` for `k` of 0 or more, and `n + k` (at least 0) for a negative `k` |
| Ranking.RankCandidates | src/app/api/search/route.ts:69-78 | enriching into an array, sorting it in place and slicing gives the ranking, which is sorted and of length `slice`'s end |
| Ranking.RankIsSortedPrefix | src/app/api/search/route.ts:78 | the ranking is a sorted prefix of a permutation of the enriched candidates |
| Ranking.RankScores | src/app/api/search/route.ts:69-76 | every result is a fetched candidate carrying its keyword score and `distance - keyword_score`, which lies between `distance - 1` and `distance` |
| Ranking.RankKeepsTieOrder | src/app/api/search/route.ts:78 | among results of one score, the results are the first candidates of that score, in index order |
| Ranking.RankKeepsBest | src/app/api/search/route.ts:78 | truncation keeps the best: a candidate scoring strictly below some result is a result too |
| Ranking.KeywordMatchOutranksCloserChunk | src/app/api/search/route.ts:69-78 | a keyword advantage larger than the distance gap puts a farther candidate ahead of a closer one |
| SearchRoute.Validate | src/app/api/search/route.ts:25-39 | a falsy field gives 400 "Missing project_id or query"; otherwise the request is accepted exactly when the cleaned query is neither empty nor `undefined`, and rejected with 400 "Query must be a non-empty string"; an accepted query is printable ASCII and carries the request's fields |
| SearchRoute.MissingFieldRejected | src/app/api/search/route.ts:25-30 | `Truthy`: an absent, `null` or empty `project_id` or `query` is falsy, and the request fails with 400 "Missing project_id or query" |
| SearchRoute.NumericQueryStringified | src/app/api/search/route.ts:32 | `ToJsString`: a non-string query is validated as its `String(...)` text, so a number printing as a printable token is accepted as that text |
| SearchRoute.SpacesOnlyQueryAccepted | src/app/api/search/route.ts:32-39 | a query whose non-ASCII letters surround a space is accepted as a single space |
| SearchRoute.UnprintableQueryRejected | src/app/api/search/route.ts:32-39 | a query with no printable character left after trimming is rejected |
| SearchRoute.PrintableQueryIsTrimmed | src/app/api/search/route.ts:32-39 | an accepted printable query is exactly the trimmed query and does not start with a space |
| SearchRoute.FirstEmbedding | src/app/api/search/route.ts:50 | the result is the first vector exactly when the provider succeeded with a non-empty `data`; a provider error passes through, and an empty `data` gives the TypeError's message |
| SearchRoute.CaughtMessage | src/app/api/search/route.ts:90 | the caught error's message is kept when non-empty, else replaced, so the message is never empty |
| SearchRoute.Lookup | src/app/api/search/route.ts:43-50 | a cached query cannot fail: a hit never reaches the provider's error paths (the exact vector returned and stored is stated by `SearchHandler.EmbedQuery`) |
| SearchRoute.Respond | src/app/api/search/route.ts:57-90 | the status is 200 or 500, 200 exactly when the body holds results, and a failed embedding answers with the caught error's message |
| SearchRoute.ResponseShape | src/app/api/search/route.ts:57-90 | a response after validation is 200 or 500; it is 200 exactly when the embedding and the fetch both succeeded, and then it is sorted, of length `slice`'s end, and made of fetched candidates with their two scores |
| SearchRoute.Trace | src/app/api/search/route.ts:43-85 | a cache miss and only a miss calls the provider; an embedding leads to a fetch of `k ?? 20` candidates; a failed embedding makes no further call; the query is logged exactly when the response is 200 |
| SearchRoute.CallsOnlyGrow | src/app/api/search/route.ts:43-52 | appending calls keeps every cached query's embedding request on record |
| SearchRoute.SearchHandler.constructor | src/app/api/search/route.ts:7 | the cache starts empty |
| SearchRoute.SearchHandler.EmbedQuery | src/app/api/search/route.ts:43-52 | a hit returns the stored vector with no call and no change; a miss calls the provider once and stores the vector it returns, nothing when it fails; no other entry changes; every cached key is an accepted query that was embedded |
| SearchRoute.SearchHandler.FetchAndRank | src/app/api/search/route.ts:54-87 | with an embedding in hand: fetch, then 500 with the index's message or 200 with the ranking, the query logged on success, and the cache untouched |
| SearchRoute.SearchHandler.Search | src/app/api/search/route.ts:42-90 | a validated query updates the cache on a successful miss only, makes exactly the calls of `Trace`, and answers with `Respond` |
| SearchRoute.SearchHandler.Post | src/app/api/search/route.ts:20-91 | an invalid request is answered 400 with no call and no cache change; a valid one as `Search` answers it |

## Left out

- The OpenAI embeddings call and the Supabase `match_chunks` query are oracles: function-valued parameters returning a result or an error message. Their behaviour, latency and failures beyond that are not modelled.
- The query-log insert is recorded as a call in the ghost trace. Its outcome is never inspected by the route and is not modelled.
- JSON body parsing (line 22) is not modelled. A body that is not JSON throws into the catch-all 500 handler. A request is modelled as three already-parsed fields.
- `NextResponse` and the `ok` flag of the JSON body are not modelled. A response is a status code plus either results or an error message.
- Console logging is not modelled.
- `k` is modelled as an optional integer. A `k` that is a string, a fraction or another JSON value is not modelled.
- A `data` field of `null` from the vector index, which would throw inside `map`, is not modelled: a successful fetch returns a list.
- Candidate fields other than content and distance are carried but not typed as JSON (missing or `null` contents are not modelled).
- `distance` and the score are exact reals: IEEE rounding, NaN and infinity, and a comparator that is inconsistent because of NaN are not modelled.
- QueryText.ToLower: models `toLowerCase` for ASCII letters and the Kelvin sign (the one non-ASCII character whose lower-case form is ASCII). Other non-ASCII characters are left unchanged, though JavaScript maps some of them. Text tokens containing such characters can only match query tokens, which are printable ASCII, through ASCII characters, so scores do not depend on this.
- Strings are sequences of code points. UTF-16 surrogate pairs and lone surrogates are not modelled.
- Concurrency on the shared cache and its unbounded growth across requests are not modelled; the handler is a single sequential caller.
- A thrown error without a message becomes "Unknown error" (`CaughtMessage`). Errors thrown by code other than the embedding step (a failing log insert never throws) are not modelled.
- Document ingestion and chunking are not part of this model. Nor is `src/app/projects/page.tsx`, a client-side page without algorithmic content.
