/**
 * The `POST /api/search` handler: request validation, the process-wide query-embedding
 * cache, the candidate fetch from the vector index and the hybrid re-ranking.
 * The embedding provider and the vector index are external; they appear here as
 * function-valued parameters (oracles), and every call made to them is recorded in a
 * ghost trace so that the contracts can say which calls happen.
 */
module SearchRoute {
  import opened Wrappers
  import opened Sequences
  import opened QueryText
  import opened KeywordScoring
  import opened Ranking

  /** The JSON values a request field can hold, as JavaScript sees them after parsing. */
  datatype JsValue =
    | Undefined                        // the field is absent
    | Null
    | Bool(b: bool)
    | Num(n: real, text: string)       // `text` is the number as `String(n)` prints it
    | Str(s: string)
    | Compound(text: string)           // an array or object; `text` is what `String(...)` gives

  /** JavaScript truthiness (`!v` is false). */
  predicate Truthy(v: JsValue) {
    match v
    case Undefined => false
    case Null => false
    case Bool(b) => b
    case Num(n, _) => n != 0.0
    case Str(s) => s != ""
    case Compound(_) => true
  }

  /** `String(v)` */
  function ToJsString(v: JsValue): string {
    match v
    case Undefined => "undefined"
    case Null => "null"
    case Bool(b) => if b then "true" else "false"
    case Num(_, text) => text
    case Str(s) => s
    case Compound(text) => text
  }

  /** The body fields the handler reads; `k` is `None` when absent or `null` (the `??` cases). */
  datatype Request = Request(projectId: JsValue, query: JsValue, k: Option<int>)

  /** A request that passed validation, with its cleaned query. */
  datatype SearchQuery = SearchQuery(projectId: JsValue, text: string, k: Option<int>)

  datatype Rejection = Rejection(status: int, message: string)

  const BadRequest: int := 400
  const ServerError: int := 500
  const Ok: int := 200

  const MissingFieldsMessage: string := "Missing project_id or query"
  const EmptyQueryMessage: string := "Query must be a non-empty string"

  /** A cleaned query the handler accepts: printable ASCII, not empty and not the text `undefined`. */
  predicate IsAcceptedQuery(q: string) {
    q != "" && q != "undefined" && forall c | c in q :: IsPrintableAscii(c)
  }

  /**
   * Validation, before any external call: both fields must be truthy, and the query,
   * trimmed and then sanitised, must be neither empty nor the text `undefined`.
   */
  function Validate(req: Request): (r: Result<SearchQuery, Rejection>)
    ensures r.Failure? ==> r.error.status == BadRequest
    ensures !Truthy(req.projectId) || !Truthy(req.query) ==> r == Failure(Rejection(BadRequest, MissingFieldsMessage))
    ensures Truthy(req.projectId) && Truthy(req.query) ==>
      && (r.Success? <==> CleanQuery(ToJsString(req.query)) !in {"", "undefined"})
      && (r.Failure? ==> r.error.message == EmptyQueryMessage)
    ensures r.Success? ==>
      && r.value.projectId == req.projectId
      && r.value.k == req.k
      && r.value.text == CleanQuery(ToJsString(req.query))
      && IsAcceptedQuery(r.value.text)
  {
    if !Truthy(req.projectId) || !Truthy(req.query) then
      Failure(Rejection(BadRequest, MissingFieldsMessage))
    else
      var clean := CleanQuery(ToJsString(req.query));
      if clean == "" || clean == "undefined" then Failure(Rejection(BadRequest, EmptyQueryMessage))
      else Success(SearchQuery(req.projectId, clean, req.k))
  }

  /** An absent, `null` or empty field is a missing one: the request fails with the first 400. */
  lemma MissingFieldRejected(req: Request)
    requires || req.projectId == Undefined || req.projectId == Null || req.projectId == Str("")
             || req.query == Undefined || req.query == Null || req.query == Str("")
    ensures Validate(req) == Failure(Rejection(BadRequest, MissingFieldsMessage))
  {
  }

  /**
   * A non-string query is validated as the text `String(query)` prints: a number whose
   * printed form is a printable token is accepted as that text.
   */
  lemma NumericQueryStringified(projectId: JsValue, n: real, text: string, k: Option<int>)
    requires Truthy(projectId) && n != 0.0
    requires text != "" && text != "undefined" && IsToken(text)
    requires forall c | c in text :: IsPrintableAscii(c)
    ensures Validate(Request(projectId, Num(n, text), k)) == Success(SearchQuery(projectId, text, k))
  {
    TrimOfVisibleEnds(text);
    CleanQueryOfPrintable(text);
  }

  /** A query of spaces left over from deleted characters still passes validation. */
  lemma SpacesOnlyQueryAccepted()
    ensures Validate(Request(Str("p"), Str("\U{00E9} \U{00E9}"), None)) ==
      Success(SearchQuery(Str("p"), " ", None))
  {
    var req := Request(Str("p"), Str("\U{00E9} \U{00E9}"), None);
    assert Truthy(req.projectId) && Truthy(req.query);
    CleanQueryCanKeepSpaces();
    assert CleanQuery(ToJsString(req.query)) == " ";
    assert " " != "undefined";
  }

  /** A query that is blank after trimming, or only non-printable characters, is rejected. */
  lemma UnprintableQueryRejected(req: Request)
    requires forall c | c in Trim(ToJsString(req.query)) :: !IsPrintableAscii(c)
    ensures Validate(req).Failure?
  {
    FilterKeepsNone(Trim(ToJsString(req.query)), IsPrintableAscii);
  }

  /** When the trimmed query is already printable ASCII, the accepted text is exactly the trimmed query. */
  lemma PrintableQueryIsTrimmed(req: Request)
    requires Truthy(req.projectId) && Truthy(req.query)
    requires forall c | c in Trim(ToJsString(req.query)) :: IsPrintableAscii(c)
    requires Trim(ToJsString(req.query)) != "" && Trim(ToJsString(req.query)) != "undefined"
    ensures Validate(req) == Success(SearchQuery(req.projectId, Trim(ToJsString(req.query)), req.k))
    ensures Validate(req).value.text[0] != ' '
  {
    CleanQueryOfPrintable(ToJsString(req.query));
  }

  // ---------------------------------------------------------------------------
  // External collaborators

  /** The embeddings endpoint: the `data` list of embeddings for one input, or the error it throws. */
  type EmbeddingProvider = string -> Result<seq<seq<real>>, string>

  /** The `match_chunks` query: candidates for a project, a query vector and a count, or its error message. */
  type VectorIndex = (JsValue, seq<real>, int) -> Result<seq<Candidate>, string>

  /** The embedding model the provider is asked to use. */
  const EmbeddingModel: string := "text-embedding-3-small"

  /** One call to a collaborator: an embedding request, the `match_chunks` query, or the `query_logs` insert. */
  datatype ExternalCall =
    | EmbedCall(model: string, input: string)
    | MatchCall(projectId: JsValue, embedding: seq<real>, count: int)
    | LogCall(projectId: JsValue, query: string)

  /** The message of the error `data[0].embedding` throws when `data` is empty. */
  const MissingEmbeddingMessage: string := "Cannot read properties of undefined (reading 'embedding')"

  /**
   * `embeddingResponse.data[0].embedding`: the first vector of a successful response; a
   * provider error passes through, and an empty `data` list throws a TypeError.
   */
  function FirstEmbedding(response: Result<seq<seq<real>>, string>): (r: Result<seq<real>, string>)
    ensures r.Success? <==> response.Success? && response.value != []
    ensures r.Success? ==> r.value == response.value[0]
    ensures response.Failure? ==> r.error == response.error
    ensures response.Success? && response.value == [] ==> r.error == MissingEmbeddingMessage
  {
    match response
    case Failure(e) => Failure(e)
    case Success(data) => if data == [] then Failure(MissingEmbeddingMessage) else Success(data[0])
  }

  /** The message of the catch-all handler: `err.message || "Unknown error"`. */
  function CaughtMessage(message: string): (r: string)
    ensures r != ""
    ensures message != "" ==> r == message
  {
    if message == "" then "Unknown error" else message
  }

  datatype Body = Results(results: seq<Ranked>) | Error(message: string)

  datatype Response = Response(status: int, body: Body)

  /** The embedding the handler works with: the cached vector, or the provider's first one. */
  function Lookup(cache: map<string, seq<real>>, q: string, provider: EmbeddingProvider): (r: Result<seq<real>, string>)
    ensures q in cache ==> r.Success?
  {
    if q in cache then Success(cache[q]) else FirstEmbedding(provider(q))
  }

  /** The response once the embedding is known: 500 on any error, else the ranked top results. */
  function Respond(q: SearchQuery, embedding: Result<seq<real>, string>, index: VectorIndex): (r: Response)
    ensures r.status == Ok || r.status == ServerError
    ensures r.status == Ok <==> r.body.Results?
    ensures embedding.Failure? ==> r.body == Error(CaughtMessage(embedding.error))
  {
    match embedding
    case Failure(e) => Response(ServerError, Error(CaughtMessage(e)))
    case Success(v) =>
      match index(q.projectId, v, MatchCount(q.k))
      case Failure(e) => Response(ServerError, Error(e))
      case Success(chunks) => Response(Ok, Results(Rank(chunks, q.text, q.k)))
  }

  /**
   * What a response promises: it is 200 exactly when both the embedding and the candidate
   * fetch succeeded, otherwise 500; a 200 carries at most `k ?? 8` fetched candidates,
   * each scored against the query, in ascending hybrid score.
   */
  lemma ResponseShape(q: SearchQuery, embedding: Result<seq<real>, string>, index: VectorIndex)
    ensures var resp := Respond(q, embedding, index);
      && (resp.status == Ok || resp.status == ServerError)
      && (resp.status == Ok <==> embedding.Success? && index(q.projectId, embedding.value, MatchCount(q.k)).Success?)
      && (resp.status == Ok <==> resp.body.Results?)
    ensures var resp := Respond(q, embedding, index);
      resp.status == Ok ==>
        var chunks := index(q.projectId, embedding.value, MatchCount(q.k)).value;
        var rs := resp.body.results;
        && SortedByHybrid(rs)
        && |rs| == SliceEnd(|chunks|, ResultLimit(q.k))
        && forall x | x in rs ::
             && x.chunk in chunks
             && x.keywordScore == KeywordScore(x.chunk.content, q.text)
             && x.hybridScore == x.chunk.distance - x.keywordScore
  {
    if embedding.Success? && index(q.projectId, embedding.value, MatchCount(q.k)).Success? {
      var chunks := index(q.projectId, embedding.value, MatchCount(q.k)).value;
      RankIsSortedPrefix(chunks, q.text, q.k);
      RankScores(chunks, q.text, q.k);
    }
  }

  /**
   * The calls one validated request makes, in order: the embedding request on a cache miss,
   * then, once an embedding is in hand, the candidate fetch, and after a successful fetch
   * the query-log insert (whose outcome the handler ignores).
   */
  function Trace(q: SearchQuery, hit: bool, embedding: Result<seq<real>, string>, index: VectorIndex): (t: seq<ExternalCall>)
    ensures |t| <= 3
    ensures EmbedCall(EmbeddingModel, q.text) in t <==> !hit
    ensures embedding.Success? ==> MatchCall(q.projectId, embedding.value, MatchCount(q.k)) in t
    ensures embedding.Failure? ==> |t| <= 1
    ensures LogCall(q.projectId, q.text) in t <==> Respond(q, embedding, index).status == Ok
  {
    EmbedTrace(q.text, hit)
    + match embedding
      case Failure(_) => []
      case Success(v) => FetchTrace(q, v, index)
  }

  /** The embedding request, made only on a cache miss. */
  function EmbedTrace(q: string, hit: bool): seq<ExternalCall> {
    if hit then [] else [EmbedCall(EmbeddingModel, q)]
  }

  /** The candidate fetch, then the query-log insert when the fetch succeeded. */
  function FetchTrace(q: SearchQuery, v: seq<real>, index: VectorIndex): seq<ExternalCall> {
    [MatchCall(q.projectId, v, MatchCount(q.k))]
    + (if index(q.projectId, v, MatchCount(q.k)).Success? then [LogCall(q.projectId, q.text)] else [])
  }

  /** A failed embedding is answered 500 with its message, after at most the embedding request. */
  lemma EmbeddingFailureOutcome(q: SearchQuery, hit: bool, e: string, index: VectorIndex)
    ensures Respond(q, Failure(e), index) == Response(ServerError, Error(CaughtMessage(e)))
    ensures Trace(q, hit, Failure(e), index) == EmbedTrace(q.text, hit)
  {
  }

  /** With an embedding in hand, the trace goes on with the candidate fetch and the log insert. */
  lemma EmbeddingSuccessOutcome(q: SearchQuery, hit: bool, v: seq<real>, index: VectorIndex)
    ensures Trace(q, hit, Success(v), index) == EmbedTrace(q.text, hit) + FetchTrace(q, v, index)
  {
  }

  /** Appending calls to the trace keeps every cached query's embedding request in it. */
  lemma CallsOnlyGrow(cache: map<string, seq<real>>, before: seq<ExternalCall>, extra: seq<ExternalCall>)
    requires forall q | q in cache :: EmbedCall(EmbeddingModel, q) in before
    ensures forall q | q in cache :: EmbedCall(EmbeddingModel, q) in before + extra
  {
    forall q | q in cache
      ensures EmbedCall(EmbeddingModel, q) in before + extra
    {
      var i :| 0 <= i < |before| && before[i] == EmbedCall(EmbeddingModel, q);
      assert (before + extra)[i] == EmbedCall(EmbeddingModel, q);
    }
  }

  // ---------------------------------------------------------------------------
  // The handler with its module-level cache

  class SearchHandler {
    /** `embeddingCache`: cleaned query to its embedding; grows for the life of the process. */
    var embeddingCache: map<string, seq<real>>

    /** Every call made to the embedding provider and the vector index, in order. */
    ghost var calls: seq<ExternalCall>

    /** Every cached key is an accepted query whose embedding was asked of the provider. */
    ghost predicate Valid()
      reads this
    {
      forall q | q in embeddingCache :: IsAcceptedQuery(q) && EmbedCall(EmbeddingModel, q) in calls
    }

    constructor ()
      ensures Valid()
      ensures embeddingCache == map[] && calls == []
    {
      embeddingCache := map[];
      calls := [];
    }

    /**
     * Hit or compute-and-store: a cached query returns its vector without calling the
     * provider; otherwise the provider is called once and a vector it returns is stored
     * under the query. No other entry changes.
     */
    method EmbedQuery(q: string, provider: EmbeddingProvider) returns (r: Result<seq<real>, string>)
      requires Valid() && IsAcceptedQuery(q)
      modifies this
      ensures Valid()
      ensures q in old(embeddingCache) ==>
        && r == Success(old(embeddingCache)[q])
        && embeddingCache == old(embeddingCache)
        && calls == old(calls)
      ensures q !in old(embeddingCache) ==>
        && r == FirstEmbedding(provider(q))
        && calls == old(calls) + [EmbedCall(EmbeddingModel, q)]
        && embeddingCache == if r.Success? then old(embeddingCache)[q := r.value] else old(embeddingCache)
      ensures r.Success? ==> q in embeddingCache && embeddingCache[q] == r.value
      ensures forall other | other != q && other in old(embeddingCache) ::
        other in embeddingCache && embeddingCache[other] == old(embeddingCache)[other]
      ensures embeddingCache.Keys <= old(embeddingCache.Keys) + {q}
    {
      if q in embeddingCache {
        r := Success(embeddingCache[q]);
      } else {
        calls := calls + [EmbedCall(EmbeddingModel, q)];
        r := FirstEmbedding(provider(q));
        if r.Success? {
          embeddingCache := embeddingCache[q := r.value];
        }
      }
    }

    /**
     * The handler after validation: embed through the cache, fetch `k ?? 20` candidates
     * (500 with the index's message on error), then rank them and keep `slice(0, k ?? 8)`.
     * An error thrown while embedding becomes a 500 response.
     */
    method Search(q: SearchQuery, provider: EmbeddingProvider, index: VectorIndex) returns (resp: Response)
      requires Valid() && IsAcceptedQuery(q.text)
      modifies this
      ensures Valid()
      ensures
        var hit := q.text in old(embeddingCache);
        var embedding := Lookup(old(embeddingCache), q.text, provider);
        && embeddingCache == (if !hit && embedding.Success? then old(embeddingCache)[q.text := embedding.value] else old(embeddingCache))
        && calls == old(calls) + Trace(q, hit, embedding, index)
        && resp == Respond(q, embedding, index)
    {
      ghost var hit := q.text in embeddingCache;
      var embedding := EmbedQuery(q.text, provider);
      assert calls == old(calls) + EmbedTrace(q.text, hit);
      if embedding.Failure? {
        EmbeddingFailureOutcome(q, hit, embedding.error, index);
        return Response(ServerError, Error(CaughtMessage(embedding.error)));
      }
      EmbeddingSuccessOutcome(q, hit, embedding.value, index);
      resp := FetchAndRank(q, embedding.value, index);
    }

    /**
     * With the embedding in hand: fetch `k ?? 20` candidates (500 with the index's message
     * on error), rank them, keep `slice(0, k ?? 8)` and log the query.
     */
    method FetchAndRank(q: SearchQuery, v: seq<real>, index: VectorIndex) returns (resp: Response)
      requires Valid()
      modifies this
      ensures Valid()
      ensures embeddingCache == old(embeddingCache)
      ensures calls == old(calls) + FetchTrace(q, v, index)
      ensures resp == Respond(q, Success(v), index)
    {
      var count := MatchCount(q.k);
      var fetched := index(q.projectId, v, count);
      var fetchCall := MatchCall(q.projectId, v, count);
      if fetched.Failure? {
        CallsOnlyGrow(embeddingCache, calls, [fetchCall]);
        calls := calls + [fetchCall];
        return Response(ServerError, Error(fetched.error));
      }
      var ranked := RankCandidates(fetched.value, q.text, q.k);
      var logCall := LogCall(q.projectId, q.text);
      CallsOnlyGrow(embeddingCache, calls, [fetchCall, logCall]);
      calls := calls + [fetchCall, logCall];
      resp := Response(Ok, Results(ranked));
    }

    /**
     * `POST /api/search`: a request that fails validation is answered 400 before any
     * external call and leaves the cache alone; any other is answered by `Search`.
     */
    method Post(req: Request, provider: EmbeddingProvider, index: VectorIndex) returns (resp: Response)
      requires Valid()
      modifies this
      ensures Valid()
      ensures Validate(req).Failure? ==>
        && resp == Response(BadRequest, Error(Validate(req).error.message))
        && embeddingCache == old(embeddingCache)
        && calls == old(calls)
      ensures Validate(req).Success? ==>
        var q := Validate(req).value;
        var hit := q.text in old(embeddingCache);
        var embedding := Lookup(old(embeddingCache), q.text, provider);
        && embeddingCache == (if !hit && embedding.Success? then old(embeddingCache)[q.text := embedding.value] else old(embeddingCache))
        && calls == old(calls) + Trace(q, hit, embedding, index)
        && resp == Respond(q, embedding, index)
    {
      var validated := Validate(req);
      if validated.Failure? {
        return Response(BadRequest, Error(validated.error.message));
      }
      resp := Search(validated.value, provider, index);
    }
  }
}
