/**
 * The web-search service: it answers from the cache when it can, otherwise
 * posts one request to the search API, reads the `results` array of the reply,
 * caches what it built, and on an HTTP error or a timeout falls back to the
 * cache once more before answering with an empty response.
 */
module Tavily {
  import opened Wrappers
  import opened Text
  import opened SearchCache

  const MAX_RESULTS: int := 10
  const SEARCH_DEPTH: string := "basic"

  /** A parsed JSON document (numbers are integers in this model). */
  datatype Json =
    | JNull
    | JBool(b: bool)
    | JNumber(n: int)
    | JString(s: string)
    | JArray(items: seq<Json>)
    | JObject(fields: map<string, Json>)

  /** Jackson's `asText()`: the text of a scalar, "" for containers. */
  function AsText(j: Json): (t: string)
    ensures j.JString? ==> t == j.s
    ensures j.JArray? || j.JObject? || j.JNull? ==> t == (if j.JNull? then "null" else "")
  {
    match j
    case JNull => "null"
    case JBool(b) => if b then "true" else "false"
    case JNumber(n) => IntToString(n)
    case JString(s) => s
    case JArray(_) => ""
    case JObject(_) => ""
  }

  /** `getTextValue`: the text of field `name` of an object, "" when the field is absent or null. */
  function GetTextValue(node: Json, name: string): (t: string)
    ensures !(node.JObject? && name in node.fields) ==> t == ""
    ensures node.JObject? && name in node.fields && node.fields[name] == JNull ==> t == ""
    ensures node.JObject? && name in node.fields && node.fields[name].JString? ==> t == node.fields[name].s
  {
    if node.JObject? && name in node.fields && node.fields[name] != JNull then AsText(node.fields[name]) else ""
  }

  /** One hit of the API reply read into a result: `content` is the summary, `raw_content` the content. */
  function ToResult(node: Json): SearchResult {
    SearchResult(GetTextValue(node, "title"), GetTextValue(node, "url"),
                 GetTextValue(node, "content"), GetTextValue(node, "raw_content"))
  }

  /** The `results` array of a reply, or nothing when the reply has none. */
  function ResultNodes(root: Json): (items: seq<Json>)
    ensures root.JObject? && "results" in root.fields && root.fields["results"].JArray?
            ==> items == root.fields["results"].items
    ensures !(root.JObject? && "results" in root.fields && root.fields["results"].JArray?) ==> items == []
  {
    if root.JObject? && "results" in root.fields && root.fields["results"].JArray?
    then root.fields["results"].items else []
  }

  /** `createErrorResponse`: no results, stamped `now`, not from the cache (the message is only logged). */
  function ErrorResponse(query: string, searchType: string, now: int): (r: SearchResponse)
    ensures r.results == [] && r.resultCount == 0 && !r.fromCache && r.timestamp == now
    ensures r.query == query && r.searchType == searchType
  {
    SearchResponse(query, searchType, [], 0, now, false)
  }

  /**
   * `parseApiResponse`: reads every hit of the reply, in order; a body that is
   * not JSON gives the error response.
   */
  method ParseApiResponse(body: Option<Json>, query: string, searchType: string, now: int)
    returns (r: SearchResponse)
    ensures body.None? ==> r == ErrorResponse(query, searchType, now)
    ensures body.Some? ==>
              && |r.results| == |ResultNodes(body.value)|
              && (forall i :: 0 <= i < |r.results| ==> r.results[i] == ToResult(ResultNodes(body.value)[i]))
              && r.resultCount == |r.results|
              && r.query == query && r.searchType == searchType && r.timestamp == now && !r.fromCache
  {
    if body.None? {
      return ErrorResponse(query, searchType, now);
    }
    var nodes := ResultNodes(body.value);
    var results: seq<SearchResult> := [];
    var i := 0;
    while i < |nodes|
      invariant 0 <= i <= |nodes|
      invariant |results| == i
      invariant forall k :: 0 <= k < i ==> results[k] == ToResult(nodes[k])
    {
      results := results + [ToResult(nodes[i])];
      i := i + 1;
    }
    r := SearchResponse(query, searchType, results, |results|, now, false);
  }

  /** The request body posted to the search API. */
  datatype ApiRequest = ApiRequest(
    apiKey: string, query: string, searchDepth: string,
    includeAnswer: bool, includeImages: bool, includeRawContent: bool,
    maxResults: int, topic: string)

  /** The request for a search: basic depth, at most ten hits, the news topic only for "news" searches. */
  function RequestFor(apiKey: string, query: string, searchType: string): (q: ApiRequest)
    ensures q.query == query && q.apiKey == apiKey && q.maxResults == MAX_RESULTS && q.searchDepth == "basic"
    ensures q.topic == "news" <==> searchType == "news"
    ensures q.topic == "news" || q.topic == "general"
    ensures !q.includeAnswer && !q.includeImages && !q.includeRawContent
  {
    ApiRequest(apiKey, query, SEARCH_DEPTH, false, false, false, MAX_RESULTS,
               if searchType == "news" then "news" else "general")
  }

  /** How the call to the search API ends. */
  datatype ApiOutcome =
    | Reply(body: Option<Json>)
    | HttpError(status: int)
    | Timeout
    | OtherFailure

  /** The faults the cache runs into during one search. */
  datatype CacheFaults = CacheFaults(first: LookupFault, fallback: LookupFault, saveFails: bool)

  /** The search service: its health flag, the time of the last successful call, and the cache it uses. */
  class TavilyService {
    var isHealthy: bool
    var lastSuccessfulCall: Option<int>
    const apiKey: string
    const cache: SearchCacheService

    ghost predicate Valid()
      reads this, cache
    {
      cache.Valid()
    }

    /** A healthy service with no successful call yet. */
    constructor (apiKey: string, cache: SearchCacheService)
      requires cache.Valid()
      ensures Valid() && isHealthy && lastSuccessfulCall == None
      ensures this.apiKey == apiKey && this.cache == cache
    {
      isHealthy := true;
      lastSuccessfulCall := None;
      this.apiKey := apiKey;
      this.cache := cache;
    }

    /**
     * `search`: the cached response when there is one; otherwise the request is
     * sent and (1) a reply is parsed, cached and returned, the service becoming
     * healthy; (2) an HTTP error or a timeout makes the service unhealthy and
     * answers from the cache when it can, else with the error response; (3) any
     * other failure makes it unhealthy and answers with the error response.
     */
    method Search(query: string, searchType: string, now: int, outcome: ApiOutcome, faults: CacheFaults)
      returns (response: SearchResponse, sent: Option<ApiRequest>)
      requires Valid()
      modifies this, cache
      ensures Valid()
      ensures var key := CacheKey(query, searchType);
              var first := LookupAt(old(cache.entries), key, now, faults.first);
              if first.served.Some? then
                && response == first.served.value && sent == None
                && cache.entries == first.entries
                && isHealthy == old(isHealthy) && lastSuccessfulCall == old(lastSuccessfulCall)
              else
                && sent == Some(RequestFor(apiKey, query, searchType))
                && (outcome.Reply? ==>
                      && isHealthy && lastSuccessfulCall == Some(now)
                      && response.query == query && response.searchType == searchType
                      && response.timestamp == now && !response.fromCache
                      && (outcome.body.None? ==> response == ErrorResponse(query, searchType, now))
                      && (outcome.body.Some? ==>
                            && |response.results| == |ResultNodes(outcome.body.value)| == response.resultCount
                            && forall i :: 0 <= i < |response.results| ==>
                                 response.results[i] == ToResult(ResultNodes(outcome.body.value)[i]))
                      && cache.entries == SaveAt(first.entries, key, response, now, cache.ttlMinutes, faults.saveFails))
                && ((outcome.HttpError? || outcome.Timeout?) ==>
                      var second := LookupAt(first.entries, key, now, faults.fallback);
                      && !isHealthy && lastSuccessfulCall == old(lastSuccessfulCall)
                      && cache.entries == second.entries
                      && response == second.served.GetOr(ErrorResponse(query, searchType, now)))
                && (outcome.OtherFailure? ==>
                      && !isHealthy && lastSuccessfulCall == old(lastSuccessfulCall)
                      && cache.entries == first.entries
                      && response == ErrorResponse(query, searchType, now))
    {
      var cached := cache.GetCachedResult(query, searchType, now, faults.first);
      if cached.Some? {
        return cached.value, None;
      }
      sent := Some(RequestFor(apiKey, query, searchType));
      match outcome {
        case Reply(body) =>
          response := ParseApiResponse(body, query, searchType, now);
          isHealthy := true;
          lastSuccessfulCall := Some(now);
          cache.SaveToCache(query, searchType, response, now, faults.saveFails);
        case HttpError(_) =>
          isHealthy := false;
          response := FallBack(query, searchType, now, faults.fallback);
        case Timeout =>
          isHealthy := false;
          response := FallBack(query, searchType, now, faults.fallback);
        case OtherFailure =>
          isHealthy := false;
          response := ErrorResponse(query, searchType, now);
      }
    }

    /** `handleApiError` and `handleTimeout`: the cached response if there is one, else the error response. */
    method FallBack(query: string, searchType: string, now: int, fault: LookupFault) returns (response: SearchResponse)
      requires Valid()
      modifies cache
      ensures Valid()
      ensures var l := LookupAt(old(cache.entries), CacheKey(query, searchType), now, fault);
              cache.entries == l.entries && response == l.served.GetOr(ErrorResponse(query, searchType, now))
    {
      var cached := cache.GetCachedResult(query, searchType, now, fault);
      if cached.Some? {
        return cached.value;
      }
      response := ErrorResponse(query, searchType, now);
    }
  }

  /**
   * Within one search (one clock reading), the fallback lookup can only find a
   * response the first lookup missed when the first one failed on the
   * repository or on the stored JSON: an absent or expired row stays missing.
   */
  lemma FallbackAfterCleanMiss(entries: map<CacheKey, CacheEntry>, key: CacheKey, now: int, fallback: LookupFault)
    requires LookupAt(entries, key, now, NoFault).served.None?
    ensures LookupAt(LookupAt(entries, key, now, NoFault).entries, key, now, fallback).served.None?
  {
  }

  /** A reply that is not JSON is cached as an empty, non-error-marked response for the whole time-to-live. */
  lemma UnreadableReplyIsCached(entries: map<CacheKey, CacheEntry>, query: string, searchType: string,
                                now: int, u: int, ttlMinutes: int)
    requires now <= u <= now + ttlMinutes * 60
    ensures var key := CacheKey(query, searchType);
            var stored := SaveAt(entries, key, ErrorResponse(query, searchType, now), now, ttlMinutes, false);
            var later := LookupAt(stored, key, u, NoFault).served;
            later.Some? && later.value.results == [] && later.value.fromCache
  {
  }
}
