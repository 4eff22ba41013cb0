/**
 * The search-result cache: one stored response per (query, search type) pair,
 * served until its expiry time, removed when found expired, refreshed on every
 * save and swept by a periodic eviction. Times are whole seconds.
 */
module SearchCache {
  import opened Wrappers

  const DEFAULT_TTL_MINUTES: int := 60

  /** One hit returned by the search backend. */
  datatype SearchResult = SearchResult(title: string, url: string, summary: string, content: string)

  /** The response of a search, as the backend returns it and as the cache stores it. */
  datatype SearchResponse = SearchResponse(
    query: string, searchType: string, results: seq<SearchResult>,
    resultCount: int, timestamp: int, fromCache: bool)

  /** The unique key of a cache row. */
  datatype CacheKey = CacheKey(query: string, searchType: string)

  /** A cache row: the stored response, when it was written and when it expires. */
  datatype CacheEntry = CacheEntry(response: SearchResponse, createdAt: int, expiresAt: int)

  /** What goes wrong, if anything, while reading a row. */
  datatype LookupFault = NoFault | RepositoryError | UnreadableJson

  /** A row is expired once its expiry time lies strictly before `now`. */
  predicate Expired(e: CacheEntry, now: int) {
    e.expiresAt < now
  }

  /** The response served from a row at time `now`. */
  function Served(e: CacheEntry, now: int): (r: SearchResponse)
    ensures r.fromCache && r.timestamp == now
    ensures r.query == e.response.query && r.searchType == e.response.searchType
    ensures r.results == e.response.results && r.resultCount == e.response.resultCount
  {
    e.response.(fromCache := true, timestamp := now)
  }

  /** The outcome of a lookup: the response served, if any, and the rows afterwards. */
  datatype Lookup = Lookup(served: Option<SearchResponse>, entries: map<CacheKey, CacheEntry>)

  /** Reading the row of `key` at time `now`: an expired row is deleted and nothing is served. */
  function LookupAt(entries: map<CacheKey, CacheEntry>, key: CacheKey, now: int, fault: LookupFault): (l: Lookup)
    ensures l.served.Some? <==> key in entries && !Expired(entries[key], now) && fault == NoFault
    ensures l.served.Some? ==> l.served.value == Served(entries[key], now)
    ensures l.entries == if key in entries && fault != RepositoryError && Expired(entries[key], now)
                         then entries - {key} else entries
  {
    if fault == RepositoryError || key !in entries then Lookup(None, entries)
    else if Expired(entries[key], now) then Lookup(None, entries - {key})
    else if fault == NoFault then Lookup(Some(Served(entries[key], now)), entries)
    else Lookup(None, entries)
  }

  /** The rows after storing `response` for `key` at time `now`, unless the write fails. */
  function SaveAt(entries: map<CacheKey, CacheEntry>, key: CacheKey, response: SearchResponse,
                  now: int, ttlMinutes: int, writeFails: bool): (m: map<CacheKey, CacheEntry>)
    ensures writeFails ==> m == entries
    ensures !writeFails ==> key in m && m[key] == CacheEntry(response, now, now + ttlMinutes * 60)
    ensures forall k :: k != key ==> (k in m <==> k in entries) && (k in m ==> m[k] == entries[k])
  {
    if writeFails then entries
    else entries[key := CacheEntry(response, now, now + ttlMinutes * 60)]
  }

  /** The rows left after deleting every row that expired before `now`. */
  function EvictAt(entries: map<CacheKey, CacheEntry>, now: int): (m: map<CacheKey, CacheEntry>)
    ensures forall k :: k in m <==> k in entries && !Expired(entries[k], now)
    ensures forall k :: k in m ==> m[k] == entries[k]
  {
    map k | k in entries && !Expired(entries[k], now) :: entries[k]
  }

  /** A saved response is served, marked as cached and re-stamped, for the whole time-to-live. */
  lemma SavedThenServed(entries: map<CacheKey, CacheEntry>, key: CacheKey, response: SearchResponse,
                        t: int, u: int, ttlMinutes: int)
    requires u <= t + ttlMinutes * 60
    ensures LookupAt(SaveAt(entries, key, response, t, ttlMinutes, false), key, u, NoFault).served
            == Some(response.(fromCache := true, timestamp := u))
  {
  }

  /** Once the time-to-live has passed, the saved response is never served again and its row is gone. */
  lemma ExpiredNeverServed(entries: map<CacheKey, CacheEntry>, key: CacheKey, response: SearchResponse,
                           t: int, u: int, ttlMinutes: int, fault: LookupFault)
    requires u > t + ttlMinutes * 60 && fault != RepositoryError
    ensures var l := LookupAt(SaveAt(entries, key, response, t, ttlMinutes, false), key, u, fault);
            l.served == None && key !in l.entries
  {
  }

  /** The later of two saves for the same key wins: there is never more than one row per key. */
  lemma LaterSaveWins(entries: map<CacheKey, CacheEntry>, key: CacheKey, r1: SearchResponse, r2: SearchResponse,
                      t1: int, t2: int, ttlMinutes: int)
    ensures SaveAt(SaveAt(entries, key, r1, t1, ttlMinutes, false), key, r2, t2, ttlMinutes, false)
         == SaveAt(entries, key, r2, t2, ttlMinutes, false)
  {
  }

  /** Eviction never changes what a later lookup serves. */
  lemma EvictionInvisible(entries: map<CacheKey, CacheEntry>, key: CacheKey, now: int, u: int, fault: LookupFault)
    requires now <= u
    ensures LookupAt(EvictAt(entries, now), key, u, fault).served == LookupAt(entries, key, u, fault).served
  {
  }

  /** The cache service: its rows and the configured time-to-live. */
  class SearchCacheService {
    var entries: map<CacheKey, CacheEntry>
    const ttlMinutes: int

    /** Every row expires exactly one time-to-live after it was written. */
    ghost predicate Valid()
      reads this
    {
      forall k :: k in entries ==> entries[k].expiresAt == entries[k].createdAt + ttlMinutes * 60
    }

    /** A service over an empty table; the time-to-live defaults to 60 minutes when not configured. */
    constructor (configuredTtl: Option<int>)
      ensures Valid() && entries == map[]
      ensures ttlMinutes == configuredTtl.GetOr(DEFAULT_TTL_MINUTES)
    {
      entries := map[];
      ttlMinutes := configuredTtl.GetOr(DEFAULT_TTL_MINUTES);
    }

    /** `getCachedResult`: the stored response for the pair, if one exists, is readable and has not expired. */
    method GetCachedResult(query: string, searchType: string, now: int, fault: LookupFault)
      returns (r: Option<SearchResponse>)
      requires Valid()
      modifies this
      ensures Valid()
      ensures var l := LookupAt(old(entries), CacheKey(query, searchType), now, fault);
              r == l.served && entries == l.entries
    {
      var key := CacheKey(query, searchType);
      if fault == RepositoryError || key !in entries {
        return None;
      }
      var entry := entries[key];
      if entry.expiresAt < now {
        entries := entries - {key};
        return None;
      }
      if fault == UnreadableJson {
        return None;
      }
      r := Some(entry.response.(fromCache := true, timestamp := now));
    }

    /** `saveToCache`: writes or refreshes the row of the pair; a failed write changes nothing. */
    method SaveToCache(query: string, searchType: string, response: SearchResponse, now: int, writeFails: bool)
      requires Valid()
      modifies this
      ensures Valid()
      ensures entries == SaveAt(old(entries), CacheKey(query, searchType), response, now, ttlMinutes, writeFails)
    {
      if writeFails {
        return;
      }
      var expiresAt := now + ttlMinutes * 60;
      entries := entries[CacheKey(query, searchType) := CacheEntry(response, now, expiresAt)];
    }

    /** `evictExpiredEntries`: deletes every row that expired before `now`; a failure changes nothing. */
    method EvictExpiredEntries(now: int, fails: bool)
      requires Valid()
      modifies this
      ensures Valid()
      ensures entries == if fails then old(entries) else EvictAt(old(entries), now)
    {
      if !fails {
        entries := EvictAt(entries, now);
      }
    }

    /** `getCacheEntryCount`: the number of rows, or 0 when the count fails. */
    method GetCacheEntryCount(fails: bool) returns (n: nat)
      ensures n == if fails then 0 else |entries|
    {
      n := if fails then 0 else |entries|;
    }
  }
}
