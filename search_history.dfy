/**
 * The search history of the main application: each accepted search is stored
 * once, with its trimmed query and a defaulted search type; repeating the same
 * search within 30 seconds returns the stored row instead of adding one. The
 * listing shows the 20 newest rows. Times are whole seconds.
 */
module SearchHistory {
  import opened Wrappers
  import opened Text
  import Ordering

  const DEFAULT_TYPE: string := "general"
  const EMPTY_QUERY: string := "Query must not be empty"
  const DUPLICATE_WINDOW_SECONDS: int := 30
  const RECENT_LIMIT: nat := 20

  /**
   * A stored search. Every row has a search time: the constructor and the
   * pre-persist hook both set it.
   */
  datatype HistoryRow = HistoryRow(id: int, query: string, searchType: string, resultsCount: Option<int>, searchedAt: int)

  /** The ordering key of the listing. */
  function SearchedAt(row: HistoryRow): int {
    row.searchedAt
  }

  /** The search type stored for a request: a missing or blank type becomes "general". */
  function NormalType(searchType: Option<string>): (t: string)
    ensures searchType.None? || IsBlank(searchType.value) ==> t == DEFAULT_TYPE
    ensures searchType.Some? && !IsBlank(searchType.value) ==> t == searchType.value
  {
    if searchType.None? || Trim(searchType.value) == [] then DEFAULT_TYPE else searchType.value
  }

  /** `findFirstByQueryAndSearchTypeOrderBySearchedAtDesc`: a newest row with that query and type. */
  function NewestMatch(rows: seq<HistoryRow>, query: string, searchType: string): (m: Option<HistoryRow>)
    ensures m.None? <==> forall i :: 0 <= i < |rows| ==> !(rows[i].query == query && rows[i].searchType == searchType)
    ensures m.Some? ==> m.value in rows && m.value.query == query && m.value.searchType == searchType
    ensures m.Some? ==> forall i :: 0 <= i < |rows| && rows[i].query == query && rows[i].searchType == searchType
                                    ==> rows[i].searchedAt <= m.value.searchedAt
  {
    if rows == [] then None
    else
      var rest := NewestMatch(rows[1..], query, searchType);
      assert forall i :: 1 <= i < |rows| ==> rows[i] == rows[1..][i - 1];
      if rows[0].query == query && rows[0].searchType == searchType
         && (rest.None? || rest.value.searchedAt < rows[0].searchedAt)
      then Some(rows[0])
      else rest
  }

  /** The outcome of `saveHistory`: the row answered, or the validation message, and the rows afterwards. */
  datatype Saved = Saved(answer: Result<HistoryRow, string>, rows: seq<HistoryRow>)

  /** `saveHistory` on the rows `rows`, with `nextId` the next identity value and `now` the clock. */
  function SaveAt(rows: seq<HistoryRow>, nextId: int, query: Option<string>, searchType: Option<string>,
                  resultsCount: Option<int>, now: int): (s: Saved)
    ensures query.None? || IsBlank(query.value) ==> s == Saved(Err(EMPTY_QUERY), rows)
    ensures query.Some? && !IsBlank(query.value) ==>
              var m := NewestMatch(rows, Trim(query.value), NormalType(searchType));
              if m.Some? && now - m.value.searchedAt < DUPLICATE_WINDOW_SECONDS
              then s == Saved(Ok(m.value), rows)
              else s.answer == Ok(HistoryRow(nextId, Trim(query.value), NormalType(searchType), resultsCount, now))
                   && s.rows == rows + [s.answer.value]
  {
    if query.None? || Trim(query.value) == [] then Saved(Err(EMPTY_QUERY), rows)
    else
      var q := Trim(query.value);
      var t := NormalType(searchType);
      var m := NewestMatch(rows, q, t);
      if m.Some? && now - m.value.searchedAt < DUPLICATE_WINDOW_SECONDS then Saved(Ok(m.value), rows)
      else
        var row := HistoryRow(nextId, q, t, resultsCount, now);
        Saved(Ok(row), rows + [row])
  }

  /** A stored row always holds a non-blank query without surrounding whitespace and a non-blank type. */
  lemma StoredRowIsNormal(rows: seq<HistoryRow>, nextId: int, query: Option<string>, searchType: Option<string>,
                          resultsCount: Option<int>, now: int)
    requires |SaveAt(rows, nextId, query, searchType, resultsCount, now).rows| > |rows|
    ensures var row := SaveAt(rows, nextId, query, searchType, resultsCount, now).answer.value;
            && row.query != [] && !IsSpace(row.query[0]) && !IsSpace(row.query[|row.query| - 1])
            && !IsBlank(row.searchType) && row.searchedAt == now
  {
    StoredRow(rows, nextId, query, searchType, resultsCount, now);
    var q := Trim(query.value);
    assert q != [];
    assert !IsBlank(NormalType(searchType)) by {
      assert DEFAULT_TYPE[0] == 'g';
    }
  }

  /** The row a growing save stores. */
  lemma StoredRow(rows: seq<HistoryRow>, nextId: int, query: Option<string>, searchType: Option<string>,
                  resultsCount: Option<int>, now: int)
    requires |SaveAt(rows, nextId, query, searchType, resultsCount, now).rows| > |rows|
    ensures query.Some? && !IsBlank(query.value)
    ensures SaveAt(rows, nextId, query, searchType, resultsCount, now).answer
              == Ok(HistoryRow(nextId, Trim(query.value), NormalType(searchType), resultsCount, now))
  {
  }

  /**
   * Sending the same search again less than 30 seconds after it was stored
   * stores nothing more: the second request is answered from the history.
   */
  lemma RepeatWithinWindowStoresOnce(rows: seq<HistoryRow>, nextId: int, query: Option<string>,
                                     searchType: Option<string>, count1: Option<int>, count2: Option<int>,
                                     now: int, later: int)
    requires now <= later < now + DUPLICATE_WINDOW_SECONDS
    requires |SaveAt(rows, nextId, query, searchType, count1, now).rows| > |rows|
    ensures var first := SaveAt(rows, nextId, query, searchType, count1, now);
            var second := SaveAt(first.rows, nextId + 1, query, searchType, count2, later);
            second.rows == first.rows && second.answer.Ok?
  {
    var first := SaveAt(rows, nextId, query, searchType, count1, now);
    var q := Trim(query.value);
    var t := NormalType(searchType);
    var row := first.answer.value;
    assert first.rows[|rows|] == row && row.query == q && row.searchType == t;
    var m := NewestMatch(first.rows, q, t);
    assert m.Some? && m.value.searchedAt >= now;
  }

  /** The history service of the main application over the `search_history` table. */
  class SearchHistoryService {
    var rows: seq<HistoryRow>
    var nextId: int

    /** Ids increase along the rows and stay below the next identity value. */
    ghost predicate Valid()
      reads this
    {
      && (forall i, j :: 0 <= i < j < |rows| ==> rows[i].id < rows[j].id)
      && (forall i :: 0 <= i < |rows| ==> rows[i].id < nextId)
    }

    constructor ()
      ensures Valid() && rows == [] && nextId == 1
    {
      rows := [];
      nextId := 1;
    }

    /** `getRecentHistory`: the 20 newest rows, newest first. */
    method GetRecentHistory() returns (list: seq<HistoryRow>)
      ensures |list| == Ordering.Min(RECENT_LIMIT, |rows|)
      ensures Ordering.NewestFirst(list, SearchedAt)
      ensures multiset(list) <= multiset(rows)
      ensures forall x, i :: x in multiset(rows) - multiset(list) && 0 <= i < |list| ==> x.searchedAt <= list[i].searchedAt
    {
      list := Ordering.TopNewest(rows, RECENT_LIMIT, SearchedAt);
    }

    /** `saveHistory`. */
    method SaveHistory(query: Option<string>, searchType: Option<string>, resultsCount: Option<int>, now: int)
      returns (answer: Result<HistoryRow, string>)
      requires Valid()
      modifies this
      ensures Valid()
      ensures var s := SaveAt(old(rows), old(nextId), query, searchType, resultsCount, now);
              answer == s.answer && rows == s.rows
      ensures nextId == if |rows| > |old(rows)| then old(nextId) + 1 else old(nextId)
    {
      if query.None? || Trim(query.value) == [] {
        return Err(EMPTY_QUERY);
      }
      var q := Trim(query.value);
      var t := NormalType(searchType);
      var existing := NewestMatch(rows, q, t);
      if existing.Some? && now - existing.value.searchedAt < DUPLICATE_WINDOW_SECONDS {
        return Ok(existing.value);
      }
      var row := HistoryRow(nextId, q, t, resultsCount, now);
      rows := rows + [row];
      nextId := nextId + 1;
      answer := Ok(row);
    }

    /** `clearAll`. */
    method ClearAll()
      requires Valid()
      modifies this
      ensures Valid() && rows == [] && nextId == old(nextId)
    {
      rows := [];
    }
  }
}
