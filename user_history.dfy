/**
 * The search history of the multi-page application: every search is stored as
 * given (no validation, no de-duplication) under the user "default", and rows
 * can be listed newest first, deleted one by one, per user, by age or all at
 * once. Times are whole seconds.
 */
module UserHistory {
  import opened Wrappers
  import Ordering

  const DEFAULT_USER: string := "default"
  const SECONDS_PER_DAY: int := 86400
  /** The database's refusal of a negative `LIMIT`; its wording depends on the engine and is not modelled. */
  const NEGATIVE_LIMIT: string := "negative LIMIT"

  /** A stored search; the type and the count are stored as given, possibly null. */
  datatype HistoryEntry = HistoryEntry(
    id: int, query: string, searchType: Option<string>, resultsCount: Option<int>, searchDate: int, userId: string)

  /** The key `findById` looks rows up by. */
  function EntryId(e: HistoryEntry): int {
    e.id
  }

  /** The ordering key of the `...OrderBySearchDateDesc` queries. */
  function SearchDate(e: HistoryEntry): int {
    e.searchDate
  }

  /** Ids strictly increase along the rows, as the identity column hands them out. */
  predicate Ascending(rows: seq<HistoryEntry>) {
    forall i, j :: 0 <= i < j < |rows| ==> rows[i].id < rows[j].id
  }

  /** The row filters the repository deletes and lists by. */
  datatype Selection = OwnedBy(userId: string) | NotOwnedBy(userId: string) | DatedFrom(cutoff: int) | OtherThan(id: int)

  /** Whether a row is selected. */
  predicate Selects(s: Selection, e: HistoryEntry) {
    match s
    case OwnedBy(u) => e.userId == u
    case NotOwnedBy(u) => e.userId != u
    case DatedFrom(cutoff) => e.searchDate >= cutoff
    case OtherThan(id) => e.id != id
  }

  /** The selected rows, in their order. */
  function Keep(rows: seq<HistoryEntry>, s: Selection): (r: seq<HistoryEntry>)
    ensures forall x :: x in r <==> x in rows && Selects(s, x)
    ensures |r| <= |rows|
    ensures Ascending(rows) ==> Ascending(r)
  {
    if rows == [] then []
    else
      var rest := Keep(rows[1..], s);
      if Selects(s, rows[0]) then
        assert Ascending(rows) ==> forall j :: 0 <= j < |rest| ==> rows[0].id < rest[j].id by {
          if Ascending(rows) {
            forall j | 0 <= j < |rest|
              ensures rows[0].id < rest[j].id
            {
              assert rest[j] in rows[1..];
            }
          }
        }
        [rows[0]] + rest
      else rest
  }

  /** The rows a user owns. */
  function OfUser(rows: seq<HistoryEntry>, userId: string): (r: seq<HistoryEntry>)
    ensures forall x :: x in r <==> x in rows && x.userId == userId
  {
    Keep(rows, OwnedBy(userId))
  }

  /** The rows left after `deleteByUserId`. */
  function WithoutUser(rows: seq<HistoryEntry>, userId: string): (r: seq<HistoryEntry>)
    ensures forall x :: x in r <==> x in rows && x.userId != userId
    ensures Ascending(rows) ==> Ascending(r)
  {
    Keep(rows, NotOwnedBy(userId))
  }

  /** The rows left after `deleteBySearchDateBefore(cutoff)`. */
  function NotBefore(rows: seq<HistoryEntry>, cutoff: int): (r: seq<HistoryEntry>)
    ensures forall x :: x in r <==> x in rows && x.searchDate >= cutoff
    ensures Ascending(rows) ==> Ascending(r)
  {
    Keep(rows, DatedFrom(cutoff))
  }

  /** Clearing one user's rows and listing them afterwards finds none, and other users keep theirs. */
  lemma {:induction false} ClearUserIsolated(rows: seq<HistoryEntry>, userId: string, other: string)
    requires other != userId
    ensures OfUser(WithoutUser(rows, userId), userId) == []
    ensures forall x :: x in OfUser(WithoutUser(rows, userId), other) <==> x in OfUser(rows, other)
  {
    if rows != [] {
      ClearUserIsolated(rows[1..], userId, other);
      var rest := WithoutUser(rows[1..], userId);
      if rows[0].userId != userId {
        assert ([rows[0]] + rest)[1..] == rest;
      }
    }
  }

  /** The limited listing is the start of the full listing. */
  lemma RecentIsPrefixOfAll(rows: seq<HistoryEntry>, limit: nat)
    ensures var all := Ordering.SortNewestFirst(rows, SearchDate);
            Ordering.TopNewest(rows, limit, SearchDate) == all[..Ordering.Min(limit, |all|)]
  {
  }

  /** The history service of the multi-page application. */
  class SearchHistoryService {
    var rows: seq<HistoryEntry>
    var nextId: int

    /** Ids increase along the rows and stay below the next identity value. */
    ghost predicate Valid()
      reads this
    {
      Ascending(rows) && forall i :: 0 <= i < |rows| ==> rows[i].id < nextId
    }

    constructor ()
      ensures Valid() && rows == [] && nextId == 1
    {
      rows := [];
      nextId := 1;
    }

    /** `saveSearch`: stores the search as given, dated `now`, for the default user. */
    method SaveSearch(query: string, searchType: Option<string>, resultsCount: Option<int>, now: int)
      returns (saved: HistoryEntry)
      requires Valid()
      modifies this
      ensures Valid()
      ensures saved == HistoryEntry(old(nextId), query, searchType, resultsCount, now, DEFAULT_USER)
      ensures rows == old(rows) + [saved] && nextId == old(nextId) + 1
    {
      saved := HistoryEntry(nextId, query, searchType, resultsCount, now, DEFAULT_USER);
      rows := rows + [saved];
      nextId := nextId + 1;
    }

    /** `getAllHistory`: every row, newest first. */
    method GetAllHistory() returns (list: seq<HistoryEntry>)
      ensures multiset(list) == multiset(rows)
      ensures Ordering.NewestFirst(list, SearchDate)
    {
      list := Ordering.SortNewestFirst(rows, SearchDate);
    }

    /**
     * `getRecentHistory`: the `limit` newest rows, newest first. The limit is
     * passed unchecked to the query's `LIMIT`, so a negative one is refused by
     * the database.
     */
    method GetRecentHistory(limit: int) returns (list: Result<seq<HistoryEntry>, string>)
      ensures list.Err? <==> limit < 0
      ensures list.Err? ==> list.error == NEGATIVE_LIMIT
      ensures list.Ok? ==> |list.value| == Ordering.Min(limit, |rows|)
      ensures list.Ok? ==> Ordering.NewestFirst(list.value, SearchDate)
      ensures list.Ok? ==> multiset(list.value) <= multiset(rows)
      ensures list.Ok? ==> forall x, i :: x in multiset(rows) - multiset(list.value) && 0 <= i < |list.value|
                                          ==> x.searchDate <= list.value[i].searchDate
    {
      if limit < 0 {
        return Err(NEGATIVE_LIMIT);
      }
      list := Ok(Ordering.TopNewest(rows, limit, SearchDate));
    }

    /** `getHistoryByUser`: the user's rows, newest first. */
    method GetHistoryByUser(userId: string) returns (list: seq<HistoryEntry>)
      ensures forall x :: x in list <==> x in rows && x.userId == userId
      ensures multiset(list) == multiset(OfUser(rows, userId))
      ensures Ordering.NewestFirst(list, SearchDate)
    {
      var own := OfUser(rows, userId);
      list := Ordering.SortNewestFirst(own, SearchDate);
      assert forall x :: x in list <==> x in multiset(own);
    }

    /** `getHistoryById`. */
    method GetHistoryById(id: int) returns (e: Option<HistoryEntry>)
      ensures e.Some? ==> e.value in rows && e.value.id == id
      ensures e.None? <==> forall i :: 0 <= i < |rows| ==> rows[i].id != id
    {
      var k := Ordering.FindKey(rows, EntryId, id);
      e := if k.Some? then Some(rows[k.value]) else None;
    }

    /** `deleteHistoryEntry`: removes the row with id `id` and answers true, or answers false and changes nothing. */
    method DeleteHistoryEntry(id: int) returns (deleted: bool)
      requires Valid()
      modifies this
      ensures Valid() && nextId == old(nextId)
      ensures deleted <==> exists i :: 0 <= i < |old(rows)| && old(rows)[i].id == id
      ensures forall x :: x in rows <==> x in old(rows) && x.id != id
    {
      var k := Ordering.FindKey(rows, EntryId, id);
      if k.None? {
        return false;
      }
      var kept := Keep(rows, OtherThan(id));
      forall i | 0 <= i < |kept|
        ensures kept[i].id < nextId
      {
        assert kept[i] in rows;
      }
      rows := kept;
      deleted := true;
    }

    /** `clearAllHistory`. */
    method ClearAllHistory()
      requires Valid()
      modifies this
      ensures Valid() && rows == [] && nextId == old(nextId)
    {
      rows := [];
    }

    /** `clearHistoryForUser`: removes exactly the rows of `userId`. */
    method ClearHistoryForUser(userId: string)
      requires Valid()
      modifies this
      ensures Valid() && nextId == old(nextId)
      ensures rows == WithoutUser(old(rows), userId)
    {
      rows := WithoutUser(rows, userId);
    }

    /** `deleteOldHistory`: removes exactly the rows dated before `now` minus `daysOld` days. */
    method DeleteOldHistory(daysOld: int, now: int)
      requires Valid()
      modifies this
      ensures Valid() && nextId == old(nextId)
      ensures rows == NotBefore(old(rows), now - daysOld * SECONDS_PER_DAY)
    {
      var cutoff := now - daysOld * SECONDS_PER_DAY;
      rows := NotBefore(rows, cutoff);
    }

    /** `getHistoryCount`. */
    method GetHistoryCount() returns (n: nat)
      ensures n == |rows|
    {
      n := |rows|;
    }
  }
}
