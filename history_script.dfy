/**
 * The history page script of the main application: it lists the stored
 * searches with a relative age ("42s ago", "3h ago"), re-runs a search from
 * the attributes of its row, asks for confirmation before clearing everything,
 * and builds the request other pages send to store a search. Times are
 * milliseconds, as the browser's clock gives them.
 */
module HistoryScript {
  import opened Wrappers
  import opened Text
  import Html
  import SearchHistory

  const DEFAULT_TYPE: string := "general"
  const CLEAR_ALL: string := "clearAll"

  /** A history row as the page receives it; "" stands for a missing text and None for a missing number or time. */
  datatype HistoryItem = HistoryItem(query: string, searchType: string, resultsCount: Option<int>, searchedAt: Option<int>)

  /** An elapsed time in the largest unit that fits, counted in whole units. */
  datatype Age = Seconds(n: int) | Minutes(n: int) | Hours(n: int) | Days(n: int) | Weeks(n: int)

  /** The age of `diff` whole seconds, as `getTimeAgo` buckets it. */
  function AgeOf(diff: int): (a: Age)
    ensures a.Seconds? <==> diff < 60
    ensures a.Seconds? ==> a.n == diff
    ensures a.Minutes? ==> 1 <= a.n < 60 && a.n * 60 <= diff < (a.n + 1) * 60
    ensures a.Hours? ==> 1 <= a.n < 24 && a.n * 3600 <= diff < (a.n + 1) * 3600
    ensures a.Days? ==> 1 <= a.n < 7 && a.n * 86400 <= diff < (a.n + 1) * 86400
    ensures a.Weeks? <==> diff >= 604800
    ensures a.Weeks? ==> a.n >= 1 && a.n * 604800 <= diff < (a.n + 1) * 604800
  {
    if diff < 60 then Seconds(diff)
    else if diff < 3600 then Minutes(diff / 60)
    else if diff < 86400 then Hours(diff / 3600)
    else if diff < 604800 then Days(diff / 86400)
    else Weeks(diff / 604800)
  }

  /** The short label of an age: the count followed by its unit letter. */
  function AgeLabel(a: Age): string {
    IntToString(a.n) +
    match a
    case Seconds(_) => "s ago"
    case Minutes(_) => "m ago"
    case Hours(_) => "h ago"
    case Days(_) => "d ago"
    case Weeks(_) => "w ago"
  }

  /** `getTimeAgo`: nothing without a timestamp, otherwise the age of the whole seconds elapsed until `now`. */
  function TimeAgo(searchedAt: Option<int>, now: int): (r: string)
    ensures r == "" <==> searchedAt.None?
    ensures searchedAt.Some? ==> r == AgeLabel(AgeOf((now - searchedAt.value) / 1000))
  {
    match searchedAt
    case None => ""
    case Some(t) => AgeLabel(AgeOf((now - t) / 1000))
  }

  /** What a history row shows and keeps in its attributes. */
  datatype RowView = RowView(dataQuery: string, dataType: string, queryText: string, typeLabel: string,
                             results: int, timeAgo: string)

  /** The `data-query` attribute as written: `escapeHtml`, which leaves the double quote as it is. */
  function DataQueryAsWritten(query: string): string {
    Html.EscapeText(query)
  }

  /**
   * A query holding a double quote comes back cut at the quote when its row is
   * re-run: `a"b` is searched as `a`.
   */
  lemma QuoteInQueryIsCut()
    ensures Html.ReadQuotedAttribute(DataQueryAsWritten("a\"b")) == "a"
  {
    Html.QuoteCutsAttribute();
  }

  /** `createHistoryItem`, with the `data-query` attribute escaped for a double-quoted attribute. */
  function RowOf(item: HistoryItem, now: int): (v: RowView)
    ensures Html.ReadQuotedAttribute(v.dataQuery) == item.query
    ensures v.dataType == v.typeLabel != ""
    ensures item.searchType != "" ==> v.typeLabel == item.searchType
    ensures v.results == item.resultsCount.GetOr(0)
  {
    Html.AttributeRoundTrip(item.query);
    var t := Or(item.searchType, DEFAULT_TYPE);
    RowView(Html.EscapeAttribute(item.query), t, Html.EscapeText(item.query), t,
            item.resultsCount.GetOr(0), TimeAgo(item.searchedAt, now))
  }

  /** The rows of the list, one per item in order. */
  function RowsOf(items: seq<HistoryItem>, now: int): (r: seq<RowView>)
    ensures |r| == |items| && forall i :: 0 <= i < |items| ==> r[i] == RowOf(items[i], now)
  {
    seq(|items|, i requires 0 <= i < |items| => RowOf(items[i], now))
  }

  /** Where a re-run goes: the start page with `q` and, when the type read back is not empty, `type`. */
  datatype Navigation = Navigation(q: string, searchType: Option<string>)

  /** The click handler of a row: the query and the type as the browser reads them back from the row's attributes. */
  function Rerun(v: RowView): Navigation {
    var t := Html.ReadQuotedAttribute(v.dataType);
    Navigation(Html.ReadQuotedAttribute(v.dataQuery), if t != "" then Some(t) else None)
  }

  /**
   * Re-running a row searches the stored query again, whatever its characters,
   * with the stored type, or "general" when none was stored.
   */
  lemma RerunRepeatsSearch(item: HistoryItem, now: int)
    requires '"' !in item.searchType && '&' !in item.searchType
    ensures Rerun(RowOf(item, now)) == Navigation(item.query, Some(Or(item.searchType, DEFAULT_TYPE)))
  {
    var t := Or(item.searchType, DEFAULT_TYPE);
    assert '"' !in t && '&' !in t;
    assert Html.QuoteEnd(t) == |t|;
    assert t[..|t|] == t;
    Html.UnescapePlain(t);
  }

  /** The body `saveToHistory` posts. */
  datatype HistoryPost = HistoryPost(query: string, searchType: string, resultsCount: int)

  /**
   * `saveToHistory`: no request for a missing or blank query; otherwise the
   * trimmed query, the type or "general", and the count or 0.
   */
  function HistoryRequest(query: Option<string>, searchType: string, resultsCount: Option<int>): (r: Option<HistoryPost>)
    ensures r.None? <==> query.None? || IsBlank(query.value)
    ensures r.Some? ==> r.value.query != [] && !IsSpace(r.value.query[0]) && r.value.searchType != ""
    ensures r.Some? ==> r.value.query == Trim(query.value)
    ensures r.Some? ==> r.value.searchType == Or(searchType, DEFAULT_TYPE) && r.value.resultsCount == resultsCount.GetOr(0)
  {
    if query.None? || Trim(query.value) == [] then None
    else Some(HistoryPost(Trim(query.value), Or(searchType, DEFAULT_TYPE), resultsCount.GetOr(0)))
  }

  /**
   * Every request the page sends is accepted by the history service, which
   * answers a row holding exactly the query that was sent and the page's type,
   * or "general" when the page's type was blank. Either that row is new, stored
   * now under the next id with the page's count or 0, or the same search was
   * stored less than 30 seconds before and that earlier row is answered.
   */
  lemma PostIsStoredAsSent(rows: seq<SearchHistory.HistoryRow>, nextId: int, query: Option<string>,
                           searchType: string, resultsCount: Option<int>, now: int)
    requires HistoryRequest(query, searchType, resultsCount).Some?
    ensures var p := HistoryRequest(query, searchType, resultsCount).value;
            var s := SearchHistory.SaveAt(rows, nextId, Some(p.query), Some(p.searchType), Some(p.resultsCount), now);
            && s.answer.Ok? && s.answer.value.query == p.query
            && s.answer.value.searchType == (if IsBlank(searchType) then DEFAULT_TYPE else searchType)
            && ((&& s.rows == rows + [s.answer.value] && s.answer.value.id == nextId
                 && s.answer.value.resultsCount == Some(resultsCount.GetOr(0)) && s.answer.value.searchedAt == now)
                || (s.rows == rows && s.answer.value in rows
                    && now - s.answer.value.searchedAt < SearchHistory.DUPLICATE_WINDOW_SECONDS))
  {
    var p := HistoryRequest(query, searchType, resultsCount).value;
    TrimIdempotent(query.value);
    assert Trim(p.query) == p.query;
    assert !IsBlank(p.query);
    if searchType == "" {
      assert DEFAULT_TYPE[0] == 'g';
    }
  }

  /** The history page: its list, labels and flags, and the confirmation modal. */
  class HistoryView {
    var countLabel: string
    var clearDisabled: bool
    var sectionHidden: bool
    var emptyHidden: bool
    var rows: seq<RowView>
    /** The action the confirmation modal will perform; `pendingAction`. */
    var pendingAction: Option<string>
    var modalActive: bool
    /** Whether the page has the confirmation modal at all. */
    const hasModal: bool

    constructor (hasModal: bool)
      ensures this.hasModal == hasModal && pendingAction.None? && !modalActive && rows == []
    {
      this.hasModal := hasModal;
      countLabel, clearDisabled, sectionHidden, emptyHidden := "", false, false, false;
      rows, pendingAction, modalActive := [], None, false;
    }

    /**
     * `displayHistory`: the count label and the clear button always follow the
     * list; an empty list hides the section and shows the empty state, leaving
     * the old rows in place; otherwise the rows are rebuilt, one per item.
     */
    method DisplayHistory(items: seq<HistoryItem>, now: int)
      modifies this
      ensures countLabel == CountNoun(|items|, "search", "es") && (clearDisabled <==> items == [])
      ensures items == [] ==> sectionHidden && !emptyHidden && rows == old(rows)
      ensures items != [] ==> !sectionHidden && emptyHidden && rows == RowsOf(items, now)
      ensures pendingAction == old(pendingAction) && modalActive == old(modalActive)
    {
      countLabel := CountNoun(|items|, "search", "es");
      clearDisabled := |items| == 0;
      if |items| == 0 {
        sectionHidden := true;
        emptyHidden := false;
        return;
      }
      emptyHidden := true;
      sectionHidden := false;
      rows := RowsOf(items, now);
    }

    /** `showClearConfirmModal`: the pending action becomes "clearAll" and the modal opens. */
    method ShowClearConfirm()
      modifies this
      ensures pendingAction == Some(CLEAR_ALL)
      ensures modalActive == (hasModal || old(modalActive))
      ensures rows == old(rows)
      ensures countLabel == old(countLabel) && clearDisabled == old(clearDisabled)
      ensures sectionHidden == old(sectionHidden) && emptyHidden == old(emptyHidden)
    {
      pendingAction := Some(CLEAR_ALL);
      if hasModal {
        modalActive := true;
      }
    }

    /** `closeConfirmModal`: without a modal nothing happens; otherwise it closes and forgets the pending action. */
    method Close()
      modifies this
      ensures hasModal ==> pendingAction.None? && !modalActive
      ensures !hasModal ==> pendingAction == old(pendingAction) && modalActive == old(modalActive)
      ensures rows == old(rows)
      ensures countLabel == old(countLabel) && clearDisabled == old(clearDisabled)
      ensures sectionHidden == old(sectionHidden) && emptyHidden == old(emptyHidden)
    {
      if !hasModal {
        return;
      }
      modalActive := false;
      pendingAction := None;
    }

    /** The confirm button (bound only when the modal exists): clears the history only for "clearAll", then closes. */
    method Confirm() returns (clearRequested: bool)
      requires hasModal
      modifies this
      ensures clearRequested <==> old(pendingAction) == Some(CLEAR_ALL)
      ensures pendingAction.None? && !modalActive && rows == old(rows)
      ensures countLabel == old(countLabel) && clearDisabled == old(clearDisabled)
      ensures sectionHidden == old(sectionHidden) && emptyHidden == old(emptyHidden)
    {
      clearRequested := pendingAction == Some(CLEAR_ALL);
      Close();
    }

    /** The Escape key (bound only when the modal exists): closes the modal only while it is open. */
    method PressEscape()
      requires hasModal
      modifies this
      ensures old(modalActive) ==> pendingAction.None? && !modalActive
      ensures !old(modalActive) ==> pendingAction == old(pendingAction) && !modalActive
      ensures rows == old(rows)
      ensures countLabel == old(countLabel) && clearDisabled == old(clearDisabled)
      ensures sectionHidden == old(sectionHidden) && emptyHidden == old(emptyHidden)
    {
      if modalActive {
        Close();
      }
    }
  }
}
