/**
 * The search page script of the main application: it validates the query,
 * shows the result cards (each with a save button that knows whether its URL
 * is already bookmarked), keeps the set of bookmarked URLs, opens a reading
 * modal on a result and records each search in the history.
 */
module SearchApp {
  import opened Wrappers
  import opened Text
  import Html
  import Content
  import SavedItems
  import HistoryScript

  const UNTITLED: string := "Untitled"
  const NO_DESCRIPTION: string := "No description available"
  const NO_CONTENT: string := "No content available"
  const UNABLE_TO_LOAD: string := "Unable to load full content."
  const SAVED: string := "Saved"
  const SAVE: string := "Save"
  const SAVE_TO_FAVORITES: string := "Save to Favorites"
  const FAILED_TO_SAVE: string := "Failed to save"
  const CACHED_SUFFIX: string := " (cached)"

  /** A search result as the page receives it; "" stands for a missing text. */
  datatype ResultItem = ResultItem(title: string, url: string, summary: string, content: string)

  /** The reply of the search endpoint; `results` is None when absent. */
  datatype SearchData = SearchData(query: string, results: Option<seq<ResultItem>>, resultCount: int, fromCache: bool)

  /** How the search request ended. */
  datatype SearchOutcome = SearchFailed | SearchOk(data: SearchData)

  /** The body of the search request. */
  datatype SearchRequest = SearchRequest(query: string, searchType: string)

  /** The history record `saveToHistory` sends after a search. */
  datatype HistoryCall = HistoryCall(query: string, searchType: string, resultsCount: int)

  /** `handleSearch`'s validation: no request for a blank query, otherwise the trimmed query and the type. */
  function SearchRequestFor(rawQuery: string, searchType: string): (r: Option<SearchRequest>)
    ensures r.None? <==> IsBlank(rawQuery)
    ensures r.Some? ==> r.value.query == Trim(rawQuery) && r.value.query != [] && r.value.searchType == searchType
  {
    if Trim(rawQuery) == [] then None else Some(SearchRequest(Trim(rawQuery), searchType))
  }

  /**
   * `checkUrlParams`: a search starts only when the `q` parameter is not
   * empty, with the `type` parameter replacing the selected type when given.
   */
  function ParamsSearch(q: string, typeParam: string, selectedType: string): (r: Option<SearchRequest>)
    ensures q == "" ==> r.None?
    ensures q != "" ==> r == SearchRequestFor(q, Or(typeParam, selectedType))
  {
    if q == "" then None else SearchRequestFor(q, Or(typeParam, selectedType))
  }

  /**
   * Re-running a row of the history page searches again for the stored query,
   * which the history service keeps trimmed and non-blank, with its stored type.
   */
  lemma RerunFromHistorySearchesAgain(item: HistoryScript.HistoryItem, now: int, selectedType: string)
    requires item.query != [] && !IsSpace(item.query[0]) && !IsSpace(item.query[|item.query| - 1])
    requires '"' !in item.searchType && '&' !in item.searchType
    ensures var nav := HistoryScript.Rerun(HistoryScript.RowOf(item, now));
            ParamsSearch(nav.q, nav.searchType.GetOr(""), selectedType)
              == Some(SearchRequest(item.query, Or(item.searchType, HistoryScript.DEFAULT_TYPE)))
  {
    HistoryScript.RerunRepeatsSearch(item, now);
    TrimUnchanged(item.query);
    assert HistoryScript.DEFAULT_TYPE[0] == 'g';
  }

  /** The summary a card shows: the summary, else the content, else "No description available". */
  function CardSummary(r: ResultItem): (s: string)
    ensures s != "" && (r.summary != "" ==> s == r.summary)
    ensures r.summary == "" && r.content != "" ==> s == r.content
    ensures r.summary == "" && r.content == "" ==> s == NO_DESCRIPTION
  {
    Or(Or(r.summary, r.content), NO_DESCRIPTION)
  }

  /** The summary a bookmark is saved with: the summary, else the content, else nothing. */
  function SaveSummary(r: ResultItem): (s: string)
    ensures r.summary != "" ==> s == r.summary
    ensures r.summary == "" ==> s == r.content
  {
    Or(Or(r.summary, r.content), "")
  }

  /** A result card. */
  datatype ResultCard = ResultCard(index: nat, titleText: string, urlText: string, summaryText: string,
                                   saved: bool, saveLabel: string)

  /** `createResultCard`: the save button is disabled and reads "Saved" exactly when the URL is bookmarked. */
  function CardOf(r: ResultItem, index: nat, savedUrls: set<string>): (c: ResultCard)
    ensures c.index == index
    ensures c.saved <==> r.url in savedUrls
    ensures c.saveLabel == (if r.url in savedUrls then SAVED else SAVE)
    ensures Html.UnescapeText(c.titleText) == Or(r.title, UNTITLED)
    ensures Html.UnescapeText(c.summaryText) == CardSummary(r)
  {
    Html.UnescapeEscape(Or(r.title, UNTITLED));
    Html.UnescapeEscape(CardSummary(r));
    var saved := r.url in savedUrls;
    ResultCard(index, Html.EscapeText(Or(r.title, UNTITLED)), Html.EscapeText(r.url),
               Html.EscapeText(CardSummary(r)), saved, if saved then SAVED else SAVE)
  }

  /** The cards of a result list, one per result in order, each with its index. */
  function CardsOf(results: seq<ResultItem>, savedUrls: set<string>): (r: seq<ResultCard>)
    ensures |r| == |results| && forall i :: 0 <= i < |results| ==> r[i] == CardOf(results[i], i, savedUrls)
  {
    seq(|results|, i requires 0 <= i < |results| => CardOf(results[i], i, savedUrls))
  }

  /** The count line of `displayResults`. */
  function CountLine(data: SearchData): string {
    IntToString(data.resultCount) + " results found" + (if data.fromCache then CACHED_SUFFIX else "")
  }

  /** The count line ends with " (cached)" exactly when the results came from the cache. */
  lemma CountLineMarksCache(data: SearchData)
    ensures var line := CountLine(data);
            data.fromCache <==> |line| >= |CACHED_SUFFIX| && line[|line| - |CACHED_SUFFIX|..] == CACHED_SUFFIX
  {
    var line := CountLine(data);
    var n := IntToString(data.resultCount);
    if data.fromCache {
      assert line == (n + " results found") + CACHED_SUFFIX;
    } else {
      assert line == n + " results found";
      assert line[|line| - 1] == 'd';
      if |line| >= |CACHED_SUFFIX| {
        assert line[|line| - |CACHED_SUFFIX|..][|CACHED_SUFFIX| - 1] == 'd';
        assert CACHED_SUFFIX[|CACHED_SUFFIX| - 1] == ')';
      }
    }
  }

  /**
   * `formatContent`: one paragraph per block between runs of two or more line
   * feeds, each block trimmed, in order.
   */
  function FormatContent(text: string): (ps: seq<string>)
    ensures var blocks := SplitParagraphs(text);
            |ps| == |blocks| && forall i :: 0 <= i < |ps| ==> Html.UnescapeText(ps[i]) == Trim(blocks[i])
  {
    var blocks := SplitParagraphs(text);
    forall i | 0 <= i < |blocks|
      ensures Html.UnescapeText(Html.EscapeText(Trim(blocks[i]))) == Trim(blocks[i])
    {
      Html.UnescapeEscape(Trim(blocks[i]));
    }
    seq(|blocks|, i requires 0 <= i < |blocks| => Html.EscapeText(Trim(blocks[i])))
  }

  /** The fields of a content reply as the page reads them from its JSON; "" for a missing text, 0 for a missing count. */
  datatype ContentFields = ContentFields(title: string, content: string, body: string, wordCount: int, cached: bool)

  /** The JSON fields of a content endpoint reply: it has `content` and no `body`. */
  function FieldsOf(resp: Content.ContentResponse): ContentFields {
    ContentFields(resp.title, resp.content, "", resp.wordCount, resp.cached)
  }

  /** The modal's text as written: the reply's `body`, else the result's summary, else "No content available". */
  function ModalTextAsWritten(f: ContentFields, r: ResultItem): string {
    Or(Or(f.body, r.summary), NO_CONTENT)
  }

  /**
   * The reply never has a `body`, so the modal as written never shows the
   * fetched page: only the result's summary or the placeholder.
   */
  lemma FetchedTextNeverShown(resp: Content.ContentResponse, r: ResultItem)
    ensures ModalTextAsWritten(FieldsOf(resp), r) == Or(r.summary, NO_CONTENT)
  {
  }

  /** A page whose text is "Hello", opened from a result without a summary, shows only the placeholder. */
  lemma FetchedHelloShownAsPlaceholder()
    ensures var resp := Content.ContentResponse("https://a.example", "A", "Hello", 1, None, false);
            ModalTextAsWritten(FieldsOf(resp), ResultItem("A", "https://a.example", "", "")) == NO_CONTENT
  {
  }

  /** The modal's text, read from the reply's `content`: it, else the result's summary, else "No content available". */
  function ModalText(f: ContentFields, r: ResultItem): (t: string)
    ensures f.content != "" ==> t == f.content
    ensures f.content == "" ==> t == Or(r.summary, NO_CONTENT)
  {
    Or(Or(f.content, r.summary), NO_CONTENT)
  }

  /** A freshly fetched page reaches the modal: its readable text is what the modal shows. */
  lemma FreshPageReachesModal(url: string, html: string, now: int, r: ResultItem)
    ensures ModalText(FieldsOf(Content.ToResponse(Content.Normalize(url, html, now), false)), r)
              == Content.PageBody(html)
  {
    var b := Content.PageBody(html);
    assert b != "" by {
      assert !IsBlank(b);
    }
  }

  /** The modal's body: the formatted text, or the fallback after a failed request. */
  datatype ModalBody = ContentText(ps: seq<string>) | Fallback(text: string, link: string)

  /** How the content request of the modal ended. */
  datatype ModalReply = RequestFailed | Reply(fields: ContentFields)

  /** How saving a bookmark ended: created, refused with the reply's `error` (possibly ""), or no response. */
  datatype SaveReply = Created | Refused(error: string) | Unreachable(message: string)

  /** The bookmark `saveResult` posts. */
  datatype SavePayload = SavePayload(title: string, url: string, summary: string)

  /** The API status line of `checkApiStatus`: None when the request failed. */
  function StatusText(healthy: Option<bool>): (r: string)
    ensures r == "API Online" <==> healthy == Some(true)
    ensures r == "API Issues" <==> healthy == Some(false)
    ensures r == "API Offline" <==> healthy.None?
  {
    match healthy
    case None => "API Offline"
    case Some(h) => if h then "API Online" else "API Issues"
  }

  /** The search page: results, bookmarked URLs, the visible sections and the reading modal. */
  class SearchPage {
    var currentResults: seq<ResultItem>
    var savedUrls: set<string>
    var queryValue: string
    var loading: bool
    var resultsHidden: bool
    var emptyHidden: bool
    var titleLine: string
    var countLine: string
    var cards: seq<ResultCard>
    /** The result the modal is open on; `currentModalContent`. */
    var modalContent: Option<ResultItem>
    var modalHidden: bool
    var modalTitle: string
    var modalSaveDisabled: bool
    var modalSaveLabel: string
    var modalBody: ModalBody
    /** The word count and the cache flag of the meta line, once the reply is in. */
    var modalMeta: Option<(int, bool)>

    constructor ()
      ensures currentResults == [] && savedUrls == {} && modalContent.None? && modalHidden
    {
      currentResults, savedUrls, queryValue := [], {}, "";
      loading, resultsHidden, emptyHidden := false, true, false;
      titleLine, countLine, cards := "", "", [];
      modalContent, modalHidden, modalTitle := None, true, "";
      modalSaveDisabled, modalSaveLabel, modalBody := false, SAVE_TO_FAVORITES, ContentText([]);
      modalMeta := None;
    }

    /**
     * `displayResults`: without results the section is hidden and the empty
     * state shown; otherwise the header names the query, the count line
     * reports the count and the cache, and the cards follow the results.
     */
    method DisplayResults(data: SearchData)
      modifies this
      ensures !loading && currentResults == old(currentResults) && savedUrls == old(savedUrls)
      ensures data.results.None? || data.results.value == [] ==>
                && resultsHidden && !emptyHidden && cards == old(cards)
                && titleLine == old(titleLine) && countLine == old(countLine)
      ensures data.results.Some? && data.results.value != [] ==>
                && !resultsHidden && emptyHidden
                && titleLine == "Results for \"" + data.query + "\"" && countLine == CountLine(data)
                && cards == CardsOf(data.results.value, savedUrls)
      ensures modalContent == old(modalContent) && modalHidden == old(modalHidden) && queryValue == old(queryValue)
      ensures modalTitle == old(modalTitle) && modalSaveDisabled == old(modalSaveDisabled)
      ensures modalSaveLabel == old(modalSaveLabel) && modalBody == old(modalBody) && modalMeta == old(modalMeta)
    {
      loading := false;
      if data.results.None? || |data.results.value| == 0 {
        resultsHidden := true;
        emptyHidden := false;
        return;
      }
      emptyHidden := true;
      resultsHidden := false;
      titleLine := "Results for \"" + data.query + "\"";
      countLine := CountLine(data);
      cards := CardsOf(data.results.value, savedUrls);
    }

    /**
     * `handleSearch` with the query box's text: a blank query makes no
     * request and changes nothing; a failed search keeps the results; a
     * successful one replaces them (by none when the reply has none), records
     * the search in the history and shows the reply.
     */
    method HandleSearch(searchType: string, outcome: SearchOutcome)
      returns (request: Option<SearchRequest>, history: Option<HistoryCall>)
      modifies this
      ensures request == SearchRequestFor(old(queryValue), searchType)
      ensures request.None? ==> history.None? && currentResults == old(currentResults) && cards == old(cards)
                                && loading == old(loading) && resultsHidden == old(resultsHidden)
                                && emptyHidden == old(emptyHidden)
      ensures request.Some? && outcome.SearchFailed? ==>
                && history.None? && currentResults == old(currentResults) && cards == old(cards)
                && !loading && resultsHidden && emptyHidden
      ensures request.Some? && outcome.SearchOk? ==>
                && currentResults == outcome.data.results.GetOr([])
                && history == Some(HistoryCall(request.value.query, searchType, |currentResults|))
                && !loading
                && (currentResults == [] ==> resultsHidden && !emptyHidden && cards == old(cards))
                && (currentResults != [] ==>
                      && !resultsHidden && emptyHidden && cards == CardsOf(currentResults, savedUrls)
                      && titleLine == "Results for \"" + outcome.data.query + "\""
                      && countLine == CountLine(outcome.data))
      ensures (request.None? || outcome.SearchFailed? || currentResults == []) ==>
                titleLine == old(titleLine) && countLine == old(countLine)
      ensures savedUrls == old(savedUrls) && queryValue == old(queryValue)
      ensures modalContent == old(modalContent) && modalHidden == old(modalHidden) && modalTitle == old(modalTitle)
      ensures modalSaveDisabled == old(modalSaveDisabled) && modalSaveLabel == old(modalSaveLabel)
      ensures modalBody == old(modalBody) && modalMeta == old(modalMeta)
    {
      request := SearchRequestFor(queryValue, searchType);
      history := None;
      if request.None? {
        return;
      }
      loading, resultsHidden, emptyHidden := true, true, true;
      if outcome.SearchFailed? {
        loading := false;
        return;
      }
      var data := outcome.data;
      currentResults := data.results.GetOr([]);
      history := Some(HistoryCall(request.value.query, searchType, |currentResults|));
      DisplayResults(data);
    }

    /** `clearResults`: forgets the results, hides them, shows the empty state and empties the query box. */
    method ClearResults()
      modifies this
      ensures currentResults == [] && resultsHidden && !emptyHidden && queryValue == ""
      ensures savedUrls == old(savedUrls) && cards == old(cards) && loading == old(loading)
      ensures titleLine == old(titleLine) && countLine == old(countLine)
      ensures modalContent == old(modalContent) && modalHidden == old(modalHidden) && modalTitle == old(modalTitle)
      ensures modalSaveDisabled == old(modalSaveDisabled) && modalSaveLabel == old(modalSaveLabel)
      ensures modalBody == old(modalBody) && modalMeta == old(modalMeta)
    {
      currentResults := [];
      resultsHidden := true;
      emptyHidden := false;
      queryValue := "";
    }

    /** `loadSavedUrls`: exactly the URLs of the loaded bookmarks, or no change when loading failed. */
    method LoadSavedUrls(loaded: Option<seq<SavedItems.SavedItem>>)
      modifies this
      ensures loaded.None? ==> savedUrls == old(savedUrls)
      ensures loaded.Some? ==> forall u :: u in savedUrls <==> SavedItems.HasUrl(loaded.value, u)
      ensures currentResults == old(currentResults) && cards == old(cards) && queryValue == old(queryValue)
      ensures loading == old(loading) && resultsHidden == old(resultsHidden) && emptyHidden == old(emptyHidden)
      ensures titleLine == old(titleLine) && countLine == old(countLine)
      ensures modalContent == old(modalContent) && modalHidden == old(modalHidden) && modalTitle == old(modalTitle)
      ensures modalSaveDisabled == old(modalSaveDisabled) && modalSaveLabel == old(modalSaveLabel)
      ensures modalBody == old(modalBody) && modalMeta == old(modalMeta)
    {
      if loaded.Some? {
        var items := loaded.value;
        savedUrls := set i | 0 <= i < |items| :: items[i].url;
      }
    }

    /**
     * `saveResult`: posts the result; only a created bookmark adds its URL to
     * the saved set (and marks the card's button when one is given); a refusal
     * or a failed request is reported as an error and changes nothing.
     */
    method SaveResult(r: ResultItem, reply: SaveReply, card: Option<nat>)
      returns (payload: SavePayload, outcome: Result<(), string>)
      requires card.Some? ==> card.value < |cards|
      modifies this
      ensures payload == SavePayload(r.title, r.url, SaveSummary(r))
      ensures reply.Created? ==> outcome.Ok? && savedUrls == old(savedUrls) + {r.url}
      ensures reply.Created? && card.Some? ==>
                cards == old(cards)[card.value := old(cards)[card.value].(saved := true, saveLabel := SAVED)]
      ensures reply.Created? && card.None? ==> cards == old(cards)
      ensures reply.Refused? ==> outcome == Err(Or(reply.error, FAILED_TO_SAVE))
      ensures reply.Unreachable? ==> outcome == Err(reply.message)
      ensures !reply.Created? ==> savedUrls == old(savedUrls) && cards == old(cards)
      ensures currentResults == old(currentResults) && queryValue == old(queryValue) && loading == old(loading)
      ensures resultsHidden == old(resultsHidden) && emptyHidden == old(emptyHidden)
      ensures titleLine == old(titleLine) && countLine == old(countLine)
      ensures modalContent == old(modalContent) && modalHidden == old(modalHidden) && modalTitle == old(modalTitle)
      ensures modalSaveDisabled == old(modalSaveDisabled) && modalSaveLabel == old(modalSaveLabel)
      ensures modalBody == old(modalBody) && modalMeta == old(modalMeta)
    {
      payload := SavePayload(r.title, r.url, SaveSummary(r));
      match reply
      case Created =>
        savedUrls := savedUrls + {r.url};
        if card.Some? {
          cards := cards[card.value := cards[card.value].(saved := true, saveLabel := SAVED)];
        }
        outcome := Ok(());
      case Refused(error) =>
        outcome := Err(Or(error, FAILED_TO_SAVE));
      case Unreachable(message) =>
        outcome := Err(message);
    }

    /**
     * `openContentModal` followed by the end of its request: the modal opens
     * on the result with its save button disabled exactly when the URL is
     * bookmarked, then shows the reply's title and text, or the fallback.
     */
    method OpenContentModal(r: ResultItem, reply: ModalReply)
      modifies this
      ensures modalContent == Some(r) && !modalHidden
      ensures modalSaveDisabled <==> r.url in savedUrls
      ensures modalSaveLabel == (if r.url in savedUrls then SAVED else SAVE_TO_FAVORITES)
      ensures reply.Reply? ==> modalTitle == Or(reply.fields.title, r.title)
                               && modalBody == ContentText(FormatContent(ModalText(reply.fields, r)))
                               && modalMeta == Some((reply.fields.wordCount, reply.fields.cached))
      ensures reply.RequestFailed? ==> modalTitle == Or(r.title, "Loading...") && modalMeta.None?
                                       && modalBody == Fallback(Or(r.summary, UNABLE_TO_LOAD), r.url)
      ensures savedUrls == old(savedUrls) && currentResults == old(currentResults) && cards == old(cards)
      ensures queryValue == old(queryValue) && loading == old(loading)
      ensures resultsHidden == old(resultsHidden) && emptyHidden == old(emptyHidden)
      ensures titleLine == old(titleLine) && countLine == old(countLine)
    {
      var saved := r.url in savedUrls;
      match reply {
        case Reply(f) =>
          ShowModal(r, Or(f.title, r.title), saved, Some((f.wordCount, f.cached)),
                    ContentText(FormatContent(ModalText(f, r))));
        case RequestFailed =>
          ShowModal(r, Or(r.title, "Loading..."), saved, None, Fallback(Or(r.summary, UNABLE_TO_LOAD), r.url));
      }
    }

    /** The modal open on `r` with the given title, save state, meta line and body; nothing else changes. */
    method ShowModal(r: ResultItem, shownTitle: string, saved: bool, meta: Option<(int, bool)>, body: ModalBody)
      modifies this
      ensures modalContent == Some(r) && !modalHidden && modalTitle == shownTitle
      ensures modalSaveDisabled == saved && modalSaveLabel == (if saved then SAVED else SAVE_TO_FAVORITES)
      ensures modalMeta == meta && modalBody == body
      ensures savedUrls == old(savedUrls) && currentResults == old(currentResults) && cards == old(cards)
      ensures queryValue == old(queryValue) && loading == old(loading)
      ensures resultsHidden == old(resultsHidden) && emptyHidden == old(emptyHidden)
      ensures titleLine == old(titleLine) && countLine == old(countLine)
    {
      modalContent, modalHidden, modalTitle := Some(r), false, shownTitle;
      modalSaveDisabled, modalSaveLabel := saved, if saved then SAVED else SAVE_TO_FAVORITES;
      modalMeta, modalBody := meta, body;
    }

    /** `closeContentModal`: hides the modal and forgets its result. */
    method CloseContentModal()
      modifies this
      ensures modalHidden && modalContent.None?
      ensures savedUrls == old(savedUrls) && currentResults == old(currentResults) && cards == old(cards)
      ensures queryValue == old(queryValue) && loading == old(loading)
      ensures resultsHidden == old(resultsHidden) && emptyHidden == old(emptyHidden)
      ensures titleLine == old(titleLine) && countLine == old(countLine)
      ensures modalTitle == old(modalTitle) && modalSaveDisabled == old(modalSaveDisabled)
      ensures modalSaveLabel == old(modalSaveLabel) && modalBody == old(modalBody) && modalMeta == old(modalMeta)
    {
      modalHidden := true;
      modalContent := None;
    }

    /**
     * `saveCurrentContent`: nothing without an open result; otherwise saves
     * it, leaving the button disabled and reading "Saved" on success and
     * enabled again on failure.
     */
    method SaveCurrentContent(reply: SaveReply) returns (payload: Option<SavePayload>)
      modifies this
      ensures old(modalContent).None? ==> payload.None? && savedUrls == old(savedUrls)
      ensures old(modalContent).Some? ==> payload == Some(SavePayload(old(modalContent).value.title,
                                            old(modalContent).value.url, SaveSummary(old(modalContent).value)))
      ensures old(modalContent).Some? && reply.Created? ==>
                savedUrls == old(savedUrls) + {old(modalContent).value.url} && modalSaveDisabled && modalSaveLabel == SAVED
      ensures old(modalContent).Some? && !reply.Created? ==>
                savedUrls == old(savedUrls) && !modalSaveDisabled && modalSaveLabel == SAVE_TO_FAVORITES
      ensures old(modalContent).None? ==>
                modalSaveDisabled == old(modalSaveDisabled) && modalSaveLabel == old(modalSaveLabel)
      ensures currentResults == old(currentResults) && cards == old(cards) && queryValue == old(queryValue)
      ensures loading == old(loading) && resultsHidden == old(resultsHidden) && emptyHidden == old(emptyHidden)
      ensures titleLine == old(titleLine) && countLine == old(countLine)
      ensures modalContent == old(modalContent) && modalHidden == old(modalHidden) && modalTitle == old(modalTitle)
      ensures modalBody == old(modalBody) && modalMeta == old(modalMeta)
    {
      if modalContent.None? {
        return None;
      }
      modalSaveDisabled := true;
      var p, outcome := SaveResult(modalContent.value, reply, None);
      payload := Some(p);
      if outcome.Ok? {
        modalSaveLabel := SAVED;
      } else {
        modalSaveDisabled := false;
        modalSaveLabel := SAVE_TO_FAVORITES;
      }
    }
  }
}
