/**
 * The search page script of the multi-page application: it validates the
 * query, posts the search, lists the results with a save button each, records
 * the search in the history and as the default preference, filters the typed
 * suggestions, and re-runs a search handed over in the page's address.
 */
module SearchPage {
  import opened Wrappers
  import opened Text
  import Html
  import Preferences
  import HistoryPage

  const UNTITLED: string := "Untitled"
  const NO_URL: string := "No URL"
  const NO_LINK: string := "#"
  const NO_DESCRIPTION: string := "No description available"
  const APOS_ENTITY: string := "&apos;"
  const FAILED_PREFIX: string := "Search failed: "
  /** The message of the `TypeError` thrown by calling `forEach` on the reply object. */
  const FOR_EACH_ERROR: string := "results.forEach is not a function"

  /** What `performSearch` does with the form: warn about an empty query, or send the trimmed query and the type. */
  datatype SearchStart = EmptyQueryWarning | SearchRequest(query: string, searchType: string)

  /** `performSearch`'s validation of the query field's text and the type select's value. */
  function StartSearch(rawQuery: string, searchType: string): (s: SearchStart)
    ensures s.EmptyQueryWarning? <==> IsBlank(rawQuery)
    ensures s.SearchRequest? ==> s.query == Trim(rawQuery) && s.searchType == searchType
    ensures s.SearchRequest? ==> !IsSpace(s.query[0]) && !IsSpace(s.query[|s.query| - 1])
  {
    var query := Trim(rawQuery);
    if query == "" then EmptyQueryWarning else SearchRequest(query, searchType)
  }

  /** The query sent is already trimmed: validating it again sends the same request. */
  lemma SentQueryIsStable(rawQuery: string, searchType: string)
    requires !IsBlank(rawQuery)
    ensures var s := StartSearch(rawQuery, searchType);
            StartSearch(s.query, searchType) == s
  {
    TrimIdempotent(rawQuery);
  }

  /** The requests that follow a successful search: its history row and the new default query and type. */
  datatype FollowUp = FollowUp(historyQuery: string, historyType: string, resultsCount: int,
                               preference: Preferences.PreferenceBody)

  /** A search result as the page receives it; "" stands for a missing text, None or 0 for a missing id. */
  datatype SearchResult = SearchResult(id: Option<int>, title: string, url: string, description: string)

  /**
   * `saveToHistory` and `updateSearchPreference` after a search for `query`
   * and `searchType` that found `count` results: the preference request gives
   * only the default query and type.
   */
  function FollowUpOf(query: string, searchType: string, count: nat): (f: FollowUp)
    ensures f.historyQuery == query && f.historyType == searchType && f.resultsCount == count
    ensures f.preference == Preferences.PreferenceBody(Preferences.Given(query), Preferences.Given(searchType),
                                                       Preferences.Absent, Preferences.Absent)
  {
    FollowUp(query, searchType, count,
             Preferences.PreferenceBody(Preferences.Given(query), Preferences.Given(searchType),
                                        Preferences.Absent, Preferences.Absent))
  }

  /**
   * With the request read as a patch, a search makes its query and type the
   * stored defaults and leaves the stored theme and tips flag as they were.
   */
  lemma SearchKeepsThemeAndTips(existing: Preferences.Preference, query: string, searchType: string, count: nat)
    ensures var p := Preferences.Merge(existing, Preferences.BindAsPatch(FollowUpOf(query, searchType, count).preference));
            && p.defaultQuery == Some(query) && p.defaultType == Some(searchType)
            && p.theme == existing.theme && p.showAdvancedTips == existing.showAdvancedTips
  {
    Preferences.PatchChangesOnlyGivenFields(existing, FollowUpOf(query, searchType, count).preference);
  }

  /**
   * As written, the update endpoint binds the search's request to a new
   * entity, so the stored theme becomes "light" and the tips come back on.
   */
  lemma SearchResetsThemeAndTipsAsWritten(existing: Preferences.Preference, query: string, searchType: string,
                                          count: nat, now: int)
    ensures var p := Preferences.Merge(existing, Preferences.BindAsEntity(FollowUpOf(query, searchType, count).preference, now));
            && p.defaultQuery == Some(query) && p.defaultType == Some(searchType)
            && p.theme == Some(Preferences.DEFAULT_THEME) && p.showAdvancedTips == Some(true)
  {
  }

  /** `result.id || index`: the result's id, or its position when the id is missing or 0. */
  function DataId(id: Option<int>, index: nat): (r: int)
    ensures id.Some? && id.value != 0 ==> r == id.value
    ensures id.None? || id.value == 0 ==> r == index
  {
    if id.Some? && id.value != 0 then id.value else index
  }

  /**
   * `escapeHtml`: nothing for empty text; otherwise the text node's
   * serialisation with every apostrophe as `&apos;`.
   */
  function EscapeHtml(text: string): (r: string)
    ensures text == "" ==> r == ""
    ensures '\'' !in r && '<' !in r && '>' !in r
    ensures '"' !in text ==> '"' !in r
  {
    if text == "" then ""
    else
      assert '"' !in text ==> '"' !in Html.EscapeText(text) by {
        if '"' !in text {
          Html.EscapeKeepsQuoteFree(text);
        }
      }
      ReplaceChar(Html.EscapeText(text), '\'', APOS_ENTITY)
  }

  /** One character of `escapeHtml`'s output, written independently of the two steps. */
  function AposEscapeChar(c: char): string {
    if c == '\'' then APOS_ENTITY else Html.EscapeChar(c)
  }

  /** Every character replaced by its `AposEscapeChar`, in one pass. */
  function AposEscape(s: string): string {
    if s == [] then [] else AposEscapeChar(s[0]) + AposEscape(s[1..])
  }

  /** The apostrophe replacement applied to one serialised character. */
  lemma AposEscapeCharStep(c: char)
    ensures ReplaceChar(Html.EscapeChar(c), '\'', APOS_ENTITY) == AposEscapeChar(c)
  {
    if c == '\'' {
      assert ReplaceChar(Html.EscapeChar(c), '\'', APOS_ENTITY) == APOS_ENTITY + ReplaceChar([], '\'', APOS_ENTITY);
    } else {
      assert '\'' !in Html.EscapeChar(c);
      ReplaceAbsent(Html.EscapeChar(c), '\'', APOS_ENTITY);
    }
  }

  /** The replacement after the serialisation equals the one-pass reference. */
  lemma {:induction false} EscapeHtmlIsOnePass(s: string)
    ensures EscapeHtml(s) == AposEscape(s)
    decreases |s|
  {
    if s != [] {
      var c := s[0];
      var t := s[1..];
      assert Html.EscapeText(s) == Html.EscapeChar(c) + Html.EscapeText(t);
      ReplaceCharAppend(Html.EscapeChar(c), Html.EscapeText(t), '\'', APOS_ENTITY);
      AposEscapeCharStep(c);
      if t != [] {
        EscapeHtmlIsOnePass(t);
      }
    }
  }

  /** Decoding the page's escaped text gives the text back: `escapeHtml` loses nothing. */
  lemma {:induction false} EscapeHtmlDecoded(s: string)
    ensures Html.UnescapeText(EscapeHtml(s)) == s
    decreases |s|
  {
    EscapeHtmlIsOnePass(s);
    AposEscapeDecoded(s);
  }

  lemma {:induction false} AposEscapeDecoded(s: string)
    ensures Html.UnescapeText(AposEscape(s)) == s
    decreases |s|
  {
    if s != [] {
      AposEscapeDecoded(s[1..]);
      if s[0] == '\'' {
        Html.UnescapeNamedApostrophe(AposEscape(s[1..]));
      } else {
        Html.UnescapeChar(s[0], AposEscape(s[1..]));
      }
    }
  }

  /**
   * As written, the save button's handler receives the title with its
   * apostrophes restored: inside the double-quoted `onclick` attribute the
   * browser decodes `&apos;` before the script is parsed.
   */
  lemma SaveArgumentDecoded(title: string)
    requires '"' !in title
    ensures Html.ReadQuotedAttribute(EscapeHtml(title)) == title
  {
    var r := EscapeHtml(title);
    assert Html.QuoteEnd(r) == |r|;
    assert r[..|r|] == r;
    EscapeHtmlDecoded(title);
  }

  /**
   * As written, a title holding an apostrophe closes the handler's string
   * literal early, so the save call never receives it (the handler does not
   * even parse).
   */
  lemma ApostropheEndsSaveArgument(title: string)
    requires '"' !in title && '\'' in title
    ensures Html.ScriptLiteral(Html.ReadQuotedAttribute(EscapeHtml(title))) != title
  {
    SaveArgumentDecoded(title);
  }

  /** One result as `displayResults` writes it: title, URL and description inserted as markup. */
  datatype RawArticle = RawArticle(dataId: int, href: string, titleHtml: string, urlHtml: string,
                                   descriptionHtml: string, saveTitleArgument: string)

  /** The article as written: the texts go into the markup unescaped; only the handler's arguments are escaped. */
  function RawArticleOf(r: SearchResult, index: nat): (a: RawArticle)
    ensures a.dataId == DataId(r.id, index)
    ensures a.titleHtml == Or(r.title, UNTITLED) && a.urlHtml == Or(r.url, NO_URL)
    ensures a.descriptionHtml == Or(r.description, NO_DESCRIPTION)
    ensures a.saveTitleArgument == EscapeHtml(Or(r.title, UNTITLED))
  {
    RawArticle(DataId(r.id, index), Or(r.url, NO_LINK), Or(r.title, UNTITLED), Or(r.url, NO_URL),
               Or(r.description, NO_DESCRIPTION), EscapeHtml(Or(r.title, UNTITLED)))
  }

  /** As written, a title that holds a character reference is shown decoded, not as the text it is. */
  lemma RawTitleReadAsMarkup()
    ensures var a := RawArticleOf(SearchResult(None, "&lt;", "", ""), 0);
            Html.UnescapeText(a.titleHtml) == "<"
  {
    assert "&lt;"[..4] == "&lt;" && "&lt;"[4..] == "";
  }

  /**
   * One result of the list: the texts escaped for display, the link and the
   * values of the save call in attributes written with `EscapeAttribute`,
   * read back by the button's handler.
   */
  datatype Article = Article(dataId: int, href: string, titleText: string, urlText: string, descriptionText: string,
                             saveTitle: string, saveUrl: string, saveDescription: string)

  /** The link's target: the URL, or "#" without one. */
  function LinkHref(url: string): string {
    Html.EscapeAttributeOr(url, NO_LINK)
  }

  /** The displayed title: the title, or "Untitled" without one. */
  function TitleHtml(title: string): string {
    Html.EscapeTextOr(title, UNTITLED)
  }

  /** The displayed URL: the URL, or "No URL" without one. */
  function UrlHtml(url: string): string {
    Html.EscapeTextOr(url, NO_URL)
  }

  /** The displayed description: the description, or "No description available" without one. */
  function DescriptionHtml(description: string): string {
    Html.EscapeTextOr(description, NO_DESCRIPTION)
  }

  /** The title handed to the save button: the title, or "Untitled" without one. */
  function SaveTitleArgument(title: string): string {
    Html.EscapeAttributeOr(title, UNTITLED)
  }

  /** The article of the result at `index`. */
  function ArticleOf(r: SearchResult, index: nat): Article {
    Article(DataId(r.id, index), LinkHref(r.url),
            TitleHtml(r.title), UrlHtml(r.url), DescriptionHtml(r.description),
            SaveTitleArgument(r.title), Html.EscapeAttribute(r.url),
            Html.EscapeAttribute(r.description))
  }

  /**
   * The article of the result at `index` carries its id or position, the
   * link or "#", the title or "Untitled", the URL or "No URL", the description
   * or "No description available", each shown as the text it is; its save
   * button carries the title (or "Untitled"), the URL and the description.
   */
  lemma ArticleShowsResult(r: SearchResult, index: nat)
    ensures var a := ArticleOf(r, index);
            && a.dataId == DataId(r.id, index)
            && Html.ReadQuotedAttribute(a.href) == Or(r.url, NO_LINK)
            && Html.UnescapeText(a.titleText) == Or(r.title, UNTITLED)
            && Html.UnescapeText(a.urlText) == Or(r.url, NO_URL)
            && Html.UnescapeText(a.descriptionText) == Or(r.description, NO_DESCRIPTION)
            && Html.ReadQuotedAttribute(a.saveTitle) == Or(r.title, UNTITLED)
            && Html.ReadQuotedAttribute(a.saveUrl) == r.url
            && Html.ReadQuotedAttribute(a.saveDescription) == r.description
  {
    LinkShown(r.url);
    TitleShown(r.title);
    UrlShown(r.url);
    DescriptionShown(r.description);
    SaveTitleShown(r.title);
    Html.AttributeRoundTrip(r.url);
    Html.AttributeRoundTrip(r.description);
  }

  /** The link reads back as the URL, or "#" without one. */
  lemma LinkShown(url: string)
    ensures Html.ReadQuotedAttribute(LinkHref(url)) == Or(url, NO_LINK)
  {
    Html.ReadAttributeOr(url, NO_LINK);
  }

  /** The title reads back as itself, or "Untitled" without one. */
  lemma TitleShown(title: string)
    ensures Html.UnescapeText(TitleHtml(title)) == Or(title, UNTITLED)
  {
    Html.UnescapeTextOr(title, UNTITLED);
  }

  /** The URL line reads back as the URL, or "No URL" without one. */
  lemma UrlShown(url: string)
    ensures Html.UnescapeText(UrlHtml(url)) == Or(url, NO_URL)
  {
    Html.UnescapeTextOr(url, NO_URL);
  }

  /** The description reads back as itself, or "No description available" without one. */
  lemma DescriptionShown(description: string)
    ensures Html.UnescapeText(DescriptionHtml(description)) == Or(description, NO_DESCRIPTION)
  {
    Html.UnescapeTextOr(description, NO_DESCRIPTION);
  }

  /** The save button's title reads back as the title, or "Untitled" without one. */
  lemma SaveTitleShown(title: string)
    ensures Html.ReadQuotedAttribute(SaveTitleArgument(title)) == Or(title, UNTITLED)
  {
    Html.ReadAttributeOr(title, UNTITLED);
  }

  /** The body `saveResultToItems` posts. */
  datatype SaveBody = SaveBody(title: string, url: string, summary: string)

  /** The save button's call, from the values its attributes hold. */
  function SaveBodyOf(a: Article): SaveBody {
    SaveBody(Html.ReadQuotedAttribute(a.saveTitle), Html.ReadQuotedAttribute(a.saveUrl),
             Html.ReadQuotedAttribute(a.saveDescription))
  }

  /** Saving a listed result posts its own title (or "Untitled"), URL and description, whatever characters they hold. */
  lemma SaveSendsResult(r: SearchResult, index: nat)
    ensures SaveBodyOf(ArticleOf(r, index)) == SaveBody(Or(r.title, UNTITLED), r.url, r.description)
  {
    ArticleShowsResult(r, index);
  }

  /** What the results container holds. */
  datatype ResultsBlock = Nothing | NoResults | Listing(count: nat, articles: seq<Article>)

  /** The search endpoint's reply: the query and type echoed, the results, their number and a status word. */
  datatype SearchResponse = SearchResponse(query: string, searchType: string, results: seq<SearchResult>,
                                           resultCount: int, status: string)

  /** How the search request ended. */
  datatype SearchReply = Found(response: SearchResponse) | HttpFailed(status: int) | RequestFailed(message: string)

  /** The message of a failed search. */
  function FailureMessage(reply: SearchReply): string
    requires !reply.Found?
  {
    match reply
    case HttpFailed(status) => "Search failed with status " + IntToString(status)
    case RequestFailed(message) => message
  }

  /** How a sent search ends: the results listed and the requests that follow, or a failure message. */
  datatype SearchEnd = Listed(list: seq<SearchResult>, followUp: FollowUp) | Failed(message: string)

  /**
   * How a sent search ends as written: the whole reply object goes to
   * `displayResults`, whose `forEach` is not a function of it, so every
   * reply ends in the failure message.
   */
  function EndAsWritten(request: SearchStart, reply: SearchReply): (e: SearchEnd)
    requires request.SearchRequest?
    ensures e.Failed?
    ensures reply.Found? ==> e.message == FAILED_PREFIX + FOR_EACH_ERROR
    ensures !reply.Found? ==> e.message == FAILED_PREFIX + FailureMessage(reply)
  {
    match reply
    case Found(_) => Failed(FAILED_PREFIX + FOR_EACH_ERROR)
    case _ => Failed(FAILED_PREFIX + FailureMessage(reply))
  }

  /**
   * How a sent search ends when the reply's `results` list is displayed and
   * counted: a reply is listed and followed by the history and preference
   * requests, a failure shows its message.
   */
  function EndOf(request: SearchStart, reply: SearchReply): (e: SearchEnd)
    requires request.SearchRequest?
    ensures e.Listed? <==> reply.Found?
    ensures reply.Found? ==> e.list == reply.response.results
                             && e.followUp == FollowUpOf(request.query, request.searchType, |reply.response.results|)
    ensures !reply.Found? ==> e.message == FAILED_PREFIX + FailureMessage(reply)
  {
    match reply
    case Found(response) => Listed(response.results, FollowUpOf(request.query, request.searchType, |response.results|))
    case _ => Failed(FAILED_PREFIX + FailureMessage(reply))
  }

  /**
   * As written, a search the backend answers never lists its results and
   * sends neither the history nor the preference request.
   */
  lemma AnsweredSearchFailsAsWritten(request: SearchStart, response: SearchResponse)
    requires request.SearchRequest?
    ensures EndAsWritten(request, Found(response)) == Failed(FAILED_PREFIX + FOR_EACH_ERROR)
    ensures EndAsWritten(request, Found(response)) != EndOf(request, Found(response))
  {
  }

  /**
   * Reading the reply's `results` list, an answered search lists exactly the
   * results the backend sent and records their number in the history.
   */
  lemma AnsweredSearchListsResults(request: SearchStart, response: SearchResponse)
    requires request.SearchRequest?
    requires response.resultCount == |response.results|
    ensures var e := EndOf(request, Found(response));
            && e.Listed? && e.list == response.results
            && e.followUp.historyQuery == request.query && e.followUp.historyType == request.searchType
            && e.followUp.resultsCount == response.resultCount
  {
  }

  /** A suggestion stays visible while nothing is typed or its text contains the typed text, both lower-cased. */
  function SuggestionVisible(typed: string, text: string): (shown: bool)
    ensures shown <==> typed == "" || Contains(ToLower(text), ToLower(typed))
  {
    var query := ToLower(typed);
    if query != "" && Contains(ToLower(text), query) then true
    else if query == "" then true
    else false
  }

  /** The filter ignores case in the typed text. */
  lemma SuggestionFilterIgnoresCase(typed: string, text: string)
    ensures SuggestionVisible(ToLower(typed), text) == SuggestionVisible(typed, text)
  {
    ToLowerIdempotent(typed);
  }

  /** A suggestion is visible while its own text is typed. */
  lemma OwnTextShowsSuggestion(text: string)
    ensures SuggestionVisible(text, text)
  {
    ContainsSelf(ToLower(text));
  }

  /** Typing more never brings back a hidden suggestion. */
  lemma TypingMoreOnlyNarrows(typed: string, more: string, text: string)
    requires SuggestionVisible(typed + more, text)
    ensures SuggestionVisible(typed, text)
  {
    if typed != "" {
      ToLowerAppend(typed, more);
      ContainsPrefixOfPattern(ToLower(text), ToLower(typed), ToLower(more));
    }
  }

  /** The search started from the page's address: none without a query; otherwise the query with the given type or the selected one. */
  function UrlStart(q: string, t: string, selectedType: string): (s: Option<SearchStart>)
    ensures s.None? <==> q == ""
    ensures s.Some? ==> s.value == StartSearch(q, if t != "" then t else selectedType)
  {
    if q == "" then None else Some(StartSearch(q, if t != "" then t else selectedType))
  }

  /**
   * A re-run from the history page searches the stored query, trimmed, with
   * the stored type or "general".
   */
  lemma HistoryRerunSearchesAgain(item: HistoryPage.PageItem, selectedType: string)
    requires !IsBlank(item.query)
    ensures var link := HistoryPage.RerunSearch(item.query, item.searchType);
            UrlStart(link.q, link.searchType, selectedType)
              == Some(SearchRequest(Trim(item.query), Or(item.searchType, HistoryPage.DEFAULT_TYPE)))
  {
  }

  /** The `forEach` of `displayResults`: one article per result, in order, each with its position. */
  method BuildArticles(rs: seq<SearchResult>) returns (html: seq<Article>)
    ensures |html| == |rs|
    ensures forall k :: 0 <= k < |rs| ==> html[k] == ArticleOf(rs[k], k)
  {
    html := [];
    var i := 0;
    while i < |rs|
      invariant 0 <= i <= |rs| && |html| == i
      invariant forall k :: 0 <= k < i ==> html[k] == ArticleOf(rs[k], k)
    {
      html := html + [ArticleOf(rs[i], i)];
      i := i + 1;
    }
  }

  /** The search page: its form, suggestions, loading and error states and results container. */
  class SearchView {
    var queryValue: string
    var typeValue: string
    var loadingShown: bool
    var resultsHidden: bool
    var errorShown: bool
    var errorText: string
    var results: ResultsBlock
    var suggestions: seq<string>
    var suggestionShown: seq<bool>
    var suggestionsHidden: bool

    constructor (typeValue: string)
      ensures queryValue == "" && this.typeValue == typeValue && results == Nothing
      ensures suggestions == [] && suggestionShown == [] && suggestionsHidden
    {
      queryValue, this.typeValue := "", typeValue;
      loadingShown, resultsHidden, errorShown, errorText := false, true, false, "";
      results := Nothing;
      suggestions, suggestionShown, suggestionsHidden := [], [], true;
    }

    /**
     * `displayResults`: shows the container; a missing or empty list gives
     * only the no-results message; otherwise the count and one article per
     * result, in order.
     */
    method DisplayResults(list: Option<seq<SearchResult>>)
      modifies this
      ensures !resultsHidden
      ensures list.None? || list.value == [] ==> results == NoResults
      ensures list.Some? && list.value != [] ==>
                && results.Listing? && results.count == |list.value| && |results.articles| == |list.value|
                && forall k :: 0 <= k < |list.value| ==> results.articles[k] == ArticleOf(list.value[k], k)
      ensures queryValue == old(queryValue) && typeValue == old(typeValue)
      ensures loadingShown == old(loadingShown) && errorShown == old(errorShown) && errorText == old(errorText)
      ensures suggestions == old(suggestions) && suggestionShown == old(suggestionShown)
      ensures suggestionsHidden == old(suggestionsHidden)
    {
      resultsHidden := false;
      if list.None? || |list.value| == 0 {
        results := NoResults;
        return;
      }
      var html := BuildArticles(list.value);
      results := Listing(|list.value|, html);
    }

    /**
     * `performSearch` followed by the end of its request, with the reply's
     * `results` list displayed and counted: a blank query only warns;
     * otherwise the trimmed query and the type are sent; an answered search
     * lists its results and is followed by the history and preference
     * requests; a failure hides the loading state and shows its message.
     */
    method PerformSearch(reply: SearchReply) returns (start: SearchStart, followUp: Option<FollowUp>)
      modifies this
      ensures start == StartSearch(old(queryValue), old(typeValue))
      ensures queryValue == old(queryValue) && typeValue == old(typeValue)
      ensures suggestions == old(suggestions) && suggestionShown == old(suggestionShown)
      ensures suggestionsHidden == old(suggestionsHidden)
      ensures Searched(start, reply, followUp)
    {
      start := StartSearch(queryValue, typeValue);
      if start.EmptyQueryWarning? {
        followUp := None;
        return;
      }
      loadingShown, resultsHidden := true, true;
      errorShown := false;
      match reply {
        case Found(response) =>
          loadingShown := false;
          DisplayResults(Some(response.results));
          followUp := Some(FollowUpOf(start.query, start.searchType, |response.results|));
        case _ =>
          loadingShown := false;
          errorText := FAILED_PREFIX + FailureMessage(reply);
          errorShown := true;
          followUp := None;
      }
    }

    /**
     * `performSearch` as written: the reply object itself goes to
     * `displayResults`, which shows the container, passes its emptiness test
     * (an object has no `length`) and throws on `forEach`; the handler then
     * shows the failure, and no follow-up request is sent.
     */
    method PerformSearchAsWritten(reply: SearchReply) returns (start: SearchStart, followUp: Option<FollowUp>)
      modifies this
      ensures start == StartSearch(old(queryValue), old(typeValue))
      ensures queryValue == old(queryValue) && typeValue == old(typeValue) && results == old(results)
      ensures suggestions == old(suggestions) && suggestionShown == old(suggestionShown)
      ensures suggestionsHidden == old(suggestionsHidden)
      ensures followUp.None?
      ensures start.EmptyQueryWarning? ==>
                resultsHidden == old(resultsHidden) && errorShown == old(errorShown) && loadingShown == old(loadingShown)
      ensures start.SearchRequest? ==>
                && !loadingShown && errorShown && errorText == EndAsWritten(start, reply).message
                && resultsHidden == !reply.Found?
    {
      start := StartSearch(queryValue, typeValue);
      followUp := None;
      if start.EmptyQueryWarning? {
        return;
      }
      loadingShown, resultsHidden := true, true;
      errorShown := false;
      match reply {
        case Found(_) =>
          loadingShown := false;
          resultsHidden := false;
          errorText := FAILED_PREFIX + FOR_EACH_ERROR;
          errorShown := true;
        case _ =>
          loadingShown := false;
          errorText := FAILED_PREFIX + FailureMessage(reply);
          errorShown := true;
      }
    }

    /** The result area lists `list`: the no-results message for none, otherwise its count and articles. */
    ghost predicate Lists(list: seq<SearchResult>)
      reads this
    {
      && (list == [] ==> results == NoResults)
      && (list != [] ==>
            && results.Listing? && results.count == |list| && |results.articles| == |list|
            && forall k :: 0 <= k < |list| ==> results.articles[k] == ArticleOf(list[k], k))
    }

    /**
     * The page after the search `start` ended with `reply`: a warning leaves
     * the result area, the error and the loading state as they were; an
     * answered search lists its results and yields its follow-up requests; a
     * failed one hides the results and shows its message.
     */
    twostate predicate Searched(start: SearchStart, reply: SearchReply, new followUp: Option<FollowUp>)
      reads this
    {
      && (start.EmptyQueryWarning? ==>
            && followUp.None? && results == old(results) && resultsHidden == old(resultsHidden)
            && errorShown == old(errorShown) && errorText == old(errorText) && loadingShown == old(loadingShown))
      && (start.SearchRequest? ==>
            var e := EndOf(start, reply);
            && !loadingShown
            && (e.Listed? ==>
                  && followUp == Some(e.followUp) && !errorShown && errorText == old(errorText)
                  && !resultsHidden && Lists(e.list))
            && (e.Failed? ==>
                  && followUp.None? && resultsHidden && results == old(results)
                  && errorShown && errorText == e.message))
    }

    /** `renderSuggestions`: an empty list changes nothing; otherwise the suggestions, all visible. */
    method RenderSuggestions(list: seq<string>)
      modifies this
      ensures list == [] ==> suggestions == old(suggestions) && suggestionShown == old(suggestionShown)
      ensures list != [] ==> suggestions == list && |suggestionShown| == |list|
                             && forall k :: 0 <= k < |list| ==> suggestionShown[k]
      ensures queryValue == old(queryValue) && typeValue == old(typeValue) && results == old(results)
      ensures loadingShown == old(loadingShown) && resultsHidden == old(resultsHidden)
      ensures errorShown == old(errorShown) && errorText == old(errorText) && suggestionsHidden == old(suggestionsHidden)
    {
      if |list| == 0 {
        return;
      }
      suggestions := list;
      suggestionShown := seq(|list|, k => true);
    }

    /** The input listener: every suggestion is shown or hidden by the filter on the typed text. */
    method FilterSuggestions(typed: string)
      modifies this
      ensures suggestions == old(suggestions) && |suggestionShown| == |suggestions|
      ensures forall k :: 0 <= k < |suggestions| ==> suggestionShown[k] == SuggestionVisible(typed, suggestions[k])
      ensures queryValue == old(queryValue) && typeValue == old(typeValue) && results == old(results)
      ensures loadingShown == old(loadingShown) && resultsHidden == old(resultsHidden)
      ensures errorShown == old(errorShown) && errorText == old(errorText) && suggestionsHidden == old(suggestionsHidden)
    {
      var shown: seq<bool> := [];
      var i := 0;
      while i < |suggestions|
        invariant 0 <= i <= |suggestions| && |shown| == i
        invariant forall k :: 0 <= k < i ==> shown[k] == SuggestionVisible(typed, suggestions[k])
      {
        shown := shown + [SuggestionVisible(typed, suggestions[i])];
        i := i + 1;
      }
      suggestionShown := shown;
    }

    /** A click on suggestion `k`: it becomes the query, the list closes and the search runs. */
    method PickSuggestion(k: nat, reply: SearchReply) returns (start: SearchStart, followUp: Option<FollowUp>)
      requires k < |suggestions|
      modifies this
      ensures queryValue == old(suggestions)[k] && suggestionsHidden && typeValue == old(typeValue)
      ensures start == StartSearch(old(suggestions)[k], old(typeValue))
      ensures start.SearchRequest? && reply.Found? ==>
                followUp == Some(FollowUpOf(start.query, start.searchType, |reply.response.results|))
      ensures Searched(start, reply, followUp)
      ensures suggestions == old(suggestions) && suggestionShown == old(suggestionShown)
    {
      queryValue := suggestions[k];
      suggestionsHidden := true;
      start, followUp := PerformSearch(reply);
    }

    /**
     * `checkUrlParameters`: a non-empty `q` fills the query field, a non-empty
     * `type` the type select, and the search runs; without `q` nothing happens.
     */
    method CheckUrlParameters(q: string, t: string, reply: SearchReply)
      returns (start: Option<SearchStart>, followUp: Option<FollowUp>)
      modifies this
      ensures start == UrlStart(q, t, old(typeValue))
      ensures q == "" ==> queryValue == old(queryValue) && typeValue == old(typeValue) && results == old(results)
      ensures q == "" ==> loadingShown == old(loadingShown) && resultsHidden == old(resultsHidden)
                          && errorShown == old(errorShown) && errorText == old(errorText)
      ensures q != "" ==> queryValue == q && typeValue == (if t != "" then t else old(typeValue))
      ensures q == "" ==> followUp.None?
      ensures q != "" ==> Searched(start.value, reply, followUp)
      ensures suggestions == old(suggestions) && suggestionShown == old(suggestionShown)
      ensures suggestionsHidden == old(suggestionsHidden)
    {
      if q == "" {
        return None, None;
      }
      queryValue := q;
      if t != "" {
        typeValue := t;
      }
      var s;
      s, followUp := PerformSearch(reply);
      start := Some(s);
    }
  }
}
