# googlev1 search, bookmarks and history — a Dafny model

googlev1 is a small web search application. Its Spring backend does four jobs:
- it answers searches through a web-search API, with a time-limited cache per (query, search type) pair;
- it fetches pages and extracts their readable text, keeping one copy per URL for 24 hours;
- it keeps bookmarks with notes, the search history and the user's preferences.

Its browser scripts render the results, the bookmark and history pages, the reading modal and the preferences panel. The repository holds two generations of these scripts. The scripts directly under `src/…/static/js` belong to the first application. The `pages/` and `core/` scripts belong to the multi-page one: `googlev1/…/static/js/core/app.js`, `googlev1/…/static/js/pages/search.js` and `pages/saved.js`, and `src/…/static/js/pages/history.js`.

This project models both sides in Dafny 4.11, one module per source file:
- Backend services become classes whose tables are sequences or maps. Each class has a `Valid()` invariant, and its methods are proved against specification functions (`SearchCache`, `Tavily`, `Content`, `SavedItems`, `SearchHistory`, `Preferences`, `UserHistory`).
- Page scripts become classes that hold the page's state: the visible sections, the cards, the pending confirmation and the modal. Their HTML templates become functions whose results are read back the way a browser reads them (`ResultsView`, `HistoryScript`, `HistoryPage`, `SavedScript`, `SavedPage`, `ContentViewer`, `SearchApp`, `CoreApp`, `SearchPage`).
- Shared modules hold the helpers:
  - `Text`: whitespace, trimming, word counting, paragraph splitting and number rendering.
  - `Html`: text-node serialisation, character-reference decoding and how attributes and inline script literals are read back.
  - `Ordering`: lookup by id, newest-first listing and top-k.
  - `Wrappers`: Option and Result.

Clocks, the network, the database and the DOM are parameters:
- Backend times are whole seconds. Script times are milliseconds.
- A fetch outcome is a datatype value passed in.
- A repository is the field of the class that owns it.

## Model

| member | source | states |
|---|---|---|
| Ordering.Insert | src/main/java/com/googlev1/repository/SavedItemRepository.java:15 | inserting a row into a newest-first list keeps it newest first and adds exactly that row |
| Ordering.SortNewestFirst | src/main/java/com/googlev1/repository/SavedItemRepository.java:15 | `OrderBy…Desc`: the same rows, each as often, with keys never increasing |
| Ordering.TopNewest | src/main/java/com/googlev1/repository/SearchHistoryRepository.java:15 | `findTop20By…Desc`: min(k, n) rows taken from the list, newest first, and no row left out is newer than a listed one |
| Ordering.TopNewestFacts | src/main/java/com/googlev1/repository/SearchHistoryRepository.java:15 | the first m rows of a newest-first arrangement are taken from the list, stay newest first and are no older than any row after them |
| ResultsView.Normalize | src/main/resources/static/js/results.js:153-162 | the title falls back to the name, then "Untitled result"; the URL to the link; the summary to the snippet, then the description, then "No summary provided."; the source to the publisher; the date to `published`; a missing record reads as all defaults; title and summary are never empty |
| ResultsView.NormalizeIdempotent | src/main/resources/static/js/results.js:153-162 | normalising an already normalised record gives it back unchanged |
| ResultsView.AlternativeNames | src/main/resources/static/js/results.js:156-158 | a record that uses `name`, `link` and `snippet` normalises like one that uses `title`, `url` and `summary` |
| ResultsView.CardMeta | src/main/resources/static/js/results.js:102 | the meta line is "Result" with neither source nor date, otherwise the source (or "Result") followed by the separator and the date when there is one |
| ResultsView.RenderCard | src/main/resources/static/js/results.js:100-110 | the card of the record at `index`: its index, and the meta line, title and summary of the normalised record, escaped |
| ResultsView.TotalPages | src/main/resources/static/js/results.js:118 | the page count is the ceiling of n / pageSize: zero exactly for no results, the pages hold all n results, and the last page is not empty |
| ResultsView.PageStart | src/main/resources/static/js/results.js:91 | the first position of any page from 1 on is not negative |
| ResultsView.Window | src/main/resources/static/js/results.js:92 | `slice(start, start + count)`: empty past the end, otherwise min(count, n - start) elements, each the element at `start + i` |
| ResultsView.Cards | src/main/resources/static/js/results.js:93-95 | one card per record, in order, the i-th numbered `first + i`, its position in the whole list |
| ResultsView.PageCards | src/main/resources/static/js/results.js:91-95 | the cards of one page: the window of the list at that page's start, numbered from it; `ResultOnItsPage` and `ResultOnNoOtherPage` prove where each result lands |
| ResultsView.PaginationButtons | src/main/resources/static/js/results.js:117-131 | no controls for one page or none; otherwise Prev, a button per page 1..n and Next, Prev disabled exactly on page 1, Next exactly on the last page, a number active exactly for the current page |
| ResultsView.RenderPagination | src/main/resources/static/js/results.js:124-131 | the loop that pushes the buttons builds exactly the controls `PaginationButtons` describes |
| ResultsView.OneActivePage | src/main/resources/static/js/results.js:126-129 | exactly one numbered control, the current page's, is marked active |
| ResultsView.Navigate | src/main/resources/static/js/results.js:135-142 | Prev goes back only from a page above 1, Next forward only below the last page, a number sets that page; from a page in range every in-range choice stays in range |
| ResultsView.NavigateStaysInRange | src/main/resources/static/js/results.js:124-142 | every control rendered for a page in range leads to a page in 1..totalPages |
| ResultsView.PrevUndoesNext | src/main/resources/static/js/results.js:136-139 | on any page but the last, Next then Prev returns to the same page |
| ResultsView.ResultOnItsPage | src/main/resources/static/js/results.js:91-95 | the result at position j is on page j / pageSize + 1, which exists, at place j % pageSize, and its card carries index j |
| ResultsView.ResultOnNoOtherPage | src/main/resources/static/js/results.js:91-95 | no other page shows a card for position j: pages do not overlap |
| ResultsView.ResultList.constructor | src/main/resources/static/js/results.js:2-15 | the script starts with no results, page size 6, page 1 and no handler, with nothing rendered and no listener |
| ResultsView.ResultList.RenderPage | src/main/resources/static/js/results.js:82-98 | an empty list shows the empty state and clears cards and controls; otherwise the current page's cards and the controls are rendered; the results, page and listener are untouched |
| ResultsView.ResultList.Display | src/main/resources/static/js/results.js:17-33 | the list is replaced by the array given (an empty list for anything else), the page size comes from the options (default 6), the page is reset to 1; with all three elements present the click listener is bound exactly once and page 1 is rendered, otherwise nothing is rendered |
| ResultsView.ResultList.ClickPageButton | src/main/resources/static/js/results.js:133-149 | a click moves to the page `Navigate` names, keeps it in 1..totalPages and renders it; the list, page size and listener stay |
| ResultsView.ResultList.ClickCard | src/main/resources/static/js/results.js:41-79 | without the listener, off the buttons, or for a card whose index has no record nothing happens; View opens the viewer with the record's URL, title and summary when the viewer exists; Save calls the options' handler, else the page's save function, with the summary defaulting to "" |
| SearchCache.Served | src/main/java/com/googlev1/service/SearchCacheService.java:67-74 | a hit is the stored response marked as from the cache and stamped with the lookup time, with the same query, type, results and count |
| SearchCache.Expired | src/main/java/com/googlev1/service/SearchCacheService.java:59 | a row is expired when its expiry time lies strictly before now |
| SearchCache.LookupAt | src/main/java/com/googlev1/service/SearchCacheService.java:46-83 | a response is served exactly when the pair has a row that has not expired and can be read; an expired row is deleted and nothing is served; a failing repository changes nothing |
| SearchCache.SaveAt | src/main/java/com/googlev1/service/SearchCacheService.java:93-131 | after a save at t the pair's row holds the response with createdAt t and expiresAt t + ttl minutes, every other row unchanged; a failed write changes nothing |
| SearchCache.EvictAt | src/main/java/com/googlev1/service/SearchCacheService.java:139-153 | exactly the rows whose expiry lies strictly before now are removed; the others are kept unchanged |
| SearchCache.SavedThenServed | src/main/java/com/googlev1/service/SearchCacheService.java:59-74 | a response saved at t is served, marked as cached and re-stamped, at any time up to t + ttl |
| SearchCache.ExpiredNeverServed | src/main/java/com/googlev1/service/SearchCacheService.java:59-64 | after t + ttl the saved response is not served and its row is deleted |
| SearchCache.LaterSaveWins | src/main/java/com/googlev1/service/SearchCacheService.java:101-124 | a second save for the same pair replaces the first: one row per pair |
| SearchCache.EvictionInvisible | src/main/java/com/googlev1/service/SearchCacheService.java:59-64 | sweeping expired rows never changes what a later lookup serves |
| SearchCache.SearchCacheService.constructor | src/main/java/com/googlev1/service/SearchCacheService.java:30-37 | an empty table, with the time-to-live defaulting to 60 minutes |
| SearchCache.SearchCacheService.GetCachedResult | src/main/java/com/googlev1/service/SearchCacheService.java:46-83 | the response served and the rows afterwards are those `LookupAt` gives |
| SearchCache.SearchCacheService.SaveToCache | src/main/java/com/googlev1/service/SearchCacheService.java:93-131 | the rows afterwards are those `SaveAt` gives with the configured time-to-live |
| SearchCache.SearchCacheService.EvictExpiredEntries | src/main/java/com/googlev1/service/SearchCacheService.java:139-153 | the rows afterwards are those `EvictAt` gives, or unchanged when the deletion fails |
| SearchCache.SearchCacheService.GetCacheEntryCount | src/main/java/com/googlev1/service/SearchCacheService.java:160-167 | the number of rows, or 0 when counting fails |
| Tavily.AsText | src/main/java/com/googlev1/service/TavilyService.java:202 | the text of a JSON string is the string itself; a container reads as "" |
| Tavily.GetTextValue | src/main/java/com/googlev1/service/TavilyService.java:200-203 | the text of the field, "" when the field is absent or JSON null |
| Tavily.ResultNodes | src/main/java/com/googlev1/service/TavilyService.java:165-166 | the elements of the `results` array, none when it is missing or not an array |
| Tavily.ToResult | src/main/java/com/googlev1/service/TavilyService.java:168-173 | one hit read field by field: title, URL, `content` as the summary, `raw_content` as the content |
| Tavily.ErrorResponse | src/main/java/com/googlev1/service/TavilyService.java:253-264 | an error response has no results, count 0, is not from the cache and echoes the query and type |
| Tavily.ParseApiResponse | src/main/java/com/googlev1/service/TavilyService.java:159-191 | one result per element of `results`, in order, each read field by field (`content` as the summary, `raw_content` as the content), the count equal to the number of results, not from the cache; a body that does not parse gives the error response |
| Tavily.RequestFor | src/main/java/com/googlev1/service/TavilyService.java:83-92 | the request carries the key and query, basic depth, no answer, images or raw content, at most 10 results, and the topic "news" exactly for "news" searches, "general" otherwise |
| Tavily.TavilyService.constructor | src/main/java/com/googlev1/service/TavilyService.java:38-61 | a new service is healthy and has made no successful call |
| Tavily.TavilyService.Search | src/main/java/com/googlev1/service/TavilyService.java:71-131 | a cache hit is returned as it is, with no request and no change to the health fields; otherwise the request is sent and a reply makes the service healthy, stamps the call time and is cached; an HTTP error or a timeout makes it unhealthy and falls back to the cache, else to the error response; any other failure makes it unhealthy and answers with the error response without a second lookup |
| Tavily.TavilyService.FallBack | src/main/java/com/googlev1/service/TavilyService.java:213-243 | the cached response when the second lookup finds one, otherwise the error response |
| Tavily.FallbackAfterCleanMiss | src/main/java/com/googlev1/service/TavilyService.java:75-79 | within one search, a fallback lookup cannot find what a clean first lookup missed |
| Tavily.UnreadableReplyIsCached | src/main/java/com/googlev1/service/TavilyService.java:104-111 | a reply that does not parse is cached as an empty response and served from the cache for the whole time-to-live |
| Content.ExtractTitle | src/main/java/com/googlev1/service/ContentService.java:89-98 | a title is found exactly when `<title>` occurs (ignoring case) and the first `</title>` comes after it; the title has no whitespace run and no whitespace at either end |
| Content.RemoveElements | src/main/java/com/googlev1/service/ContentService.java:101-102 | removing script or style elements never lengthens the text and leaves only its own characters and spaces |
| Content.StripTags | src/main/java/com/googlev1/service/ContentService.java:103 | every tag becomes a space: no tag remains, the text is no longer, every character is the input's or a space, and a leading character that opens no tag is kept |
| Content.Truncate | src/main/java/com/googlev1/service/ContentService.java:105-108 | a text up to 200000 characters is kept; a longer one is cut to its first 200000 characters followed by "..." |
| Content.Squeeze | src/main/java/com/googlev1/service/ContentService.java:104-108 | the collapsed, trimmed and cut text has no whitespace run and no whitespace at either end, and at most 200003 characters |
| Content.ExtractText | src/main/java/com/googlev1/service/ContentService.java:100-109 | the extracted text has no whitespace run, no whitespace at either end and at most 200003 characters |
| Content.CountWords | src/main/java/com/googlev1/service/ContentService.java:111-117 | the count is the number of maximal runs of non-whitespace characters: 0 for blank text, the number of pieces the trimmed text splits into otherwise |
| Content.PageTitle | src/main/java/com/googlev1/service/ContentService.java:56-60 | the page's own title when there is one and it is not blank, the URL otherwise; never blank for a URL that is not blank |
| Content.PageBody | src/main/java/com/googlev1/service/ContentService.java:57-63 | the extracted text, or the fixed "No readable content…" message when it is blank; never blank, at most 200003 characters |
| Content.Normalize | src/main/java/com/googlev1/service/ContentService.java:54-67 | the new row carries the URL, the fetch time, the title and body above and a word count equal to the body's, at least 1 |
| Content.FetchHtml | src/main/java/com/googlev1/service/ContentService.java:69-87 | the body of a response with a status below 400; a status from 400 on or no response at all fails |
| Content.GetContentAsWritten | src/main/java/com/googlev1/service/ContentService.java:31-43 | as written: a servable row is answered from the store; otherwise the renewed row is inserted beside the stored one, so a URL that has a row always fails |
| Content.StaleRowNeverRefreshedAsWritten | src/main/java/com/googlev1/service/ContentService.java:40-41 | as written, a row older than 24 hours is never refreshed: the fetch succeeds and the insert is rejected by the unique URL column |
| Content.GetContentAt | src/main/java/com/googlev1/service/ContentService.java:31-43 | corrected (Findings row 1): without forceRefresh a stored row that is not stale is answered with cached = true and nothing is fetched; otherwise the page is fetched, its row replaces the URL's row and is answered with cached = false; a failed fetch changes nothing |
| Content.IsStale | src/main/java/com/googlev1/service/ContentService.java:50-52 | a row is stale when it has no fetch time or was fetched more than 24 hours before now; `FreshRowServable` proves a row fetched at t is not stale until t + 24h |
| Content.ToResponse | src/main/java/com/googlev1/service/ContentService.java:120-127 | the reply carries the row's URL, title, text, word count and fetch time with the cached flag |
| Content.FetchedThenCached | src/main/java/com/googlev1/service/ContentService.java:31-43 | corrected (Findings row 1): after a fetch at t, the same URL is answered from the store, with the same text, at any time up to t + 24 hours, whatever the page does meanwhile |
| Content.FreshRowServable | src/main/java/com/googlev1/service/ContentService.java:33-52 | a row fetched at t is not stale, and is served, at any time up to t + 24 hours |
| Content.EvictAt | src/main/java/com/googlev1/service/ContentService.java:45-48 | exactly the rows fetched strictly before now - 24 hours are deleted, the others kept unchanged |
| Content.EvictionKeepsServable | src/main/java/com/googlev1/service/ContentService.java:45-52 | the sweep never changes what a later request is answered from the store |
| Content.StoreKeepsRowsValid | src/main/java/com/googlev1/service/ContentService.java:40-66 | storing a row whose word count is its body's keeps every row filed under its URL with its body's word count |
| Content.ContentService.constructor | src/main/java/com/googlev1/service/ContentService.java:24-29 | a service over an empty store |
| Content.ContentService.GetContent | src/main/java/com/googlev1/service/ContentService.java:31-43 | corrected (Findings row 1): the answer and the rows afterwards are those `GetContentAt` gives, and every row keeps its URL and word count |
| Content.ContentService.EvictStaleEntries | src/main/java/com/googlev1/service/ContentService.java:45-48 | the rows afterwards are those `EvictAt` gives and the result is the number deleted |
| SearchHistory.NormalType | src/main/java/com/googlev1/service/SearchHistoryService.java:37-41 | a missing or blank type becomes "general"; any other type is kept exactly as given |
| SearchHistory.NewestMatch | src/main/java/com/googlev1/service/SearchHistoryService.java:44-47 | nothing exactly when no row has that query and type; otherwise a row with that query and type whose time is the latest among them |
| SearchHistory.SaveAt | src/main/java/com/googlev1/service/SearchHistoryService.java:32-65 | a missing or blank query is rejected with "Query must not be empty" and stores nothing; otherwise the trimmed query and normalised type are looked up, and a match stored less than 30 seconds ago is answered without storing anything; else exactly one new row is appended with the trimmed query, the type, the count as given and the current time |
| SearchHistory.StoredRowIsNormal | src/main/java/com/googlev1/service/SearchHistoryService.java:33-62 | a stored row's query is not empty and has no whitespace at either end, its type is not blank, and its time is the save time |
| SearchHistory.StoredRow | src/main/java/com/googlev1/service/SearchHistoryService.java:58-64 | a save that stores something was given a non-blank query and stores the row built from the trimmed query, the normalised type, the count and the current time |
| SearchHistory.RepeatWithinWindowStoresOnce | src/main/java/com/googlev1/service/SearchHistoryService.java:44-56 | sending the same search again less than 30 seconds after it was stored stores nothing more and is answered with a row |
| SearchHistory.SearchHistoryService.constructor | src/main/java/com/googlev1/service/SearchHistoryService.java:20-22 | an empty history |
| SearchHistory.SearchHistoryService.GetRecentHistory | src/main/java/com/googlev1/service/SearchHistoryService.java:24-29 | min(20, n) rows, newest first, taken from the history, none left out that is newer than one listed |
| SearchHistory.SearchHistoryService.SaveHistory | src/main/java/com/googlev1/service/SearchHistoryService.java:32-65 | the answer and the rows afterwards are those `SaveAt` gives; the identity counter moves only when a row is stored |
| SearchHistory.SearchHistoryService.ClearAll | src/main/java/com/googlev1/service/SearchHistoryService.java:67-70 | the history is empty afterwards |
| Ordering.FindKey | src/main/java/com/googlev1/service/SavedItemService.java:51-52 | `findById` for bookmarks, history rows and preference rows: the position of the first row with that key; none exactly when no row has it |
| SavedItems.RemoveAt | src/main/java/com/googlev1/service/SavedItemService.java:65 | one row fewer |
| SavedItems.RemoveAtKeepsKeys | src/main/java/com/googlev1/service/SavedItemService.java:61-66 | deleting one bookmark keeps URLs and ids unique and removes exactly the rows with its id |
| SavedItems.RemoveAtFreesUrl | src/main/java/com/googlev1/service/SavedItemService.java:61-66 | once a bookmark is deleted its URL is no longer saved and may be saved again |
| SavedItems.AppendKeepsKeys | src/main/java/com/googlev1/service/SavedItemService.java:34-44 | adding a bookmark with a new URL and a fresh id keeps URLs and ids unique, and its URL is then saved |
| SavedItems.SavedItemService.constructor | src/main/java/com/googlev1/service/SavedItemService.java:18-20 | no bookmarks |
| SavedItems.SavedItemService.SaveItem | src/main/java/com/googlev1/service/SavedItemService.java:32-46 | a URL already saved is refused with "This URL is already saved" and nothing changes; otherwise exactly one bookmark is added with the given title, URL and summary, no notes and the current time |
| SavedItems.SavedItemService.UpdateNotes | src/main/java/com/googlev1/service/SavedItemService.java:50-57 | an unknown id fails with "Saved item not found" and nothing changes; otherwise only that bookmark's notes change |
| SavedItems.SavedItemService.DeleteItem | src/main/java/com/googlev1/service/SavedItemService.java:61-66 | an unknown id fails and nothing changes; otherwise exactly that bookmark is removed |
| SavedItems.SavedItemService.CheckUrlExists | src/main/java/com/googlev1/service/SavedItemService.java:69-71 | true exactly when some bookmark has that URL |
| SavedItems.SavedItemService.GetAllSavedItems | src/main/java/com/googlev1/service/SavedItemService.java:23-28 | every bookmark, each once, newest saving date first |
| Preferences.Defaults | googlev1/src/main/java/com/googlev1/service/PreferenceService.java:18-24 | the unsaved defaults: query "latest news", type "general", theme "light", tips on |
| Preferences.Latest | src/main/java/com/googlev1/repository/PreferenceRepository.java:13-14 | none exactly when nothing is stored; otherwise a stored row whose update time no other row exceeds |
| Preferences.Merge | googlev1/src/main/java/com/googlev1/service/PreferenceService.java:43-55 | each non-null field of the update replaces the existing field; every other field, the id and the update time are kept |
| Preferences.NoChange | googlev1/src/main/java/com/googlev1/service/PreferenceService.java:44-55 | an update all of whose fields are null |
| Preferences.MergeNothing | googlev1/src/main/java/com/googlev1/service/PreferenceService.java:44-55 | an all-null update leaves the preferences unchanged |
| Preferences.MergeIdempotent | googlev1/src/main/java/com/googlev1/service/PreferenceService.java:44-55 | applying the same update twice equals applying it once |
| Preferences.Bind | src/main/java/com/googlev1/entity/UserPreference.java:14-24 | a property left out of the body keeps the field's initial value, an explicit null gives null, a given value is taken |
| Preferences.BindAsEntity | src/main/java/com/googlev1/controller/PreferenceController.java:41-43 | a body bound to a fresh entity carries "general", "light" and tips on for every property it leaves out |
| Preferences.ThemeChangeResetsOtherFields | src/main/java/com/googlev1/entity/UserPreference.java:17-24 | as written, a theme-only update also resets a stored "news" type to "general" and turns stored-off tips back on |
| Preferences.BindAsPatch | googlev1/src/main/java/com/googlev1/service/PreferenceService.java:44-55 | a property left out or null becomes a null update field; a given one becomes that value |
| Preferences.PatchChangesOnlyGivenFields | googlev1/src/main/java/com/googlev1/service/PreferenceService.java:43-56 | read as a patch, an update changes exactly the properties it gives, each to the given value |
| Preferences.ThemeChangeKeepsOtherFields | googlev1/src/main/java/com/googlev1/service/PreferenceService.java:50-52 | corrected (Findings row 2): a theme-only patch sets the theme and keeps query, type and tips |
| Preferences.RepeatedValuesChangeNothing | src/main/java/com/googlev1/entity/UserPreference.java:29-33 | a request whose given properties repeat the stored ones merges into the stored row unchanged, so the update hook does not fire and the update time is kept |
| Preferences.PreferenceService.GetLatestPreferences | googlev1/src/main/java/com/googlev1/service/PreferenceService.java:17-25 | the defaults when nothing is stored, otherwise a stored row with the greatest update time |
| Preferences.PreferenceService.SavePreferences | googlev1/src/main/java/com/googlev1/service/PreferenceService.java:30-38 | both branches save the same way: a row with a stored id is replaced in place, any other is appended under a new id; the fields are kept; an append is stamped now, a replacement only when it differs from the stored row, which otherwise stays with its update time |
| Preferences.PreferenceService.UpdatePreferences | googlev1/src/main/java/com/googlev1/service/PreferenceService.java:43-57 | the merged fields are saved, replacing the existing row when it is stored (stamped now only when the merge changed it) and appending it under the next id, stamped now, otherwise |
| Preferences.PreferenceService.UpdateSearchPreferences | src/main/java/com/googlev1/controller/PreferenceController.java:40-54 | corrected (Findings row 2): the request read as a patch is merged into the latest row, which is saved in place under its own id, stamped now only when the merge changed it, every other row kept; with nothing stored the merged defaults become the only row, under the next id |
| Preferences.PreferenceService.UpdateLatest | src/main/java/com/googlev1/controller/PreferenceController.java:42-43 | the bound request merged into the latest row (or the defaults); the merge is stamped now when it inserts or changes a row, and an unchanged latest row keeps its update time; the latest row is replaced in place under its own id and the other rows and the row count stay; with nothing stored one row is inserted under the next id |
| Preferences.PreferenceService.UpdateSearchPreferencesAsWritten | src/main/java/com/googlev1/controller/PreferenceController.java:40-54 | as-written half of Findings row 2: the request bound to a new entity is merged, so a property it leaves out writes the entity's initialiser; the table changes as for the corrected endpoint |
| Preferences.PreferenceService.constructor | src/main/java/com/googlev1/repository/PreferenceRepository.java:11 | an empty table whose identity starts at 1 |
| UserHistory.Keep | googlev1/src/main/java/com/googlev1/repository/SearchHistoryRepository.java:34-39 | exactly the rows the selection keeps, in their order, never more rows, ids still increasing |
| UserHistory.OfUser | googlev1/src/main/java/com/googlev1/repository/SearchHistoryRepository.java:29 | exactly the rows the user owns |
| UserHistory.WithoutUser | googlev1/src/main/java/com/googlev1/repository/SearchHistoryRepository.java:39 | exactly the rows of other users, ids still increasing |
| UserHistory.NotBefore | googlev1/src/main/java/com/googlev1/repository/SearchHistoryRepository.java:34 | exactly the rows dated at or after the cutoff, ids still increasing |
| UserHistory.ClearUserIsolated | googlev1/src/main/java/com/googlev1/service/SearchHistoryService.java:80-82 | after clearing a user's history that user has no rows and every other user keeps exactly theirs |
| UserHistory.RecentIsPrefixOfAll | googlev1/src/main/java/com/googlev1/service/SearchHistoryService.java:31-40 | the limited listing is the start of the full newest-first listing |
| UserHistory.SearchHistoryService.constructor | googlev1/src/main/java/com/googlev1/service/SearchHistoryService.java:16-17 | an empty table whose identity starts at 1 |
| UserHistory.SearchHistoryService.SaveSearch | googlev1/src/main/java/com/googlev1/service/SearchHistoryService.java:23-26 | the search is appended as given, dated now, for the default user, under the next id |
| UserHistory.SearchHistoryService.GetAllHistory | googlev1/src/main/java/com/googlev1/repository/SearchHistoryRepository.java:17-18 | every stored row, as a permutation, newest first |
| UserHistory.SearchHistoryService.GetRecentHistory | googlev1/src/main/java/com/googlev1/repository/SearchHistoryRepository.java:23-24 | a negative limit is refused (it reaches the query's `LIMIT` unchecked); otherwise min(limit, n) rows taken from the table, newest first, none left out newer than one listed |
| UserHistory.SearchHistoryService.GetHistoryByUser | googlev1/src/main/java/com/googlev1/repository/SearchHistoryRepository.java:29 | exactly the user's rows, newest first |
| UserHistory.SearchHistoryService.GetHistoryById | googlev1/src/main/java/com/googlev1/service/SearchHistoryService.java:52-54 | the row with that id, or none exactly when no row has it |
| UserHistory.SearchHistoryService.DeleteHistoryEntry | googlev1/src/main/java/com/googlev1/service/SearchHistoryService.java:60-66 | true exactly when a row had the id; afterwards exactly the rows with other ids remain |
| UserHistory.SearchHistoryService.ClearAllHistory | googlev1/src/main/java/com/googlev1/service/SearchHistoryService.java:72-74 | no rows remain and the identity is not reset |
| UserHistory.SearchHistoryService.ClearHistoryForUser | googlev1/src/main/java/com/googlev1/service/SearchHistoryService.java:80-82 | exactly the rows of other users remain |
| UserHistory.SearchHistoryService.DeleteOldHistory | googlev1/src/main/java/com/googlev1/service/SearchHistoryService.java:88-91 | exactly the rows dated at or after now minus the given days remain |
| UserHistory.SearchHistoryService.GetHistoryCount | googlev1/src/main/java/com/googlev1/service/SearchHistoryService.java:96-98 | the number of stored rows |
| HistoryScript.AgeOf | src/main/resources/static/js/history.js:268-274 | the bucket of an age in whole seconds: seconds below a minute, then whole minutes, hours and days each within its range, whole weeks from 604800 on |
| HistoryScript.TimeAgo | src/main/resources/static/js/history.js:264-274 | nothing exactly when there is no timestamp; otherwise the label of the whole seconds elapsed |
| HistoryScript.AgeLabel | src/main/resources/static/js/history.js:264-275 | the whole number of the bucket followed by "s ago", "m ago", "h ago", "d ago" or "w ago" |
| HistoryScript.QuoteInQueryIsCut | src/main/resources/static/js/history.js:151 | as written, a query holding a double quote is read back from the data-query attribute cut at the quote |
| HistoryScript.DataQueryAsWritten | src/main/resources/static/js/history.js:151 | as-written half of Findings row 3: `data-query` is the text-node serialisation, which keeps the double quote |
| HistoryScript.RowOf | src/main/resources/static/js/history.js:147-176 | corrected (Findings row 3): the row's data-query reads back as the exact query, its type is the stored type or "general", its result count the stored count or 0 |
| HistoryScript.RowsOf | src/main/resources/static/js/history.js:141 | one row per item, in order |
| HistoryScript.Rerun | src/main/resources/static/js/history.js:180-206 | a click navigates with the query and type read back from the row's data attributes, no type when that is empty; `RerunRepeatsSearch` proves what it reads |
| HistoryScript.RerunRepeatsSearch | src/main/resources/static/js/history.js:180-206 | corrected (Findings row 3): re-running a row navigates to a search for the stored query, whatever its characters, with the stored type or "general" |
| HistoryScript.HistoryRequest | src/main/resources/static/js/history.js:241-252 | no request exactly when the query is missing or blank; otherwise the trimmed query, the type or "general" and the count or 0 |
| HistoryScript.PostIsStoredAsSent | src/main/resources/static/js/history.js:241-252 | every request the page sends is accepted by the history service, which answers a row with exactly the sent query and the page's type or "general": either a new row stored now under the next id with the page's count or 0, or the earlier row of the same search stored less than 30 seconds before |
| HistoryScript.HistoryView.constructor | src/main/resources/static/js/history.js:26 | no pending action, modal closed, no rows |
| HistoryScript.HistoryView.DisplayHistory | src/main/resources/static/js/history.js:120-144 | corrected (Findings row 3): count label and clear button follow the list; an empty list hides the section and shows the empty state keeping the old rows; otherwise one row per item |
| HistoryScript.HistoryView.ShowClearConfirm | src/main/resources/static/js/history.js:65-91 | the pending action becomes "clearAll" and the modal opens; the list, labels and flags stay |
| HistoryScript.HistoryView.Close | src/main/resources/static/js/history.js:94-99 | without a modal nothing changes; otherwise the modal closes and the pending action is forgotten; the list, labels and flags stay |
| HistoryScript.HistoryView.Confirm | src/main/resources/static/js/history.js:49-54 | the history is cleared exactly when "clearAll" was pending, and the modal then closes; the list, labels and flags stay |
| HistoryScript.HistoryView.PressEscape | src/main/resources/static/js/history.js:57-61 | Escape closes the modal only while it is open; the list, labels and flags stay |
| HistoryPage.AgeOf | src/main/resources/static/js/pages/history.js:210-222 | "just now" exactly below a minute, an absolute date exactly from seven days on; otherwise floor minutes, hours or days, each in its range |
| HistoryPage.CountAgo | src/main/resources/static/js/pages/history.js:218-220 | "1 unit ago" for one, otherwise the count with the plural unit |
| HistoryPage.AgeLabel | src/main/resources/static/js/pages/history.js:217-222 | no relative label exactly for the absolute date; "Just now" for under a minute |
| HistoryPage.SingularExactlyForOne | src/main/resources/static/js/pages/history.js:218-220 | for every relative age the unit is plural exactly when the count is not 1 |
| HistoryPage.RerunSearch | src/main/resources/static/js/pages/history.js:110-117 | the query as given, and the type or "general" when it is empty |
| HistoryPage.ArticleOf | src/main/resources/static/js/pages/history.js:69-99 | the article carries the item's id and type, shows its query as the text it is, the age of its search date and the count or 0 |
| HistoryPage.HistoryPage.constructor | src/main/resources/static/js/pages/history.js:47-51 | an empty container with no badge text |
| HistoryPage.HistoryPage.RenderHistory | src/main/resources/static/js/pages/history.js:47-105 | a missing or empty list empties the container, shows the empty state, reads "0 searches" and hides the clear button; otherwise one article per item in order, the count badge and the clear button shown |
| SavedScript.CardOf | src/main/resources/static/js/saved.js:126-158 | the card carries the bookmark's id and shows its title, URL and summary as the text they are, the summary defaulting to "No description available" |
| SavedScript.CardsOf | src/main/resources/static/js/saved.js:119 | one card per bookmark, in order |
| SavedScript.RemoveTitle | src/main/resources/static/js/saved.js:166 | the title read back from the card's `data-title`, or "this item" when it is empty; `RemoveNamesTitle` proves it is the bookmark's title |
| SavedScript.RemoveNamesTitle | src/main/resources/static/js/saved.js:162-168 | the remove button names the bookmark's own title in the modal, or "this item" for an untitled one |
| SavedScript.SavedView.constructor | src/main/resources/static/js/saved.js:25 | nothing pending, modal closed, no cards |
| SavedScript.SavedView.DisplayItems | src/main/resources/static/js/saved.js:106-123 | the count always follows the list; an empty list hides the section and shows the empty state keeping the old cards; otherwise one card per bookmark; the modal and its title stay |
| SavedScript.SavedView.ShowConfirmModal | src/main/resources/static/js/saved.js:58-78 | the bookmark to delete is remembered and the modal opens naming it; the count, section, empty state and cards stay |
| SavedScript.SavedView.ClickRemove | src/main/resources/static/js/saved.js:162-168 | the modal opens for the clicked card's bookmark, with the title read back from the card; the count, section, empty state and cards stay |
| SavedScript.SavedView.Close | src/main/resources/static/js/saved.js:81-85 | the modal closes and the pending bookmark is forgotten; the modal's title, the count, section, empty state and cards stay |
| SavedScript.SavedView.Confirm | src/main/resources/static/js/saved.js:42-47 | exactly the pending bookmark, if any, is deleted, and the modal closes; the modal's title, the count, section, empty state and cards stay |
| SavedScript.SavedView.PressEscape | src/main/resources/static/js/saved.js:50-54 | Escape closes the modal only while it is open; the modal's title, the count, section, empty state and cards stay |
| SavedPage.FormatDate | googlev1/src/main/resources/static/js/pages/saved.js:180-194 | by whole elapsed days: "today" exactly for 0, "yesterday" exactly for 1, "N days ago" exactly for other counts below 7 (negative ones included), the absolute date exactly from 7 on |
| SavedPage.DateWords | googlev1/src/main/resources/static/js/pages/saved.js:185-188 | "today", "yesterday", "N days ago", or no words for the absolute date |
| SavedPage.EscapeForAttribute | googlev1/src/main/resources/static/js/pages/saved.js:209-212 | no single or double quote is left, and empty text stays empty |
| SavedPage.EscapeForAttributeIsOnePass | googlev1/src/main/resources/static/js/pages/saved.js:209-212 | the two chained replacements equal one pass turning each quote into its character reference and keeping every other character |
| SavedPage.EditArgumentDecoded | googlev1/src/main/resources/static/js/pages/saved.js:84 | the browser's decoding of the onclick attribute gives back the notes exactly, apostrophes included |
| SavedPage.ApostropheEndsEditArgument | googlev1/src/main/resources/static/js/pages/saved.js:84 | as written, notes holding an apostrophe do not reach the edit handler as a string literal |
| SavedPage.SummaryShown | googlev1/src/main/resources/static/js/pages/saved.js:68 | the summary reads back as itself, or "No description" without one |
| SavedPage.SummaryHtml | googlev1/src/main/resources/static/js/pages/saved.js:68 | the summary escaped, or "No description"; `SummaryShown` proves what it reads back as |
| SavedPage.ArticleOf | googlev1/src/main/resources/static/js/pages/saved.js:59-92 | corrected (Findings row 7): the article of one bookmark, its notes in an escaped data attribute; `ArticleShowsBookmark` proves what it shows |
| SavedPage.ArticleShowsBookmark | googlev1/src/main/resources/static/js/pages/saved.js:59-92 | corrected (Findings row 7): an article shows title, URL and summary as the text they are; the notes block and "Edit Notes" appear exactly with notes, "Add Notes" otherwise; the edit button hands over the notes exactly |
| SavedPage.EditNotes | googlev1/src/main/resources/static/js/pages/saved.js:103-109 | a request exactly when the prompt was not cancelled, carrying the id and the answer, even an empty one |
| SavedPage.BuildArticles | googlev1/src/main/resources/static/js/pages/saved.js:54-93 | one article per bookmark, in list order |
| SavedPage.SavedPage.constructor | googlev1/src/main/resources/static/js/pages/saved.js:36-39 | an empty container and no badge text |
| SavedPage.SavedPage.RenderSavedItems | googlev1/src/main/resources/static/js/pages/saved.js:36-98 | corrected (Findings row 7): a missing or empty list empties the container, shows the empty state and reads "0 items"; otherwise one article per bookmark in order under the count badge |
| ContentViewer.Decoded | src/main/resources/static/js/content-viewer.js:131-135 | the text of each paragraph, decoded, one per paragraph |
| ContentViewer.EscapeAll | src/main/resources/static/js/content-viewer.js:127 | each block escaped, one per block |
| ContentViewer.FormatParagraphs | src/main/resources/static/js/content-viewer.js:120-129 | blank text gives the single placeholder paragraph; otherwise the paragraphs decode to the blocks of the trimmed text between runs of two or more line feeds |
| ContentViewer.ParagraphsRejoin | src/main/resources/static/js/content-viewer.js:125-128 | the paragraphs joined with a blank line give back the trimmed text with its blank-line runs squashed |
| ContentViewer.RenderContent | src/main/resources/static/js/content-viewer.js:103-112 | the title is never empty: the reply's, else the stored one, else "Untitled"; "Cached" exactly for cached replies; the word count or 0; the text or the placeholder as paragraphs |
| ContentViewer.RenderError | src/main/resources/static/js/content-viewer.js:114-118 | the fixed error title, no meta line, and the escaped message or "Unknown error" |
| ContentViewer.ErrorMessage | src/main/resources/static/js/content-viewer.js:77 | "Request failed (N)" for an HTTP error, else the request error's own message |
| ContentViewer.ViewAfter | src/main/resources/static/js/content-viewer.js:74-83 | a loaded reply is rendered as content, a failed request as its error |
| ContentViewer.ContentViewer.constructor | src/main/resources/static/js/content-viewer.js:2-8 | nothing found yet, no listeners, closed |
| ContentViewer.ContentViewer.BindModalActions | src/main/resources/static/js/content-viewer.js:32-59 | listeners are attached once, and only once the modal is found |
| ContentViewer.ContentViewer.Init | src/main/resources/static/js/content-viewer.js:10-30 | succeeds exactly when the page has the modal, which then has its listeners attached |
| ContentViewer.ContentViewer.Open | src/main/resources/static/js/content-viewer.js:61-84 | without a modal nothing changes; otherwise the URL, the title (the URL when none is given) and the summary are recorded, the modal opens and shows the content or the error; a first open finds the modal and attaches the listeners |
| ContentViewer.ContentViewer.Close | src/main/resources/static/js/content-viewer.js:86-92 | closes the modal once it is found, and otherwise changes nothing; the page, the summary and the listeners stay |
| ContentViewer.ContentViewer.PressEscape | src/main/resources/static/js/content-viewer.js:54-58 | once listeners are attached, Escape closes the modal; before that it changes nothing; everything else stays |
| ContentViewer.ContentViewer.Save | src/main/resources/static/js/content-viewer.js:47-52 | a save call exactly when listeners are attached and saving is available, carrying the open page's title, URL and summary |
| ContentViewer.OpenSaveClose | src/main/resources/static/js/content-viewer.js:47-92 | on a page with the modal, an opened page is saved under its title (or URL), URL and summary, and a close then closes the modal with the listeners still attached |
| SearchApp.SearchRequestFor | src/main/resources/static/js/app.js:138-144 | no request exactly for a blank query; otherwise the trimmed, non-empty query and the selected type |
| SearchApp.ParamsSearch | src/main/resources/static/js/app.js:94-104 | no search for an empty q parameter; otherwise the search the form makes, with the type parameter replacing the selected type when given |
| SearchApp.RerunFromHistorySearchesAgain | src/main/resources/static/js/app.js:94-104 | a row of the history page re-run through the URL parameters searches again for the stored query with its stored type, or "general" |
| SearchApp.CardSummary | src/main/resources/static/js/app.js:208 | never empty: the summary, else the content, else "No description available" |
| SearchApp.SaveSummary | src/main/resources/static/js/app.js:372 | the summary, else the content (possibly empty) |
| SearchApp.CardOf | src/main/resources/static/js/app.js:203-233 | the card carries its index, is marked saved and reads "Saved" exactly when the URL is bookmarked, shows the title or "Untitled" and the card summary as the text they are |
| SearchApp.CardsOf | src/main/resources/static/js/app.js:195-197 | one card per result, in order, each with its index |
| SearchApp.CountLineMarksCache | src/main/resources/static/js/app.js:191-192 | the count line ends with " (cached)" exactly when the results came from the cache |
| SearchApp.CountLine | src/main/resources/static/js/app.js:191-192 | the result count, " results found", and " (cached)" for a cached reply |
| SearchApp.FormatContent | src/main/resources/static/js/app.js:350-353 | one paragraph per block between runs of two or more line feeds, each reading back as its block trimmed |
| SearchApp.FetchedTextNeverShown | src/main/resources/static/js/app.js:314 | as written, the modal never shows the fetched text: only the result's summary or the placeholder |
| SearchApp.FieldsOf | src/main/resources/static/js/app.js:306-314 | the fields the modal script finds in the content reply: title, `content`, and no `body` |
| SearchApp.ModalTextAsWritten | src/main/resources/static/js/app.js:314 | as-written half of Findings row 4: `data.body`, else the summary, else "No content available" |
| SearchApp.FetchedHelloShownAsPlaceholder | src/main/resources/static/js/app.js:314 | as written, a page whose text is "Hello", opened from a result without a summary, shows only the placeholder |
| SearchApp.ModalText | src/main/resources/static/js/app.js:314 | corrected (Findings row 4): the reply's text, else the result's summary, else "No content available" |
| SearchApp.FreshPageReachesModal | src/main/resources/static/js/app.js:302-315 | corrected (Findings row 4): the readable text the content service extracts from a freshly fetched page is exactly what the modal shows |
| SearchApp.StatusText | src/main/resources/static/js/app.js:110-129 | "API Online" exactly for a healthy reply, "API Issues" exactly for an unhealthy one, "API Offline" exactly when the request failed |
| SearchApp.SearchPage.constructor | src/main/resources/static/js/app.js:16-17 | no results, no bookmarked URLs, the modal closed |
| SearchApp.SearchPage.DisplayResults | src/main/resources/static/js/app.js:176-201 | without results the section is hidden and the empty state shown; otherwise the header names the query, the count line marks the cache and the cards follow the results |
| SearchApp.SearchPage.HandleSearch | src/main/resources/static/js/app.js:135-174 | a blank query makes no request and changes nothing; a failed search keeps the results and the cards and hides both sections; a successful one replaces the results (by none without results), records the search in the history with the result count, and shows the "Results for" title, the count line and one card per result, or the empty state with the old cards and lines kept; the modal is never touched |
| SearchApp.SearchPage.ClearResults | src/main/resources/static/js/app.js:263-269 | no results, the section hidden, the empty state shown and the query box empty; the saved set, the cards, the heading lines and the modal stay |
| SearchApp.SearchPage.LoadSavedUrls | src/main/resources/static/js/app.js:359-367 | exactly the URLs of the loaded bookmarks, or unchanged when loading failed; every other part of the page stays |
| SearchApp.SearchPage.SaveResult | src/main/resources/static/js/app.js:369-408 | posts title, URL and summary; only a created bookmark adds its URL to the set and marks the card's button; a refusal reports its error or "Failed to save" and changes nothing; the results, the heading lines, the sections and the modal stay |
| SearchApp.SearchPage.OpenContentModal | src/main/resources/static/js/app.js:277-326 | corrected (Findings row 4): the modal opens on the result, its save button disabled exactly when the URL is bookmarked, then shows the reply's title and text or the summary fallback with a link; the save button reads "Saved" exactly for a bookmarked URL; the results area stays |
| SearchApp.SearchPage.CloseContentModal | src/main/resources/static/js/app.js:328-332 | the modal hides and forgets its result; every other part of the page stays |
| SearchApp.SearchPage.SaveCurrentContent | src/main/resources/static/js/app.js:334-348 | nothing without an open result; otherwise saves it, the button disabled and reading "Saved" on success, enabled again on failure; the results area and the rest of the modal stay |
| CoreApp.NormalTheme | googlev1/src/main/resources/static/js/core/app.js:276-278 | always "dark" or "light": those two are kept, every other value becomes "light" |
| CoreApp.EffectiveTheme | googlev1/src/main/resources/static/js/core/app.js:208 | never empty: the preference's theme, else the stored theme, else "light" |
| CoreApp.TextAfter | googlev1/src/main/resources/static/js/core/app.js:220-234 | a field is overwritten only by a non-empty preference and otherwise keeps its value |
| CoreApp.TipsAfter | googlev1/src/main/resources/static/js/core/app.js:236-239 | a missing flag leaves the checkbox, a null one clears it, a given one sets it |
| CoreApp.RootLinkActiveOnlyAtRoot | googlev1/src/main/resources/static/js/core/app.js:95-96 | the root link is highlighted exactly on the root page |
| CoreApp.IsActiveLink | googlev1/src/main/resources/static/js/core/app.js:95-96 | the root link is active only at "/", any other link when the path contains it; its consequences are the three lemmas beside it |
| CoreApp.OwnPageLinkActive | googlev1/src/main/resources/static/js/core/app.js:95-96 | every other link is highlighted on its own page |
| CoreApp.AtRootOnlyRootLink | googlev1/src/main/resources/static/js/core/app.js:95-96 | on the root page only the root link is highlighted, among links with a non-empty target |
| CoreApp.RequestBody | googlev1/src/main/resources/static/js/core/app.js:166-171 | the save button's request gives all four properties |
| CoreApp.SavedFormOverwritesEveryField | googlev1/src/main/resources/static/js/core/app.js:160-173 | saving the panel, whose request is bound to a new entity, overwrites all four stored preferences with the form's values and keeps the row's id: every property is given, so no entity default survives |
| CoreApp.PrefsOf | src/main/java/com/googlev1/controller/PreferenceController.java:45-52 | the row as the page receives it: null texts read as empty, a null flag stays null |
| CoreApp.ChosenThemeSurvivesReload | googlev1/src/main/resources/static/js/core/app.js:272-306 | a theme chosen in the panel, bound to a new entity as the endpoint does, is the one the next page load shows, whatever theme the browser has stored |
| CoreApp.Shell.constructor | googlev1/src/main/resources/static/js/core/app.js:12-15 | a stored dark theme marks the root before the page renders |
| CoreApp.Shell.SetActiveNavLink | googlev1/src/main/resources/static/js/core/app.js:88-102 | each link is highlighted exactly when the navigation rule holds for the current path; the theme, the form and the stored theme stay |
| CoreApp.Shell.SetTheme | googlev1/src/main/resources/static/js/core/app.js:272-306 | the dark class on body and root exactly for "dark"; the normalised theme stored and selected; a request changing only the theme |
| CoreApp.Shell.ApplyPreferences | googlev1/src/main/resources/static/js/core/app.js:206-240 | the body's dark class follows the effective theme; query, type and theme select take only non-empty preferences; the tips checkbox any flag that is not missing |
| CoreApp.Shell.LoadPreferences | googlev1/src/main/resources/static/js/core/app.js:183-201 | loaded preferences are applied to the body, query, type, theme select and tips, leaving the root and the stored theme; a refused request changes nothing; a failed one re-applies a non-empty stored theme through the theme setter (body, root, storage and select) and otherwise changes nothing |
| CoreApp.Shell.SaveButtonForm | googlev1/src/main/resources/static/js/core/app.js:161-164 | the select's theme or "light", the checkbox, the query or "", the type or "general", so theme and type are never empty |
| CoreApp.Shell.SavePreferences | googlev1/src/main/resources/static/js/core/app.js:245-267 | true exactly for a saved reply, and only then are the saved preferences applied; otherwise nothing changes |
| CoreApp.SavedFormReappliesItself | googlev1/src/main/resources/static/js/core/app.js:160-173 | with the request bound to a new entity as the endpoint does, once the saved row is applied the type, the theme select, the tips and a non-empty query hold what the form sent |
| SearchPage.StartSearch | googlev1/src/main/resources/static/js/pages/search.js:37-44 | only a warning exactly for a blank query; otherwise the trimmed query, with no space at either end, and the selected type |
| SearchPage.SentQueryIsStable | googlev1/src/main/resources/static/js/pages/search.js:38-44 | the query sent is already trimmed: validating it again gives the same request |
| SearchPage.FollowUpOf | googlev1/src/main/resources/static/js/pages/search.js:80-86 | the history request carries the query, the type and the number of results; the preference request gives only the default query and type, nothing else |
| SearchPage.SearchKeepsThemeAndTips | googlev1/src/main/resources/static/js/pages/search.js:241-260 | corrected (Findings row 2): a search makes its query and type the stored defaults and leaves the stored theme and tips as they were |
| SearchPage.SearchResetsThemeAndTipsAsWritten | googlev1/src/main/resources/static/js/pages/search.js:241-260 | as-written half of Findings row 2 for the search page: the search's preference request, bound to the entity, sets the query and type and resets the theme to "light" and the tips to on |
| SearchPage.DataId | googlev1/src/main/resources/static/js/pages/search.js:381 | the result's id, or its position when the id is missing or 0 |
| SearchPage.EscapeHtml | googlev1/src/main/resources/static/js/pages/search.js:431-436 | empty text stays empty; no apostrophe, less-than or greater-than sign is left, and no double quote unless the text had one |
| SearchPage.AposEscapeCharStep | googlev1/src/main/resources/static/js/pages/search.js:435 | the apostrophe replacement of one serialised character equals its one-pass escape |
| SearchPage.EscapeHtmlIsOnePass | googlev1/src/main/resources/static/js/pages/search.js:431-436 | serialising and then replacing apostrophes equals one pass escaping each character |
| SearchPage.EscapeHtmlDecoded | googlev1/src/main/resources/static/js/pages/search.js:431-436 | decoding the escaped text gives the text back |
| SearchPage.AposEscapeDecoded | googlev1/src/main/resources/static/js/pages/search.js:435 | decoding the one-pass escape gives the text back |
| SearchPage.SaveArgumentDecoded | googlev1/src/main/resources/static/js/pages/search.js:388 | the browser's decoding of the onclick attribute gives the save handler's title back, apostrophes included |
| SearchPage.ApostropheEndsSaveArgument | googlev1/src/main/resources/static/js/pages/search.js:388 | as written, a title holding an apostrophe does not reach the save handler as a string literal |
| SearchPage.RawArticleOf | googlev1/src/main/resources/static/js/pages/search.js:379-394 | as written: title, URL and description go into the markup unescaped with their fallbacks; only the handler's arguments are escaped |
| SearchPage.RawTitleReadAsMarkup | googlev1/src/main/resources/static/js/pages/search.js:383 | as written, a title holding a character reference is shown decoded, not as the text it is |
| SearchPage.LinkShown | googlev1/src/main/resources/static/js/pages/search.js:383 | the link reads back as the URL, or "#" without one |
| SearchPage.TitleShown | googlev1/src/main/resources/static/js/pages/search.js:383 | the title reads back as itself, or "Untitled" without one |
| SearchPage.UrlShown | googlev1/src/main/resources/static/js/pages/search.js:385 | the URL line reads back as the URL, or "No URL" without one |
| SearchPage.DescriptionShown | googlev1/src/main/resources/static/js/pages/search.js:386 | the description reads back as itself, or "No description available" without one |
| SearchPage.SaveTitleShown | googlev1/src/main/resources/static/js/pages/search.js:388 | the save button's title reads back as the title, or "Untitled" without one |
| SearchPage.ArticleShowsResult | googlev1/src/main/resources/static/js/pages/search.js:379-394 | corrected (Findings row 5): the article carries the id or position, and shows link, title, URL and description (each with its fallback) as the text they are; the save button carries title, URL and description exactly |
| SearchPage.ArticleOf | googlev1/src/main/resources/static/js/pages/search.js:379-394 | corrected (Findings row 5): the article of one result with escaped texts and the save values in escaped attributes; `ArticleShowsResult` proves what it shows |
| SearchPage.SaveBodyOf | googlev1/src/main/resources/static/js/pages/search.js:403-415 | the title, URL and summary the save request posts, read back from the button's attributes |
| SearchPage.FailureMessage | googlev1/src/main/resources/static/js/pages/search.js:63-64 | "Search failed with status N" for an HTTP error, else the request error's own message |
| SearchPage.SaveSendsResult | googlev1/src/main/resources/static/js/pages/search.js:403-415 | corrected (Findings row 6): saving a listed result posts its own title (or "Untitled"), URL and description, whatever characters they hold |
| SearchPage.EndAsWritten | googlev1/src/main/resources/static/js/pages/search.js:67-95 | as written every sent search fails: an answered one with the `forEach` message, a failed one with its own message |
| SearchPage.EndOf | googlev1/src/main/resources/static/js/pages/search.js:67-95 | corrected (Findings row 8): a search ends listed exactly when it was answered, with the reply's results and the follow-up counting them; a failure ends in its message |
| SearchPage.AnsweredSearchFailsAsWritten | googlev1/src/main/resources/static/js/pages/search.js:74 | as-written half of Findings row 8: an answered search ends in the `forEach` failure, not in the listing |
| SearchPage.AnsweredSearchListsResults | googlev1/src/main/resources/static/js/pages/search.js:74-86 | corrected (Findings row 8): an answered search lists exactly the results the backend sent and records the query, type and result count in the history |
| SearchPage.SuggestionVisible | googlev1/src/main/resources/static/js/pages/search.js:199-211 | a suggestion is shown exactly when nothing is typed or its lower-cased text contains the lower-cased typed text |
| SearchPage.SuggestionFilterIgnoresCase | googlev1/src/main/resources/static/js/pages/search.js:200 | the filter gives the same answer for the typed text and its lower-case form |
| SearchPage.OwnTextShowsSuggestion | googlev1/src/main/resources/static/js/pages/search.js:204 | a suggestion is visible while its own text is typed |
| SearchPage.TypingMoreOnlyNarrows | googlev1/src/main/resources/static/js/pages/search.js:199-211 | typing more never brings back a hidden suggestion |
| SearchPage.UrlStart | googlev1/src/main/resources/static/js/pages/search.js:266-289 | no search exactly without a q parameter; otherwise the search the form makes with the given type or the selected one |
| SearchPage.HistoryRerunSearchesAgain | googlev1/src/main/resources/static/js/pages/search.js:266-289 | a re-run from the history page searches the stored query, trimmed, with the stored type or "general" |
| SearchPage.BuildArticles | googlev1/src/main/resources/static/js/pages/search.js:379-394 | corrected (Findings row 5): one article per result, in order, each with its position |
| SearchPage.SearchView.constructor | googlev1/src/main/resources/static/js/pages/search.js:12-19 | an empty query, the given type, no results and no suggestions |
| SearchPage.SearchView.DisplayResults | googlev1/src/main/resources/static/js/pages/search.js:360-398 | corrected (Findings row 5): the container is shown; a missing or empty list gives only the no-results message; otherwise the count and one article per result in order |
| SearchPage.SearchView.PerformSearch | googlev1/src/main/resources/static/js/pages/search.js:37-96 | corrected (Findings row 8): a blank query only warns; otherwise the trimmed query and type are sent; an answered search shows the reply's `results` list, one article per result in order, and is followed by the history request with their number and the preference request; a failure hides the loading state and the results and shows its message |
| SearchPage.SearchView.PerformSearchAsWritten | googlev1/src/main/resources/static/js/pages/search.js:37-96 | as-written half of Findings row 8: a blank query only warns; any reply the backend sends unhides the untouched results container and shows "Search failed: results.forEach is not a function"; a failure shows its message; no history or preference request is ever sent |
| SearchPage.SearchView.RenderSuggestions | googlev1/src/main/resources/static/js/pages/search.js:218-236 | an empty list changes nothing; otherwise exactly the given suggestions, all visible; the form, results, error and loading state stay |
| SearchPage.SearchView.FilterSuggestions | googlev1/src/main/resources/static/js/pages/search.js:199-212 | every suggestion is shown or hidden by the filter on the typed text; the form, results, error and loading state stay |
| SearchPage.SearchView.PickSuggestion | googlev1/src/main/resources/static/js/pages/search.js:229-233 | the clicked suggestion becomes the query, the list closes and its search runs, leaving the page as the corrected search does (warning, listing with follow-up, or failure message); the suggestions stay |
| SearchPage.SearchView.CheckUrlParameters | googlev1/src/main/resources/static/js/pages/search.js:266-289 | a non-empty q fills the query field, a non-empty type the type select, and the search runs, leaving the page as the corrected search does; without q nothing happens |
| Text.Trim | src/main/java/com/googlev1/service/SearchHistoryService.java:45 | empty exactly for blank text; otherwise no whitespace at either end, and found in the text right after its leading whitespace |
| Text.TrimUnchanged | src/main/java/com/googlev1/service/ContentService.java:112 | text with no whitespace at either end is its own trim |
| Text.TrimIdempotent | src/main/java/com/googlev1/service/SearchHistoryService.java:45 | trimming twice gives the same as trimming once |
| Text.CollapseSpaces | src/main/java/com/googlev1/service/ContentService.java:104 | no two whitespace characters adjacent, every remaining whitespace a space, never longer, empty exactly for empty text |
| Text.WordsCollapse | src/main/java/com/googlev1/service/ContentService.java:104 | collapsing whitespace runs keeps every word |
| Text.WordsTrim | src/main/java/com/googlev1/service/ContentService.java:112 | trimming keeps every word |
| Text.SplitTrimmedCountsWords | src/main/java/com/googlev1/service/ContentService.java:111-117 | splitting a trimmed non-empty text on whitespace runs yields exactly its words |
| Text.ToLower | googlev1/src/main/resources/static/js/pages/search.js:200 | same length, each character lower-cased |
| Text.IntToString | src/main/resources/static/js/history.js:123 | never empty, with a leading minus exactly for negative numbers |
| Text.CountNoun | src/main/resources/static/js/history.js:123 | the count badges of both history pages and both bookmark pages: the count, then the noun, plural unless the count is 1 |
| Text.NatToStringInjective | src/main/resources/static/js/history.js:123 | two distinct counts never render the same |
| Text.SplitParagraphs | src/main/resources/static/js/content-viewer.js:126 | at least one block, none holding a blank line, the first starting where the text starts |
| Text.SplitParagraphsJoin | src/main/resources/static/js/content-viewer.js:125-128 | the blocks joined with one blank line give the text with its blank-line runs squashed |
| Text.ReplaceChar | googlev1/src/main/resources/static/js/pages/saved.js:211 | the character is gone unless the replacement holds it, and no other character appears |
| Html.EscapeText | src/main/resources/static/js/results.js:164-171 | no angle bracket and no non-breaking space left, and never shorter |
| Html.UnescapeEscape | src/main/resources/static/js/results.js:164-171 | decoding the escaped text gives the text back: escaping loses nothing |
| Html.UnescapeText | src/main/resources/static/js/history.js:184-185 | how the browser decodes the character references the scripts write, reading them back from markup |
| Html.EscapeAttribute | src/main/resources/static/js/history.js:151 | escaping for a double-quoted attribute: no double quote or angle bracket left |
| Html.ReadQuotedAttribute | src/main/resources/static/js/history.js:184-185 | `dataset` reading of a double-quoted attribute: the text up to the first double quote, decoded |
| Html.AttributeRoundTrip | src/main/resources/static/js/history.js:151 | an attribute written with `EscapeAttribute` reads back as exactly the text written |
| Html.QuoteCutsAttribute | src/main/resources/static/js/history.js:277-282 | the double quote survives escaping, so a value holding one is cut short when read back from a double-quoted attribute |
| Html.ScriptLiteral | googlev1/src/main/resources/static/js/pages/saved.js:84 | a prefix of the handler text without an apostrophe, stopped only by an apostrophe |
| Text.ToLowerIdempotent | googlev1/src/main/resources/static/js/pages/search.js:200-204 | lower-casing twice gives the same as lower-casing once |

## Left out

- HTTP, JSON parsing and persistence: a request's outcome, a reply's fields and a table's rows are values the model receives. Jackson's reading of a reply is modelled by a small JSON datatype whose numbers are integers.
- The DOM itself: missing elements, focus and blur timers, animations, toasts, `console` output and the `body` overflow style are not modelled. A page element the scripts test for is a boolean where its absence changes the outcome.
- Interleaving of asynchronous calls: each operation runs to completion, and its request's outcome is a parameter. Concurrent requests and their races are not modelled.
- Locale-dependent rendering (`toLocaleString`, `Intl.DateTimeFormat`, `toLocaleDateString`): the model keeps only the choice between a relative label and an absolute date.
- `extractDomain`, the favicon URL, `URL` and `URLSearchParams` encoding, and `encodeURIComponent`: URL parameters are carried as plain strings. The `decodeURIComponent` call of `checkUrlParameters` is taken as the identity.
- `parseInt` and `NaN`: data attributes holding ids and indexes are read back as the integers written into them.
- Navigation rendering (`loadNavigation`, `renderNavigation`, the mobile menu toggle): it only copies the reply into links. Only the active-link rule is modelled.
- The `typeof displayResults === 'function'` test and `showResultsPlaceholder` of the multi-page search script: the display function is defined in the same script, so the model takes it to exist.
- Search replies other than the backend's `SearchResponse` object (JSON `null`, a bare array) are not modelled: the backend always sends the object. The `TypeError` message is the wording of V8-based browsers.
- Result ids of the multi-page search page are integers in the model; the backend's sample results carry string ids such as `result-1`, which are truthy, so `result.id || index` takes them as they are.
- Select elements: in a browser, assigning a value that no option carries deselects every option, so the `<select>` then reads back as "" (`core/app.js` lines 227 and 233, `pages/search.js` line 280, and the type parameter of `app.js`). The model stores the string as given where the browser would yield "". With `?type=bogus`, for example, the next search of the multi-page search page sends the type "" in the browser, while the model sends "bogus".
- The second preferences-panel handler of the multi-page search page (`pages/search.js` lines 294-325): it sends the form's four fields without fallbacks, like the core script's save button, and is not a separate member.
- ResultsView.ResultList.Display: requires a positive page size in the options. `renderPagination` never ends for a page size of 0 with results, since `Math.ceil(n / 0)` is Infinity; no caller passes that option.
- SearchPage.SearchKeepsThemeAndTips: states the search's preference request read as a patch; as written the endpoint binds it to the entity, and `SearchResetsThemeAndTipsAsWritten` states the theme and tips it resets.
- The inline handler of the multi-page history page: it writes the escaped query into a single-quoted script literal inside a double-quoted attribute. The model keeps the `rerunSearch` call and does not model how that literal is read back.
- Script literals: `Html.ScriptLiteral` stops at the first apostrophe and ignores backslash escapes.
- `Tavily.TavilyService`: the `isHealthy` and `getLastSuccessfulCallTimestamp` getters are not separate members. Their fields are read directly.
- Whitespace: one predicate (space, tab, line feed, vertical tab, form feed, carriage return) stands for Java's `\s`, `trim()` and `isBlank()` and for JavaScript's `trim()`. Other Unicode spaces and Java's trimming of the other control characters are not modelled.
- Case folding: `toLowerCase()` is modelled on ASCII letters only.
- Content.Truncate: lengths and the 200000 cut point are counted in Unicode characters, where Java's `length()` and `substring` count UTF-16 code units. On text with characters outside the Basic Multilingual Plane, Java cuts earlier than the model, may split a surrogate pair, and its bound on `Content.Squeeze` and `Content.ExtractText` (200003) is in code units rather than characters.
- Regular expressions of the content extractor are modelled by hand-written scanners:
  - `<script…>…</script>` and `<style…>…</style>` are matched case-insensitively, from the first opening tag to the first closing tag after it.
  - A tag is `<` up to the next `>`.
- Content.ExtractTitle: the contract states when a title is found and its whitespace shape (collapsed, trimmed), not which characters it holds.
- Content.RemoveElements: the contract states only that the result is no longer than the input and that every character comes from the input or is a space. It does not state which elements are removed.
- SavedScript.RemoveNamesTitle: proved only for titles without a double quote. `escapeHtml` leaves a double quote in the `data-title` attribute, so such a title is cut at the quote, as `Html.QuoteCutsAttribute` shows.
- HistoryScript.RerunRepeatsSearch: the stored search type must hold no double quote or `&`, because the `data-type` attribute is written without escaping.
- SearchPage.SaveArgumentDecoded: proved for titles without a double quote. The text-node serialisation leaves that quote in the `onclick` attribute.
- SavedPage.EditArgumentDecoded: proved for notes without `&`. `escapeForAttribute` does not escape `&`, so the browser may decode a reference the notes happen to contain.
- Rows with equal times: the repositories' `ORDER BY … DESC` may return them in any order. The model fixes one order (`Ordering.SortNewestFirst`), and the listing contracts state only the newest-first property and the permutation.

## Findings

| source | as written | input that shows it | evidently intended | confidence | as-written member | corrected member |
|---|---|---|---|---|---|---|
| src/main/java/com/googlev1/service/ContentService.java:40-41 | a refreshed extraction is saved as a new row, beside the URL's stored row, while the `url` column is unique | a URL whose stored row is more than 24 hours old | the stored row is replaced by the refreshed one | not executed | Content.StaleRowNeverRefreshedAsWritten | Content.FetchedThenCached |
| src/main/java/com/googlev1/controller/PreferenceController.java:41 | the update body is bound to a new entity, whose field initialisers fill every property the body leaves out | `{"theme":"dark"}` over a stored type "news" with tips off | only the properties the body gives change | not executed | Preferences.ThemeChangeResetsOtherFields | Preferences.ThemeChangeKeepsOtherFields |
| src/main/resources/static/js/history.js:151 | `data-query` is written with `escapeHtml`, which leaves the double quote | the query `a"b`, re-run as `a` | the attribute is escaped for a double-quoted value | not executed | HistoryScript.QuoteInQueryIsCut | HistoryScript.RerunRepeatsSearch |
| src/main/resources/static/js/app.js:314 | the modal reads `data.body`, but the content reply carries `content` | a page whose text is "Hello", opened from a result without a summary | the fetched text is shown | not executed | SearchApp.FetchedHelloShownAsPlaceholder | SearchApp.FreshPageReachesModal |
| googlev1/src/main/resources/static/js/pages/search.js:383-386 | title, URL and description go into the markup unescaped | the title `&lt;`, shown as `<` | the texts are escaped like the handler's arguments | not executed | SearchPage.RawTitleReadAsMarkup | SearchPage.ArticleShowsResult |
| googlev1/src/main/resources/static/js/pages/search.js:388 | the escaped title goes into a single-quoted literal inside the `onclick` attribute, and the browser decodes the `&apos;` from `escapeHtml` before the script runs | the title `Bob's` | the save call receives the title | not executed | SearchPage.ApostropheEndsSaveArgument | SearchPage.SaveSendsResult |
| googlev1/src/main/resources/static/js/pages/saved.js:84 | the notes go into a single-quoted literal inside the `onclick` attribute, and the browser decodes the `&#39;` from `escapeForAttribute` before the script runs | the notes `it's` | the edit handler receives the notes | not executed | SavedPage.ApostropheEndsEditArgument | SavedPage.ArticleShowsBookmark |
| googlev1/src/main/resources/static/js/pages/search.js:74 | the whole reply object is passed to `displayResults`, whose `results.forEach` is not a function of it | any answered search, such as the backend's five sample results for "news" | the reply's `results` list is displayed and counted in the history request | not executed | SearchPage.AnsweredSearchFailsAsWritten | SearchPage.AnsweredSearchListsResults |
