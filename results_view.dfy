/**
 * The paginated result list of the search page (`window.displayResults`):
 * normalisation of result records of several shapes, the cards of one page,
 * the Prev / numbered / Next page controls and the card buttons that open the
 * content viewer or save a result.
 */
module ResultsView {
  import opened Wrappers
  import opened Text
  import opened Html

  const DEFAULT_PAGE_SIZE: int := 6
  const UNTITLED: string := "Untitled result"
  const NO_SUMMARY: string := "No summary provided."
  const RESULT_LABEL: string := "Result"
  /** The separator between source and date, as the script's text holds it (a bullet stored mis-encoded). */
  const META_SEPARATOR: string := " \U{E2}\U{20AC}\U{A2} "

  /**
   * A result record as any backend may shape it. The empty string stands for a
   * field that is missing, null or otherwise falsy.
   */
  datatype RawResult = RawResult(
    title: string, name: string,
    url: string, link: string,
    summary: string, snippet: string, description: string,
    source: string, publisher: string,
    publishedAt: string, published: string)

  /** The one shape the cards are rendered from. */
  datatype NormalizedResult = NormalizedResult(
    title: string, url: string, summary: string, source: string, publishedAt: string)

  /** A rendered card: its position in the whole list and its escaped texts. */
  datatype Card = Card(index: int, meta: string, title: string, summary: string)

  /** The page controls: Prev, one numbered button per page, Next. */
  datatype PageButton = Prev(disabled: bool) | Number(page: int, active: bool) | Next(disabled: bool)

  /** The options of a `displayResults` call that the model keeps. */
  datatype DisplayOptions = DisplayOptions(pageSize: Option<int>, hasOnSave: bool)

  /** Which button of a card a click landed on, if any. */
  datatype CardTarget = ViewButton | SaveButton | Elsewhere

  /** The save handler a card's Save button calls. */
  datatype SaveHandler = OptionsOnSave | WindowSaveItem

  /** What a click on a card does. */
  datatype CardEffect =
    | NoEffect
    | OpenViewer(url: string, title: string, summary: string)
    | CallSave(handler: SaveHandler, title: string, url: string, summary: string)

  /** The record every shape of result is read into; absent fields fall back in a fixed order. */
  function Normalize(r: Option<RawResult>): (n: NormalizedResult)
    ensures n.title != "" && n.summary != ""
    ensures r.None? ==> n == NormalizedResult(UNTITLED, "", NO_SUMMARY, "", "")
    ensures r.Some? && r.value.title != "" ==> n.title == r.value.title
    ensures r.Some? && r.value.title == "" && r.value.name != "" ==> n.title == r.value.name
    ensures r.Some? && r.value.title == "" && r.value.name == "" ==> n.title == UNTITLED
    ensures r.Some? && r.value.url != "" ==> n.url == r.value.url
    ensures r.Some? && r.value.url == "" ==> n.url == r.value.link
    ensures r.Some? && r.value.summary != "" ==> n.summary == r.value.summary
    ensures r.Some? && r.value.summary == "" && r.value.snippet != "" ==> n.summary == r.value.snippet
    ensures r.Some? && r.value.summary == "" && r.value.snippet == "" && r.value.description != ""
            ==> n.summary == r.value.description
    ensures r.Some? && r.value.summary == "" && r.value.snippet == "" && r.value.description == ""
            ==> n.summary == NO_SUMMARY
    ensures r.Some? ==> (n.source == Or(r.value.source, r.value.publisher)
                         && n.publishedAt == Or(r.value.publishedAt, r.value.published))
  {
    var x := r.GetOr(RawResult("", "", "", "", "", "", "", "", "", "", ""));
    NormalizedResult(
      Or(Or(x.title, x.name), UNTITLED),
      Or(x.url, x.link),
      Or(Or(Or(x.summary, x.snippet), x.description), NO_SUMMARY),
      Or(x.source, x.publisher),
      Or(x.publishedAt, x.published))
  }

  /** A normalised record read back as a raw one, using the preferred field names only. */
  function AsRaw(n: NormalizedResult): RawResult {
    RawResult(n.title, "", n.url, "", n.summary, "", "", n.source, "", n.publishedAt, "")
  }

  /** Normalising is idempotent: a normalised record passes through unchanged. */
  lemma NormalizeIdempotent(r: Option<RawResult>)
    ensures Normalize(Some(AsRaw(Normalize(r)))) == Normalize(r)
  {
  }

  /** A record using the alternative field names renders like one using the preferred names. */
  lemma AlternativeNames(name: string, link: string, snippet: string)
    requires name != "" && snippet != ""
    ensures Normalize(Some(RawResult("", name, "", link, "", snippet, "", "", "", "", "")))
         == Normalize(Some(RawResult(name, "", link, "", snippet, "", "", "", "", "", "")))
  {
  }

  /** The meta line of a card: the source (or "Result") and, when known, the publication date. */
  function CardMeta(n: NormalizedResult): (m: string)
    ensures n.source == "" && n.publishedAt == "" ==> m == RESULT_LABEL
    ensures n.publishedAt == "" ==> m == Or(n.source, RESULT_LABEL)
    ensures n.publishedAt != "" ==> m == Or(n.source, RESULT_LABEL) + META_SEPARATOR + n.publishedAt
  {
    if n.source != "" || n.publishedAt != "" then
      Or(n.source, RESULT_LABEL) + (if n.publishedAt != "" then META_SEPARATOR + n.publishedAt else "")
    else RESULT_LABEL
  }

  /** The card of the record at position `index` of the whole list. */
  function RenderCard(r: Option<RawResult>, index: int): Card {
    var n := Normalize(r);
    Card(index, EscapeText(CardMeta(n)), EscapeText(n.title), EscapeText(n.summary))
  }

  /** `Math.ceil(n / pageSize)`: the number of pages `n` results fill. */
  function TotalPages(n: nat, pageSize: int): (t: nat)
    requires pageSize > 0
    ensures n == 0 <==> t == 0
    ensures t * pageSize >= n
    ensures n > 0 ==> (t - 1) * pageSize < n
  {
    (n + pageSize - 1) / pageSize
  }

  /** The larger of two integers. */
  function Max(a: int, b: int): int {
    if a >= b then a else b
  }

  /** Position of the first result on page `page`. */
  function PageStart(page: int, pageSize: int): (start: int)
    ensures page >= 1 && pageSize > 0 ==> start >= 0
  {
    (page - 1) * pageSize
  }

  /** `s.slice(start, start + count)`: at most `count` elements from position `start` on. */
  function Window<T>(s: seq<T>, start: nat, count: nat): (w: seq<T>)
    ensures start >= |s| ==> w == []
    ensures start < |s| ==> |w| == if |s| - start < count then |s| - start else count
    ensures forall i :: 0 <= i < |w| ==> start + i < |s| && w[i] == s[start + i]
  {
    if start >= |s| then []
    else if |s| - start < count then s[start..]
    else s[start..start + count]
  }

  /** The cards of consecutive records, the first one at position `first` of the whole list. */
  function Cards(items: seq<Option<RawResult>>, first: int): (cards: seq<Card>)
    ensures |cards| == |items|
    ensures forall i :: 0 <= i < |items| ==> cards[i] == RenderCard(items[i], first + i)
  {
    seq(|items|, i requires 0 <= i < |items| => RenderCard(items[i], first + i))
  }

  /** The cards of page `page`: `results.slice(start, start + pageSize)`, numbered from `start`. */
  function PageCards(results: seq<Option<RawResult>>, pageSize: int, page: int): (cards: seq<Card>)
    requires pageSize > 0 && page >= 1
  {
    var start := PageStart(page, pageSize);
    Cards(Window(results, start, pageSize), start)
  }

  /** The page controls for `totalPages` pages with `currentPage` shown; none for a single page. */
  function PaginationButtons(totalPages: nat, currentPage: int): (b: seq<PageButton>)
    ensures totalPages <= 1 ==> b == []
    ensures totalPages > 1 ==> |b| == totalPages + 2
    ensures totalPages > 1 ==> b[0] == Prev(currentPage == 1) && b[totalPages + 1] == Next(currentPage == totalPages)
    ensures totalPages > 1 ==> forall i :: 1 <= i <= totalPages ==> b[i] == Number(i, i == currentPage)
  {
    if totalPages <= 1 then []
    else [Prev(currentPage == 1)]
         + seq(totalPages, i requires 0 <= i < totalPages => Number(i + 1, i + 1 == currentPage))
         + [Next(currentPage == totalPages)]
  }

  /** Builds the page controls one button at a time, as the script's loop does. */
  method RenderPagination(totalPages: nat, currentPage: int) returns (buttons: seq<PageButton>)
    ensures buttons == PaginationButtons(totalPages, currentPage)
  {
    if totalPages <= 1 {
      return [];
    }
    buttons := [Prev(currentPage == 1)];
    var i := 1;
    while i <= totalPages
      invariant 1 <= i <= totalPages + 1
      invariant |buttons| == i
      invariant buttons[0] == Prev(currentPage == 1)
      invariant forall k :: 1 <= k < i ==> buttons[k] == Number(k, k == currentPage)
    {
      buttons := buttons + [Number(i, i == currentPage)];
      i := i + 1;
    }
    buttons := buttons + [Next(currentPage == totalPages)];
  }

  /** Exactly one numbered control is marked active when the current page exists. */
  lemma OneActivePage(totalPages: nat, currentPage: int, i: int)
    requires totalPages > 1 && 1 <= currentPage <= totalPages && 1 <= i <= totalPages
    ensures PaginationButtons(totalPages, currentPage)[i].active <==> i == currentPage
    ensures PaginationButtons(totalPages, currentPage)[currentPage].active
  {
  }

  /** The page shown after a click on a page control. */
  function Navigate(current: int, totalPages: nat, button: PageButton): (p: int)
    ensures button.Prev? ==> p == if current > 1 then current - 1 else current
    ensures button.Next? ==> p == if current < totalPages then current + 1 else current
    ensures button.Number? ==> p == button.page
    ensures 1 <= current <= totalPages && (button.Number? ==> 1 <= button.page <= totalPages)
            ==> 1 <= p <= totalPages
  {
    match button
    case Prev(_) => if current > 1 then current - 1 else current
    case Next(_) => if current < totalPages then current + 1 else current
    case Number(page, _) => page
  }

  /** Every control rendered for a page leads to a page that exists. */
  lemma {:induction false} NavigateStaysInRange(totalPages: nat, current: int, i: int)
    requires totalPages > 1 && 1 <= current <= totalPages
    requires 0 <= i < |PaginationButtons(totalPages, current)|
    ensures 1 <= Navigate(current, totalPages, PaginationButtons(totalPages, current)[i]) <= totalPages
  {
    var b := PaginationButtons(totalPages, current);
    if 1 <= i <= totalPages {
      assert b[i] == Number(i, i == current);
    } else if i == 0 {
      assert b[i].Prev?;
    } else {
      assert b[i].Next?;
    }
  }

  /** Prev undoes Next on every page but the last. */
  lemma PrevUndoesNext(current: int, totalPages: nat)
    requires 1 <= current < totalPages
    ensures Navigate(Navigate(current, totalPages, Next(false)), totalPages, Prev(false)) == current
  {
  }

  /** `a * c <= b * c` when `a <= b` and `c` is positive. */
  lemma MulMonotone(a: int, b: int, c: int)
    requires a <= b && c > 0
    ensures a * c <= b * c
  {
    assert b * c - a * c == (b - a) * c;
  }

  /** Position `j` is the `j % pageSize`-th entry of page `j / pageSize + 1`. */
  lemma PositionOnPage(j: nat, pageSize: int)
    requires pageSize > 0
    ensures 0 <= j % pageSize < pageSize
    ensures PageStart(j / pageSize + 1, pageSize) + j % pageSize == j
  {
  }

  /** The page holding position `j` exists when `j` is a position of the list. */
  lemma HomePageExists(n: nat, pageSize: int, j: nat)
    requires pageSize > 0 && j < n
    ensures j / pageSize + 1 <= TotalPages(n, pageSize)
  {
    var q := j / pageSize;
    var t := TotalPages(n, pageSize);
    assert q * pageSize <= j;
    if q + 1 > t {
      MulMonotone(t, q, pageSize);
    }
  }

  /** A page other than the one holding position `j` does not reach `j`. */
  lemma OtherPageMissesPosition(j: nat, pageSize: int, page: int, i: int)
    requires pageSize > 0 && page >= 1 && page != j / pageSize + 1 && 0 <= i < pageSize
    ensures PageStart(page, pageSize) + i != j
  {
    var q := j / pageSize;
    assert q * pageSize <= j < q * pageSize + pageSize;
    if page - 1 < q {
      MulMonotone(page, q, pageSize);
    } else {
      MulMonotone(q + 1, page - 1, pageSize);
    }
  }

  /** Pages cover the list: the result at position `j` is shown on page `j / pageSize + 1`, at position `j % pageSize`. */
  lemma ResultOnItsPage(results: seq<Option<RawResult>>, pageSize: int, j: nat)
    requires pageSize > 0 && j < |results|
    ensures 1 <= j / pageSize + 1 <= TotalPages(|results|, pageSize)
    ensures j % pageSize < |PageCards(results, pageSize, j / pageSize + 1)|
    ensures PageCards(results, pageSize, j / pageSize + 1)[j % pageSize] == RenderCard(results[j], j)
  {
    PositionOnPage(j, pageSize);
    HomePageExists(|results|, pageSize, j);
  }

  /** Pages are disjoint: no other page shows the result at position `j`. */
  lemma ResultOnNoOtherPage(results: seq<Option<RawResult>>, pageSize: int, j: nat, page: int, i: int)
    requires pageSize > 0 && page >= 1 && page != j / pageSize + 1
    requires 0 <= i < |PageCards(results, pageSize, page)|
    ensures PageCards(results, pageSize, page)[i].index != j
  {
    OtherPageMissesPosition(j, pageSize, page, i);
  }

  /**
   * The mounted result list: the script's module state (the results, the page
   * size, the current page and whether a custom save handler was passed) and the
   * part of the page it renders into (whether the container's click listener is
   * bound, the empty-state visibility, the cards and the page controls).
   */
  class ResultList {
    var results: seq<Option<RawResult>>
    var pageSize: int
    var currentPage: int
    var hasOnSave: bool

    var bound: bool
    var listeners: nat
    var emptyShown: bool
    var cards: seq<Card>
    var buttons: seq<PageButton>
    /** The rendered part shows the current state (false after a call that found no elements to render into). */
    ghost var inSync: bool

    /** The rendering of the current state. */
    ghost predicate ShowsState()
      reads this
      requires pageSize > 0
    {
      && currentPage >= 1
      && emptyShown == (results == [])
      && cards == (if results == [] then [] else PageCards(results, pageSize, currentPage))
      && buttons == (if results == [] then [] else PaginationButtons(TotalPages(|results|, pageSize), currentPage))
    }

    ghost predicate Valid()
      reads this
    {
      && pageSize > 0
      && 1 <= currentPage <= Max(1, TotalPages(|results|, pageSize))
      && listeners == (if bound then 1 else 0)
      && (inSync ==> bound && ShowsState())
    }

    /** The state the script starts with, before any results are displayed. */
    constructor ()
      ensures Valid() && !inSync && !bound
      ensures results == [] && pageSize == DEFAULT_PAGE_SIZE && currentPage == 1 && !hasOnSave
      ensures cards == [] && buttons == [] && !emptyShown
    {
      results := [];
      pageSize := DEFAULT_PAGE_SIZE;
      currentPage := 1;
      hasOnSave := false;
      bound := false;
      listeners := 0;
      emptyShown := false;
      cards := [];
      buttons := [];
      inSync := false;
    }

    /** Renders the current page, or the empty state when there are no results. */
    method RenderPage()
      requires pageSize > 0 && 1 <= currentPage
      modifies this
      ensures results == old(results) && pageSize == old(pageSize) && currentPage == old(currentPage)
      ensures ShowsState()
      ensures hasOnSave == old(hasOnSave) && bound == old(bound) && listeners == old(listeners)
      ensures inSync == old(inSync)
    {
      if |results| == 0 {
        emptyShown := true;
        cards := [];
        buttons := [];
        return;
      }
      emptyShown := false;
      cards := PageCards(results, pageSize, currentPage);
      buttons := RenderPagination(TotalPages(|results|, pageSize), currentPage);
    }

    /**
     * `displayResults(results, options)`: keeps the results (an empty list when
     * what was passed is not an array), the page size and the handler, returns to
     * page 1 and, when the container, empty-state and pagination elements exist,
     * binds the click listener once and renders the first page.
     */
    method Display(given: Option<seq<Option<RawResult>>>, options: DisplayOptions, elementsFound: bool)
      requires Valid()
      requires options.pageSize.Some? ==> options.pageSize.value > 0
      modifies this
      ensures Valid()
      ensures results == (if given.Some? then given.value else [])
      ensures pageSize == options.pageSize.GetOr(DEFAULT_PAGE_SIZE)
      ensures currentPage == 1 && hasOnSave == options.hasOnSave
      ensures elementsFound ==> inSync && bound && listeners == 1 && ShowsState()
      ensures !elementsFound ==> !inSync && bound == old(bound) && listeners == old(listeners)
                                 && emptyShown == old(emptyShown) && cards == old(cards) && buttons == old(buttons)
    {
      results := if given.Some? then given.value else [];
      pageSize := options.pageSize.GetOr(DEFAULT_PAGE_SIZE);
      currentPage := 1;
      hasOnSave := options.hasOnSave;
      if !elementsFound {
        inSync := false;
        return;
      }
      if !bound {
        bound := true;
        listeners := listeners + 1;
      }
      RenderPage();
      inSync := true;
    }

    /** A click on the page control at position `i`: moves to the chosen page and renders it. */
    method ClickPageButton(i: nat)
      requires Valid() && inSync && i < |buttons|
      modifies this
      ensures Valid() && inSync && ShowsState()
      ensures currentPage == Navigate(old(currentPage), TotalPages(|results|, pageSize), old(buttons[i]))
      ensures 1 <= currentPage <= TotalPages(|results|, pageSize)
      ensures results == old(results) && pageSize == old(pageSize) && hasOnSave == old(hasOnSave)
      ensures bound == old(bound) && listeners == old(listeners)
    {
      var total := TotalPages(|results|, pageSize);
      NavigateStaysInRange(total, currentPage, i);
      currentPage := Navigate(currentPage, total, buttons[i]);
      RenderPage();
    }

    /**
     * What a click on the card at position `i` does: the View button opens the
     * content viewer (when present) with the record's own url, title and summary;
     * the Save button calls the handler passed in the options, or the page's
     * global save function, with the summary defaulting to "". A card whose index
     * holds no record does nothing.
     */
    function ClickCard(i: nat, target: CardTarget, viewerPresent: bool, windowSaveItem: bool): (e: CardEffect)
      reads this
      requires i < |cards|
      ensures !bound || target == Elsewhere ==> e == NoEffect
      ensures var k := cards[i].index;
              !(0 <= k < |results| && results[k].Some?) ==> e == NoEffect
      ensures e.OpenViewer? ==> (target == ViewButton && viewerPresent &&
                var r := results[cards[i].index].value; e == OpenViewer(r.url, r.title, r.summary))
      ensures e.CallSave? ==> (target == SaveButton &&
                var r := results[cards[i].index].value;
                e.title == r.title && e.url == r.url && e.summary == Or(r.summary, "")
                && (e.handler == OptionsOnSave <==> hasOnSave))
      ensures e == NoEffect && bound && 0 <= cards[i].index < |results| && results[cards[i].index].Some?
              ==> (target == ViewButton && !viewerPresent) || target == Elsewhere
                  || (target == SaveButton && !hasOnSave && !windowSaveItem)
    {
      var k := cards[i].index;
      if !bound || target == Elsewhere || !(0 <= k < |results|) || results[k].None? then NoEffect
      else
        var r := results[k].value;
        match target
        case ViewButton => if viewerPresent then OpenViewer(r.url, r.title, r.summary) else NoEffect
        case SaveButton =>
          if hasOnSave then CallSave(OptionsOnSave, r.title, r.url, Or(r.summary, ""))
          else if windowSaveItem then CallSave(WindowSaveItem, r.title, r.url, Or(r.summary, ""))
          else NoEffect
    }
  }
}
