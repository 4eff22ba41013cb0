/**
 * The reading modal of the main application: it opens on a search result,
 * asks the backend for the page's readable text and shows it as paragraphs,
 * with a meta line saying whether the text came from the cache. The modal's
 * listeners are attached once per page.
 */
module ContentViewer {
  import opened Wrappers
  import opened Text
  import Html

  const UNTITLED: string := "Untitled"
  const NO_CONTENT: string := "No content available."
  const CACHED: string := "Cached"
  const FRESH: string := "Fresh"
  const LOADING_TITLE: string := "Loading content..."
  const LOADING_STATUS: string := "Fetching article content..."
  const ERROR_TITLE: string := "Unable to load content"
  const UNKNOWN_ERROR: string := "Unknown error"

  /** The reply of the content endpoint; "" stands for a missing text, None for a missing or non-finite number. */
  datatype ContentData = ContentData(title: string, content: string, wordCount: Option<int>, cached: bool,
                                     fetchedAt: Option<string>)

  /** How the request of `open` ended. */
  datatype Fetched = HttpError(status: int) | RequestError(message: string) | Loaded(data: ContentData)

  /** The meta line: the cache label, the word count and the fetch time (None reads "Unknown"). */
  datatype Meta = NoMeta | Meta(cacheLabel: string, words: int, fetchedAt: Option<string>)

  /** The modal's body: paragraphs (their escaped text) or one status line. */
  datatype Body = Paragraphs(ps: seq<string>) | Status(text: string)

  /** What the modal shows. */
  datatype View = View(title: string, meta: Meta, body: Body)

  /** The text of every paragraph, decoded. */
  function Decoded(ps: seq<string>): (r: seq<string>)
    ensures |r| == |ps| && forall i :: 0 <= i < |ps| ==> r[i] == Html.UnescapeText(ps[i])
  {
    seq(|ps|, i requires 0 <= i < |ps| => Html.UnescapeText(ps[i]))
  }

  /** Each block escaped. */
  function EscapeAll(blocks: seq<string>): (r: seq<string>)
    ensures |r| == |blocks| && forall i :: 0 <= i < |blocks| ==> r[i] == Html.EscapeText(blocks[i])
  {
    seq(|blocks|, i requires 0 <= i < |blocks| => Html.EscapeText(blocks[i]))
  }

  /**
   * `formatParagraphs`: one placeholder paragraph for blank text; otherwise one
   * paragraph per block of the trimmed text between runs of two or more line
   * feeds, in order.
   */
  function FormatParagraphs(text: string): (ps: seq<string>)
    ensures IsBlank(text) ==> ps == [NO_CONTENT]
    ensures !IsBlank(text) ==> Decoded(ps) == SplitParagraphs(Trim(text))
  {
    var trimmed := Trim(text);
    if trimmed == [] then [NO_CONTENT]
    else
      var blocks := SplitParagraphs(trimmed);
      var ps := EscapeAll(blocks);
      forall i | 0 <= i < |blocks|
        ensures Html.UnescapeText(ps[i]) == blocks[i]
      {
        Html.UnescapeEscape(blocks[i]);
      }
      ps
  }

  /** Reading the paragraphs back with a blank line between them gives the trimmed text, its blank-line runs squashed. */
  lemma ParagraphsRejoin(text: string)
    requires !IsBlank(text)
    ensures JoinWith(Decoded(FormatParagraphs(text)), "\n\n") == SquashBlankLines(Trim(text))
  {
    SplitParagraphsJoin(Trim(text));
  }

  /**
   * `renderContent`: the reply's title, else the title `open` stored, else
   * "Untitled"; "Cached" or "Fresh"; the word count or 0; the reply's text as
   * paragraphs, "No content available." when it has none.
   */
  function RenderContent(data: ContentData, storedTitle: string): (v: View)
    ensures v.title != "" && (data.title != "" ==> v.title == data.title)
    ensures data.title == "" ==> v.title == Or(storedTitle, UNTITLED)
    ensures v.meta.Meta? && (v.meta.cacheLabel == CACHED <==> data.cached) && v.meta.fetchedAt == data.fetchedAt
    ensures v.meta.words == data.wordCount.GetOr(0)
    ensures v.body == Paragraphs(FormatParagraphs(Or(data.content, NO_CONTENT)))
  {
    View(Or(data.title, Or(storedTitle, UNTITLED)),
         Meta(if data.cached then CACHED else FRESH, data.wordCount.GetOr(0), data.fetchedAt),
         Paragraphs(FormatParagraphs(Or(data.content, NO_CONTENT))))
  }

  /** The message of a failed request. */
  function ErrorMessage(f: Fetched): string
    requires !f.Loaded?
  {
    match f
    case HttpError(status) => "Request failed (" + IntToString(status) + ")"
    case RequestError(message) => message
  }

  /** `renderError`: a fixed title, no meta line and the message, or "Unknown error" when it is empty. */
  function RenderError(message: string): (v: View)
    ensures v.title == ERROR_TITLE && v.meta == NoMeta && v.body.Status?
    ensures v.body.text == "Error: " + Html.EscapeText(Or(message, UNKNOWN_ERROR))
  {
    View(ERROR_TITLE, NoMeta, Status("Error: " + Html.EscapeText(Or(message, UNKNOWN_ERROR))))
  }

  /** What the modal shows once the request of `open` has ended. */
  function ViewAfter(f: Fetched, storedTitle: string): (v: View)
    ensures f.Loaded? ==> v == RenderContent(f.data, storedTitle)
    ensures !f.Loaded? ==> v == RenderError(ErrorMessage(f))
  {
    match f
    case Loaded(data) => RenderContent(data, storedTitle)
    case _ => RenderError(ErrorMessage(f))
  }

  /** The call the save button makes: title, URL and summary of the open page. */
  datatype SaveCall = SaveCall(title: string, url: string, summary: string)

  /** The reading modal and its `state`. */
  class ContentViewer {
    /** Whether the page has the modal element at all. */
    const modalExists: bool
    /** Whether `init` found the modal (`elements` is set). */
    var initialized: bool
    /** The modal's `data-bound` flag. */
    var bound: bool
    /** How many times the modal's listeners were attached. */
    var bindings: nat
    var isOpen: bool
    var url: string
    var title: string
    var summary: string
    var view: View

    /** Listeners are attached exactly when the flag is set, and then once. */
    ghost predicate Valid()
      reads this
    {
      && (initialized ==> modalExists)
      && (bound ==> initialized)
      && bindings == (if bound then 1 else 0)
    }

    constructor (modalExists: bool)
      ensures Valid() && this.modalExists == modalExists && !initialized && !isOpen
    {
      this.modalExists := modalExists;
      initialized, bound, bindings, isOpen := false, false, 0, false;
      url, title, summary := "", "", "";
      view := View("", NoMeta, Status(""));
    }

    /** `bindModalActions`: attaches the listeners unless there is no modal or they already are. */
    method BindModalActions()
      requires Valid()
      modifies this
      ensures Valid() && bound == (old(bound) || initialized) && initialized == old(initialized)
      ensures isOpen == old(isOpen) && url == old(url) && title == old(title) && summary == old(summary) && view == old(view)
    {
      if !initialized || bound {
        return;
      }
      bound := true;
      bindings := bindings + 1;
    }

    /** `init`: fails without the modal; otherwise records it and attaches the listeners once. */
    method Init() returns (ok: bool)
      requires Valid()
      modifies this
      ensures Valid() && ok == modalExists
      ensures initialized == (old(initialized) || modalExists) && (modalExists ==> bound)
      ensures isOpen == old(isOpen) && url == old(url) && title == old(title) && summary == old(summary) && view == old(view)
    {
      if !modalExists {
        return false;
      }
      initialized := true;
      BindModalActions();
      ok := true;
    }

    /**
     * `open` followed by the end of its request: without a modal nothing
     * changes; otherwise it records the URL, the title (the URL when none is
     * given) and the summary, opens, and shows the content or the error.
     */
    method Open(u: string, contextTitle: string, contextSummary: string, fetched: Fetched)
      requires Valid()
      modifies this
      ensures Valid()
      ensures !old(initialized) && !modalExists ==>
                url == old(url) && title == old(title) && summary == old(summary)
                && isOpen == old(isOpen) && view == old(view)
      ensures old(initialized) || modalExists ==>
                && url == u && title == Or(contextTitle, u) && summary == contextSummary
                && isOpen && view == ViewAfter(fetched, title)
      ensures initialized == (old(initialized) || modalExists)
      ensures bound == (old(bound) || (!old(initialized) && modalExists))
    {
      if !initialized {
        var ok := Init();
        if !ok {
          return;
        }
      }
      url := u;
      title := Or(contextTitle, u);
      summary := contextSummary;
      isOpen := true;
      view := View(LOADING_TITLE, NoMeta, Status(LOADING_STATUS));
      view := ViewAfter(fetched, title);
    }

    /** `close`: closes the modal when there is one. */
    method Close()
      requires Valid()
      modifies this
      ensures Valid() && (old(initialized) ==> !isOpen) && (!old(initialized) ==> isOpen == old(isOpen))
      ensures url == old(url) && title == old(title) && summary == old(summary) && view == old(view)
      ensures initialized == old(initialized) && bound == old(bound) && bindings == old(bindings)
    {
      if !initialized {
        return;
      }
      isOpen := false;
    }

    /** The Escape key, heard only once the listeners are attached: closes the modal only while it is open. */
    method PressEscape()
      requires Valid()
      modifies this
      ensures Valid() && isOpen == (old(isOpen) && !old(bound))
      ensures url == old(url) && title == old(title) && summary == old(summary) && view == old(view)
      ensures initialized == old(initialized) && bound == old(bound) && bindings == old(bindings)
    {
      if bound && isOpen {
        Close();
      }
    }

    /** The save button, heard only once the listeners are attached: saves the open page when saving is available. */
    method Save(saveAvailable: bool) returns (call: Option<SaveCall>)
      ensures call.Some? <==> bound && saveAvailable
      ensures call.Some? ==> call.value == SaveCall(title, url, summary)
    {
      call := if bound && saveAvailable then Some(SaveCall(title, url, summary)) else None;
    }
  }

  /**
   * A page with the modal, used as the result cards use it: opening a page
   * makes it savable under its title, URL and summary, and closing it then
   * closes the modal and keeps the listeners attached.
   */
  method OpenSaveClose(u: string, contextTitle: string, contextSummary: string, fetched: Fetched)
    returns (call: Option<SaveCall>, openAfterClose: bool, boundAfterClose: bool)
    ensures call == Some(SaveCall(Or(contextTitle, u), u, contextSummary))
    ensures !openAfterClose && boundAfterClose
  {
    var viewer := new ContentViewer(true);
    viewer.Open(u, contextTitle, contextSummary, fetched);
    call := viewer.Save(true);
    viewer.Close();
    openAfterClose, boundAfterClose := viewer.isOpen, viewer.bound;
  }
}
