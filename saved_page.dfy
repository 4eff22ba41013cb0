/**
 * The bookmark page script of the multi-page application: it lists the saved
 * results with their notes and a coarse saving date ("today", "yesterday",
 * "3 days ago"), and lets the user edit the notes through a prompt. Times are
 * milliseconds.
 */
module SavedPage {
  import opened Wrappers
  import opened Text
  import Html

  const MS_PER_DAY: int := 86400000
  const NO_DESCRIPTION: string := "No description"
  const EDIT_NOTES: string := "Edit Notes"
  const ADD_NOTES: string := "Add Notes"
  const APOS_REF: string := "&#39;"
  const QUOT_REF: string := "&quot;"

  /** When a bookmark was saved, as `formatDate` words it; the absolute date is the browser's date format. */
  datatype SavedWhen = Today | Yesterday | DaysAgo(n: int) | AbsoluteDate

  /** `formatDate` for a bookmark saved at `savedDate`, seen at `now`, by whole elapsed days. */
  function FormatDate(savedDate: int, now: int): (w: SavedWhen)
    ensures var days := (now - savedDate) / MS_PER_DAY;
            && (w == Today <==> days == 0)
            && (w == Yesterday <==> days == 1)
            && (w.DaysAgo? <==> days < 7 && days != 0 && days != 1)
            && (w.DaysAgo? ==> w.n == days)
            && (w == AbsoluteDate <==> days >= 7)
  {
    var days := (now - savedDate) / MS_PER_DAY;
    if days == 0 then Today
    else if days == 1 then Yesterday
    else if days < 7 then DaysAgo(days)
    else AbsoluteDate
  }

  /** The words of a saving date; None for the absolute date. */
  function DateWords(w: SavedWhen): Option<string> {
    match w
    case Today => Some("today")
    case Yesterday => Some("yesterday")
    case DaysAgo(n) => Some(IntToString(n) + " days ago")
    case AbsoluteDate => None
  }

  /** `escapeForAttribute`: nothing for empty text, otherwise every `'` as `&#39;`, then every `"` as `&quot;`. */
  function EscapeForAttribute(text: string): (r: string)
    ensures '\'' !in r && '"' !in r
    ensures text == "" ==> r == ""
  {
    if text == "" then ""
    else ReplaceChar(ReplaceChar(text, '\'', APOS_REF), '"', QUOT_REF)
  }

  /** One character of `escapeForAttribute`'s output, written independently of the two passes. */
  function QuoteRef(c: char): string {
    if c == '\'' then APOS_REF else if c == '"' then QUOT_REF else [c]
  }

  /** Every character replaced by its `QuoteRef`, in one pass. */
  function QuoteRefs(s: string): string {
    if s == [] then [] else QuoteRef(s[0]) + QuoteRefs(s[1..])
  }

  /**
   * The two chained replacements equal the one-pass reference: each quote
   * becomes its character reference and every other character stays as it is.
   */
  lemma {:induction false} EscapeForAttributeIsOnePass(text: string)
    ensures EscapeForAttribute(text) == QuoteRefs(text)
    decreases |text|
  {
    if text != [] {
      var c := text[0];
      var t := text[1..];
      var head := if c == '\'' then APOS_REF else [c];
      assert ReplaceChar(text, '\'', APOS_REF) == head + ReplaceChar(t, '\'', APOS_REF);
      ReplaceCharAppend(head, ReplaceChar(t, '\'', APOS_REF), '"', QUOT_REF);
      if c == '\'' {
        assert APOS_REF[1] == '#';
        assert '"' !in APOS_REF;
        ReplaceAbsent(APOS_REF, '"', QUOT_REF);
      } else {
        assert ReplaceChar([c], '"', QUOT_REF) == (if c == '"' then QUOT_REF else [c]) + ReplaceChar([], '"', QUOT_REF);
      }
      if t == [] {
        assert ReplaceChar(ReplaceChar(t, '\'', APOS_REF), '"', QUOT_REF) == [];
      } else {
        EscapeForAttributeIsOnePass(t);
      }
    }
  }

  /** Decoding one `QuoteRef` in front of any text gives the character back, for any character but `&`. */
  lemma UnescapeQuoteRef(c: char, rest: string)
    requires c != '&'
    ensures Html.UnescapeText(QuoteRef(c) + rest) == [c] + Html.UnescapeText(rest)
  {
    if c == '\'' {
      assert QuoteRef(c) == "&#39;";
      Html.UnescapeNumericApostrophe(rest);
    } else if c == '"' {
      assert QuoteRef(c) == Html.EscapeAttributeChar(c);
      Html.UnescapeAttributeChar(c, rest);
    } else {
      assert QuoteRef(c) == [c];
      Html.UnescapeOther(c, rest);
    }
  }

  /** For text without `&`, the browser's decoding of the attribute undoes both replacements. */
  lemma {:induction false} QuoteRefsDecoded(s: string)
    requires '&' !in s
    ensures '"' !in QuoteRefs(s) && Html.UnescapeText(QuoteRefs(s)) == s
    decreases |s|
  {
    if s != [] {
      assert '&' !in s[1..];
      QuoteRefsDecoded(s[1..]);
      UnescapeQuoteRef(s[0], QuoteRefs(s[1..]));
    }
  }

  /**
   * As written, the edit button's handler receives the notes with their
   * apostrophes restored: the browser decodes `&#39;` in the attribute before
   * the script is parsed.
   */
  lemma EditArgumentDecoded(notes: string)
    requires '&' !in notes
    ensures Html.ReadQuotedAttribute(EscapeForAttribute(notes)) == notes
  {
    EscapeForAttributeIsOnePass(notes);
    QuoteRefsDecoded(notes);
    var r := QuoteRefs(notes);
    assert Html.QuoteEnd(r) == |r|;
    assert r[..|r|] == r;
  }

  /**
   * As written, notes holding an apostrophe close the handler's string literal
   * early, so the handler never receives them (it does not even parse).
   */
  lemma ApostropheEndsEditArgument(notes: string)
    requires '&' !in notes && '\'' in notes
    ensures Html.ScriptLiteral(Html.ReadQuotedAttribute(EscapeForAttribute(notes))) != notes
  {
    EditArgumentDecoded(notes);
  }

  /** A bookmark as the page receives it; "" stands for missing text, `savedDate` in milliseconds. */
  datatype SavedEntry = SavedEntry(id: int, title: string, url: string, summary: string, notes: string, savedDate: int)

  /** One article of the list. */
  datatype Article = Article(id: int, titleText: string, urlText: string, summaryText: string,
                             notesBlock: Option<string>, notesButton: string, notesAttribute: string, saved: SavedWhen)

  /** The displayed summary: the summary, or "No description" without one. */
  function SummaryHtml(summary: string): string {
    Html.EscapeTextOr(summary, NO_DESCRIPTION)
  }

  /** The summary reads back as itself, or "No description" without one. */
  lemma SummaryShown(summary: string)
    ensures Html.UnescapeText(SummaryHtml(summary)) == Or(summary, NO_DESCRIPTION)
  {
    Html.UnescapeTextOr(summary, NO_DESCRIPTION);
  }

  /**
   * The article of one bookmark. The edit button carries the notes in a data
   * attribute written with `EscapeAttribute`, from which its handler reads
   * them, instead of a string literal inside the handler.
   */
  function ArticleOf(item: SavedEntry, now: int): Article {
    Article(item.id, Html.EscapeText(item.title), Html.EscapeText(item.url),
            SummaryHtml(item.summary),
            if item.notes != "" then Some(Html.EscapeText(item.notes)) else None,
            if item.notes != "" then EDIT_NOTES else ADD_NOTES,
            Html.EscapeAttribute(item.notes), FormatDate(item.savedDate, now))
  }

  /**
   * The article of a bookmark shows its title, URL and summary (defaulting to
   * "No description") as the text they are; the notes block and the "Edit
   * Notes" label appear exactly when there are notes, "Add Notes" otherwise;
   * the edit button hands its handler the notes exactly.
   */
  lemma ArticleShowsBookmark(item: SavedEntry, now: int)
    ensures var a := ArticleOf(item, now);
            && a.id == item.id && a.saved == FormatDate(item.savedDate, now)
            && Html.UnescapeText(a.titleText) == item.title && Html.UnescapeText(a.urlText) == item.url
            && Html.UnescapeText(a.summaryText) == Or(item.summary, NO_DESCRIPTION)
            && (a.notesBlock.Some? <==> item.notes != "")
            && (a.notesBlock.Some? ==> Html.UnescapeText(a.notesBlock.value) == item.notes)
            && a.notesButton == (if item.notes != "" then EDIT_NOTES else ADD_NOTES)
            && Html.ReadQuotedAttribute(a.notesAttribute) == item.notes
  {
    Html.UnescapeEscape(item.title);
    Html.UnescapeEscape(item.url);
    Html.UnescapeEscape(item.notes);
    SummaryShown(item.summary);
    Html.AttributeRoundTrip(item.notes);
  }

  /** The request `editNotes` makes. */
  datatype NotesUpdate = NotesUpdate(id: int, notes: string)

  /** `editNotes`: any answer to the prompt, the empty one included, is sent; a cancelled prompt sends nothing. */
  function EditNotes(id: int, answer: Option<string>): (u: Option<NotesUpdate>)
    ensures u.Some? <==> answer.Some?
    ensures u.Some? ==> u.value.id == id && u.value.notes == answer.value
  {
    match answer
    case None => None
    case Some(notes) => Some(NotesUpdate(id, notes))
  }

  /** The articles of the bookmarks, built one by one in list order. */
  method BuildArticles(list: seq<SavedEntry>, now: int) returns (html: seq<Article>)
    ensures |html| == |list| && forall k :: 0 <= k < |list| ==> html[k] == ArticleOf(list[k], now)
  {
    html := [];
    var i := 0;
    while i < |list|
      invariant 0 <= i <= |list| && |html| == i
      invariant forall k :: 0 <= k < i ==> html[k] == ArticleOf(list[k], now)
    {
      html := html + [ArticleOf(list[i], now)];
      i := i + 1;
    }
  }

  /** The bookmark page: its list container, empty state and count badge. */
  class SavedPage {
    var articles: seq<Article>
    var emptyShown: bool
    var countLabel: string

    constructor ()
      ensures articles == [] && !emptyShown && countLabel == ""
    {
      articles, emptyShown, countLabel := [], false, "";
    }

    /**
     * `renderSavedItems`: a missing or empty list empties the container, shows
     * the empty state and reads "0 items"; otherwise one article per bookmark,
     * in order, under the count badge.
     */
    method RenderSavedItems(items: Option<seq<SavedEntry>>, now: int)
      modifies this
      ensures items.None? || items.value == [] ==> articles == [] && emptyShown && countLabel == CountNoun(0, "item", "s")
      ensures items.Some? && items.value != [] ==>
                && !emptyShown && countLabel == CountNoun(|items.value|, "item", "s")
                && |articles| == |items.value|
                && forall k :: 0 <= k < |articles| ==> articles[k] == ArticleOf(items.value[k], now)
    {
      if items.None? || |items.value| == 0 {
        articles := [];
        emptyShown := true;
        countLabel := CountNoun(0, "item", "s");
        return;
      }
      var list := items.value;
      emptyShown := false;
      countLabel := CountNoun(|list|, "item", "s");
      articles := BuildArticles(list, now);
    }
  }
}
