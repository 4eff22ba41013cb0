/**
 * The readable-content service: it fetches a page, extracts its title and its
 * visible text, counts the words, and keeps one extracted copy per URL for 24
 * hours. Times are whole seconds.
 */
module Content {
  import opened Wrappers
  import opened Text

  const CACHE_TTL_SECONDS: int := 24 * 3600
  const MAX_BODY_LENGTH: nat := 200000
  const NO_CONTENT: string := "No " + "readable content was extracted from this page."
  const TITLE_OPEN: string := "<title>"
  const TITLE_CLOSE: string := "</title>"

  /** A stored extraction; `fetchedAt` is None for a row without a fetch time. */
  datatype ContentEntry = ContentEntry(url: string, title: string, body: string, wordCount: int, fetchedAt: Option<int>)

  /** What the content endpoint answers. */
  datatype ContentResponse = ContentResponse(
    url: string, title: string, content: string, wordCount: int, fetchedAt: Option<int>, cached: bool)

  /** How fetching the page ends: a response with its status and body, or no response at all. */
  datatype FetchOutcome = Page(status: int, body: string) | Unreachable

  /** The exceptions `getContent` lets escape. */
  datatype ContentError = FetchFailed(status: Option<int>) | DuplicateUrl

  /** A row older than 24 hours, or one without a fetch time, must be fetched again. */
  predicate IsStale(e: ContentEntry, now: int) {
    e.fetchedAt.None? || e.fetchedAt.value < now - CACHE_TTL_SECONDS
  }

  /** An opening `<title>` at `start` is never overlapped by a closing tag found after it. */
  lemma CloseTagAfterOpenTag(lower: string, start: int, end: int)
    requires OccursAt(lower, TITLE_OPEN, start) && OccursAt(lower, TITLE_CLOSE, end) && end > start
    ensures end >= start + |TITLE_OPEN|
  {
    assert lower[end] == '<' by {
      assert lower[end..end + |TITLE_CLOSE|][0] == lower[end];
    }
    forall k | start < k < start + |TITLE_OPEN|
      ensures lower[k] != '<'
    {
      assert lower[start..start + |TITLE_OPEN|][k - start] == lower[k];
    }
  }

  /**
   * `extractTitle`: the text between the first `<title>` and the first
   * `</title>` (found case-insensitively), whitespace runs collapsed and trimmed;
   * None when either is missing or the closing tag comes first.
   */
  function ExtractTitle(html: string): (t: Option<string>)
    ensures var lower := ToLower(html);
            var start := IndexOf(lower, TITLE_OPEN);
            var end := IndexOf(lower, TITLE_CLOSE);
            t.Some? <==> start >= 0 && end > start
    ensures t.Some? ==> NoSpaceRuns(t.value) && (t.value != [] ==> !IsSpace(t.value[0]) && !IsSpace(t.value[|t.value| - 1]))
  {
    var lower := ToLower(html);
    var start := IndexOf(lower, TITLE_OPEN);
    var end := IndexOf(lower, TITLE_CLOSE);
    if start >= 0 && end > start then
      CloseTagAfterOpenTag(lower, start, end);
      var collapsed := CollapseSpaces(html[start + |TITLE_OPEN| .. end]);
      TrimKeepsNoSpaceRuns(collapsed);
      Some(Trim(collapsed))
    else None
  }

  /** Trimming a text without whitespace runs leaves one without whitespace runs. */
  lemma TrimKeepsNoSpaceRuns(s: string)
    requires NoSpaceRuns(s)
    ensures NoSpaceRuns(Trim(s))
  {
    var r := Trim(s);
    var lo := LeadingSpaces(s);
    forall i | 0 <= i < |r| - 1
      ensures !IsSpace(r[i]) || !IsSpace(r[i + 1])
    {
      assert r[i] == s[lo + i] && r[i + 1] == s[lo + i + 1];
    }
  }

  /** `s` starts, ignoring ASCII case, with `lowerPat` (which is lower-case). */
  predicate StartsWithIgnoringCase(s: string, lowerPat: string) {
    |lowerPat| <= |s| && ToLower(s[..|lowerPat|]) == lowerPat
  }

  /** Position of the first `c` in `s`, or |s| when there is none. */
  function FindChar(s: string, c: char): (k: nat)
    ensures k <= |s| && (k < |s| ==> s[k] == c)
    ensures forall i :: 0 <= i < k ==> s[i] != c
  {
    if s == [] || s[0] == c then 0 else 1 + FindChar(s[1..], c)
  }

  /** Position just after the first case-insensitive occurrence of `lowerPat` in `s`, or None. */
  function FindAfter(s: string, lowerPat: string): (k: Option<nat>)
    ensures k.Some? ==> |lowerPat| <= k.value <= |s| && StartsWithIgnoringCase(s[k.value - |lowerPat|..], lowerPat)
    ensures k.Some? ==> forall i :: 0 <= i < k.value - |lowerPat| ==> !StartsWithIgnoringCase(s[i..], lowerPat)
    ensures k.None? ==> forall i :: 0 <= i <= |s| ==> !StartsWithIgnoringCase(s[i..], lowerPat)
    decreases |s|
  {
    if |s| < |lowerPat| then None
    else if StartsWithIgnoringCase(s, lowerPat) then Some(|lowerPat|)
    else
      assert forall i :: 1 <= i <= |s| ==> s[i..] == s[1..][i - 1..];
      match FindAfter(s[1..], lowerPat)
      case None => None
      case Some(k) =>
        assert s[1..][k - |lowerPat|..] == s[k + 1 - |lowerPat|..];
        Some(k + 1)
  }

  /**
   * `replaceAll("(?is)<tag.*?>.*?</tag>", " ")`: each element opened by `<tag`
   * (any case), up to the first `>` after it and then the first `</tag>` after
   * that, becomes one space; text without a complete element is unchanged.
   */
  function RemoveElements(s: string, tag: string): (r: string)
    ensures |r| <= |s|
    ensures forall c :: c in r ==> c == ' ' || c in s
    decreases |s|
  {
    if s == [] then []
    else
      var open := "<" + tag;
      var close := "</" + tag + ">";
      if StartsWithIgnoringCase(s, open) then
        var gt := |open| + FindChar(s[|open|..], '>');
        if gt < |s| then
          match FindAfter(s[gt + 1..], close)
          case Some(k) =>
            var rest := RemoveElements(s[gt + 1 + k..], tag);
            assert forall c :: c in rest ==> c == ' ' || c in s by {
              forall c | c in rest && c != ' '
                ensures c in s
              {
                var j :| 0 <= j < |s[gt + 1 + k..]| && s[gt + 1 + k..][j] == c;
                assert s[gt + 1 + k + j] == c;
              }
            }
            " " + rest
          case None => KeepFirst(s, tag)
        else KeepFirst(s, tag)
      else KeepFirst(s, tag)
  }

  /** The first character is not the start of an element: it stays, and the rest is processed. */
  function KeepFirst(s: string, tag: string): (r: string)
    requires s != []
    ensures |r| <= |s|
    ensures forall c :: c in r ==> c == ' ' || c in s
    decreases |s|, 0
  {
    var rest := RemoveElements(s[1..], tag);
    assert forall c :: c in rest ==> c == ' ' || c in s by {
      forall c | c in rest && c != ' '
        ensures c in s
      {
        var j :| 0 <= j < |s[1..]| && s[1..][j] == c;
        assert s[j + 1] == c;
      }
    }
    [s[0]] + rest
  }

  /** Every `<` left in `r` is directly followed by `>`, or no `>` comes after it: no tag remains. */
  predicate NoTagLeft(r: string) {
    forall i :: 0 <= i < |r| && r[i] == '<' ==> (i + 1 < |r| && r[i + 1] == '>') || '>' !in r[i + 1..]
  }

  /** `replaceAll("(?is)<[^>]+>", " ")`: every tag becomes one space. */
  function StripTags(s: string): (r: string)
    ensures |r| <= |s|
    ensures forall c :: c in r ==> c == ' ' || c in s
    ensures s != [] && s[0] != '<' ==> r != [] && r[0] == s[0]
    ensures NoTagLeft(r)
    decreases |s|
  {
    if s == [] then []
    else
      var gt := FindChar(s, '>');
      if s[0] == '<' && |s| > 1 && s[1] != '>' && gt < |s| then
        var rest := StripTags(s[gt + 1..]);
        CharsOfSuffix(s, gt + 1, rest);
        NoTagAfterSpace(rest);
        " " + rest
      else
        var rest := StripTags(s[1..]);
        CharsOfSuffix(s, 1, rest);
        var r := [s[0]] + rest;
        assert NoTagLeft(r) by {
          forall i | 0 <= i < |r| && r[i] == '<'
            ensures (i + 1 < |r| && r[i + 1] == '>') || '>' !in r[i + 1..]
          {
            if i == 0 {
              if |s| > 1 && s[1] != '>' && s[1] != '<' {
                assert r[1] == s[1];
              }
              assert r[i + 1..] == rest;
            } else {
              assert r[i + 1..] == rest[i..];
              assert rest[i - 1] == '<';
            }
          }
        }
        r
  }

  /** The characters of a result built from a suffix of `s` come from `s` or are spaces. */
  lemma CharsOfSuffix(s: string, k: nat, rest: string)
    requires k <= |s|
    requires forall c :: c in rest ==> c == ' ' || c in s[k..]
    ensures forall c :: c in rest ==> c == ' ' || c in s
  {
    forall c | c in rest && c != ' '
      ensures c in s
    {
      var j :| 0 <= j < |s[k..]| && s[k..][j] == c;
      assert s[k + j] == c;
    }
  }

  /** Putting a space in front keeps a text free of tags. */
  lemma NoTagAfterSpace(rest: string)
    requires NoTagLeft(rest)
    ensures NoTagLeft(" " + rest)
  {
    var r := " " + rest;
    forall i | 0 <= i < |r| && r[i] == '<'
      ensures (i + 1 < |r| && r[i + 1] == '>') || '>' !in r[i + 1..]
    {
      assert r[i + 1..] == rest[i..];
      assert rest[i - 1] == '<';
    }
  }

  /** A text longer than the limit is cut at the limit and marked with "...". */
  function Truncate(s: string): (r: string)
    ensures |s| <= MAX_BODY_LENGTH ==> r == s
    ensures |s| > MAX_BODY_LENGTH ==> |r| == MAX_BODY_LENGTH + 3 && r[..MAX_BODY_LENGTH] == s[..MAX_BODY_LENGTH]
                                       && r[MAX_BODY_LENGTH..] == "..."
  {
    if |s| > MAX_BODY_LENGTH then s[..MAX_BODY_LENGTH] + "..." else s
  }

  /** Cutting a text without whitespace runs or surrounding whitespace keeps it so. */
  lemma TruncateKeepsShape(s: string)
    requires NoSpaceRuns(s) && (s != [] ==> !IsSpace(s[0]) && !IsSpace(s[|s| - 1]))
    ensures var r := Truncate(s);
            NoSpaceRuns(r) && (r != [] ==> !IsSpace(r[0]) && !IsSpace(r[|r| - 1]))
  {
    if |s| > MAX_BODY_LENGTH {
      var r := Truncate(s);
      forall i | 0 <= i < |r| - 1
        ensures !IsSpace(r[i]) || !IsSpace(r[i + 1])
      {
        if i < MAX_BODY_LENGTH - 1 {
          assert r[i] == s[i] && r[i + 1] == s[i + 1];
        } else {
          assert r[i + 1] == '.';
        }
      }
      assert r[0] == s[0] && r[|r| - 1] == '.';
    }
  }

  /**
   * `extractText`: scripts, styles and tags removed, whitespace collapsed and
   * trimmed, cut at 200000 characters; no whitespace run and no whitespace at
   * either end remains.
   */
  function ExtractText(html: string): (t: string)
    ensures NoSpaceRuns(t) && (t != [] ==> !IsSpace(t[0]) && !IsSpace(t[|t| - 1]))
    ensures |t| <= MAX_BODY_LENGTH + 3
  {
    var withoutScripts := RemoveElements(RemoveElements(html, "script"), "style");
    Squeeze(StripTags(withoutScripts))
  }

  /** Whitespace runs collapsed, the ends trimmed, the result cut at the limit. */
  function Squeeze(s: string): (t: string)
    ensures NoSpaceRuns(t) && (t != [] ==> !IsSpace(t[0]) && !IsSpace(t[|t| - 1]))
    ensures |t| <= MAX_BODY_LENGTH + 3
  {
    var collapsed := CollapseSpaces(s);
    TrimKeepsNoSpaceRuns(collapsed);
    TruncateKeepsShape(Trim(collapsed));
    Truncate(Trim(collapsed))
  }

  /** `countWords`: 0 for a blank text, else the number of pieces `split("\\s+")` gives for the trimmed text. */
  function CountWords(text: string): (n: nat)
    ensures n == Words(text)
  {
    var trimmed := Trim(text);
    WordsTrim(text);
    if trimmed == [] then
      WordsFromBlank(text, true);
      0
    else
      SplitTrimmedCountsWords(trimmed);
      |SplitOnSpaces(trimmed)|
  }

  /** A text that is not blank has at least one word. */
  lemma {:induction false} NonBlankHasWord(s: string)
    requires !IsBlank(s)
    ensures WordsFrom(s, true) >= 1
    decreases |s|
  {
    if IsSpace(s[0]) {
      assert !IsBlank(s[1..]) by {
        var i :| 0 <= i < |s| && !IsSpace(s[i]);
        assert s[1..][i - 1] == s[i];
      }
      NonBlankHasWord(s[1..]);
    }
  }

  /** The title of a fetched page: its own title when that is not blank, else the URL. */
  function PageTitle(url: string, html: string): (t: string)
    ensures ExtractTitle(html).Some? && !IsBlank(ExtractTitle(html).value) ==> t == ExtractTitle(html).value
    ensures ExtractTitle(html).None? || IsBlank(ExtractTitle(html).value) ==> t == url
    ensures !IsBlank(url) ==> !IsBlank(t)
  {
    var title := ExtractTitle(html);
    if title.None? || IsBlank(title.value) then url else title.value
  }

  /** The stored text of a fetched page: its extracted text, or the placeholder when that is blank. */
  function PageBody(html: string): (b: string)
    ensures IsBlank(ExtractText(html)) ==> b == NO_CONTENT
    ensures !IsBlank(ExtractText(html)) ==> b == ExtractText(html)
    ensures !IsBlank(b) && |b| <= MAX_BODY_LENGTH + 3
  {
    var text := ExtractText(html);
    assert NO_CONTENT[0] == 'N';
    if IsBlank(text) then NO_CONTENT else text
  }

  /** `fetchAndNormalize`: the row for a page fetched at `now`; it always holds at least one word. */
  function Normalize(url: string, html: string, now: int): (e: ContentEntry)
    ensures e.url == url && e.fetchedAt == Some(now)
    ensures e.title == PageTitle(url, html) && e.body == PageBody(html)
    ensures e.wordCount == Words(e.body) && e.wordCount >= 1
  {
    var body := PageBody(html);
    NonBlankHasWord(body);
    ContentEntry(url, PageTitle(url, html), body, CountWords(body), Some(now))
  }

  /** The response for a row. */
  function ToResponse(e: ContentEntry, cached: bool): ContentResponse {
    ContentResponse(e.url, e.title, e.body, e.wordCount, e.fetchedAt, cached)
  }

  /** `fetchHtml`: the body of a page answered with a status below 400; anything else fails. */
  function FetchHtml(fetch: FetchOutcome): (r: Result<string, ContentError>)
    ensures r.Ok? <==> fetch.Page? && fetch.status < 400
    ensures r.Ok? ==> r.value == fetch.body
    ensures fetch.Page? && fetch.status >= 400 ==> r == Err(FetchFailed(Some(fetch.status)))
    ensures fetch.Unreachable? ==> r == Err(FetchFailed(None))
  {
    match fetch
    case Unreachable => Err(FetchFailed(None))
    case Page(status, body) => if status >= 400 then Err(FetchFailed(Some(status))) else Ok(body)
  }

  /** The outcome of a content request: the answer and the rows afterwards. */
  datatype Outcome = Outcome(answer: Result<ContentResponse, ContentError>, entries: map<string, ContentEntry>)

  /** The row of `url`, when it may be served at time `now` without fetching. */
  function Servable(entries: map<string, ContentEntry>, url: string, forceRefresh: bool, now: int): Option<ContentEntry> {
    if !forceRefresh && url in entries && !IsStale(entries[url], now) then Some(entries[url]) else None
  }

  /**
   * `getContent` as written: a renewed extraction is always inserted as a new
   * row, which the unique `url` column rejects when the URL already has one.
   */
  function GetContentAsWritten(entries: map<string, ContentEntry>, url: string, forceRefresh: bool, now: int,
                               fetch: FetchOutcome): (o: Outcome)
    ensures Servable(entries, url, forceRefresh, now).Some? ==>
              o == Outcome(Ok(ToResponse(entries[url], true)), entries)
    ensures Servable(entries, url, forceRefresh, now).None? && url in entries ==> o.answer.Err?
  {
    var cached := Servable(entries, url, forceRefresh, now);
    var html := FetchHtml(fetch);
    if cached.Some? then Outcome(Ok(ToResponse(cached.value, true)), entries)
    else if html.Err? then Outcome(Err(html.error), entries)
    else if url in entries then Outcome(Err(DuplicateUrl), entries)
    else
      var renewed := Normalize(url, html.value, now);
      Outcome(Ok(ToResponse(renewed, false)), entries[url := renewed])
  }

  /** A row older than a day can never be refreshed as written: the fetch succeeds, the insert fails. */
  lemma StaleRowNeverRefreshedAsWritten(old_: ContentEntry, url: string, t: int, now: int, html: string)
    requires now > t + CACHE_TTL_SECONDS
    ensures var entries := map[url := old_.(url := url, fetchedAt := Some(t))];
            GetContentAsWritten(entries, url, false, now, Page(200, html)).answer == Err(DuplicateUrl)
  {
  }

  /** `getContent`, with the renewed extraction replacing the URL's row instead of being inserted beside it. */
  function GetContentAt(entries: map<string, ContentEntry>, url: string, forceRefresh: bool, now: int,
                        fetch: FetchOutcome): (o: Outcome)
    ensures Servable(entries, url, forceRefresh, now).Some? ==>
              o == Outcome(Ok(ToResponse(entries[url], true)), entries)
    ensures Servable(entries, url, forceRefresh, now).None? && FetchHtml(fetch).Err? ==>
              o == Outcome(Err(FetchHtml(fetch).error), entries)
    ensures Servable(entries, url, forceRefresh, now).None? && FetchHtml(fetch).Ok? ==>
              var renewed := Normalize(url, FetchHtml(fetch).value, now);
              o.answer == Ok(ToResponse(renewed, false)) && o.entries == entries[url := renewed]
  {
    var cached := Servable(entries, url, forceRefresh, now);
    var html := FetchHtml(fetch);
    if cached.Some? then Outcome(Ok(ToResponse(cached.value, true)), entries)
    else if html.Err? then Outcome(Err(html.error), entries)
    else
      var renewed := Normalize(url, html.value, now);
      Outcome(Ok(ToResponse(renewed, false)), entries[url := renewed])
  }

  /** After a successful fetch, the same URL is served from the stored row for 24 hours, whatever the page does meanwhile. */
  lemma FetchedThenCached(entries: map<string, ContentEntry>, url: string, force: bool, t: int, u: int,
                          fetch: FetchOutcome, later: FetchOutcome)
    requires t <= u <= t + CACHE_TTL_SECONDS
    requires GetContentAt(entries, url, force, t, fetch).answer.Ok?
    requires !GetContentAt(entries, url, force, t, fetch).answer.value.cached
    ensures var first := GetContentAt(entries, url, force, t, fetch);
            var second := GetContentAt(first.entries, url, false, u, later);
            second.answer.Ok? && second.answer.value.cached
            && second.answer.value.content == first.answer.value.content
  {
    var first := GetContentAt(entries, url, force, t, fetch);
    assert Servable(entries, url, force, t).None?;
    var html := FetchHtml(fetch);
    assert html.Ok?;
    var e := Normalize(url, html.value, t);
    assert first.entries == entries[url := e] && first.answer == Ok(ToResponse(e, false));
    FreshRowServable(entries, url, e, t, u);
  }

  /** A row fetched at `t` and stored under its URL is served from the store until `t` plus 24 hours. */
  lemma FreshRowServable(entries: map<string, ContentEntry>, url: string, e: ContentEntry, t: int, u: int)
    requires e.fetchedAt == Some(t) && t <= u <= t + CACHE_TTL_SECONDS
    ensures Servable(entries[url := e], url, false, u) == Some(e)
  {
  }

  /** The rows left by `deleteByFetchedAtBefore(now - 24h)`; a row without a fetch time is kept. */
  function EvictAt(entries: map<string, ContentEntry>, now: int): (m: map<string, ContentEntry>)
    ensures forall u :: u in m <==> u in entries && !(entries[u].fetchedAt.Some? && entries[u].fetchedAt.value < now - CACHE_TTL_SECONDS)
    ensures forall u :: u in m ==> m[u] == entries[u]
  {
    map u | u in entries && !(entries[u].fetchedAt.Some? && entries[u].fetchedAt.value < now - CACHE_TTL_SECONDS) :: entries[u]
  }

  /** Sweeping stale rows never changes what a later request is answered from the stored rows. */
  lemma EvictionKeepsServable(entries: map<string, ContentEntry>, url: string, forceRefresh: bool, now: int, u: int)
    requires now <= u
    ensures Servable(EvictAt(entries, now), url, forceRefresh, u) == Servable(entries, url, forceRefresh, u)
  {
  }

  /** Each row is filed under its own URL and carries the word count of its body. */
  ghost predicate RowsValid(entries: map<string, ContentEntry>) {
    forall u :: u in entries ==> entries[u].url == u && entries[u].wordCount == Words(entries[u].body)
  }

  /** Filing a consistent row under its own URL keeps the rows consistent. */
  lemma StoreKeepsRowsValid(entries: map<string, ContentEntry>, e: ContentEntry)
    requires RowsValid(entries) && e.wordCount == Words(e.body)
    ensures RowsValid(entries[e.url := e])
  {
  }

  /** The content service: one row per URL. */
  class ContentService {
    var entries: map<string, ContentEntry>

    ghost predicate Valid()
      reads this
    {
      RowsValid(entries)
    }

    constructor ()
      ensures Valid() && entries == map[]
    {
      entries := map[];
    }

    /** `getContent` (with the row replaced on refresh). */
    method GetContent(url: string, forceRefresh: bool, now: int, fetch: FetchOutcome)
      returns (answer: Result<ContentResponse, ContentError>)
      requires Valid()
      modifies this
      ensures Valid()
      ensures var o := GetContentAt(old(entries), url, forceRefresh, now, fetch);
              answer == o.answer && entries == o.entries
    {
      if !forceRefresh && url in entries && !IsStale(entries[url], now) {
        return Ok(ToResponse(entries[url], true));
      }
      var html := FetchHtml(fetch);
      if html.Err? {
        return Err(html.error);
      }
      var renewed := Normalize(url, html.value, now);
      StoreKeepsRowsValid(entries, renewed);
      entries := entries[url := renewed];
      answer := Ok(ToResponse(renewed, false));
    }

    /** `evictStaleEntries`: deletes the rows fetched more than 24 hours ago and says how many went. */
    method EvictStaleEntries(now: int) returns (deleted: int)
      requires Valid()
      modifies this
      ensures Valid()
      ensures entries == EvictAt(old(entries), now)
      ensures deleted == |old(entries)| - |entries|
    {
      var kept := EvictAt(entries, now);
      deleted := |entries| - |kept|;
      entries := kept;
    }
  }
}
