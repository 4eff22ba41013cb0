/**
 * The second history page script: it lists stored searches with a spelled-out
 * relative age ("Just now", "5 minutes ago", "1 day ago", or the date itself
 * after a week) and re-runs a search by sending the start page its query and
 * type. Times are milliseconds.
 */
module HistoryPage {
  import opened Wrappers
  import opened Text
  import Html

  const DEFAULT_TYPE: string := "general"
  const MS_PER_MINUTE: int := 60000
  const MS_PER_HOUR: int := 3600000
  const MS_PER_DAY: int := 86400000

  /** How long ago a search was made, in the largest unit below a week, or the date itself from a week on. */
  datatype RelativeAge = JustNow | MinutesAgo(n: int) | HoursAgo(n: int) | DaysAgo(n: int) | AbsoluteDate

  /** `getTimeAgo`'s choice for `diffMs` elapsed milliseconds, each count a floor division. */
  function AgeOf(diffMs: int): (a: RelativeAge)
    ensures a.JustNow? <==> diffMs < MS_PER_MINUTE
    ensures a.MinutesAgo? ==> 1 <= a.n < 60 && a.n == diffMs / MS_PER_MINUTE
    ensures a.HoursAgo? ==> 1 <= a.n < 24 && a.n == diffMs / MS_PER_HOUR && diffMs >= 60 * MS_PER_MINUTE
    ensures a.DaysAgo? ==> 1 <= a.n < 7 && a.n == diffMs / MS_PER_DAY && diffMs >= 24 * MS_PER_HOUR
    ensures a.AbsoluteDate? <==> diffMs >= 7 * MS_PER_DAY
  {
    var mins := diffMs / MS_PER_MINUTE;
    var hours := diffMs / MS_PER_HOUR;
    var days := diffMs / MS_PER_DAY;
    if mins < 1 then JustNow
    else if mins < 60 then MinutesAgo(mins)
    else if hours < 24 then HoursAgo(hours)
    else if days < 7 then DaysAgo(days)
    else AbsoluteDate
  }

  /** "N unit ago", with the plural `s` unless N is 1. */
  function CountAgo(n: int, unit: string): (r: string)
    ensures n == 1 ==> r == "1 " + unit + " ago"
    ensures n != 1 ==> r == IntToString(n) + " " + unit + "s ago"
  {
    IntToString(n) + " " + unit + (if n != 1 then "s" else "") + " ago"
  }

  /** The label of an age; None for the absolute date, which the browser's date format renders. */
  function AgeLabel(a: RelativeAge): (r: Option<string>)
    ensures r.None? <==> a.AbsoluteDate?
    ensures a.JustNow? ==> r == Some("Just now")
  {
    match a
    case JustNow => Some("Just now")
    case MinutesAgo(n) => Some(CountAgo(n, "minute"))
    case HoursAgo(n) => Some(CountAgo(n, "hour"))
    case DaysAgo(n) => Some(CountAgo(n, "day"))
    case AbsoluteDate => None
  }

  /** The singular form appears exactly for a count of one, in every unit. */
  lemma SingularExactlyForOne(diffMs: int)
    requires diffMs >= MS_PER_MINUTE && diffMs < 7 * MS_PER_DAY
    ensures var a := AgeOf(diffMs);
            AgeLabel(a).Some? && (a.n == 1 <==> AgeLabel(a).value[|AgeLabel(a).value| - 5] != 's')
  {
    var a := AgeOf(diffMs);
    var unit := if a.MinutesAgo? then "minute" else if a.HoursAgo? then "hour" else "day";
    var r := AgeLabel(a).value;
    assert r == CountAgo(a.n, unit);
    if a.n == 1 {
      assert r == "1 " + unit + " ago";
      assert r[|r| - 5] == unit[|unit| - 1];
    } else {
      assert r == IntToString(a.n) + " " + unit + "s ago";
      assert r[|r| - 5] == 's';
    }
  }

  /** A history row as this page receives it; `searchDate` in milliseconds. */
  datatype PageItem = PageItem(id: int, query: string, searchType: string, resultsCount: Option<int>, searchDate: int)

  /** Where `rerunSearch` goes: the start page with `q` and `type`. */
  datatype SearchLink = SearchLink(q: string, searchType: string)

  /** `rerunSearch`: the query as given and the type, "general" when empty. */
  function RerunSearch(query: string, searchType: string): (l: SearchLink)
    ensures l.q == query && l.searchType != ""
    ensures searchType != "" ==> l.searchType == searchType
    ensures searchType == "" ==> l.searchType == DEFAULT_TYPE
  {
    SearchLink(query, Or(searchType, DEFAULT_TYPE))
  }

  /** One article of the list. */
  datatype Article = Article(id: int, queryText: string, typeBadge: string, age: RelativeAge, results: int)

  /** The article of one item. */
  function ArticleOf(item: PageItem, now: int): (a: Article)
    ensures a.id == item.id && a.typeBadge == item.searchType
    ensures a.age == AgeOf(now - item.searchDate)
    ensures Html.UnescapeText(a.queryText) == item.query
    ensures a.results == item.resultsCount.GetOr(0)
  {
    Html.UnescapeEscape(item.query);
    Article(item.id, Html.EscapeText(item.query), item.searchType, AgeOf(now - item.searchDate),
            item.resultsCount.GetOr(0))
  }

  /** The history page: its list container, empty state, count badge and clear button. */
  class HistoryPage {
    var articles: seq<Article>
    var emptyHidden: bool
    var countLabel: string
    var clearShown: bool

    constructor ()
      ensures articles == [] && !emptyHidden && countLabel == "" && !clearShown
    {
      articles, emptyHidden, countLabel, clearShown := [], false, "", false;
    }

    /**
     * `renderHistory`: a missing or empty list empties the container, shows the
     * empty state, reads "0 searches" and hides the clear button; otherwise one
     * article per item, in order, under the count badge, with the clear button shown.
     */
    method RenderHistory(items: Option<seq<PageItem>>, now: int)
      modifies this
      ensures items.None? || items.value == [] ==>
                articles == [] && !emptyHidden && countLabel == CountNoun(0, "search", "es") && !clearShown
      ensures items.Some? && items.value != [] ==>
                && emptyHidden && clearShown && countLabel == CountNoun(|items.value|, "search", "es")
                && |articles| == |items.value|
                && forall k :: 0 <= k < |articles| ==> articles[k] == ArticleOf(items.value[k], now)
    {
      if items.None? || |items.value| == 0 {
        articles := [];
        emptyHidden := false;
        countLabel := CountNoun(0, "search", "es");
        clearShown := false;
        return;
      }
      var list := items.value;
      emptyHidden := true;
      countLabel := CountNoun(|list|, "search", "es");
      clearShown := true;
      var html: seq<Article> := [];
      var i := 0;
      while i < |list|
        invariant 0 <= i <= |list| && |html| == i
        invariant forall k :: 0 <= k < i ==> html[k] == ArticleOf(list[k], now)
      {
        html := html + [ArticleOf(list[i], now)];
        i := i + 1;
      }
      articles := html;
    }
  }
}
