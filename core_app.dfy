/**
 * The shell every page of the multi-page application shares: the light or
 * dark theme (kept in the browser's storage and in the backend's preference
 * row), the preference panel that fills the search form, and the highlighting
 * of the navigation link of the current page.
 */
module CoreApp {
  import opened Wrappers
  import opened Text
  import Preferences

  const DARK: string := "dark"
  const LIGHT: string := "light"
  const DEFAULT_TYPE: string := "general"

  /** `setTheme`'s guard: "dark" and "light" are kept, every other value becomes "light". */
  function NormalTheme(theme: string): (t: string)
    ensures t == DARK || t == LIGHT
    ensures theme == DARK || theme == LIGHT ==> t == theme
    ensures theme != DARK && theme != LIGHT ==> t == LIGHT
  {
    if theme != DARK && theme != LIGHT then LIGHT else theme
  }

  /**
   * The preferences as the page receives them: "" stands for a missing, null
   * or empty text; the tips flag may also be missing (undefined) or null.
   */
  datatype Prefs = Prefs(theme: string, defaultQuery: string, defaultType: string,
                         showAdvancedTips: Preferences.Field<bool>)

  /** The theme `applyPreferences` shows: the preference's, else the stored one, else "light". */
  function EffectiveTheme(prefs: Option<Prefs>, stored: Option<string>): (t: string)
    ensures t != ""
    ensures prefs.Some? && prefs.value.theme != "" ==> t == prefs.value.theme
    ensures (prefs.None? || prefs.value.theme == "") && stored.Some? && stored.value != "" ==> t == stored.value
    ensures (prefs.None? || prefs.value.theme == "") && (stored.None? || stored.value == "") ==> t == LIGHT
  {
    var fromPrefs := if prefs.Some? then prefs.value.theme else "";
    Or(fromPrefs, Or(stored.GetOr(""), LIGHT))
  }

  /** A text field after `applyPreferences`: overwritten only by a non-empty preference. */
  function TextAfter(pref: Option<string>, current: string): (v: string)
    ensures pref.Some? && pref.value != "" ==> v == pref.value
    ensures pref.None? || pref.value == "" ==> v == current
  {
    if pref.Some? && pref.value != "" then pref.value else current
  }

  /** The tips checkbox after `applyPreferences`: a missing flag leaves it, a null one clears it. */
  function TipsAfter(prefs: Option<Prefs>, current: bool): (v: bool)
    ensures prefs.None? || prefs.value.showAdvancedTips.Absent? ==> v == current
    ensures prefs.Some? && prefs.value.showAdvancedTips.Null? ==> !v
    ensures prefs.Some? && prefs.value.showAdvancedTips.Given? ==> v == prefs.value.showAdvancedTips.value
  {
    if prefs.None? then current
    else match prefs.value.showAdvancedTips
      case Absent => current
      case Null => false
      case Given(b) => b
  }

  /** The theme, query and type of the received preferences; None when nothing was received. */
  function ThemeOf(prefs: Option<Prefs>): Option<string> {
    if prefs.Some? then Some(prefs.value.theme) else None
  }

  function QueryOf(prefs: Option<Prefs>): Option<string> {
    if prefs.Some? then Some(prefs.value.defaultQuery) else None
  }

  function TypeOf(prefs: Option<Prefs>): Option<string> {
    if prefs.Some? then Some(prefs.value.defaultType) else None
  }

  /** The navigation rule: the root link only on the root page, any other link on every path containing its target. */
  predicate IsActiveLink(href: string, path: string) {
    (href == "/" && path == "/") || (href != "/" && Contains(path, href))
  }

  /** The root link is highlighted exactly on the root page. */
  lemma RootLinkActiveOnlyAtRoot(path: string)
    ensures IsActiveLink("/", path) <==> path == "/"
  {
  }

  /** Every other link is highlighted on its own page. */
  lemma OwnPageLinkActive(href: string)
    requires href != "/"
    ensures IsActiveLink(href, href)
  {
    assert OccursAt(href, href, 0) by {
      assert href[0..|href|] == href;
    }
  }

  /** On the root page, no link with a non-empty target other than the root one is highlighted. */
  lemma AtRootOnlyRootLink(href: string)
    requires href != ""
    ensures IsActiveLink(href, "/") <==> href == "/"
  {
    if Contains("/", href) {
      var i :| 0 <= i <= 1 - |href| && OccursAt("/", href, i);
      assert href == "/"[i..i + |href|];
    }
  }

  /** The body of the request of the save button. */
  datatype SavedForm = SavedForm(defaultQuery: string, defaultType: string, theme: string, showAdvancedTips: bool)

  /** The same body as the backend binds it: every property given. */
  function RequestBody(f: SavedForm): (b: Preferences.PreferenceBody)
    ensures b.defaultQuery == Preferences.Given(f.defaultQuery) && b.defaultType == Preferences.Given(f.defaultType)
    ensures b.theme == Preferences.Given(f.theme) && b.showAdvancedTips == Preferences.Given(f.showAdvancedTips)
  {
    Preferences.PreferenceBody(Preferences.Given(f.defaultQuery), Preferences.Given(f.defaultType),
                               Preferences.Given(f.theme), Preferences.Given(f.showAdvancedTips))
  }

  /**
   * Saving the panel overwrites all four stored preferences with what the form
   * holds, the theme and type never empty: the request gives every property,
   * so none of the entity's initial values survives the binding.
   */
  lemma SavedFormOverwritesEveryField(existing: Preferences.Preference, f: SavedForm, now: int)
    requires f.theme != "" && f.defaultType != ""
    ensures var p := Preferences.Merge(existing, Preferences.BindAsEntity(RequestBody(f), now));
            && p.defaultQuery == Some(f.defaultQuery) && p.defaultType == Some(f.defaultType)
            && p.theme == Some(f.theme) && p.showAdvancedTips == Some(f.showAdvancedTips)
            && p.id == existing.id
  {
  }

  /** A preference row as the page receives it: null columns become "" and a null flag stays null. */
  function PrefsOf(p: Preferences.Preference): (r: Prefs)
    ensures r.theme == p.theme.GetOr("") && r.defaultQuery == p.defaultQuery.GetOr("")
    ensures r.defaultType == p.defaultType.GetOr("")
    ensures r.showAdvancedTips == (if p.showAdvancedTips.Some? then Preferences.Given(p.showAdvancedTips.value)
                                   else Preferences.Null)
  {
    Prefs(p.theme.GetOr(""), p.defaultQuery.GetOr(""), p.defaultType.GetOr(""),
          if p.showAdvancedTips.Some? then Preferences.Given(p.showAdvancedTips.value) else Preferences.Null)
  }

  /**
   * A theme chosen in the panel is the one the next page load shows: the
   * backend merges the theme-only request into its row, and `applyPreferences`
   * takes the row's theme over whatever the browser has stored.
   */
  lemma ChosenThemeSurvivesReload(existing: Preferences.Preference, theme: string, stored: Option<string>, now: int)
    ensures var p := Preferences.Merge(existing, Preferences.BindAsEntity(Preferences.ThemeOnly(NormalTheme(theme)), now));
            EffectiveTheme(Some(PrefsOf(p)), stored) == NormalTheme(theme)
  {
    var t := NormalTheme(theme);
    var p := Preferences.Merge(existing, Preferences.BindAsEntity(Preferences.ThemeOnly(t), now));
    assert p.theme == Some(t);
  }

  /** How the preference request of `loadPreferences` ended. */
  datatype LoadOutcome = Loaded(prefs: Option<Prefs>) | LoadRejected(status: int) | LoadFailed

  /** How the request of `savePreferences` ended. */
  datatype SaveOutcome = Saved(saved: Option<Prefs>) | SaveRejected(status: int) | SaveFailed

  /**
   * The page shell: the dark-theme class on the body and on the root element,
   * the browser's stored theme, the panel's theme select and tips checkbox,
   * and the search form's query and type; the form elements are taken to exist.
   */
  class Shell {
    var bodyDark: bool
    var rootDark: bool
    /** The root's `dark-theme-pending` class, set before the page renders. */
    var rootPending: bool
    /** The browser's stored `theme`. */
    var storedTheme: Option<string>
    var themeSelect: string
    var tipsChecked: bool
    var queryValue: string
    var typeValue: string
    /** The hrefs of the navigation links and whether each is highlighted. */
    var navHrefs: seq<string>
    var navActive: seq<bool>

    /** The script's first lines: a stored dark theme marks the root before the page renders. */
    constructor (storedTheme: Option<string>, navHrefs: seq<string>)
      ensures this.storedTheme == storedTheme && this.navHrefs == navHrefs
      ensures rootPending == (storedTheme == Some(DARK)) && !bodyDark && !rootDark
    {
      this.storedTheme := storedTheme;
      this.navHrefs := navHrefs;
      navActive := [];
      rootPending := storedTheme == Some(DARK);
      bodyDark, rootDark := false, false;
      themeSelect, tipsChecked, queryValue, typeValue := "", false, "", "";
    }

    /** `setActiveNavLink`: each link is highlighted exactly when the navigation rule holds for the current path. */
    method SetActiveNavLink(path: string)
      modifies this
      ensures navHrefs == old(navHrefs) && |navActive| == |navHrefs|
      ensures forall k :: 0 <= k < |navHrefs| ==> navActive[k] == IsActiveLink(navHrefs[k], path)
      ensures bodyDark == old(bodyDark) && rootDark == old(rootDark) && storedTheme == old(storedTheme)
      ensures rootPending == old(rootPending) && themeSelect == old(themeSelect) && tipsChecked == old(tipsChecked)
      ensures queryValue == old(queryValue) && typeValue == old(typeValue)
    {
      var flags: seq<bool> := [];
      var i := 0;
      while i < |navHrefs|
        invariant 0 <= i <= |navHrefs| && |flags| == i
        invariant forall k :: 0 <= k < i ==> flags[k] == IsActiveLink(navHrefs[k], path)
      {
        flags := flags + [IsActiveLink(navHrefs[i], path)];
        i := i + 1;
      }
      navActive := flags;
    }

    /**
     * `setTheme`: normalises the theme, puts the dark class on body and root
     * exactly for "dark", stores the theme, updates the select and sends the
     * backend a request changing only the theme.
     */
    method SetTheme(theme: string) returns (put: Preferences.PreferenceBody)
      modifies this
      ensures bodyDark == rootDark == (theme == DARK)
      ensures storedTheme == Some(NormalTheme(theme)) && themeSelect == NormalTheme(theme)
      ensures put == Preferences.ThemeOnly(NormalTheme(theme))
      ensures tipsChecked == old(tipsChecked) && queryValue == old(queryValue) && typeValue == old(typeValue)
      ensures rootPending == old(rootPending) && navHrefs == old(navHrefs) && navActive == old(navActive)
    {
      var t := theme;
      if t != DARK && t != LIGHT {
        t := LIGHT;
      }
      if t == DARK {
        bodyDark, rootDark := true, true;
      } else {
        bodyDark, rootDark := false, false;
      }
      storedTheme := Some(t);
      themeSelect := t;
      put := Preferences.ThemeOnly(t);
    }

    /**
     * `applyPreferences`: the body's dark class follows the effective theme
     * (the root's is left alone, as is the stored theme); the query, the type
     * and the theme select take only non-empty preferences, and the tips
     * checkbox any flag that is not missing.
     */
    method ApplyPreferences(prefs: Option<Prefs>)
      modifies this
      ensures bodyDark == (EffectiveTheme(prefs, old(storedTheme)) == DARK)
      ensures rootDark == old(rootDark) && storedTheme == old(storedTheme)
      ensures queryValue == TextAfter(QueryOf(prefs), old(queryValue))
      ensures typeValue == TextAfter(TypeOf(prefs), old(typeValue))
      ensures themeSelect == TextAfter(ThemeOf(prefs), old(themeSelect))
      ensures tipsChecked == TipsAfter(prefs, old(tipsChecked))
      ensures rootPending == old(rootPending) && navHrefs == old(navHrefs) && navActive == old(navActive)
    {
      var theme := EffectiveTheme(prefs, storedTheme);
      bodyDark := theme == DARK;
      if prefs.Some? && prefs.value.defaultQuery != "" {
        queryValue := prefs.value.defaultQuery;
      }
      if prefs.Some? && prefs.value.defaultType != "" {
        typeValue := prefs.value.defaultType;
      }
      if prefs.Some? && prefs.value.theme != "" {
        themeSelect := prefs.value.theme;
      }
      tipsChecked := TipsAfter(prefs, tipsChecked);
    }

    /**
     * `loadPreferences`: loaded preferences are applied; a refused request
     * changes nothing; a failed one re-applies a non-empty stored theme
     * through `setTheme`, which also sends it to the backend.
     */
    method LoadPreferences(outcome: LoadOutcome) returns (put: Option<Preferences.PreferenceBody>)
      modifies this
      ensures outcome.Loaded? ==> put.None? && bodyDark == (EffectiveTheme(outcome.prefs, old(storedTheme)) == DARK)
                                  && queryValue == TextAfter(QueryOf(outcome.prefs), old(queryValue))
                                  && typeValue == TextAfter(TypeOf(outcome.prefs), old(typeValue))
                                  && themeSelect == TextAfter(ThemeOf(outcome.prefs), old(themeSelect))
                                  && tipsChecked == TipsAfter(outcome.prefs, old(tipsChecked))
                                  && rootDark == old(rootDark) && storedTheme == old(storedTheme)
      ensures outcome.LoadRejected? ==> put.None? && bodyDark == old(bodyDark) && rootDark == old(rootDark)
                                        && storedTheme == old(storedTheme) && themeSelect == old(themeSelect)
                                        && tipsChecked == old(tipsChecked)
      ensures outcome.LoadFailed? && old(storedTheme).Some? && old(storedTheme).value != "" ==>
                var t := NormalTheme(old(storedTheme).value);
                && put == Some(Preferences.ThemeOnly(t)) && bodyDark == rootDark == (t == DARK) && storedTheme == Some(t)
                && themeSelect == t && tipsChecked == old(tipsChecked)
      ensures outcome.LoadFailed? && (old(storedTheme).None? || old(storedTheme).value == "") ==>
                put.None? && bodyDark == old(bodyDark) && rootDark == old(rootDark)
                && storedTheme == old(storedTheme) && themeSelect == old(themeSelect) && tipsChecked == old(tipsChecked)
      ensures !outcome.Loaded? ==> queryValue == old(queryValue) && typeValue == old(typeValue)
      ensures rootPending == old(rootPending) && navHrefs == old(navHrefs) && navActive == old(navActive)
    {
      match outcome {
        case Loaded(prefs) =>
          ApplyPreferences(prefs);
          put := None;
        case LoadRejected(_) =>
          put := None;
        case LoadFailed =>
          if storedTheme.Some? && storedTheme.value != "" {
            var body := SetTheme(storedTheme.value);
            put := Some(body);
          } else {
            put := None;
          }
      }
    }

    /** The request the save button sends: the select's theme or "light", the checkbox, the query or "", the type or "general". */
    function SaveButtonForm(): (f: SavedForm)
      reads this
      ensures f.theme == (if themeSelect != "" then themeSelect else LIGHT)
      ensures f.defaultType == (if typeValue != "" then typeValue else DEFAULT_TYPE)
      ensures f.defaultQuery == queryValue && f.showAdvancedTips == tipsChecked
      ensures f.theme != "" && f.defaultType != ""
    {
      SavedForm(queryValue, Or(typeValue, DEFAULT_TYPE), Or(themeSelect, LIGHT), tipsChecked)
    }

    /**
     * `savePreferences`: false for a refused or failed request, with nothing
     * changed; true only once the saved preferences are applied.
     */
    method SavePreferences(outcome: SaveOutcome) returns (ok: bool)
      modifies this
      ensures ok <==> outcome.Saved?
      ensures ok ==> bodyDark == (EffectiveTheme(outcome.saved, old(storedTheme)) == DARK)
                     && queryValue == TextAfter(QueryOf(outcome.saved), old(queryValue))
                     && typeValue == TextAfter(TypeOf(outcome.saved), old(typeValue))
                     && themeSelect == TextAfter(ThemeOf(outcome.saved), old(themeSelect))
                     && tipsChecked == TipsAfter(outcome.saved, old(tipsChecked))
      ensures !ok ==> bodyDark == old(bodyDark) && queryValue == old(queryValue) && typeValue == old(typeValue)
                      && themeSelect == old(themeSelect) && tipsChecked == old(tipsChecked)
      ensures rootDark == old(rootDark) && storedTheme == old(storedTheme)
      ensures navHrefs == old(navHrefs) && navActive == old(navActive)
    {
      match outcome {
        case Saved(saved) =>
          ApplyPreferences(saved);
          ok := true;
        case _ =>
          ok := false;
      }
    }
  }

  /**
   * Saving the panel keeps the form as it is: once the backend's row, merged
   * with the form's request, is applied, the query (when non-empty), the
   * type, the theme select and the tips checkbox hold what was sent.
   */
  lemma SavedFormReappliesItself(existing: Preferences.Preference, f: SavedForm, query: string, tips: bool, now: int)
    requires f.theme != "" && f.defaultType != ""
    ensures var p := Some(PrefsOf(Preferences.Merge(existing, Preferences.BindAsEntity(RequestBody(f), now))));
            && TextAfter(QueryOf(p), query) == (if f.defaultQuery != "" then f.defaultQuery else query)
            && TextAfter(TypeOf(p), "") == f.defaultType
            && TextAfter(ThemeOf(p), "") == f.theme
            && TipsAfter(p, tips) == f.showAdvancedTips
  {
    SavedFormOverwritesEveryField(existing, f, now);
  }
}
