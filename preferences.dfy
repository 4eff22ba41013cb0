/**
 * The search preferences: the newest stored row wins, the built-in defaults
 * stand in when nothing is stored, and an update overwrites exactly the fields
 * it carries. Times are whole seconds.
 */
module Preferences {
  import opened Wrappers
  import Ordering

  const DEFAULT_QUERY: string := "latest news"
  const DEFAULT_TYPE: string := "general"
  const DEFAULT_THEME: string := "light"

  /** A preference row; None stands for a null column. */
  datatype Preference = Preference(
    id: Option<int>, defaultQuery: Option<string>, defaultType: Option<string>,
    theme: Option<string>, showAdvancedTips: Option<bool>, updatedAt: int)

  /** The key `findById` looks rows up by. */
  function PreferenceId(p: Preference): Option<int> {
    p.id
  }

  /** The ordering key of `findLatest`. */
  function UpdatedAt(p: Preference): int {
    p.updatedAt
  }

  /** The preferences used when none is stored, built at time `now` and never saved. */
  function Defaults(now: int): (p: Preference)
    ensures p.id.None? && p.updatedAt == now
    ensures p.defaultQuery == Some(DEFAULT_QUERY) && p.defaultType == Some(DEFAULT_TYPE)
    ensures p.theme == Some(DEFAULT_THEME) && p.showAdvancedTips == Some(true)
  {
    Preference(None, Some(DEFAULT_QUERY), Some(DEFAULT_TYPE), Some(DEFAULT_THEME), Some(true), now)
  }

  /** `findLatest`: a row with the greatest update time, if any row is stored. */
  function Latest(rows: seq<Preference>): (p: Option<Preference>)
    ensures p.None? <==> rows == []
    ensures p.Some? ==> p.value in rows && forall i :: 0 <= i < |rows| ==> rows[i].updatedAt <= p.value.updatedAt
  {
    if rows == [] then None
    else
      var top := Ordering.TopNewest(rows, 1, UpdatedAt);
      forall i | 0 <= i < |rows|
        ensures rows[i].updatedAt <= top[0].updatedAt
      {
        if rows[i] != top[0] {
          assert top == [top[0]];
          assert rows[i] in multiset(rows) - multiset(top);
        }
      }
      assert top[0] in multiset(rows);
      Some(top[0])
  }

  /**
   * `updatePreferences`: each field of `update` that is not null overwrites the
   * field of `existing`; the others keep their old value.
   */
  function Merge(existing: Preference, update: Preference): (p: Preference)
    ensures p.id == existing.id && p.updatedAt == existing.updatedAt
    ensures p.defaultQuery == if update.defaultQuery.Some? then update.defaultQuery else existing.defaultQuery
    ensures p.defaultType == if update.defaultType.Some? then update.defaultType else existing.defaultType
    ensures p.theme == if update.theme.Some? then update.theme else existing.theme
    ensures p.showAdvancedTips == if update.showAdvancedTips.Some? then update.showAdvancedTips else existing.showAdvancedTips
  {
    var q := if update.defaultQuery.Some? then update.defaultQuery else existing.defaultQuery;
    var t := if update.defaultType.Some? then update.defaultType else existing.defaultType;
    var th := if update.theme.Some? then update.theme else existing.theme;
    var tips := if update.showAdvancedTips.Some? then update.showAdvancedTips else existing.showAdvancedTips;
    existing.(defaultQuery := q, defaultType := t, theme := th, showAdvancedTips := tips)
  }

  /** An update whose fields are all null. */
  function NoChange(): (u: Preference)
    ensures u.defaultQuery.None? && u.defaultType.None? && u.theme.None? && u.showAdvancedTips.None?
  {
    Preference(None, None, None, None, None, 0)
  }

  /** An all-null update changes nothing. */
  lemma MergeNothing(existing: Preference)
    ensures Merge(existing, NoChange()) == existing
  {
  }

  /** Applying an update twice is the same as applying it once. */
  lemma MergeIdempotent(existing: Preference, update: Preference)
    ensures Merge(Merge(existing, update), update) == Merge(existing, update)
  {
  }

  /** One JSON property of a request body: left out, explicitly null, or given. */
  datatype Field<T> = Absent | Null | Given(value: T)

  /** The body of a preference update request. */
  datatype PreferenceBody = PreferenceBody(
    defaultQuery: Field<string>, defaultType: Field<string>, theme: Field<string>, showAdvancedTips: Field<bool>)

  /** A property read into a field whose initial value is `initial`. */
  function Bind<T>(f: Field<T>, initial: Option<T>): (v: Option<T>)
    ensures f.Absent? ==> v == initial
    ensures f.Null? ==> v.None?
    ensures f.Given? ==> v == Some(f.value)
  {
    match f
    case Absent => initial
    case Null => None
    case Given(x) => Some(x)
  }

  /**
   * The body bound to a new entity, as the update endpoint receives it: a
   * property left out keeps the entity's field initialiser ("general", "light",
   * true), so it is not null.
   */
  function BindAsEntity(body: PreferenceBody, now: int): (u: Preference)
    ensures body.defaultType.Absent? ==> u.defaultType == Some(DEFAULT_TYPE)
    ensures body.theme.Absent? ==> u.theme == Some(DEFAULT_THEME)
    ensures body.showAdvancedTips.Absent? ==> u.showAdvancedTips == Some(true)
  {
    Preference(None, Bind(body.defaultQuery, None), Bind(body.defaultType, Some(DEFAULT_TYPE)),
               Bind(body.theme, Some(DEFAULT_THEME)), Bind(body.showAdvancedTips, Some(true)), now)
  }

  /** The body the page sends when only the theme changes. */
  function ThemeOnly(theme: string): PreferenceBody {
    PreferenceBody(Absent, Absent, Given(theme), Absent)
  }

  /**
   * As written, changing only the theme also resets the default search type to
   * "general" and turns the tips back on.
   */
  lemma ThemeChangeResetsOtherFields(existing: Preference, now: int)
    requires existing.defaultType == Some("news") && existing.showAdvancedTips == Some(false)
    ensures var p := Merge(existing, BindAsEntity(ThemeOnly("dark"), now));
            p.theme == Some("dark") && p.defaultType == Some(DEFAULT_TYPE) && p.showAdvancedTips == Some(true)
  {
  }

  /** The body read as a patch: a property left out or null means "keep the stored value". */
  function BindAsPatch(body: PreferenceBody): (u: Preference)
    ensures u.defaultQuery == (if body.defaultQuery.Given? then Some(body.defaultQuery.value) else None)
    ensures u.defaultType == (if body.defaultType.Given? then Some(body.defaultType.value) else None)
    ensures u.theme == (if body.theme.Given? then Some(body.theme.value) else None)
    ensures u.showAdvancedTips == (if body.showAdvancedTips.Given? then Some(body.showAdvancedTips.value) else None)
  {
    Preference(None, Bind(body.defaultQuery, None), Bind(body.defaultType, None),
               Bind(body.theme, None), Bind(body.showAdvancedTips, None), 0)
  }

  /** Read as a patch, a request changes exactly the properties it gives. */
  lemma PatchChangesOnlyGivenFields(existing: Preference, body: PreferenceBody)
    ensures var p := Merge(existing, BindAsPatch(body));
            && (body.defaultQuery.Given? ==> p.defaultQuery == Some(body.defaultQuery.value))
            && (!body.defaultQuery.Given? ==> p.defaultQuery == existing.defaultQuery)
            && (body.defaultType.Given? ==> p.defaultType == Some(body.defaultType.value))
            && (!body.defaultType.Given? ==> p.defaultType == existing.defaultType)
            && (body.theme.Given? ==> p.theme == Some(body.theme.value))
            && (!body.theme.Given? ==> p.theme == existing.theme)
            && (body.showAdvancedTips.Given? ==> p.showAdvancedTips == Some(body.showAdvancedTips.value))
            && (!body.showAdvancedTips.Given? ==> p.showAdvancedTips == existing.showAdvancedTips)
  {
  }

  /** A theme-only request read as a patch leaves the other preferences alone. */
  lemma ThemeChangeKeepsOtherFields(existing: Preference, theme: string)
    ensures var p := Merge(existing, BindAsPatch(ThemeOnly(theme)));
            p.theme == Some(theme) && p.defaultQuery == existing.defaultQuery
            && p.defaultType == existing.defaultType && p.showAdvancedTips == existing.showAdvancedTips
  {
    PatchChangesOnlyGivenFields(existing, ThemeOnly(theme));
  }

  /**
   * A request whose given properties all repeat the stored ones merges into
   * the stored row unchanged, so saving it keeps the row's update time.
   */
  lemma RepeatedValuesChangeNothing(existing: Preference, body: PreferenceBody)
    requires body.defaultQuery.Given? ==> existing.defaultQuery == Some(body.defaultQuery.value)
    requires body.defaultType.Given? ==> existing.defaultType == Some(body.defaultType.value)
    requires body.theme.Given? ==> existing.theme == Some(body.theme.value)
    requires body.showAdvancedTips.Given? ==> existing.showAdvancedTips == Some(body.showAdvancedTips.value)
    ensures Merge(existing, BindAsPatch(body)) == existing
  {
    PatchChangesOnlyGivenFields(existing, body);
  }

  /** The preference service over the `user_preference` table. */
  class PreferenceService {
    var rows: seq<Preference>
    var nextId: int

    /** Every stored row has its own id, below the next identity value. */
    ghost predicate Valid()
      reads this
    {
      && (forall i :: 0 <= i < |rows| ==> rows[i].id.Some? && rows[i].id.value < nextId)
      && (forall i, j :: 0 <= i < j < |rows| ==> rows[i].id != rows[j].id)
    }

    constructor ()
      ensures Valid() && rows == [] && nextId == 1
    {
      rows := [];
      nextId := 1;
    }

    /** `getLatestPreferences`: the newest stored row, or the defaults. */
    method GetLatestPreferences(now: int) returns (p: Preference)
      ensures p == Latest(rows).GetOr(Defaults(now))
      ensures rows == [] ==> p == Defaults(now)
      ensures rows != [] ==> p in rows && forall i :: 0 <= i < |rows| ==> rows[i].updatedAt <= p.updatedAt
    {
      var latest := Latest(rows);
      p := latest.GetOr(Defaults(now));
    }

    /**
     * `savePreferences` (both of its branches call the same save): a row with a
     * stored id is replaced, any other is inserted under a new id. An insert is
     * stamped `now` (`@PrePersist`); a replacement only when it changes the
     * stored row (`@PreUpdate` fires for a changed entity only), otherwise the
     * stored row, with its update time, stays as it was.
     */
    method SavePreferences(p: Preference, now: int) returns (saved: Preference)
      requires Valid()
      modifies this
      ensures Valid()
      ensures saved.id.Some?
      ensures saved.defaultQuery == p.defaultQuery && saved.defaultType == p.defaultType
      ensures saved.theme == p.theme && saved.showAdvancedTips == p.showAdvancedTips
      ensures p.id.Some? && Ordering.FindKey(old(rows), PreferenceId, p.id).Some? ==>
                var stored := old(rows)[Ordering.FindKey(old(rows), PreferenceId, p.id).value];
                && saved == (if p == stored then stored else p.(updatedAt := now)) && nextId == old(nextId)
                && rows == old(rows)[Ordering.FindKey(old(rows), PreferenceId, p.id).value := saved]
      ensures !(p.id.Some? && Ordering.FindKey(old(rows), PreferenceId, p.id).Some?) ==>
                saved == p.(id := Some(old(nextId)), updatedAt := now)
                && rows == old(rows) + [saved] && nextId == old(nextId) + 1
    {
      if p.id.Some? {
        var k := Ordering.FindKey(rows, PreferenceId, p.id);
        if k.Some? {
          saved := if p == rows[k.value] then p else p.(updatedAt := now);
          rows := rows[k.value := saved];
          return;
        }
      }
      saved := p.(id := Some(nextId), updatedAt := now);
      rows := rows + [saved];
      nextId := nextId + 1;
    }

    /**
     * `updatePreferences`: merges the non-null fields of `update` into
     * `existing` and saves the result, stamped `now` unless it is the stored
     * row unchanged.
     */
    method UpdatePreferences(existing: Preference, update: Preference, now: int) returns (saved: Preference)
      requires Valid()
      modifies this
      ensures Valid()
      ensures var m := Merge(existing, update);
              saved.defaultQuery == m.defaultQuery && saved.defaultType == m.defaultType
              && saved.theme == m.theme && saved.showAdvancedTips == m.showAdvancedTips
      ensures existing.id.Some? && Ordering.FindKey(old(rows), PreferenceId, existing.id).Some? ==>
                var k := Ordering.FindKey(old(rows), PreferenceId, existing.id).value;
                var m := Merge(existing, update);
                && saved == (if m == old(rows)[k] then m else m.(updatedAt := now))
                && rows == old(rows)[k := saved] && saved.id == existing.id && nextId == old(nextId)
      ensures !(existing.id.Some? && Ordering.FindKey(old(rows), PreferenceId, existing.id).Some?) ==>
                && saved == Merge(existing, update).(id := Some(old(nextId)), updatedAt := now)
                && rows == old(rows) + [saved] && nextId == old(nextId) + 1
    {
      saved := SavePreferences(Merge(existing, update), now);
    }

    /**
     * What the update endpoint does with the bound request: merges it into the
     * latest row, which is saved in place under its own id and stamped `now`
     * only when the merge changed it, or, with nothing stored, into the
     * defaults, which are inserted as the first row, stamped `now`.
     */
    method UpdateLatest(update: Preference, now: int) returns (saved: Preference)
      requires Valid()
      modifies this
      ensures Valid()
      ensures old(rows) == [] ==>
                && saved == Merge(Defaults(now), update).(id := Some(old(nextId)), updatedAt := now)
                && rows == [saved] && nextId == old(nextId) + 1
      ensures old(rows) != [] ==>
                var latest := Latest(old(rows)).value;
                var m := Merge(latest, update);
                var k := Ordering.FindKey(old(rows), PreferenceId, latest.id);
                && latest.id.Some? && k.Some? && old(rows)[k.value] == latest
                && saved == (if m == latest then latest else m.(updatedAt := now))
                && saved.id == latest.id && nextId == old(nextId)
                && rows == old(rows)[k.value := saved]
    {
      var existing := GetLatestPreferences(now);
      if rows != [] {
        var i :| 0 <= i < |rows| && rows[i] == existing;
        assert Ordering.FindKey(rows, PreferenceId, existing.id).Some?;
      }
      saved := UpdatePreferences(existing, update, now);
    }

    /**
     * The update endpoint with the request read as a patch: a property the
     * request leaves out keeps its stored value.
     */
    method UpdateSearchPreferences(body: PreferenceBody, now: int) returns (saved: Preference)
      requires Valid()
      modifies this
      ensures Valid()
      ensures old(rows) == [] ==>
                && saved == Merge(Defaults(now), BindAsPatch(body)).(id := Some(old(nextId)), updatedAt := now)
                && rows == [saved]
      ensures old(rows) != [] ==>
                var latest := Latest(old(rows)).value;
                var m := Merge(latest, BindAsPatch(body));
                && saved == (if m == latest then latest else m.(updatedAt := now))
                && rows == old(rows)[Ordering.FindKey(old(rows), PreferenceId, latest.id).value := saved]
    {
      saved := UpdateLatest(BindAsPatch(body), now);
    }

    /**
     * The update endpoint as written: the request is bound to a new entity, so
     * a property it leaves out carries the entity's initialiser into the merge.
     */
    method UpdateSearchPreferencesAsWritten(body: PreferenceBody, now: int) returns (saved: Preference)
      requires Valid()
      modifies this
      ensures Valid()
      ensures old(rows) == [] ==>
                && saved == Merge(Defaults(now), BindAsEntity(body, now)).(id := Some(old(nextId)), updatedAt := now)
                && rows == [saved]
      ensures old(rows) != [] ==>
                var latest := Latest(old(rows)).value;
                var m := Merge(latest, BindAsEntity(body, now));
                && saved == (if m == latest then latest else m.(updatedAt := now))
                && rows == old(rows)[Ordering.FindKey(old(rows), PreferenceId, latest.id).value := saved]
    {
      saved := UpdateLatest(BindAsEntity(body, now), now);
    }
  }
}
