/**
 * The bookmark store: saved search results, at most one per URL, each with
 * optional notes. Rows are kept in insertion order with increasing ids, as the
 * identity column hands them out. Times are whole seconds.
 */
module SavedItems {
  import opened Wrappers
  import Ordering

  const ALREADY_SAVED: string := "This URL is already saved"
  const NOT_FOUND: string := "Saved item not found"

  /** A bookmark; `notes` is None until notes are first set. */
  datatype SavedItem = SavedItem(id: int, title: string, url: string, summary: string, notes: Option<string>, savedDate: int)

  /** The key `findById` looks bookmarks up by. */
  function ItemId(item: SavedItem): int {
    item.id
  }

  /** The ordering key of `findAllByOrderBySavedDateDesc`. */
  function SavedDate(item: SavedItem): int {
    item.savedDate
  }

  /** `existsByUrl`. */
  predicate HasUrl(items: seq<SavedItem>, url: string) {
    exists i :: 0 <= i < |items| && items[i].url == url
  }

  /** The unique constraint of the `url` column. */
  predicate UniqueUrls(items: seq<SavedItem>) {
    forall i, j :: 0 <= i < j < |items| ==> items[i].url != items[j].url
  }

  /** The primary key. */
  predicate UniqueIds(items: seq<SavedItem>) {
    forall i, j :: 0 <= i < j < |items| ==> items[i].id != items[j].id
  }

  /** The rows without the one at position `k`. */
  function RemoveAt(items: seq<SavedItem>, k: nat): (r: seq<SavedItem>)
    requires k < |items|
    ensures |r| == |items| - 1
  {
    items[..k] + items[k + 1..]
  }

  /** Deleting one row keeps both keys unique and removes exactly the rows with that id. */
  lemma RemoveAtKeepsKeys(items: seq<SavedItem>, k: nat)
    requires k < |items| && UniqueUrls(items) && UniqueIds(items)
    ensures UniqueUrls(RemoveAt(items, k)) && UniqueIds(RemoveAt(items, k))
    ensures forall x :: x in RemoveAt(items, k) <==> x in items && x.id != items[k].id
  {
    var r := RemoveAt(items, k);
    assert forall i :: 0 <= i < |r| ==> r[i] == items[if i < k then i else i + 1];
    forall x | x in items && x.id != items[k].id
      ensures x in r
    {
      var i :| 0 <= i < |items| && items[i] == x;
      assert r[if i < k then i else i - 1] == x;
    }
  }

  /** After a bookmark is deleted its URL is free again. */
  lemma RemoveAtFreesUrl(items: seq<SavedItem>, k: nat)
    requires k < |items| && UniqueUrls(items)
    ensures !HasUrl(RemoveAt(items, k), items[k].url)
  {
    var r := RemoveAt(items, k);
    forall i | 0 <= i < |r|
      ensures r[i].url != items[k].url
    {
      if i < k {
        assert r[i] == items[i];
      } else {
        assert r[i] == items[i + 1];
      }
    }
  }

  /** Appending a row whose URL and id are new keeps both keys unique. */
  lemma AppendKeepsKeys(items: seq<SavedItem>, item: SavedItem)
    requires UniqueUrls(items) && UniqueIds(items)
    requires !HasUrl(items, item.url) && forall i :: 0 <= i < |items| ==> items[i].id < item.id
    ensures UniqueUrls(items + [item]) && UniqueIds(items + [item])
    ensures HasUrl(items + [item], item.url)
  {
    assert (items + [item])[|items|] == item;
  }

  /** The bookmark service over the `saved_items` table. */
  class SavedItemService {
    var items: seq<SavedItem>
    var nextId: int

    /** Both keys are unique and every id was handed out before `nextId`. */
    ghost predicate Valid()
      reads this
    {
      && UniqueUrls(items) && UniqueIds(items)
      && forall i :: 0 <= i < |items| ==> items[i].id < nextId
    }

    constructor ()
      ensures Valid() && items == [] && nextId == 1
    {
      items := [];
      nextId := 1;
    }

    /** `saveItem`: refuses a URL already saved; otherwise stores a new bookmark without notes, dated `now`. */
    method SaveItem(title: string, url: string, summary: string, now: int) returns (r: Result<SavedItem, string>)
      requires Valid()
      modifies this
      ensures Valid()
      ensures old(HasUrl(items, url)) ==> r == Err(ALREADY_SAVED) && items == old(items) && nextId == old(nextId)
      ensures !old(HasUrl(items, url)) ==>
                && r == Ok(SavedItem(old(nextId), title, url, summary, None, now))
                && items == old(items) + [r.value] && nextId == old(nextId) + 1
    {
      if HasUrl(items, url) {
        return Err(ALREADY_SAVED);
      }
      var item := SavedItem(nextId, title, url, summary, None, now);
      AppendKeepsKeys(items, item);
      items := items + [item];
      nextId := nextId + 1;
      r := Ok(item);
    }

    /** `updateNotes`: replaces the notes of the bookmark with id `id`, and nothing else. */
    method UpdateNotes(id: int, notes: Option<string>) returns (r: Result<SavedItem, string>)
      requires Valid()
      modifies this
      ensures Valid() && nextId == old(nextId)
      ensures Ordering.FindKey(old(items), ItemId, id).None? ==> r == Err(NOT_FOUND) && items == old(items)
      ensures Ordering.FindKey(old(items), ItemId, id).Some? ==>
                var k := Ordering.FindKey(old(items), ItemId, id).value;
                r == Ok(old(items)[k].(notes := notes)) && items == old(items)[k := r.value]
    {
      var k := Ordering.FindKey(items, ItemId, id);
      if k.None? {
        return Err(NOT_FOUND);
      }
      var updated := items[k.value].(notes := notes);
      items := items[k.value := updated];
      r := Ok(updated);
    }

    /** `deleteItem`: removes the bookmark with id `id`, or fails when there is none. */
    method DeleteItem(id: int) returns (r: Result<(), string>)
      requires Valid()
      modifies this
      ensures Valid() && nextId == old(nextId)
      ensures Ordering.FindKey(old(items), ItemId, id).None? ==> r == Err(NOT_FOUND) && items == old(items)
      ensures Ordering.FindKey(old(items), ItemId, id).Some? ==>
                && r == Ok(())
                && items == RemoveAt(old(items), Ordering.FindKey(old(items), ItemId, id).value)
                && forall x :: x in items <==> x in old(items) && x.id != id
    {
      var k := Ordering.FindKey(items, ItemId, id);
      if k.None? {
        return Err(NOT_FOUND);
      }
      RemoveAtKeepsKeys(items, k.value);
      items := RemoveAt(items, k.value);
      r := Ok(());
    }

    /** `checkUrlExists`. */
    method CheckUrlExists(url: string) returns (b: bool)
      ensures b <==> exists i :: 0 <= i < |items| && items[i].url == url
    {
      b := HasUrl(items, url);
    }

    /** `getAllSavedItems`: every bookmark, newest first. */
    method GetAllSavedItems() returns (list: seq<SavedItem>)
      ensures multiset(list) == multiset(items)
      ensures Ordering.NewestFirst(list, SavedDate)
    {
      list := Ordering.SortNewestFirst(items, SavedDate);
    }
  }
}
