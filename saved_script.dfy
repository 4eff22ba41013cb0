/**
 * The bookmark page script of the main application: it shows the saved
 * results as cards under an item count and removes one after a confirmation
 * modal that remembers which bookmark is about to be deleted.
 */
module SavedScript {
  import opened Wrappers
  import opened Text
  import Html

  const NO_DESCRIPTION: string := "No description available"
  const THIS_ITEM: string := "this item"

  /** A bookmark as the page receives it; "" stands for a missing text. */
  datatype SavedItem = SavedItem(id: int, title: string, url: string, summary: string)

  /** What a card shows and keeps in the attributes of its remove button. */
  datatype Card = Card(id: int, dataTitle: string, titleText: string, urlText: string, summaryText: string)

  /** `createItemCard`: the title, URL and summary escaped, the summary defaulting to "No description available". */
  function CardOf(item: SavedItem): (c: Card)
    ensures c.id == item.id
    ensures Html.UnescapeText(c.titleText) == item.title && Html.UnescapeText(c.urlText) == item.url
    ensures Html.UnescapeText(c.summaryText) == Or(item.summary, NO_DESCRIPTION)
  {
    Html.UnescapeEscape(item.title);
    Html.UnescapeEscape(item.url);
    Html.UnescapeEscape(Or(item.summary, NO_DESCRIPTION));
    Card(item.id, Html.EscapeText(item.title), Html.EscapeText(item.title), Html.EscapeText(item.url),
         Html.EscapeText(Or(item.summary, NO_DESCRIPTION)))
  }

  /** The cards of the grid, one per item in order. */
  function CardsOf(items: seq<SavedItem>): (r: seq<Card>)
    ensures |r| == |items| && forall i :: 0 <= i < |items| ==> r[i] == CardOf(items[i])
  {
    seq(|items|, i requires 0 <= i < |items| => CardOf(items[i]))
  }

  /**
   * The title the remove button hands to the modal: its `data-title` as the
   * browser reads it back, or "this item" when that is empty.
   */
  function RemoveTitle(c: Card): string {
    Or(Html.ReadQuotedAttribute(c.dataTitle), THIS_ITEM)
  }

  /**
   * The modal names the bookmark's own title (or "this item" for an untitled
   * one) as long as the title holds no double quote, which `escapeHtml` leaves
   * in the attribute.
   */
  lemma RemoveNamesTitle(item: SavedItem)
    requires '"' !in item.title
    ensures RemoveTitle(CardOf(item)) == Or(item.title, THIS_ITEM)
  {
    var e := Html.EscapeText(item.title);
    assert '"' !in e by {
      Html.EscapeKeepsQuoteFree(item.title);
    }
    assert Html.QuoteEnd(e) == |e|;
    assert e[..|e|] == e;
    Html.UnescapeEscape(item.title);
  }

  /** The bookmark page: count, section and empty state, the cards, and the confirmation modal. */
  class SavedView {
    var countLabel: string
    var sectionHidden: bool
    var emptyHidden: bool
    var cards: seq<Card>
    /** The bookmark the modal will delete; `pendingDeleteId`. */
    var pendingDeleteId: Option<int>
    var modalActive: bool
    /** The title the modal's message names. */
    var modalTitle: string

    constructor ()
      ensures pendingDeleteId.None? && !modalActive && cards == []
    {
      countLabel, sectionHidden, emptyHidden, cards := "", false, false, [];
      pendingDeleteId, modalActive, modalTitle := None, false, "";
    }

    /**
     * `displayItems`: the count always follows the list; an empty list hides
     * the section and shows the empty state without touching the cards;
     * otherwise the cards are rebuilt, one per item.
     */
    method DisplayItems(items: seq<SavedItem>)
      modifies this
      ensures countLabel == CountNoun(|items|, "item", "s")
      ensures items == [] ==> sectionHidden && !emptyHidden && cards == old(cards)
      ensures items != [] ==> !sectionHidden && emptyHidden && cards == CardsOf(items)
      ensures pendingDeleteId == old(pendingDeleteId) && modalActive == old(modalActive) && modalTitle == old(modalTitle)
    {
      countLabel := CountNoun(|items|, "item", "s");
      if |items| == 0 {
        sectionHidden := true;
        emptyHidden := false;
        return;
      }
      emptyHidden := true;
      sectionHidden := false;
      cards := CardsOf(items);
    }

    /** `showConfirmModal`: remembers the bookmark to delete and opens the modal naming it. */
    method ShowConfirmModal(id: int, title: string)
      modifies this
      ensures pendingDeleteId == Some(id) && modalActive && modalTitle == title
      ensures cards == old(cards)
      ensures countLabel == old(countLabel) && sectionHidden == old(sectionHidden) && emptyHidden == old(emptyHidden)
    {
      pendingDeleteId := Some(id);
      modalTitle := title;
      modalActive := true;
    }

    /** The remove button of card `k`: opens the modal for that card's bookmark. */
    method ClickRemove(k: nat)
      requires k < |cards|
      modifies this
      ensures pendingDeleteId == Some(old(cards)[k].id) && modalActive
      ensures modalTitle == RemoveTitle(old(cards)[k]) && cards == old(cards)
      ensures countLabel == old(countLabel) && sectionHidden == old(sectionHidden) && emptyHidden == old(emptyHidden)
    {
      ShowConfirmModal(cards[k].id, RemoveTitle(cards[k]));
    }

    /** `closeConfirmModal`: closes the modal and forgets the pending bookmark. */
    method Close()
      modifies this
      ensures pendingDeleteId.None? && !modalActive && cards == old(cards) && modalTitle == old(modalTitle)
      ensures countLabel == old(countLabel) && sectionHidden == old(sectionHidden) && emptyHidden == old(emptyHidden)
    {
      modalActive := false;
      pendingDeleteId := None;
    }

    /** The confirm button: deletes the pending bookmark, if there is one, and closes the modal. */
    method Confirm() returns (deleteId: Option<int>)
      modifies this
      ensures deleteId == old(pendingDeleteId)
      ensures pendingDeleteId.None? && !modalActive && cards == old(cards) && modalTitle == old(modalTitle)
      ensures countLabel == old(countLabel) && sectionHidden == old(sectionHidden) && emptyHidden == old(emptyHidden)
    {
      deleteId := pendingDeleteId;
      Close();
    }

    /** The Escape key: closes the modal only while it is open. */
    method PressEscape()
      modifies this
      ensures old(modalActive) ==> pendingDeleteId.None? && !modalActive
      ensures !old(modalActive) ==> pendingDeleteId == old(pendingDeleteId) && !modalActive
      ensures cards == old(cards) && modalTitle == old(modalTitle)
      ensures countLabel == old(countLabel) && sectionHidden == old(sectionHidden) && emptyHidden == old(emptyHidden)
    {
      if modalActive {
        Close();
      }
    }
  }
}
