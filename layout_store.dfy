/**
 * The layout store of the docking layout: every open item id has a
 * reference id, and every reference id its page. The fresh reference id
 * (`nanoid`) is an input. Loading and saving the docking layout's own
 * configuration is not part of this model.
 */
module LayoutStore {
  import opened Wrappers
  import opened Models

  /** The maps of the store: pages by reference id, reference ids by item id. */
  datatype Maps = Maps(pages: map<string, Page>, idToRef: map<string, string>)

  /** Every reference id an item maps to has its page. */
  predicate RefsResolve(m: Maps) {
    forall id :: id in m.idToRef ==> m.idToRef[id] in m.pages
  }

  /** The maps after `openPage(page)`: a known id keeps its reference id and
      gets the new page under it; an unknown id gets the fresh reference. */
  function Opened(m: Maps, page: Page, freshRef: string): (r: Maps)
    ensures page.id in r.idToRef && r.idToRef[page.id] in r.pages && r.pages[r.idToRef[page.id]] == page
    ensures page.id in m.idToRef ==> r.idToRef == m.idToRef
    ensures page.id !in m.idToRef ==> r.idToRef == m.idToRef[page.id := freshRef]
    ensures r.idToRef.Keys == m.idToRef.Keys + {page.id}
  {
    if page.id in m.idToRef then
      Maps(m.pages[m.idToRef[page.id] := page], m.idToRef)
    else
      Maps(m.pages[freshRef := page], m.idToRef[page.id := freshRef])
  }

  /** The maps after `renamePage(oldId, newPage)`; an unknown old id
      changes nothing. */
  function Renamed(m: Maps, oldId: string, newPage: Page): (r: Maps)
    ensures oldId !in m.idToRef ==> r == m
    ensures oldId in m.idToRef ==> (
      newPage.id in r.idToRef && r.idToRef[newPage.id] == m.idToRef[oldId]
      && r.idToRef[newPage.id] in r.pages && r.pages[r.idToRef[newPage.id]] == newPage
      && (oldId != newPage.id ==> oldId !in r.idToRef)
      && r.idToRef.Keys == m.idToRef.Keys - {oldId} + {newPage.id})
  {
    if oldId !in m.idToRef then m
    else
      var ref := m.idToRef[oldId];
      Maps(m.pages[ref := newPage], (m.idToRef - {oldId})[newPage.id := ref])
  }

  /** Opening keeps every reference resolving. */
  lemma OpenKeepsRefs(m: Maps, page: Page, freshRef: string)
    requires RefsResolve(m)
    ensures RefsResolve(Opened(m, page, freshRef))
  {
  }

  /** Renaming keeps every reference resolving. */
  lemma RenameKeepsRefs(m: Maps, oldId: string, newPage: Page)
    requires RefsResolve(m)
    ensures RefsResolve(Renamed(m, oldId, newPage))
  {
  }

  /** No two items share a reference id. */
  predicate RefsDistinct(m: Maps) {
    forall a, b :: a in m.idToRef && b in m.idToRef && a != b ==> m.idToRef[a] != m.idToRef[b]
  }

  /** A reference id no item uses yet. */
  predicate Unused(m: Maps, ref: string) {
    forall id :: id in m.idToRef ==> m.idToRef[id] != ref
  }

  /** Opening with an unused reference id, and renaming to an id not in
      use, keep reference ids distinct. */
  lemma OpenRenameKeepDistinct(m: Maps, page: Page, freshRef: string, oldId: string, newPage: Page)
    requires RefsDistinct(m)
    ensures Unused(m, freshRef) ==> RefsDistinct(Opened(m, page, freshRef))
    ensures newPage.id !in m.idToRef || newPage.id == oldId ==> RefsDistinct(Renamed(m, oldId, newPage))
  {
  }

  /** With a reference id no item uses yet, opening an item leaves every
      other item's page alone. */
  lemma OpenKeepsOthers(m: Maps, page: Page, freshRef: string, other: string)
    requires RefsResolve(m) && RefsDistinct(m) && Unused(m, freshRef)
    requires other in m.idToRef && other != page.id
    ensures var r := Opened(m, page, freshRef);
      other in r.idToRef && r.idToRef[other] == m.idToRef[other]
      && r.pages[r.idToRef[other]] == m.pages[m.idToRef[other]]
  {
  }

  /** Renaming back restores the item map. */
  lemma RenameBack(m: Maps, oldId: string, newPage: Page, oldPage: Page)
    requires oldId in m.idToRef && newPage.id !in m.idToRef && oldPage.id == oldId
    ensures Renamed(Renamed(m, oldId, newPage), newPage.id, oldPage).idToRef == m.idToRef
  {
    var r := Renamed(m, oldId, newPage);
    var b := Renamed(r, newPage.id, oldPage);
    assert b.idToRef == ((r.idToRef - {newPage.id})[oldId := m.idToRef[oldId]]);
    assert r.idToRef - {newPage.id} == m.idToRef - {oldId};
  }

  class Store {
    var currentItemId: string
    var maps: Maps
    var addedPage: Option<Page>
    var renamedPage: Option<Page>
    var closedItemId: string

    constructor()
      ensures currentItemId == "library" && maps == Maps(map[], map[])
      ensures addedPage.None? && renamedPage.None? && closedItemId == ""
    {
      currentItemId := "library";
      maps := Maps(map[], map[]);
      addedPage := None;
      renamedPage := None;
      closedItemId := "";
    }

    predicate Valid()
      reads this
    {
      RefsResolve(maps)
    }

    /** `openPage(page)`: a known id becomes current; a new one is recorded
      as the added page. */
    method OpenPage(page: Page, freshRef: string)
      requires Valid()
      modifies this
      ensures Valid()
      ensures maps == Opened(old(maps), page, freshRef)
      ensures page.id in old(maps.idToRef) ==> currentItemId == page.id && addedPage == old(addedPage)
      ensures page.id !in old(maps.idToRef) ==> currentItemId == old(currentItemId) && addedPage == Some(page)
      ensures renamedPage == old(renamedPage) && closedItemId == old(closedItemId)
    {
      OpenKeepsRefs(maps, page, freshRef);
      if page.id in maps.idToRef {
        currentItemId := page.id;
      } else {
        addedPage := Some(page);
      }
      maps := Opened(maps, page, freshRef);
    }

    /** `closePage(id)`: only records the id, and only for a known one. */
    method ClosePage(id: string)
      requires Valid()
      modifies this`closedItemId
      ensures Valid()
      ensures closedItemId == (if id in maps.idToRef then id else old(closedItemId))
    {
      if id !in maps.idToRef {
        return;
      }
      closedItemId := id;
    }

    /** `renamePage(oldId, newPage)`. */
    method RenamePage(oldId: string, newPage: Page)
      requires Valid()
      modifies this`maps, this`renamedPage
      ensures Valid()
      ensures maps == Renamed(old(maps), oldId, newPage)
      ensures renamedPage == (if oldId in old(maps.idToRef) then Some(newPage) else old(renamedPage))
    {
      RenameKeepsRefs(maps, oldId, newPage);
      if oldId !in maps.idToRef {
        return;
      }
      maps := Renamed(maps, oldId, newPage);
      renamedPage := Some(newPage);
    }
  }
}
