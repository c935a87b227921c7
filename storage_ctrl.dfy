/** The storage controller: the edits it makes on the list persisted in browser
    local storage under the key "items". */
module StorageCtrl {
  import opened ItemModel

  /** Local storage reduced to its one key "items". `None` means the key is
      absent; `Some(list)` is the list that `JSON.parse` would read back, the
      JSON round trip being taken as exact. */
  class Store {
    var items: Option<seq<Item>>

    constructor (persisted: Option<seq<Item>>)
      ensures items == persisted
    {
      items := persisted;
    }

    /** `getItemsFromStorage`: an absent key reads as the empty list, a present
        one as the list stored under it. */
    function GetItemsFromStorage(): (r: seq<Item>)
      reads this
      ensures items.None? ==> r == []
      ensures items.Some? ==> r == items.value
    {
      if items.None? then [] else items.value
    }

    /** `storeItem`: the key afterwards holds what a read gave before, followed
        by the item; an absent key is created. */
    method StoreItem(item: Item)
      modifies this
      ensures items.Some?
      ensures GetItemsFromStorage() == old(GetItemsFromStorage()) + [item]
    {
      var list: seq<Item>;
      if items.None? {
        list := [];
        list := list + [item];
      } else {
        list := items.value;
        list := list + [item];
      }
      items := Some(list);
    }

    /** `updateItemStorage`: the parsed list, with `splice(index, 1, updated)` at
        every index whose item has the updated item's id, is written back. With
        the key absent `JSON.parse` yields `null` and `forEach` throws. */
    method UpdateItemStorage(updated: Item)
      requires items.Some?
      modifies this
      ensures items == Some(ReplaceById(old(items.value), updated))
    {
      var list := items.value;
      ghost var original := list;
      for index := 0 to |list|
        invariant |list| == |original|
        invariant forall k :: 0 <= k < index ==>
          list[k] == if original[k].id == updated.id then updated else original[k]
        invariant forall k :: index <= k < |list| ==> list[k] == original[k]
      {
        if updated.id == list[index].id {
          list := list[index := updated];
        }
      }
      assert list == ReplaceById(original, updated);
      items := Some(list);
    }

    /** `deleteItemFromStorage`: `forEach` over the parsed list, which captures the
        list's length once and skips indices past its current end, with
        `splice(index, 1)` on every matching item. With the key absent `forEach`
        throws on `null`. */
    method DeleteItemFromStorage(id: int)
      requires items.Some?
      modifies this
      ensures items == Some(ForEachSpliceOut(old(items.value), id))
    {
      var list := items.value;
      ghost var original := list;
      // list is always done + pending: done holds the items at the indices
      // visited so far (and the ones skipped after a splice), pending the rest
      ghost var done, pending := [], list;
      var n := |list|;
      var index := 0;
      while index < n
        invariant index <= n && |list| <= n
        invariant list == done + pending
        invariant |done| == Min(index, |list|)
        invariant ForEachSpliceOut(original, id) == done + ForEachSpliceOut(pending, id)
      {
        if index < |list| && id == list[index].id {
          assert list[index] == pending[0];
          list := list[..index] + list[index + 1..];
          if |pending| == 1 {
            pending := [];
          } else {
            done, pending := done + [pending[1]], pending[2..];
          }
        } else if index < |list| {
          done, pending := done + [pending[0]], pending[1..];
        }
        index := index + 1;
      }
      items := Some(list);
    }

    /** `clearItemsFromStorage`: the key is removed, so the next read is empty. */
    method ClearItemsFromStorage()
      modifies this
      ensures items.None? && GetItemsFromStorage() == []
    {
      items := None;
    }
  }

  function Min(a: int, b: int): int {
    if a < b then a else b
  }
}
