/** The item controller: the in-memory item list and the operations on it. */
module ItemCtrl {
  import opened ItemModel

  /** The controller's module state `data`: the item list, the current item and
      the last computed total. */
  class ItemState {
    var items: seq<Item>
    var current: Selection
    var totalCalories: int

    /** `data` as initialised: the items read from storage, no current item and
        a total of 0. */
    constructor (stored: seq<Item>)
      ensures items == stored && current == NoSelection && totalCalories == 0
    {
      items, current, totalCalories := stored, NoSelection, 0;
    }

    /** `addItem`: the new item gets the next id and is pushed at the end; the
        items already there stay as they were. */
    method AddItem(name: string, calories: int) returns (newItem: Item)
      modifies this`items
      ensures newItem == Item(NextId(old(items)), name, calories)
      ensures items == old(items) + [newItem]
      ensures IdsIncreasing(old(items)) ==> IdsIncreasing(items)
    {
      var id;
      if |items| > 0 {
        id := items[|items| - 1].id + 1;
      } else {
        id := 0;
      }
      newItem := Item(id, name, calories);
      items := items + [newItem];
      if IdsIncreasing(old(items)) {
        AddPreservesIncreasing(old(items), name, calories);
      }
    }

    /** `getItemById`: a scan that keeps the last item with the id; None stands
        for the sentinel `0` returned on a miss. */
    method GetItemById(id: int) returns (found: Option<Item>)
      ensures found.None? <==> !HasId(items, id)
      ensures found.Some? ==> found.value.id == id && found == FindLast(items, id)
    {
      found := None;
      for i := 0 to |items|
        invariant found == FindLast(items[..i], id)
      {
        assert items[..i + 1][..i] == items[..i];
        if items[i].id == id {
          found := Some(items[i]);
        }
      }
      assert items[..|items|] == items;
    }

    /** `updateItem`: sets name and calories on every item whose id is the
        current item's id, and returns the (last) item so edited, or None for
        `null`. The callback reads `data.currentItem.id`, which throws when there
        is an item to visit and the current item is `null`; the falsy `0` has no
        id and matches nothing. */
    method UpdateItem(name: string, calories: int) returns (found: Option<Item>)
      requires current.NoSelection? ==> items == []
      modifies this`items
      ensures current.Selected? ==> items == UpdateById(old(items), current.id, name, calories)
      ensures !current.Selected? ==> items == old(items)
      ensures found.Some? <==> current.Selected? && HasId(old(items), current.id)
      ensures found.Some? ==> found.value == Item(current.id, name, calories)
    {
      ghost var target := if current.Selected? then UpdateById(items, current.id, name, calories) else items;
      found := None;
      for i := 0 to |items|
        invariant |items| == |old(items)| == |target|
        invariant forall k :: 0 <= k < i ==> items[k] == target[k]
        invariant forall k :: i <= k < |items| ==> items[k] == old(items)[k]
        invariant found.Some? <==> current.Selected? && exists k :: 0 <= k < i && old(items)[k].id == current.id
        invariant found.Some? ==> current.Selected? && found.value == Item(current.id, name, calories)
      {
        if current.Selected? && items[i].id == current.id {
          items := items[i := items[i].(name := name, calories := calories)];
          found := Some(items[i]);
        }
      }
    }

    /** `deleteItem`: `splice(ids.indexOf(id), 1)`. A present id removes its first
        item; an absent one gives index -1, which removes the last item. */
    method DeleteItem(id: int)
      modifies this`items
      ensures items == SpliceOne(old(items), IndexOf(old(items), id))
      ensures IdsIncreasing(old(items)) ==> IdsIncreasing(items)
    {
      var index := IndexOf(items, id);
      items := SpliceOne(items, index);
      if IdsIncreasing(old(items)) {
        SplicePreservesIncreasing(old(items), index);
      }
    }

    /** `clearAllItems`: the list becomes empty; the current item is left as it is. */
    method ClearAllItems()
      modifies this`items
      ensures items == [] && Sum(items) == 0
    {
      items := [];
    }

    /** `setCurrentItem`, given what `getItemById` returned. */
    method SetCurrentItem(itemToEdit: Option<Item>)
      modifies this`current
      ensures itemToEdit.Some? ==> current == Selected(itemToEdit.value.id)
      ensures itemToEdit.None? ==> current == Missing
    {
      current := if itemToEdit.Some? then Selected(itemToEdit.value.id) else Missing;
    }

    /** `getTotalCalories`: sums the calories over the items and caches the sum. */
    method GetTotalCalories() returns (total: int)
      modifies this`totalCalories
      ensures total == Sum(items) && totalCalories == total
    {
      total := 0;
      for i := 0 to |items|
        invariant total == Sum(items[..i])
      {
        assert items[..i + 1][..i] == items[..i];
        total := total + items[i].calories;
      }
      assert items[..|items|] == items;
      totalCalories := total;
    }
  }
}
