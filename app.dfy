/** The app controller: the event handlers that change the item list, re-render
    the total and persist the change, as transactions over the item controller's
    state, the stored list and an abstract view. */
module App {
  import opened ItemModel
  import opened StorageCtrl
  import opened ItemCtrl

  /** The running application. The view is abstracted to whether the form is in
      edit mode (update, delete and back buttons shown) and the total on display. */
  class Tracker {
    const ctrl: ItemState
    const store: Store
    var editMode: bool
    var shownTotal: int

    /** The three copies agree: the stored list reads back as the in-memory list,
        the cached and the displayed total are its sum, and its ids increase. */
    ghost predicate Valid()
      reads this, ctrl, store
    {
      store.GetItemsFromStorage() == ctrl.items &&
      IdsIncreasing(ctrl.items) &&
      ctrl.totalCalories == Sum(ctrl.items) &&
      shownTotal == ctrl.totalCalories
    }

    /** Start-up: the item controller reads its items from storage, then `init`
        resets the form to default mode and shows the total. The copies agree from
        the start whenever the persisted ids increase. */
    constructor (persisted: Option<seq<Item>>)
      ensures fresh(ctrl) && fresh(store)
      ensures store.items == persisted
      ensures ctrl.items == store.GetItemsFromStorage() && ctrl.current == NoSelection
      ensures !editMode && shownTotal == Sum(ctrl.items)
      ensures IdsIncreasing(ctrl.items) ==> Valid()
    {
      var s := new Store(persisted);
      var loaded := s.GetItemsFromStorage();
      store := s;
      ctrl := new ItemState(loaded);
      new;
      editMode := false;
      var total := ctrl.GetTotalCalories();
      shownTotal := total;
    }

    /** `itemAddSubmit`. `calories` is None when its field is empty; with either
        field empty nothing changes. Otherwise the new item is appended in memory
        and in storage, and the total is shown. */
    method ItemAddSubmit(name: string, calories: Option<int>)
      requires Valid()
      modifies this, ctrl, store
      ensures Valid()
      ensures editMode == old(editMode) && ctrl.current == old(ctrl.current)
      ensures name != "" && calories.Some? ==>
        ctrl.items == old(ctrl.items) + [Item(NextId(old(ctrl.items)), name, calories.value)] &&
        store.items == Some(ctrl.items)
      ensures name == "" || calories.None? ==>
        ctrl.items == old(ctrl.items) && store.items == old(store.items) && shownTotal == old(shownTotal)
    {
      if name != "" && calories.Some? {
        var newItem := ctrl.AddItem(name, calories.value);
        var total := ctrl.GetTotalCalories();
        shownTotal := total;
        store.StoreItem(newItem);
      }
    }

    /** `itemEditClick` on the row of item `id`: the looked-up item becomes the
        current one (the miss marker if there is none) and the form enters edit
        mode. */
    method ItemEditClick(id: int)
      requires Valid()
      modifies this`editMode, ctrl`current
      ensures Valid() && editMode
      ensures ctrl.current == if HasId(ctrl.items, id) then Selected(id) else Missing
    {
      var itemToEdit := ctrl.GetItemById(id);
      ctrl.SetCurrentItem(itemToEdit);
      editMode := true;
    }

    /** `itemUpdateSubmit`: the current item is edited in memory and in storage,
        the total is shown and the form returns to default mode. The handler needs
        the current item to be in the list. The form reaches edit mode without it
        only through Clear All (`ClearAllWhileEditing`); the list is then empty,
        `updateItem` returns `null` and `updateItemStorage` throws on the removed
        key, with memory unchanged (`UpdateAfterClear`). */
    method ItemUpdateSubmit(name: string, calories: int)
      requires Valid() && ctrl.current.Selected? && HasId(ctrl.items, ctrl.current.id)
      modifies this, ctrl, store
      ensures Valid() && !editMode && ctrl.current == old(ctrl.current)
      ensures ctrl.items == UpdateById(old(ctrl.items), ctrl.current.id, name, calories)
    {
      var updatedItem := ctrl.UpdateItem(name, calories);
      var total := ctrl.GetTotalCalories();
      shownTotal := total;
      UpdateIsReplace(old(ctrl.items), ctrl.current.id, name, calories);
      UpdatePreservesIncreasing(old(ctrl.items), ctrl.current.id, name, calories);
      store.UpdateItemStorage(updatedItem.value);
      editMode := false;
    }

    /** `itemDeleteSubmit`: the current item is removed from memory and from
        storage, the total is shown and the form returns to default mode. The
        current item must be in the list. After Clear All in edit mode it is not:
        `splice(-1, 1)` leaves the empty list empty and removing the row then
        dereferences the `null` that the row lookup returns. */
    method ItemDeleteSubmit()
      requires Valid() && ctrl.current.Selected? && HasId(ctrl.items, ctrl.current.id)
      modifies this, ctrl, store
      ensures Valid() && !editMode && ctrl.current == old(ctrl.current)
      ensures ctrl.items == RemoveId(old(ctrl.items), ctrl.current.id)
      ensures |ctrl.items| == |old(ctrl.items)| - 1
    {
      var id := ctrl.current.id;
      ctrl.DeleteItem(id);
      IncreasingIdsUnique(old(ctrl.items));
      DeleteUnique(old(ctrl.items), id);
      var total := ctrl.GetTotalCalories();
      shownTotal := total;
      editMode := false;
      store.DeleteItemFromStorage(id);
      ForEachSpliceOutUnique(old(ctrl.items), id);
    }

    /** The back button: the form returns to default mode. */
    method BackClick()
      requires Valid()
      modifies this`editMode
      ensures Valid() && !editMode
    {
      editMode := false;
    }

    /** `clearAllSubmit`: memory is emptied, the key is removed from storage and a
        total of 0 is shown. The form's mode and the current item are untouched. */
    method ClearAllSubmit()
      requires Valid()
      modifies this, ctrl, store
      ensures Valid() && ctrl.items == [] && store.items == None && shownTotal == 0
      ensures editMode == old(editMode) && ctrl.current == old(ctrl.current)
    {
      ctrl.ClearAllItems();
      var total := ctrl.GetTotalCalories();
      shownTotal := total;
      store.ClearItemsFromStorage();
    }
  }

  /** Clear All pressed while an item is being edited: `clearAllSubmit` does not
      leave edit mode, so the form stays in edit mode with a current id that is no
      longer in the (now empty) list. */
  method ClearAllWhileEditing(app: Tracker, id: int)
    requires app.Valid() && HasId(app.ctrl.items, id)
    modifies app, app.ctrl, app.store
    ensures app.Valid() && app.editMode
    ensures app.ctrl.current == Selected(id) && app.ctrl.items == []
    ensures !HasId(app.ctrl.items, app.ctrl.current.id) && app.store.items.None?
  {
    app.ItemEditClick(id);
    app.ClearAllSubmit();
  }

  /** Update pressed in that state: `updateItem` finds nothing, returns `null`
      and leaves the list empty; `updateItemStorage` would then read the removed
      key as `null` and throw before anything is written. */
  method UpdateAfterClear(app: Tracker, name: string, calories: int) returns (updated: Option<Item>)
    requires app.Valid() && app.ctrl.current.Selected?
    requires app.ctrl.items == [] && app.store.items.None?
    modifies app.ctrl
    ensures updated.None? && app.ctrl.items == [] && app.store.items.None?
  {
    updated := app.ctrl.UpdateItem(name, calories);
  }

  /** A session from a cold start: two adds, an edit of the first item, its
      deletion and a final clear, with the totals the handlers' contracts promise. */
  method SteakAndCookieSession() {
    var app := new Tracker(None);
    assert app.ctrl.items == [] && app.shownTotal == 0;
    AddSteakAndCookie(app);
    LightenSteak(app);
    DeleteSteak(app);
    app.ClearAllSubmit();
    assert app.store.GetItemsFromStorage() == [] && app.shownTotal == 0;
  }

  method AddSteakAndCookie(app: Tracker)
    requires app.Valid() && app.ctrl.items == []
    modifies app, app.ctrl, app.store
    ensures app.Valid() && app.shownTotal == 1600
    ensures app.ctrl.items == [Item(0, "Steak dinner", 1200), Item(1, "Cookie", 400)]
  {
    var steak, cookie := Item(0, "Steak dinner", 1200), Item(1, "Cookie", 400);
    app.ItemAddSubmit("Steak dinner", Some(1200));
    app.ItemAddSubmit("Cookie", Some(400));
    assert app.ctrl.items == [steak, cookie];
    SumConcat([steak], [cookie]);
  }

  method LightenSteak(app: Tracker)
    requires app.Valid() && app.ctrl.items == [Item(0, "Steak dinner", 1200), Item(1, "Cookie", 400)]
    modifies app, app.ctrl, app.store
    ensures app.Valid() && app.shownTotal == 1400 && !app.editMode && app.ctrl.current == Selected(0)
    ensures app.ctrl.items == [Item(0, "Steak", 1000), Item(1, "Cookie", 400)]
  {
    var lighter, cookie := Item(0, "Steak", 1000), Item(1, "Cookie", 400);
    assert app.ctrl.items[0].id == 0;
    app.ItemEditClick(0);
    app.ItemUpdateSubmit("Steak", 1000);
    assert app.ctrl.items == [lighter, cookie];
    assert app.shownTotal == Sum(app.ctrl.items);
    assert [lighter] + [cookie] == [lighter, cookie];
    SumConcat([lighter], [cookie]);
  }

  method DeleteSteak(app: Tracker)
    requires app.Valid() && app.ctrl.current == Selected(0)
    requires app.ctrl.items == [Item(0, "Steak", 1000), Item(1, "Cookie", 400)]
    modifies app, app.ctrl, app.store
    ensures app.Valid() && app.shownTotal == 400 && !app.editMode
    ensures app.ctrl.items == [Item(1, "Cookie", 400)]
  {
    var lighter, cookie := Item(0, "Steak", 1000), Item(1, "Cookie", 400);
    assert app.ctrl.items[0].id == 0;
    app.ItemDeleteSubmit();
    assert [lighter, cookie][1..] == [cookie] && [cookie][1..] == [];
    assert app.ctrl.items == [cookie];
  }
}
