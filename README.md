# Calorie tracker: item list, storage and handlers in Dafny

This project models the core of a single-page calorie tracker (`app.js`). Three
parts are modelled:

- **ItemCtrl** owns the in-memory list of `{id, name, calories}` items, the
  current item being edited, and a cached calorie total.
- **StorageCtrl** persists the same list under the local-storage key `"items"`.
- **App** wires the add, edit, update, delete, back and clear-all events to
  ordered steps: change the list, show the new total, then persist.

The central claim is that the handlers keep the three copies in step. The copies
are the in-memory list, the stored list and the displayed total.

Files and modules:

- `item_model.dfy` (`ItemModel`): the `Item` and `Selection` values and the list
  edits as functions. `NextId` assigns ids. `FindLast` is the lookup. `IndexOf`
  and `SpliceOne` together are `splice(indexOf(id), 1)`. `UpdateById` and
  `ReplaceById` are the two ways an item gets updated. `ForEachSpliceOut` is a
  `forEach` loop that splices while it iterates. `RemoveId` is the reference
  meaning of deletion. `Sum` is the total. The lemmas relate these functions.
- `storage_ctrl.dfy` (`StorageCtrl`): class `Store`. Its field `items` is the
  `"items"` key, with `None` for an absent key.
- `item_ctrl.dfy` (`ItemCtrl`): class `ItemState`, the controller's `data`
  object, with one method per public operation. The `forEach` loops are `for`
  loops with invariants.
- `app.dfy` (`App`): class `Tracker`, which holds an `ItemState`, a `Store` and
  an abstract view (edit mode on or off, and the displayed total). `Valid()`
  states that the copies agree and that ids strictly increase. Every handler
  keeps `Valid()`. `SteakAndCookieSession` runs a session (two adds, an edit, a
  delete, a clear) on the handlers' contracts alone.

Behaviour of the code worth noting, which the model follows as written:

- **Id reuse.** A new id is the last item's id + 1, not the maximum + 1. Ids are
  reused: delete the item just added, add again, and it gets the same id
  (`AddDeleteReusesId`).
- **Deleting an absent id.** This is not a no-op. `indexOf` gives -1, and
  `splice(-1, 1)` removes the last item (`DeleteMissing`).
- **Updating with no selection.** `updateItem` with a `null` current item only
  throws when the list is non-empty. The callback that dereferences the current
  item never runs on an empty list.
- **Storage with the key absent.** Storage update and delete do not rewrite
  anything when the key is absent. They throw, because `JSON.parse(null)` is
  `null` and `null.forEach` fails. So a present key is their precondition.
- **Storage delete.** It removes every matching item *except* one that comes
  right after a removed one: the `splice` shifts that item under the index
  `forEach` has already passed. With unique ids this is exactly "remove the
  item with that id" (`ForEachSpliceOutUnique`).
- **Clear All in edit mode.** `clearAllSubmit` does not leave edit mode, so the
  form can be in edit mode with a current id that is no longer in the list
  (`ClearAllWhileEditing`). Update then throws in `updateItemStorage`, and
  delete throws when it removes the missing row; memory is left empty in both.

## Model

| member | source | states |
|---|---|---|
| `ItemModel.NextId` | app.js:92-98 | the id given to a new item exceeds every id in a list whose ids increase |
| `ItemModel.AddPreservesIncreasing` | app.js:92-104 | appending the item with the next id keeps ids strictly increasing |
| `ItemModel.IncreasingIdsUnique` | app.js:92-98 | strictly increasing ids are unique: no two positions hold the same id |
| `ItemModel.AddDeleteReusesId` | app.js:94-98 | deleting the item just added and adding again hands out the same id, so ids are reused |
| `ItemModel.FindLast` | app.js:108-116 | the lookup misses exactly when no item has the id; a hit is an item of the list with that id and no later item has it |
| `ItemModel.FindLastUnique` | app.js:108-116 | with unique ids the lookup of an item's id returns that item |
| `ItemModel.IndexOf` | app.js:133-139 | `ids.indexOf(id)` is -1 exactly when the id is absent, and otherwise the first index holding it |
| `ItemModel.UpdateById` | app.js:123-129 | the in-place update keeps length, order and every id, gives matching items the new name and calories, and leaves the others unchanged |
| `ItemModel.ReplaceById` | app.js:37-41 | storage's update keeps length and order, puts the updated item at every index holding its id, and leaves the other indices unchanged |
| `ItemModel.UpdateIsReplace` | app.js:123-127 | editing matching items in place equals replacing them with `{id, name, calories}`, which is what storage does |
| `ItemModel.UpdatePreservesIncreasing` | app.js:123-129 | an update keeps ids strictly increasing |
| `ItemModel.SpliceStart` | app.js:142 | `splice`'s start: a negative start counts back from the end, clamped at 0; a start past the end is the end |
| `ItemModel.SpliceOne` | app.js:142 | `splice(start, 1)` removes exactly the element at the clamped start, if there is one, and keeps the rest in order |
| `ItemModel.SplicePreservesIncreasing` | app.js:142 | removing one element keeps ids strictly increasing |
| `ItemModel.DeleteFound` | app.js:132-143 | deleting a present id removes the first item with that id and keeps the others in order |
| `ItemModel.DeleteMissing` | app.js:139-142 | deleting an absent id removes the last item; an empty list stays empty |
| `ItemModel.DeleteUnique` | app.js:132-143 | with unique ids, deleting a present id is the reference removal of that id |
| `ItemModel.RemoveId` | app.js:45-54 | the reference removal never makes a list longer |
| `ItemModel.RemoveIdMembers` | app.js:45-54 | the reference removal keeps exactly the items whose id differs |
| `ItemModel.ForEachSpliceOut` | app.js:47-51 | splicing inside `forEach` never makes the list longer |
| `ItemModel.ForEachSpliceOutKeeps` | app.js:47-51 | splicing inside `forEach` only drops items with the id, and keeps every item with another id |
| `ItemModel.ForEachSpliceOutUnique` | app.js:45-54 | with unique ids, storage delete is the reference removal of that id |
| `ItemModel.Sum` | app.js:154-158 | the total of a single item is its calories, and a list with no negative calories has a non-negative total |
| `ItemModel.SumConcat` | app.js:156-158 | the total of two lists joined is the sum of their totals |
| `ItemModel.SumOfRemoval` | app.js:153-158 | removing the item at an index lowers the total by that item's calories |
| `ItemModel.SumOfEdit` | app.js:153-158 | replacing the item at an index changes the total by the difference in calories |
| `ItemModel.UpdateTotal` | app.js:117-131 | with unique ids, updating an item changes the total by its new calories minus its old ones |
| `StorageCtrl.Store.constructor` | app.js:28-31 | the key starts with what was persisted before the page loaded |
| `StorageCtrl.Store.GetItemsFromStorage` | app.js:26-34 | an absent key reads as the empty list; a present key reads as the stored list |
| `StorageCtrl.Store.StoreItem` | app.js:8-25 | afterwards the key is present, and reading it gives the old read followed by the item |
| `StorageCtrl.Store.UpdateItemStorage` | app.js:35-44 | requires the key to be present; every stored item with the updated item's id is replaced by it, in place |
| `StorageCtrl.Store.DeleteItemFromStorage` | app.js:45-54 | requires the key to be present; the stored list becomes what `forEach` with `splice` leaves |
| `StorageCtrl.Store.ClearItemsFromStorage` | app.js:55-57 | the key is removed and the next read is empty |
| `ItemCtrl.ItemState.constructor` | app.js:74-83 | the state starts with the loaded items, no current item and a total of 0 |
| `ItemCtrl.ItemState.AddItem` | app.js:91-107 | returns the new item with the next id and the given name and calories, pushed at the end with earlier items unchanged; increasing ids stay increasing |
| `ItemCtrl.ItemState.GetItemById` | app.js:108-116 | returns the sentinel exactly when no item has the id, and otherwise the last item with it |
| `ItemCtrl.ItemState.UpdateItem` | app.js:117-131 | requires a non-null current item when the list is non-empty; edits the current id's items, returns the edited item when one matched and `null` otherwise |
| `ItemCtrl.ItemState.DeleteItem` | app.js:132-143 | the list becomes `splice(indexOf(id), 1)` of the old one; increasing ids stay increasing |
| `ItemCtrl.ItemState.ClearAllItems` | app.js:144-146 | the list becomes empty, and so its total is 0 |
| `ItemCtrl.ItemState.SetCurrentItem` | app.js:147-149 | the current item becomes the found item's id, or the miss marker for the sentinel |
| `ItemCtrl.ItemState.GetTotalCalories` | app.js:153-164 | returns the sum of the items' calories and caches the same value |
| `App.Tracker.constructor` | app.js:487-509 | after loading and `init` the form is in default mode, the shown total is the sum, and the copies agree when the persisted ids increase |
| `App.Tracker.ItemAddSubmit` | app.js:355-381 | with both fields filled, the new item is appended in memory and in storage; otherwise nothing changes; the copies stay in step |
| `App.Tracker.ItemEditClick` | app.js:384-408 | the clicked id becomes the current item (or the miss marker) and the form enters edit mode; the copies stay in step |
| `App.Tracker.ItemUpdateSubmit` | app.js:412-432 | with the current item in the list, it is updated in memory and storage, the copies stay in step, and the form returns to default mode |
| `App.Tracker.ItemDeleteSubmit` | app.js:436-462 | with the current item in the list, exactly that item is removed from memory and storage, the copies stay in step, and the form returns to default mode |
| `App.Tracker.BackClick` | app.js:341-346 | the form returns to default mode and the copies stay in step |
| `App.Tracker.ClearAllSubmit` | app.js:465-484 | memory is emptied, the key is removed, and 0 is shown; mode and current item are left as they were |
| `App.ClearAllWhileEditing` | app.js:465-484 | Clear All after an edit click empties memory and storage but leaves edit mode on, with a current id absent from the list |
| `App.UpdateAfterClear` | app.js:117-131 | in that state `updateItem` returns `null` and leaves the empty list unchanged, with the key still absent |
| `App.AddSteakAndCookie` | app.js:355-381 | adding 1200 and 400 calories from an empty list gives ids 0 and 1 and a shown total of 1600 |
| `App.LightenSteak` | app.js:412-432 | editing item 0 to 1000 calories gives a shown total of 1400 and default mode |
| `App.DeleteSteak` | app.js:436-462 | deleting item 0 leaves only item 1 and a shown total of 400 |

## Left out

- UICtrl's rendering (app.js:176-298) is left out: row templates, the form
  fields, button styles, and list show/hide. The view is only the edit-mode flag
  and the displayed total. `init` hiding or filling the list is not modelled.
- The event wiring and the Enter-key suppressor (app.js:307-352) are left out.
  Of the wiring, only the back button's `clearEditState` is kept, as
  `BackClick`.
- `parseInt` on the calories text and the `"item-N".split("-")` id extraction
  are left out. Calories and ids arrive as integers. For add, an empty calories
  field is `None` and nothing is added. App.Tracker.ItemUpdateSubmit takes an
  `int`: the `NaN` that `parseInt("")` gives an update (and the `NaN` total it
  leads to) is not modelled.
- `localStorage` and `JSON` are modelled as an optional list with an exact round
  trip. Quota errors and corrupt stored text are not modelled.
- Calories and ids are unbounded integers. JavaScript numbers are doubles,
  exact only up to 2^53: from a last id of 2^53 on, `id + 1` (app.js:95) rounds
  back to the same value. So the "ids stay increasing" promise of
  ItemCtrl.ItemState.AddItem, ItemModel.AddPreservesIncreasing and
  App.Tracker.ItemAddSubmit assumes the last id is below 2^53. The code's own
  writes never get there, but App.Tracker.constructor accepts any persisted
  list whose ids increase.
- The current item is held by id, not as a shared object. This aliasing is not
  modelled. Only the current item's id is ever read after it changes.
- `getItems`, `getCurrentItem` and `logData` are plain reads of the state, and
  the handlers read the fields directly. `console.log` is left out.
- App.Tracker.ItemUpdateSubmit and App.Tracker.ItemDeleteSubmit require the
  current item to be in the list. The one reachable state without it is Clear
  All in edit mode (`ClearAllWhileEditing`): the list is empty and the key is
  absent. Update then throws at `null.forEach` in `updateItemStorage`
  (app.js:36-37) and delete at `null.remove()` in `deleteListItem`
  (app.js:245-250), both with memory still empty. The throw itself is not
  modelled; `UpdateAfterClear` models update up to it.
- App.Tracker.constructor promises that the copies agree only when the persisted
  ids strictly increase. A list written by this code always has increasing ids,
  but the model cannot see what wrote the stored list.
