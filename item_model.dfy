/** Items of the calorie tracker and the list edits the controllers make on them.
    Everything here is a value; the controllers that hold these lists are classes
    in the modules StorageCtrl, ItemCtrl and App. */
module ItemModel {

  datatype Option<T> = None | Some(value: T)

  /** One tracked food item, `{id, name, calories}`. */
  datatype Item = Item(id: int, name: string, calories: int)

  /** The item controller's `currentItem`: `null`, the falsy `0` that a missed
      `getItemById` hands to `setCurrentItem`, or an item of the list, tracked
      by its id. */
  datatype Selection = NoSelection | Missing | Selected(id: int)

  predicate HasId(s: seq<Item>, id: int) {
    exists i :: 0 <= i < |s| && s[i].id == id
  }

  /** Ids strictly increase along the list. Id assignment keeps this, and it
      makes the ids unique (IncreasingIdsUnique). */
  predicate IdsIncreasing(s: seq<Item>) {
    forall i, j :: 0 <= i < j < |s| ==> s[i].id < s[j].id
  }

  /** No two positions hold the same id. */
  predicate IdsUnique(s: seq<Item>) {
    forall i, j :: 0 <= i < |s| && 0 <= j < |s| && i != j ==> s[i].id != s[j].id
  }

  /** The calorie total, accumulated front to back as the `forEach` loop does. */
  function Sum(s: seq<Item>): (r: int)
    ensures |s| == 1 ==> r == s[0].calories
    ensures (forall i :: 0 <= i < |s| ==> s[i].calories >= 0) ==> r >= 0
  {
    if s == [] then 0 else Sum(s[..|s| - 1]) + s[|s| - 1].calories
  }

  // ---------------------------------------------------------------- adding

  /** The id `addItem` gives a new item: one more than the id of the LAST item,
      or 0 for an empty list. */
  function NextId(s: seq<Item>): (r: int)
    ensures IdsIncreasing(s) ==> forall i :: 0 <= i < |s| ==> s[i].id < r
  {
    if |s| > 0 then s[|s| - 1].id + 1 else 0
  }

  lemma AddPreservesIncreasing(s: seq<Item>, name: string, calories: int)
    requires IdsIncreasing(s)
    ensures IdsIncreasing(s + [Item(NextId(s), name, calories)])
  {
  }

  lemma IncreasingIdsUnique(s: seq<Item>)
    requires IdsIncreasing(s)
    ensures IdsUnique(s)
  {
  }

  // ---------------------------------------------------------------- lookup

  /** What `getItemById` leaves in `found`: the last item with the id, or None
      (the sentinel `0`) when there is none. */
  function FindLast(s: seq<Item>, id: int): (r: Option<Item>)
    ensures r.None? <==> !HasId(s, id)
    ensures r.Some? ==>
      r.value.id == id &&
      exists i :: 0 <= i < |s| && s[i] == r.value && forall j :: i < j < |s| ==> s[j].id != id
  {
    if s == [] then None
    else if s[|s| - 1].id == id then Some(s[|s| - 1])
    else
      var r := FindLast(s[..|s| - 1], id);
      assert forall k :: 0 <= k < |s| - 1 ==> s[..|s| - 1][k] == s[k];
      r
  }

  lemma FindLastUnique(s: seq<Item>, i: int)
    requires IdsUnique(s) && 0 <= i < |s|
    ensures FindLast(s, s[i].id) == Some(s[i])
  {
  }

  /** `ids.indexOf(id)` over `ids = items.map(item => item.id)`: the first index
      holding the id, or -1. */
  function IndexOf(s: seq<Item>, id: int): (r: int)
    ensures -1 <= r < |s|
    ensures r == -1 <==> !HasId(s, id)
    ensures 0 <= r ==> s[r].id == id && forall j :: 0 <= j < r ==> s[j].id != id
  {
    if s == [] then -1
    else if s[0].id == id then 0
    else
      var k := IndexOf(s[1..], id);
      assert forall j :: 1 <= j < |s| ==> s[j] == s[1..][j - 1];
      if k == -1 then -1 else k + 1
  }

  // ---------------------------------------------------------------- updating

  /** `item.name = name; item.calories = calories` when the item's id matches. */
  function Edited(x: Item, id: int, name: string, calories: int): Item {
    if x.id == id then x.(name := name, calories := calories) else x
  }

  /** The in-memory list after `updateItem`: every item with the id edited in
      place. Length, order and ids stay; matching items carry the new name and
      calories; the others are untouched. */
  function UpdateById(s: seq<Item>, id: int, name: string, calories: int): (r: seq<Item>)
    ensures |r| == |s|
    ensures forall i :: 0 <= i < |s| ==> r[i].id == s[i].id
    ensures forall i :: 0 <= i < |s| && s[i].id == id ==> r[i] == Item(id, name, calories)
    ensures forall i :: 0 <= i < |s| && s[i].id != id ==> r[i] == s[i]
  {
    seq(|s|, i requires 0 <= i < |s| => Edited(s[i], id, name, calories))
  }

  /** The stored list after `updateItemStorage(u)`: `splice(index, 1, u)` at every
      index whose item has u's id. Length and order stay; matching elements
      become u; the others are untouched. */
  function ReplaceById(s: seq<Item>, u: Item): (r: seq<Item>)
    ensures |r| == |s|
    ensures forall i :: 0 <= i < |s| && s[i].id == u.id ==> r[i] == u
    ensures forall i :: 0 <= i < |s| && s[i].id != u.id ==> r[i] == s[i]
  {
    seq(|s|, i requires 0 <= i < |s| => if s[i].id == u.id then u else s[i])
  }

  /** Editing the matching items in place and replacing them with the edited
      record give the same list: memory and storage agree after an update. */
  lemma UpdateIsReplace(s: seq<Item>, id: int, name: string, calories: int)
    ensures UpdateById(s, id, name, calories) == ReplaceById(s, Item(id, name, calories))
  {
  }

  lemma UpdatePreservesIncreasing(s: seq<Item>, id: int, name: string, calories: int)
    requires IdsIncreasing(s)
    ensures IdsIncreasing(UpdateById(s, id, name, calories))
  {
  }

  // ---------------------------------------------------------------- deleting

  /** Where `Array.prototype.splice` starts for a given start argument: a negative
      start counts back from the end, clamped at 0; a start past the end is the end. */
  function SpliceStart(len: nat, start: int): (k: nat)
    ensures k <= len
    ensures 0 <= start ==> k == if start < len then start else len
    ensures start < 0 ==> k == if len + start < 0 then 0 else len + start
  {
    if start < 0 then (if len + start < 0 then 0 else len + start)
    else if start < len then start else len
  }

  /** `splice(start, 1)`: removes the element at SpliceStart, if there is one. */
  function SpliceOne(s: seq<Item>, start: int): (r: seq<Item>)
    ensures |r| == if SpliceStart(|s|, start) < |s| then |s| - 1 else |s|
    ensures forall j :: 0 <= j < |r| ==>
      r[j] == s[if j < SpliceStart(|s|, start) then j else j + 1]
  {
    var k := SpliceStart(|s|, start);
    if k < |s| then s[..k] + s[k + 1..] else s
  }

  /** The reference meaning of "delete the item with this id": keep exactly the
      items with other ids, in order. */
  function RemoveId(s: seq<Item>, id: int): (r: seq<Item>)
    ensures |r| <= |s|
  {
    if s == [] then []
    else (if s[0].id == id then [] else [s[0]]) + RemoveId(s[1..], id)
  }

  lemma {:induction false} RemoveIdMembers(s: seq<Item>, id: int)
    ensures forall x :: x in RemoveId(s, id) <==> x in s && x.id != id
  {
    if s != [] {
      RemoveIdMembers(s[1..], id);
      assert s == [s[0]] + s[1..];
    }
  }

  /** What `deleteItemFromStorage` leaves: `forEach` visits indices in order while
      `splice(index, 1)` shifts the rest left, so the element right after a removed
      one is skipped and kept. */
  function ForEachSpliceOut(s: seq<Item>, id: int): (r: seq<Item>)
    ensures |r| <= |s|
  {
    if s == [] then []
    else if s[0].id == id then
      if |s| == 1 then [] else [s[1]] + ForEachSpliceOut(s[2..], id)
    else [s[0]] + ForEachSpliceOut(s[1..], id)
  }

  /** Whatever the ids, the skipping `forEach` only drops items with the id, and
      keeps every item with another id. */
  lemma {:induction false} ForEachSpliceOutKeeps(s: seq<Item>, id: int)
    ensures forall x :: x in ForEachSpliceOut(s, id) ==> x in s
    ensures forall x :: x in s && x.id != id ==> x in ForEachSpliceOut(s, id)
  {
    if s == [] {
    } else if s[0].id == id {
      if |s| > 1 {
        ForEachSpliceOutKeeps(s[2..], id);
        assert s == [s[0], s[1]] + s[2..];
      }
    } else {
      ForEachSpliceOutKeeps(s[1..], id);
      assert s == [s[0]] + s[1..];
    }
  }

  lemma {:induction false} RemoveIdNoMatch(s: seq<Item>, id: int)
    requires !HasId(s, id)
    ensures RemoveId(s, id) == s
  {
    if s != [] {
      assert s[0].id != id;
      assert !HasId(s[1..], id) by {
        forall j | 0 <= j < |s| - 1 ensures s[1..][j].id != id {
          assert s[1..][j] == s[j + 1];
        }
      }
      RemoveIdNoMatch(s[1..], id);
    }
  }

  lemma {:induction false} RemoveIdConcat(a: seq<Item>, b: seq<Item>, id: int)
    ensures RemoveId(a + b, id) == RemoveId(a, id) + RemoveId(b, id)
  {
    if a != [] {
      assert (a + b)[0] == a[0];
      assert (a + b)[1..] == a[1..] + b;
      RemoveIdConcat(a[1..], b, id);
    } else {
      assert a + b == b;
    }
  }

  lemma {:induction false} ForEachSpliceOutNoMatch(s: seq<Item>, id: int)
    requires !HasId(s, id)
    ensures ForEachSpliceOut(s, id) == s
  {
    if s != [] {
      assert s[0].id != id;
      assert !HasId(s[1..], id) by {
        forall j | 0 <= j < |s| - 1 ensures s[1..][j].id != id {
          assert s[1..][j] == s[j + 1];
        }
      }
      ForEachSpliceOutNoMatch(s[1..], id);
    }
  }

  lemma UniqueTail(s: seq<Item>, k: nat)
    requires IdsUnique(s) && k <= |s|
    ensures IdsUnique(s[k..])
  {
  }

  lemma AfterFirstNoMatch(s: seq<Item>, k: nat)
    requires IdsUnique(s) && k < |s|
    ensures !HasId(s[k + 1..], s[k].id)
  {
  }

  /** With unique ids the skipping `forEach` removes exactly the item with the id. */
  lemma {:induction false} ForEachSpliceOutUnique(s: seq<Item>, id: int)
    requires IdsUnique(s)
    ensures ForEachSpliceOut(s, id) == RemoveId(s, id)
  {
    if s == [] {
    } else if s[0].id == id {
      AfterFirstNoMatch(s, 0);
      RemoveIdNoMatch(s[1..], id);
      if |s| > 1 {
        assert !HasId(s[2..], id) by {
          forall j | 0 <= j < |s| - 2 ensures s[2..][j].id != id {
            assert s[2..][j] == s[1..][j + 1];
          }
        }
        ForEachSpliceOutNoMatch(s[2..], id);
        assert s[1..] == [s[1]] + s[2..];
      }
    } else {
      UniqueTail(s, 1);
      ForEachSpliceOutUnique(s[1..], id);
    }
  }

  /** `deleteItem` on a present id removes the first item with it and keeps the
      others in order. */
  lemma DeleteFound(s: seq<Item>, id: int)
    requires HasId(s, id)
    ensures var i := IndexOf(s, id);
      0 <= i < |s| && s[i].id == id && (forall j :: 0 <= j < i ==> s[j].id != id) &&
      SpliceOne(s, i) == s[..i] + s[i + 1..]
  {
  }

  /** `deleteItem` on an absent id: `indexOf` gives -1 and `splice(-1, 1)` drops the
      last item; an empty list stays empty. */
  lemma DeleteMissing(s: seq<Item>, id: int)
    requires !HasId(s, id)
    ensures SpliceOne(s, IndexOf(s, id)) == if s == [] then [] else s[..|s| - 1]
  {
  }

  lemma RemoveIdSingle(a: seq<Item>, x: Item, b: seq<Item>)
    requires !HasId(a, x.id) && !HasId(b, x.id)
    ensures RemoveId(a + [x] + b, x.id) == a + b
  {
    assert RemoveId([x], x.id) == [] by {
      assert [x][1..] == [];
    }
    RemoveIdConcat(a, [x], x.id);
    RemoveIdNoMatch(a, x.id);
    assert RemoveId(a + [x], x.id) == a;
    RemoveIdConcat(a + [x], b, x.id);
    RemoveIdNoMatch(b, x.id);
  }

  /** With unique ids, `deleteItem` on a present id is the reference removal. */
  lemma DeleteUnique(s: seq<Item>, id: int)
    requires IdsUnique(s) && HasId(s, id)
    ensures SpliceOne(s, IndexOf(s, id)) == RemoveId(s, id)
  {
    var i := IndexOf(s, id);
    DeleteFound(s, id);
    var a, b := s[..i], s[i + 1..];
    assert s == a + [s[i]] + b;
    assert !HasId(a, id) by {
      forall j | 0 <= j < |a| ensures a[j].id != id { }
    }
    AfterFirstNoMatch(s, i);
    RemoveIdSingle(a, s[i], b);
  }

  lemma SplicePreservesIncreasing(s: seq<Item>, start: int)
    requires IdsIncreasing(s)
    ensures IdsIncreasing(SpliceOne(s, start))
  {
  }

  /** Ids are not "never reused": deleting the item just added and adding again
      hands out the same id. */
  lemma AddDeleteReusesId(s: seq<Item>, name: string, calories: int)
    requires IdsIncreasing(s)
    ensures var t := s + [Item(NextId(s), name, calories)];
      NextId(SpliceOne(t, IndexOf(t, NextId(s)))) == NextId(s)
  {
  }

  // ---------------------------------------------------------------- totals

  lemma {:induction false} SumConcat(a: seq<Item>, b: seq<Item>)
    ensures Sum(a + b) == Sum(a) + Sum(b)
  {
    if b != [] {
      var b' := b[..|b| - 1];
      assert (a + b)[..|a + b| - 1] == a + b';
      SumConcat(a, b');
    } else {
      assert a + b == a;
    }
  }

  /** Removing the item at i takes its calories off the total. */
  lemma SumOfRemoval(s: seq<Item>, i: int)
    requires 0 <= i < |s|
    ensures Sum(s[..i] + s[i + 1..]) == Sum(s) - s[i].calories
  {
    var front, back := s[..i + 1], s[i + 1..];
    assert s == front + back;
    assert front[..i] == s[..i];
    SumConcat(front, back);
    SumConcat(s[..i], back);
  }

  /** Replacing the item at i changes the total by the difference in calories. */
  lemma SumOfEdit(s: seq<Item>, i: int, x: Item)
    requires 0 <= i < |s|
    ensures Sum(s[i := x]) == Sum(s) - s[i].calories + x.calories
  {
    var front, back := s[..i + 1], s[i + 1..];
    var front' := s[..i] + [x];
    assert s == front + back && s[i := x] == front' + back;
    assert front[..i] == s[..i] && front'[..i] == s[..i];
    SumConcat(front, back);
    SumConcat(front', back);
  }

  /** With unique ids, updating the item at i changes the total by the difference
      between the new calories and its old ones. */
  lemma UpdateTotal(s: seq<Item>, i: int, name: string, calories: int)
    requires IdsUnique(s) && 0 <= i < |s|
    ensures Sum(UpdateById(s, s[i].id, name, calories)) == Sum(s) - s[i].calories + calories
  {
    var x := s[i].(name := name, calories := calories);
    assert UpdateById(s, s[i].id, name, calories) == s[i := x];
    SumOfEdit(s, i, x);
  }
}
