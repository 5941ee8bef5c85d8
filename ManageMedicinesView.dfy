/**
 * The list logic of the medicine management screen
 * (src/components/ManageMedicinesView.tsx): the drag-end reorder and the
 * add-form submit. Callbacks and state setters become returned values.
 */
module ManageMedicinesView {

  import opened Wrappers
  import opened Text
  import opened Entities
  import StorageService

  /** `medicines.findIndex(med => med.id === id)`: the first position holding
      that id, or -1 when there is none. */
  function FindIndex(meds: seq<MedicineItem>, id: string): (i: int)
    ensures -1 <= i < |meds|
    ensures i == -1 <==> forall k :: 0 <= k < |meds| ==> meds[k].id != id
    ensures 0 <= i ==> meds[i].id == id && forall k :: 0 <= k < i ==> meds[k].id != id
  {
    if meds == [] then -1
    else if meds[0].id == id then 0
    else
      var j := FindIndex(meds[1..], id);
      if j == -1 then -1 else j + 1
  }

  /** `arrayMove(xs, from, to)` for positions inside the list: take the
      element out at `from` and put it back in at `to`. The element lands at
      `to`, the elements between the two positions shift by one towards
      `from`, and everything outside that range stays where it was. */
  function Move<T>(xs: seq<T>, from: nat, to: nat): (r: seq<T>)
    requires from < |xs| && to < |xs|
    ensures |r| == |xs| && multiset(r) == multiset(xs)
    ensures r[to] == xs[from]
    ensures forall k :: 0 <= k < |xs| && k < from && k < to ==> r[k] == xs[k]
    ensures forall k :: 0 <= k < |xs| && k > from && k > to ==> r[k] == xs[k]
    ensures forall k :: from <= k < to ==> r[k] == xs[k + 1]
    ensures forall k :: to < k <= from ==> r[k] == xs[k - 1]
  {
    var rest := RemoveAt(xs, from);
    InsertAtPermutes(rest, to, xs[from]);
    RemoveAtPermutes(xs, from);
    InsertAt(rest, to, xs[from])
  }

  /** `splice(i, 1)`: the list without its element at `i`. */
  function RemoveAt<T>(xs: seq<T>, i: nat): (r: seq<T>)
    requires i < |xs|
    ensures |r| == |xs| - 1
    ensures forall k :: 0 <= k < i ==> r[k] == xs[k]
    ensures forall k :: i <= k < |r| ==> r[k] == xs[k + 1]
  {
    xs[..i] + xs[i + 1..]
  }

  /** `splice(i, 0, x)`: the list with `x` inserted at `i`. */
  function InsertAt<T>(xs: seq<T>, i: nat, x: T): (r: seq<T>)
    requires i <= |xs|
    ensures |r| == |xs| + 1 && r[i] == x
    ensures forall k :: 0 <= k < i ==> r[k] == xs[k]
    ensures forall k :: i < k < |r| ==> r[k] == xs[k - 1]
  {
    xs[..i] + [x] + xs[i..]
  }

  lemma RemoveAtPermutes<T>(xs: seq<T>, i: nat)
    requires i < |xs|
    ensures multiset(RemoveAt(xs, i)) + multiset{xs[i]} == multiset(xs)
  {
    assert xs == xs[..i] + [xs[i]] + xs[i + 1..];
  }

  lemma InsertAtPermutes<T>(xs: seq<T>, i: nat, x: T)
    requires i <= |xs|
    ensures multiset(InsertAt(xs, i, x)) == multiset(xs) + multiset{x}
  {
    assert xs == xs[..i] + xs[i..];
  }

  /** Moving an element back to where it came from restores the list. */
  lemma MoveBack<T>(xs: seq<T>, from: nat, to: nat)
    requires from < |xs| && to < |xs|
    ensures Move(Move(xs, from, to), to, from) == xs
  {
    var ys := Move(xs, from, to);
    var zs := Move(ys, to, from);
    forall k | 0 <= k < |xs| ensures zs[k] == xs[k] {
      if (k < from && k < to) || (k > from && k > to) {
      } else if k == from {
      } else if from < to {
        assert from <= k - 1 < to;
      } else {
        assert to < k + 1 <= from;
      }
    }
  }

  /** Moving the first of three elements to the last position. */
  lemma MoveFirstToLast<T>(a: T, b: T, c: T)
    ensures Move([a, b, c], 0, 2) == [b, c, a]
  {
  }

  /** What a drag that ends over a list item (or over nothing) does. */
  datatype DragOutcome =
    | NoReorder                          // dropped on itself: no callback
    | Reorder(newOrder: seq<MedicineItem>) // `onReorderMedicines(newOrder)`
    | UnresolvedMove(oldIndex: int, newIndex: int)
      // an id was not found, so `arrayMove` got -1: not part of this model

  /** `handleDragEnd`: when the dragged id differs from the id it was dropped
      over, both are looked up and the dragged item is moved to the position
      of the other. `overId` is None when the drop was outside the list. */
  function HandleDragEnd(meds: seq<MedicineItem>, activeId: string, overId: Option<string>): (r: DragOutcome)
    ensures r.NoReorder? <==> overId == Some(activeId)
    ensures r.Reorder? ==>
              && overId.Some?
              && var i, j := FindIndex(meds, activeId), FindIndex(meds, overId.value);
              && 0 <= i && 0 <= j
              && r.newOrder == Move(meds, i, j)
              && |r.newOrder| == |meds|
              && multiset(r.newOrder) == multiset(meds)
              && r.newOrder[j].id == activeId
    ensures overId.Some? && overId.value != activeId
            && (exists k :: 0 <= k < |meds| && meds[k].id == activeId)
            && (exists k :: 0 <= k < |meds| && meds[k].id == overId.value)
            ==> r.Reorder?
  {
    if overId == Some(activeId) then NoReorder
    else
      var oldIndex := FindIndex(meds, activeId);
      var newIndex := if overId.Some? then FindIndex(meds, overId.value) else -1;
      if 0 <= oldIndex && 0 <= newIndex then Reorder(Move(meds, oldIndex, newIndex))
      else UnresolvedMove(oldIndex, newIndex)
  }

  /** What submitting the add form does: the name handed to `onAddMedicine`
      (None when it is not called) and the new contents of the text field. */
  datatype FormResult = FormResult(added: Option<string>, text: string)

  /** `handleAdd`: a blank entry is refused and left in the field; otherwise
      the trimmed name is passed on once and the field is cleared. */
  function HandleAdd(text: string): (r: FormResult)
    ensures r.added.None? <==> IsBlank(text)
    ensures r.added.None? ==> r.text == text
    ensures r.added.Some? ==> r.added.value == Trim(text) && r.text == ""
  {
    if Trim(text) == "" then FormResult(None, text)
    else FormResult(Some(Trim(text)), "")
  }

  /** The name the form passes on is never refused as blank by
      `addMedicineItem`, is checked for duplicates exactly as the typed text
      would be, and is stored as the trimmed typed text. */
  lemma HandleAddThenAddMedicine(meds: seq<MedicineItem>, text: string, newId: string)
    requires HandleAdd(text).added.Some?
    ensures var r := StorageService.AddMedicine(meds, HandleAdd(text).added.value, newId);
            && r.rejection != Some(StorageService.BlankName)
            && (r.rejection == Some(StorageService.DuplicateName) <==> StorageService.NameTaken(meds, text))
            && (r.rejection.None? ==> r.medicines == meds + [MedicineItem(newId, Trim(text))])
  {
    TrimIdempotent(text);
  }
}
