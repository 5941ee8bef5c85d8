/**
 * The persistent store and the list operations around it
 * (src/services/storageService.ts).
 *
 * The browser's key-value storage is a `Store` object holding a map from keys
 * to what each key holds; reading a key goes through `JSON.parse`, so a key
 * can be absent, hold an empty string, hold text that cannot be read back, or
 * hold one of the two collections. Every domain operation computes its new
 * list with a pure function below and writes that list through to the store.
 */
module StorageService {

  import opened Wrappers
  import opened Text
  import opened Entities

  const MedicinesKey: string := "mediLog_medicines"
  const IntakeRecordsKey: string := "mediLog_intakeRecords"

  /** What a storage key holds, as `getItem` followed by `JSON.parse` sees it.
      `Unparsable` stands for every way the read can throw: text that is not
      JSON, or storage that cannot be accessed. */
  datatype Slot =
    | EmptyText
    | Unparsable
    | MedicineList(medicines: seq<MedicineItem>)
    | RecordList(records: seq<IntakeRecord>)

  /** Each key holds only its own kind of collection. */
  predicate WellKinded(slots: map<string, Slot>) {
    && (MedicinesKey in slots ==> !slots[MedicinesKey].RecordList?)
    && (IntakeRecordsKey in slots ==> !slots[IntakeRecordsKey].MedicineList?)
  }

  /** The seed list offered when no medicines are stored. */
  function DefaultMedicines(): (r: seq<MedicineItem>)
    ensures |r| == 2 && r[0].id != r[1].id
  {
    [MedicineItem("default-1", "Vitamin C"), MedicineItem("default-2", "Vitamin D")]
  }

  /** `localStorage.setItem(key, ...)`: the write replaces the key's value, or
      fails (quota, storage unavailable) and leaves the store as it was. */
  function Written(slots: map<string, Slot>, key: string, v: Slot, writable: bool): map<string, Slot> {
    if writable then slots[key := v] else slots
  }

  // ---------------------------------------------------------------------------
  // Loads
  // ---------------------------------------------------------------------------

  /** The medicines key holds a readable list (possibly an empty one). */
  predicate HoldsMedicines(slots: map<string, Slot>) {
    MedicinesKey in slots && slots[MedicinesKey].MedicineList?
  }

  /** What `getMedicines` returns: the stored list when there is one, and the
      seed list when the key is absent, empty or unreadable. */
  function MedicinesOnLoad(slots: map<string, Slot>): (meds: seq<MedicineItem>)
    ensures HoldsMedicines(slots) ==> meds == slots[MedicinesKey].medicines
    ensures !HoldsMedicines(slots) ==> meds == DefaultMedicines() && |meds| == 2
  {
    if HoldsMedicines(slots) then slots[MedicinesKey].medicines else DefaultMedicines()
  }

  /** What `getIntakeRecords` returns: the stored list, or the empty list when
      the key is absent, empty or unreadable. */
  function RecordsOnLoad(slots: map<string, Slot>): (records: seq<IntakeRecord>)
    requires WellKinded(slots)
    ensures IntakeRecordsKey in slots && slots[IntakeRecordsKey].RecordList?
            ==> records == slots[IntakeRecordsKey].records
    ensures IntakeRecordsKey !in slots || slots[IntakeRecordsKey] in {EmptyText, Unparsable}
            ==> records == []
  {
    if IntakeRecordsKey in slots && slots[IntakeRecordsKey].RecordList?
    then slots[IntakeRecordsKey].records
    else []
  }

  // ---------------------------------------------------------------------------
  // List transforms
  // ---------------------------------------------------------------------------

  /** Why an add was refused (the source shows an alert and saves nothing). */
  datatype Rejection = BlankName | DuplicateName

  /** The list `addMedicineItem` returns, and the alert it raised if any. */
  datatype AddResult = AddResult(medicines: seq<MedicineItem>, rejection: Option<Rejection>)

  /** Some existing name, lower-cased as it is stored, equals the lower-cased
      trimmed new name. Existing names are not trimmed. */
  predicate NameTaken(meds: seq<MedicineItem>, name: string) {
    exists k :: 0 <= k < |meds| && LowerCase(meds[k].name) == LowerCase(Trim(name))
  }

  /** `addMedicineItem` without its save: refuse a blank name, then refuse a
      name already taken, otherwise append one item named by the trimmed name. */
  function AddMedicine(meds: seq<MedicineItem>, name: string, newId: string): (r: AddResult)
    ensures r.rejection == Some(BlankName) <==> IsBlank(name)
    ensures r.rejection == Some(DuplicateName) <==> !IsBlank(name) && NameTaken(meds, name)
    ensures r.rejection.Some? ==> r.medicines == meds
    ensures r.rejection.None? ==>
              && |r.medicines| == |meds| + 1
              && r.medicines[..|meds|] == meds
              && r.medicines[|meds|] == MedicineItem(newId, Trim(name))
  {
    if IsBlank(name) then AddResult(meds, Some(BlankName))
    else if NameTaken(meds, name) then AddResult(meds, Some(DuplicateName))
    else AddResult(meds + [MedicineItem(newId, Trim(name))], None)
  }

  /** `list.filter(x => x.id !== id)` over either kind of item. */
  function WithoutId<T>(xs: seq<T>, idOf: T -> string, id: string): (r: seq<T>)
    ensures |r| <= |xs|
    ensures forall k :: 0 <= k < |r| ==> r[k] in xs && idOf(r[k]) != id
    ensures forall k :: 0 <= k < |xs| && idOf(xs[k]) != id ==> xs[k] in r
  {
    if xs == [] then []
    else if idOf(xs[0]) == id then WithoutId(xs[1..], idOf, id)
    else [xs[0]] + WithoutId(xs[1..], idOf, id)
  }

  /** `addIntakeRecordItem` without its save: one new record at the end,
      carrying exactly the given medicine and time and no details. */
  function AppendRecord(records: seq<IntakeRecord>, newId: string, medicineId: string,
                        medicineName: string, timestamp: int): (r: seq<IntakeRecord>)
    ensures |r| == |records| + 1 && r[..|records|] == records
    ensures r[|records|] == IntakeRecord(newId, medicineId, medicineName, timestamp, None)
  {
    records + [IntakeRecord(newId, medicineId, medicineName, timestamp, None)]
  }

  // ---------------------------------------------------------------------------
  // Properties of the transforms
  // ---------------------------------------------------------------------------

  /** Filtering keeps the order: it distributes over concatenation. */
  lemma {:induction false} WithoutIdAppend<T>(xs: seq<T>, ys: seq<T>, idOf: T -> string, id: string)
    ensures WithoutId(xs + ys, idOf, id) == WithoutId(xs, idOf, id) + WithoutId(ys, idOf, id)
  {
    if xs != [] {
      assert (xs + ys)[1..] == xs[1..] + ys;
      WithoutIdAppend(xs[1..], ys, idOf, id);
    } else {
      assert xs + ys == ys;
    }
  }

  /** Deleting an id nobody has changes nothing. */
  lemma {:induction false} WithoutAbsentId<T>(xs: seq<T>, idOf: T -> string, id: string)
    requires forall k :: 0 <= k < |xs| ==> idOf(xs[k]) != id
    ensures WithoutId(xs, idOf, id) == xs
  {
    if xs != [] {
      WithoutAbsentId(xs[1..], idOf, id);
      assert [xs[0]] + xs[1..] == xs;
    }
  }

  /** Deleting the same id twice is deleting it once. */
  lemma WithoutIdIdempotent<T>(xs: seq<T>, idOf: T -> string, id: string)
    ensures WithoutId(WithoutId(xs, idOf, id), idOf, id) == WithoutId(xs, idOf, id)
  {
    var r := WithoutId(xs, idOf, id);
    assert forall k :: 0 <= k < |r| ==> r[k] in r;
    WithoutAbsentId(r, idOf, id);
  }

  /** Deleting a record just appended under an unused id gives back the list
      before the append. */
  lemma AppendThenDeleteRecord(records: seq<IntakeRecord>, newId: string, medicineId: string,
                               medicineName: string, timestamp: int)
    requires forall k :: 0 <= k < |records| ==> records[k].id != newId
    ensures WithoutId(AppendRecord(records, newId, medicineId, medicineName, timestamp), RecordId, newId)
            == records
  {
    var added := IntakeRecord(newId, medicineId, medicineName, timestamp, None);
    WithoutIdAppend(records, [added], RecordId, newId);
    WithoutAbsentId(records, RecordId, newId);
  }

  /** Deleting a medicine just added under an unused id gives back the list
      before the add. */
  lemma AddThenDeleteMedicine(meds: seq<MedicineItem>, name: string, newId: string)
    requires forall k :: 0 <= k < |meds| ==> meds[k].id != newId
    requires AddMedicine(meds, name, newId).rejection.None?
    ensures WithoutId(AddMedicine(meds, name, newId).medicines, MedicineId, newId) == meds
  {
    var added := MedicineItem(newId, Trim(name));
    assert AddMedicine(meds, name, newId).medicines == meds + [added];
    WithoutIdAppend(meds, [added], MedicineId, newId);
    WithoutAbsentId(meds, MedicineId, newId);
  }

  /** Adding a name and then adding it again is refused as a duplicate. */
  lemma AddSameNameTwice(meds: seq<MedicineItem>, name: string, id1: string, id2: string)
    requires AddMedicine(meds, name, id1).rejection.None?
    ensures AddMedicine(AddMedicine(meds, name, id1).medicines, name, id2).rejection
            == Some(DuplicateName)
  {
    var after := AddMedicine(meds, name, id1).medicines;
    assert LowerCase(after[|meds|].name) == LowerCase(Trim(name));
  }

  /** A name that differs from a stored one at most in letter case is
      refused as a duplicate. */
  lemma CaseVariantIsDuplicate(meds: seq<MedicineItem>, name: string, newId: string, k: nat)
    requires k < |meds| && !IsBlank(name)
    requires SameUpToCase(meds[k].name, Trim(name))
    ensures AddMedicine(meds, name, newId) == AddResult(meds, Some(DuplicateName))
  {
    LowerCaseEqualIff(meds[k].name, Trim(name));
  }

  /** "vitamin c" is refused against the seeded "Vitamin C". */
  lemma LowerCaseSeedNameRefused(newId: string)
    ensures AddMedicine(DefaultMedicines(), "vitamin c", newId).rejection == Some(DuplicateName)
  {
    SeedNameCaseVariant();
    LowerSeedNameTrimmed();
    CaseVariantIsDuplicate(DefaultMedicines(), "vitamin c", newId, 0);
  }

  lemma SeedNameCaseVariant()
    ensures SameUpToCase("Vitamin C", "vitamin c")
  {
    var stored, name := "Vitamin C", "vitamin c";
    forall k | 0 <= k < 9 ensures LowerCase(stored)[k] == LowerCase(name)[k] {
    }
    LowerCaseEqualIff(stored, name);
  }

  lemma LowerSeedNameTrimmed()
    ensures !IsBlank("vitamin c") && Trim("vitamin c") == "vitamin c"
  {
    var name := "vitamin c";
    assert name[0] == 'v' && name[8] == 'c';
    OwnTrim(name);
  }

  /** No two medicines share a name up to letter case. */
  predicate NamesDistinct(meds: seq<MedicineItem>) {
    forall i, j :: 0 <= i < j < |meds| ==> LowerCase(meds[i].name) != LowerCase(meds[j].name)
  }

  /** Every name is non-blank and has nothing left to trim. */
  predicate NamesTrimmed(meds: seq<MedicineItem>) {
    forall k :: 0 <= k < |meds| ==> !IsBlank(meds[k].name) && Trim(meds[k].name) == meds[k].name
  }

  /** The seed list satisfies both name invariants, so the store starts
      out in a state every add and delete keeps. */
  lemma DefaultMedicinesWellFormed()
    ensures NamesDistinct(DefaultMedicines()) && NamesTrimmed(DefaultMedicines())
  {
    DefaultNamesDistinct();
    DefaultNamesTrimmed();
  }

  lemma DefaultNamesDistinct()
    ensures NamesDistinct(DefaultMedicines())
  {
    var meds := DefaultMedicines();
    assert LowerCase(meds[0].name)[8] == 'c' && LowerCase(meds[1].name)[8] == 'd';
  }

  lemma DefaultNamesTrimmed()
    ensures NamesTrimmed(DefaultMedicines())
  {
    var meds := DefaultMedicines();
    forall k | 0 <= k < 2 ensures !IsBlank(meds[k].name) && Trim(meds[k].name) == meds[k].name {
      var n := meds[k].name;
      assert n[0] == 'V' && (n[8] == 'C' || n[8] == 'D');
      OwnTrim(n);
    }
  }

  /** A successful add keeps names distinct up to letter case. */
  lemma AddKeepsNamesDistinct(meds: seq<MedicineItem>, name: string, newId: string)
    requires NamesDistinct(meds)
    ensures NamesDistinct(AddMedicine(meds, name, newId).medicines)
  {
    var r := AddMedicine(meds, name, newId);
    if r.rejection.None? {
      forall i, j | 0 <= i < j < |r.medicines|
        ensures LowerCase(r.medicines[i].name) != LowerCase(r.medicines[j].name)
      {
        if j == |meds| {
          assert r.medicines[i] == meds[i];
          assert !NameTaken(meds, name);
        } else {
          assert r.medicines[i] == meds[i] && r.medicines[j] == meds[j];
        }
      }
    }
  }

  /** A successful add keeps every name trimmed and non-blank. */
  lemma AddKeepsNamesTrimmed(meds: seq<MedicineItem>, name: string, newId: string)
    requires NamesTrimmed(meds)
    ensures NamesTrimmed(AddMedicine(meds, name, newId).medicines)
  {
    var r := AddMedicine(meds, name, newId);
    if r.rejection.None? {
      TrimIdempotent(name);
      forall k | 0 <= k < |r.medicines|
        ensures !IsBlank(r.medicines[k].name) && Trim(r.medicines[k].name) == r.medicines[k].name
      {
        if k < |meds| {
          assert r.medicines[k] == meds[k];
        }
      }
    }
  }

  /** A deletion keeps names distinct up to letter case. */
  lemma {:induction false} DeleteKeepsNamesDistinct(meds: seq<MedicineItem>, id: string)
    requires NamesDistinct(meds)
    ensures NamesDistinct(WithoutId(meds, MedicineId, id))
  {
    if meds != [] {
      var rest := meds[1..];
      assert NamesDistinct(rest) by {
        forall i, j | 0 <= i < j < |rest|
          ensures LowerCase(rest[i].name) != LowerCase(rest[j].name)
        {
          assert rest[i] == meds[i + 1] && rest[j] == meds[j + 1];
        }
      }
      DeleteKeepsNamesDistinct(rest, id);
      var tail := WithoutId(rest, MedicineId, id);
      if meds[0].id != id {
        var r := [meds[0]] + tail;
        forall i, j | 0 <= i < j < |r|
          ensures LowerCase(r[i].name) != LowerCase(r[j].name)
        {
          if i == 0 {
            assert r[j] == tail[j - 1] && r[j] in tail && r[j] in rest;
            var k :| 0 <= k < |rest| && rest[k] == r[j];
            assert meds[k + 1] == r[j];
          } else {
            assert r[i] == tail[i - 1] && r[j] == tail[j - 1];
          }
        }
      }
    }
  }

  // ---------------------------------------------------------------------------
  // Properties of the stored values
  // ---------------------------------------------------------------------------

  /** A saved medicines list, even an empty one, is what the next load returns. */
  lemma SavedMedicinesReadBack(slots: map<string, Slot>, meds: seq<MedicineItem>)
    ensures MedicinesOnLoad(Written(slots, MedicinesKey, MedicineList(meds), true)) == meds
  {
  }

  /** A saved record list is what the next load returns. */
  lemma SavedRecordsReadBack(slots: map<string, Slot>, records: seq<IntakeRecord>)
    requires WellKinded(slots)
    ensures WellKinded(Written(slots, IntakeRecordsKey, RecordList(records), true))
    ensures RecordsOnLoad(Written(slots, IntakeRecordsKey, RecordList(records), true)) == records
  {
  }

  /** Writing the medicines key never changes what the records load returns. */
  lemma MedicineWritesKeepRecords(slots: map<string, Slot>, meds: seq<MedicineItem>, writable: bool)
    requires WellKinded(slots)
    ensures WellKinded(Written(slots, MedicinesKey, MedicineList(meds), writable))
    ensures RecordsOnLoad(Written(slots, MedicinesKey, MedicineList(meds), writable))
            == RecordsOnLoad(slots)
  {
  }

  // ---------------------------------------------------------------------------
  // The store
  // ---------------------------------------------------------------------------

  /** The browser's local storage as the service uses it. `writable` is false
      while `setItem` throws (quota exceeded, storage unavailable). */
  class Store {
    var slots: map<string, Slot>
    var writable: bool

    ghost predicate Valid()
      reads this
    {
      WellKinded(slots)
    }

    constructor (initial: map<string, Slot>, writable: bool)
      requires WellKinded(initial)
      ensures Valid() && slots == initial && this.writable == writable
    {
      slots := initial;
      this.writable := writable;
    }

    /** `saveMedicines`: write-through of the whole list; a failed write is
        swallowed. */
    method SaveMedicines(meds: seq<MedicineItem>)
      requires Valid()
      modifies this`slots
      ensures Valid()
      ensures slots == Written(old(slots), MedicinesKey, MedicineList(meds), writable)
    {
      if writable {
        slots := slots[MedicinesKey := MedicineList(meds)];
      }
    }

    /** `saveIntakeRecords`: write-through of the whole list; a failed write is
        swallowed. */
    method SaveIntakeRecords(records: seq<IntakeRecord>)
      requires Valid()
      modifies this`slots
      ensures Valid()
      ensures slots == Written(old(slots), IntakeRecordsKey, RecordList(records), writable)
    {
      if writable {
        slots := slots[IntakeRecordsKey := RecordList(records)];
      }
    }

    /** `getMedicines`: the stored list when there is one; otherwise the seed
        list, which is also written back (when the key is absent or empty, and
        again on the error path when reading it fails). Never fails. */
    method GetMedicines() returns (meds: seq<MedicineItem>)
      requires Valid()
      modifies this`slots
      ensures Valid()
      ensures meds == MedicinesOnLoad(old(slots))
      ensures HoldsMedicines(old(slots)) ==> slots == old(slots)
      ensures !HoldsMedicines(old(slots)) ==>
                slots == Written(old(slots), MedicinesKey, MedicineList(DefaultMedicines()), writable)
    {
      if MedicinesKey in slots && slots[MedicinesKey].Unparsable? {
        // the read or the parse threw: fall back to the defaults
        meds := DefaultMedicines();
        SaveMedicines(meds);
      } else if MedicinesKey in slots && slots[MedicinesKey].MedicineList? {
        meds := slots[MedicinesKey].medicines;
      } else {
        // nothing stored, or an empty string
        meds := DefaultMedicines();
        SaveMedicines(meds);
      }
    }

    /** `getIntakeRecords`: the stored list, or the empty list; it never
        writes. */
    method GetIntakeRecords() returns (records: seq<IntakeRecord>)
      requires Valid()
      ensures records == RecordsOnLoad(slots)
    {
      if IntakeRecordsKey in slots && slots[IntakeRecordsKey].RecordList? {
        records := slots[IntakeRecordsKey].records;
      } else {
        records := [];
      }
    }

    /** `addMedicineItem`: a refused add returns the input and saves nothing;
        a successful one stores exactly the list it returns. */
    method AddMedicineItem(meds: seq<MedicineItem>, name: string, newId: string)
      returns (result: seq<MedicineItem>, alert: Option<Rejection>)
      requires Valid()
      modifies this`slots
      ensures Valid()
      ensures AddResult(result, alert) == AddMedicine(meds, name, newId)
      ensures alert.Some? ==> slots == old(slots)
      ensures alert.None? ==> slots == Written(old(slots), MedicinesKey, MedicineList(result), writable)
    {
      var r := AddMedicine(meds, name, newId);
      result, alert := r.medicines, r.rejection;
      if alert.None? {
        SaveMedicines(result);
      }
    }

    /** `deleteMedicineItem`: stores and returns the list without that id;
        intake records are left alone. */
    method DeleteMedicineItem(meds: seq<MedicineItem>, id: string) returns (result: seq<MedicineItem>)
      requires Valid()
      modifies this`slots
      ensures Valid()
      ensures result == WithoutId(meds, MedicineId, id)
      ensures slots == Written(old(slots), MedicinesKey, MedicineList(result), writable)
    {
      result := WithoutId(meds, MedicineId, id);
      SaveMedicines(result);
    }

    /** `addIntakeRecordItem`: stores and returns the list with one new record
        at the end. */
    method AddIntakeRecordItem(records: seq<IntakeRecord>, newId: string, medicineId: string,
                               medicineName: string, timestamp: int)
      returns (result: seq<IntakeRecord>)
      requires Valid()
      modifies this`slots
      ensures Valid()
      ensures result == AppendRecord(records, newId, medicineId, medicineName, timestamp)
      ensures slots == Written(old(slots), IntakeRecordsKey, RecordList(result), writable)
    {
      result := AppendRecord(records, newId, medicineId, medicineName, timestamp);
      SaveIntakeRecords(result);
    }

    /** `deleteIntakeRecordItem`: stores and returns the list without that id. */
    method DeleteIntakeRecordItem(records: seq<IntakeRecord>, id: string) returns (result: seq<IntakeRecord>)
      requires Valid()
      modifies this`slots
      ensures Valid()
      ensures result == WithoutId(records, RecordId, id)
      ensures slots == Written(old(slots), IntakeRecordsKey, RecordList(result), writable)
    {
      result := WithoutId(records, RecordId, id);
      SaveIntakeRecords(result);
    }
  }
}
