# MediLog core in Dafny

A model of the logic of MediLog, a browser-based medicine-intake tracker. The user keeps a list of
medicines and supplements and logs intakes with a timestamp. Both lists live in the
browser's local storage under two keys, `mediLog_medicines` and `mediLog_intakeRecords`.

The model covers:

- **The persistent store** (`StorageService.dfy`). `Store` is a class whose `slots` map
  holds what each storage key contains. A key can be absent, hold an empty string, hold
  text that cannot be read back, or hold one of the two lists. Each domain operation works
  in two steps. A pure function computes the new list (`AddMedicine`, `WithoutId`,
  `AppendRecord`). A `Store` method then returns that list and writes it through under
  its own key. A failed `setItem` (the `writable` flag is false) is swallowed, as in the
  source.
- **Reorder and add form** (`ManageMedicinesView.dfy`). This covers `findIndex`, the
  `arrayMove` step of the drag-end handler and the trim guard of the add form.
- **History derivations** (`HistoryView.dfy`). The records are sorted newest first with a
  stable sort. A loop collects the set of `YYYY-MM-DD` day keys. The records of a chosen
  day are filtered out. Another loop decides where the list view shows a date header.
- **Record form** (`RecordView.dfy`). This covers the text the date and time inputs are
  filled with, the guard chain of `handleRecord`, parsing the texts with `split` and
  `Number`, and the effect that pre-selects the first medicine.
- **Shared pieces.** `Text.dfy` models JavaScript's `trim`, `toLowerCase`, `Number`,
  `split`, `toString` and `padStart`. `LocalDates.dfy` holds the date/time texts and their
  round trip. `Entities.dfy` holds the two record types.

Some things depend on the time zone or the clock:

- turning a timestamp into a local day;
- building a timestamp from local fields;
- the "Today"/"Yesterday" header labels.

The model takes these as function parameters. Ids made from `Date.now()` and
`Math.random()` are method parameters too.

## Model

| member | source | states |
|---|---|---|
| `Text.TrimStart` | src/services/storageService.ts:58 | leading part of `trim`: the result is a suffix, everything cut is whitespace, and the result does not start with whitespace |
| `Text.TrimEnd` | src/services/storageService.ts:58 | trailing part of `trim`: the result is a prefix, everything cut is whitespace, and the result does not end with whitespace |
| `Text.TrimIsSlice` | src/services/storageService.ts:58 | `trim` returns a slice with non-whitespace ends, and only whitespace lies outside it |
| `Text.Trim` | src/services/storageService.ts:58 | the definition of `trim` (leading, then trailing whitespace dropped); what it returns is stated by `TrimIsSlice` |
| `Text.TrimIdempotent` | src/components/ManageMedicinesView.tsx:153 | trimming an already trimmed name changes nothing |
| `Text.BlankIffAllWhitespace` | src/services/storageService.ts:58-61 | `!name.trim()` holds exactly when every character is whitespace |
| `Text.DigitsAreTrimmed` | src/components/RecordView.tsx:69-70 | a non-empty digit string has nothing to trim |
| `Text.OwnTrim` | src/services/storageService.ts:58-68 | a text that neither starts nor ends with whitespace is non-blank and is its own trim |
| `Text.LowerCase` | src/services/storageService.ts:62 | `toLowerCase` keeps the length, leaves no capital A-Z, and keeps every character that is not a capital in place |
| `Text.LowerCaseIdempotent` | src/services/storageService.ts:62 | lowering an already lowered text changes nothing |
| `Text.LowerCaseEqualIff` | src/services/storageService.ts:62 | two texts lower to the same text exactly when they differ at most in the case of ASCII letters |
| `Text.DigitChar` | src/components/RecordView.tsx:23 | a digit value below 10 becomes a decimal digit character |
| `Text.DigitCharValue` | src/components/RecordView.tsx:23 | the character for digit value d is the one whose code is `'0' + d` |
| `Text.NatToString` | src/components/RecordView.tsx:22-25 | `toString` of a non-negative integer is a non-empty digit string, one character long exactly below 10 |
| `Text.NoLeadingZero` | src/components/RecordView.tsx:22-25 | `toString` writes no leading zero: a number of 10 or more starts with a digit other than 0, so with `NatToStringRoundTrip` the text is the unique shortest decimal form |
| `Text.IntToString` | src/components/RecordView.tsx:22-25 | the definition of integer `toString` (a `-` before a negative number); `NatToString` and `NatToStringRoundTrip` state it for the values the form produces |
| `Text.Pad2` | src/components/RecordView.tsx:23-24 | the definition of `toString().padStart(2, "0")`; its value and width are stated by `Pad2Value` |
| `Text.NatToStringRoundTrip` | src/components/RecordView.tsx:69 | reading the decimal text of a number gives the number back |
| `Text.LeadingZeroValue` | src/components/RecordView.tsx:23-24 | the zero added by `padStart` does not change the value read back |
| `Text.Pad2Value` | src/components/RecordView.tsx:23-24 | `padStart(2, "0")` of a non-negative number is a digit string of at least two characters, exactly two below 100, with the number's value |
| `Text.NumberOfDigits` | src/components/RecordView.tsx:69-70 | `Number` of a digit string is its decimal value |
| `Text.ToNumber` | src/components/RecordView.tsx:69-70 | the definition of `Number` (blank gives 0, a trimmed digit string its value, anything else NaN); `NumberOfDigits` states the digit case |
| `Text.Split` | src/components/RecordView.tsx:69 | `split` always yields at least one piece |
| `Text.SplitWithoutSeparator` | src/components/RecordView.tsx:69 | a string without the separator splits into itself |
| `Text.SplitAtSeparator` | src/components/RecordView.tsx:69 | splitting peels off the text before the first separator |
| `Text.SplitThree` | src/components/RecordView.tsx:69 | three separator-free pieces joined by `-` split back into those pieces |
| `Text.SplitTwo` | src/components/RecordView.tsx:70 | two separator-free pieces joined by `:` split back into those pieces |
| `Text.DigitsExclude` | src/components/RecordView.tsx:69-70 | digit strings contain neither `-` nor `:` |
| `LocalDates.NumbersOf` | src/components/RecordView.tsx:69-70 | the definition of `s.split(sep).map(Number)`; what it reads is proved by `NumbersReadEachPiece`, `NumbersOfThree` and `NumbersOfTwo` |
| `LocalDates.Numbers` | src/components/RecordView.tsx:69-70 | `map(Number)` keeps the length |
| `LocalDates.NumbersReadEachPiece` | src/components/RecordView.tsx:69-70 | `map(Number)` reads each piece in place: entry k is `Number` of piece k |
| `LocalDates.NumbersOfThree` | src/components/RecordView.tsx:69 | a date-shaped text of three digit strings reads back as three values |
| `LocalDates.NumbersOfTwo` | src/components/RecordView.tsx:70 | a time-shaped text of two digit strings reads back as two values |
| `LocalDates.DateText` | src/components/HistoryView.tsx:44-48 | the definition of the `YYYY-MM-DD` text; it is read back by `DateTextRoundTrip` and one-to-one by `DateTextInjective` |
| `LocalDates.TimeText` | src/components/RecordView.tsx:28-32 | the definition of the `HH:MM` text; it is read back by `TimeTextRoundTrip` |
| `LocalDates.DateTextRoundTrip` | src/components/RecordView.tsx:21-26 | for a year of at least 0, the `year-MM-DD` text reads back as year, `month + 1` and day |
| `LocalDates.TimeTextRoundTrip` | src/components/RecordView.tsx:28-32 | the `HH:MM` text reads back as hours and minutes |
| `LocalDates.DateTextInjective` | src/components/HistoryView.tsx:44-48 | two days with non-negative years have the same key exactly when they are the same day |
| `StorageService.DefaultMedicines` | src/services/storageService.ts:6-9 | the seed list has two items with distinct ids |
| `StorageService.DefaultMedicinesWellFormed` | src/services/storageService.ts:6-9 | the seed names are distinct up to case, non-blank and trimmed, so the seed satisfies the invariants every add and delete keeps |
| `StorageService.MedicinesOnLoad` | src/services/storageService.ts:11-29 | `getMedicines` returns the stored list when one is readable (even an empty one), and otherwise the two-item seed list |
| `StorageService.RecordsOnLoad` | src/services/storageService.ts:39-47 | `getIntakeRecords` returns the stored list, or `[]` when the key is absent, empty or unreadable |
| `StorageService.AddMedicine` | src/services/storageService.ts:57-73 | a blank name is refused first, then a name taken up to case, and both return the input unchanged; on success exactly one item `{newId, name.trim()}` is appended and the earlier items are unchanged |
| `StorageService.WithoutId` | src/services/storageService.ts:75-81 | the filter keeps exactly the items whose id differs, and never grows the list |
| `StorageService.AppendRecord` | src/services/storageService.ts:83-98 | one record with exactly the given medicine id, name and timestamp and no details is appended after the unchanged list |
| `StorageService.WithoutIdAppend` | src/services/storageService.ts:100-104 | deleting by id keeps the order: it distributes over concatenation |
| `StorageService.WithoutAbsentId` | src/services/storageService.ts:75-81 | deleting an id that no item has changes nothing |
| `StorageService.WithoutIdIdempotent` | src/services/storageService.ts:75-81 | deleting the same id twice is deleting it once |
| `StorageService.AppendThenDeleteRecord` | src/services/storageService.ts:83-104 | deleting a record just appended under an unused id gives back the earlier list |
| `StorageService.AddThenDeleteMedicine` | src/services/storageService.ts:57-81 | deleting a medicine just added under an unused id gives back the earlier list |
| `StorageService.AddSameNameTwice` | src/services/storageService.ts:62-65 | adding a name again after it was added is refused as a duplicate |
| `StorageService.CaseVariantIsDuplicate` | src/services/storageService.ts:62-65 | a non-blank name whose trim differs from a stored name only in letter case is refused as a duplicate, with the list unchanged |
| `StorageService.LowerCaseSeedNameRefused` | src/services/storageService.ts:62-65 | adding "vitamin c" to the seed list is refused as a duplicate of "Vitamin C" |
| `StorageService.AddKeepsNamesDistinct` | src/services/storageService.ts:62-72 | if names were distinct up to case before an add, they still are after it |
| `StorageService.AddKeepsNamesTrimmed` | src/services/storageService.ts:58-72 | if every name was non-blank and trimmed before an add, that still holds after it |
| `StorageService.DeleteKeepsNamesDistinct` | src/services/storageService.ts:75-81 | deleting keeps names distinct up to case |
| `StorageService.SavedMedicinesReadBack` | src/services/storageService.ts:11-37 | after a successful save, the next load returns the saved list, even an empty one |
| `StorageService.SavedRecordsReadBack` | src/services/storageService.ts:39-55 | after a successful save, the next records load returns the saved list |
| `StorageService.MedicineWritesKeepRecords` | src/services/storageService.ts:75-81 | writing the medicines key never changes what the records load returns |
| `StorageService.Store.SaveMedicines` | src/services/storageService.ts:31-37 | writes the whole list under the medicines key, or changes nothing if the write fails |
| `StorageService.Store.SaveIntakeRecords` | src/services/storageService.ts:49-55 | writes the whole list under the records key, or changes nothing if the write fails |
| `StorageService.Store.GetMedicines` | src/services/storageService.ts:11-29 | returns the stored list and writes nothing; or, when the key is absent, empty or unreadable, returns the seed list and writes it back (best effort) |
| `StorageService.Store.GetIntakeRecords` | src/services/storageService.ts:39-47 | returns the stored list or `[]`, and changes nothing |
| `StorageService.Store.AddMedicineItem` | src/services/storageService.ts:57-73 | returns what `AddMedicine` computes with its alert; a refusal leaves the store untouched, a success stores exactly the returned list |
| `StorageService.Store.DeleteMedicineItem` | src/services/storageService.ts:75-81 | returns the filtered list and stores it under the medicines key only |
| `StorageService.Store.AddIntakeRecordItem` | src/services/storageService.ts:83-98 | returns the list with the new record and stores it under the records key only |
| `StorageService.Store.DeleteIntakeRecordItem` | src/services/storageService.ts:100-104 | returns the filtered list and stores it under the records key only |
| `ManageMedicinesView.FindIndex` | src/components/ManageMedicinesView.tsx:138-139 | returns -1 exactly when no item has the id, and otherwise the first position holding it |
| `ManageMedicinesView.Move` | src/components/ManageMedicinesView.tsx:142 | the moved list has the same length and multiset of items; the element lands at `to`; the elements in between shift by one; elements outside the range stay put |
| `ManageMedicinesView.RemoveAt` | src/components/ManageMedicinesView.tsx:142 | taking one element out shifts the later ones down by one |
| `ManageMedicinesView.InsertAt` | src/components/ManageMedicinesView.tsx:142 | putting one element in shifts the later ones up by one |
| `ManageMedicinesView.RemoveAtPermutes` | src/components/ManageMedicinesView.tsx:142 | taking an element out removes exactly that element from the multiset |
| `ManageMedicinesView.InsertAtPermutes` | src/components/ManageMedicinesView.tsx:142 | putting an element in adds exactly that element to the multiset |
| `ManageMedicinesView.MoveBack` | src/components/ManageMedicinesView.tsx:142 | moving the element back from `to` to `from` restores the original list |
| `ManageMedicinesView.MoveFirstToLast` | src/components/ManageMedicinesView.tsx:142 | moving index 0 to index 2 in `[A, B, C]` gives `[B, C, A]` |
| `ManageMedicinesView.HandleDragEnd` | src/components/ManageMedicinesView.tsx:132-145 | no reorder exactly when dropped on itself; when both ids are found, the result is the move between their `findIndex` positions, a permutation with the dragged item at the target position |
| `ManageMedicinesView.HandleAdd` | src/components/ManageMedicinesView.tsx:147-155 | a blank entry calls nothing and keeps the text; otherwise the trimmed name is passed on once and the field is cleared |
| `ManageMedicinesView.HandleAddThenAddMedicine` | src/components/ManageMedicinesView.tsx:153 | a name passed on by the form is never refused as blank, is a duplicate exactly when the typed text is, and is stored as the trimmed typed text |
| `HistoryView.InsertNewestFirst` | src/components/HistoryView.tsx:38 | inserting into a newest-first list keeps it newest first and adds exactly that record |
| `HistoryView.SortedRecords` | src/components/HistoryView.tsx:37-39 | the sorted copy is newest first and has the same records as often as the input |
| `HistoryView.InsertKeepsTies` | src/components/HistoryView.tsx:38 | the inserted record goes ahead of the records with the same timestamp |
| `HistoryView.SortIsStable` | src/components/HistoryView.tsx:38 | records with equal timestamps keep their input order |
| `HistoryView.DatesWithRecords` | src/components/HistoryView.tsx:41-51 | the loop collects exactly the day keys of the records' local days |
| `HistoryView.DayKeyPerDay` | src/components/HistoryView.tsx:41-51 | when the target day and every record's day have a non-negative year, month and day, the day's key is in the set exactly when some record falls on that day, so there is one key per distinct day |
| `HistoryView.OnDay` | src/components/HistoryView.tsx:60-67 | keeps exactly the records whose local day is the target day (as members; multiplicity and order are in the lemmas below) |
| `HistoryView.OnDayKeepsOrder` | src/components/HistoryView.tsx:60-67 | filtering a newest-first list keeps it newest first |
| `HistoryView.OnDayAppend` | src/components/HistoryView.tsx:60-67 | the filter distributes over concatenation, so every kept record keeps its place relative to the others |
| `HistoryView.OnDayCount` | src/components/HistoryView.tsx:60-67 | a record of the day is kept exactly as many times as it occurs, and a record of another day not at all |
| `HistoryView.OnDayTies` | src/components/HistoryView.tsx:60-67 | the records with one timestamp are all kept, in their order, when that timestamp falls on the day, and none otherwise |
| `HistoryView.SelectedDayOfSorted` | src/components/HistoryView.tsx:37-67 | filtering the sorted records gives a newest-first list with each record of the day as often as in the input and equal timestamps in input order |
| `HistoryView.RecordsForSelectedDate` | src/components/HistoryView.tsx:53-68 | empty when no day is selected; otherwise newest first, each record of that day exactly as often as in the input and none of another day, and records with equal timestamps in input order (which together fix the list) |
| `HistoryView.HeaderAt` | src/components/HistoryView.tsx:106-110 | a header is shown above the first record always, and above a later record exactly when its header text differs from the previous record's; a shown header is the record's own text |
| `HistoryView.RenderListView` | src/components/HistoryView.tsx:94-142 | an empty history shows the "no history" message; otherwise one row per sorted record, with a header exactly at the first record and wherever the header text differs from the previous record's |
| `RecordView.FormatDateForInput` | src/components/RecordView.tsx:21-26 | the definition of the date input's text; `FormInputRoundTrip` proves it reads back to the clock's fields |
| `RecordView.FormatTimeForInput` | src/components/RecordView.tsx:28-32 | the definition of the time input's text; `FormInputRoundTrip` proves it reads back to the clock's fields |
| `RecordView.TimestampOf` | src/components/RecordView.tsx:69-79 | the definition of the timestamp built from the two texts; `TimestampOfNumbers` states what it gives for texts that read as five numbers |
| `RecordView.TimestampOfNumbers` | src/components/RecordView.tsx:69-77 | texts that read back as five numbers give `new Date(year, month - 1, day, hours, minutes)` |
| `RecordView.FindMedicine` | src/components/RecordView.tsx:67 | `find` gives nothing exactly when no medicine has the id, and otherwise the first medicine that does |
| `RecordView.HandleRecord` | src/components/RecordView.tsx:57-97 | refuses with no selection first, then with an empty date or time; does nothing for an unknown id; refuses when the texts do not give a valid date; otherwise records the found medicine's own id and name at the parsed time |
| `RecordView.FormInputRoundTrip` | src/components/RecordView.tsx:21-32 | the pre-filled texts parse back, with the month lowered again by one, to the exact fields they came from |
| `RecordView.RecordPrefilled` | src/components/RecordView.tsx:57-84 | recording a listed medicine with the pre-filled texts records its id and name at the pre-filled minute |
| `RecordView.EffectAsWritten` | src/components/RecordView.tsx:47-55 | the effect resets date and time to now, and selects the first medicine when the list is non-empty and nothing is selected |
| `RecordView.ChooseMedicineAsWritten` | src/components/RecordView.tsx:47-55 | choosing a different medicine selects it and resets the date and time to the current minute; choosing the same one changes nothing |
| `RecordView.ChoosingMedicineDiscardsEnteredTime` | src/components/RecordView.tsx:47-55 | choosing a medicine after entering a date and time replaces them with the current minute |
| `RecordView.Preselect` | src/components/RecordView.tsx:52-54 | selects the first medicine exactly when the list is non-empty and nothing is selected, and keeps the entered date and time |
| `RecordView.ChooseMedicine` | src/components/RecordView.tsx:52-54 | choosing a medicine keeps the entered date and time and selects the chosen id (the first medicine only when the chosen id is empty) |
| `RecordView.ChooseMedicineKeepsEnteredTime` | src/components/RecordView.tsx:52-54 | with the pre-select rule alone, choosing a medicine keeps the entered date and time |
| `RecordView.PreselectSettles` | src/components/RecordView.tsx:47-55 | running the rule again changes nothing, and a second run of the effect at a later minute keeps the selection the first run made, so the re-run triggered by the selection comes to rest |

## Left out

- The model follows the code: `addIntakeRecordItem` never sets `details`, and the
  duplicate-name check does not trim the stored names.
- JSON text is not modelled. Each key holds an abstract `Slot`. Stored text that parses to something other than a list of the key's own kind is outside `Store.Valid` and not modelled. Examples: `"null"`, an object, or the other list.
- Record and medicine ids come from `Date.now()` and `Math.random()`, which are nondeterministic. They are parameters, and their uniqueness is not claimed.
- `Text.LowerCase`: models `toLowerCase` for the ASCII letters A-Z only. Other Unicode case mappings are not modelled.
- `Text.ToNumber`: models `Number` for blank text and decimal digit strings. Signs, decimal points, exponents, hex/octal/binary prefixes and `Infinity` are read as `NaN`. The date and time inputs never produce them.
- Characters are Unicode scalar values rather than UTF-16 code units.
- `ManageMedicinesView.HandleDragEnd`: a drop outside the list passes index -1 to the drag library's `arrayMove`. That library code is not part of this model, so the result is `UnresolvedMove`.
- `ManageMedicinesView.Move`: only positions inside the list are modelled.
- `src/App.tsx` never passes `onReorderMedicines`, so a reorder is never stored. There is no reorder operation on `Store`.
- `LocalDates.DateTextRoundTrip`: only covers years from 0 up. For a negative year the key starts with `-`, and splitting it no longer gives the year back.
- Local-time conversions are parameters. This covers `getFullYear`/`getMonth`/`getDate`/`getHours`/`getMinutes`, `new Date(...).getTime()` and its `NaN` result, `toLocaleDateString`/`toLocaleTimeString`, and the "Today"/"Yesterday" labels.
- Timestamps are unbounded integers. JavaScript's 53-bit number precision is not modelled; millisecond timestamps stay far inside it.
- Side channels are not modelled as effects. An `alert` is returned as a `Rejection` and a toast as a `RecordError`; `console.error` is dropped.
- The two-second `setTimeout` form reset after a recording is not modelled.
- Export, import and clear-all are not modelled: `SettingsView` only declares their callbacks, and neither `storageService.ts` nor `App.tsx` implements them.
- The following are view glue and are not modelled: rendering, dialogs, tabs, the calendar widget, `Header`, `BottomNavigation` and `SettingsView`.
- React's scheduling and memoisation are not modelled. Only the re-run of the effect on a changed selection is captured, in `ChooseMedicineAsWritten`.

## Findings

| source | as written | input that shows it | evidently intended | confidence | as-written member | corrected member |
|---|---|---|---|---|---|---|
| src/components/RecordView.tsx:47-55 | the pre-select effect lists the selected id as a dependency and resets the date and time to now on every run, so choosing a medicine discards the date and time already entered | enter 2024-01-01 and 08:00, then choose another medicine: the form now shows the current date and minute, and that is what gets recorded (lemma `RecordView.ChoosingMedicineDiscardsEnteredTime`) | choosing a medicine keeps an entered (backdated) date and time; only the selection is pre-filled (lemma `RecordView.ChooseMedicineKeepsEnteredTime`) | medium, not executed | `RecordView.ChooseMedicineAsWritten` | `RecordView.ChooseMedicine` |
