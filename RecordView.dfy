/**
 * The record form (src/components/RecordView.tsx): the date and time text
 * the inputs are filled with, the checks and parsing done when "Record
 * Intake" is pressed, and the effect that pre-selects a medicine. Building a
 * timestamp from local fields (`new Date(y, m, d, h, min).getTime()`) depends
 * on the time zone, so it is a parameter; None stands for an invalid date
 * (`NaN`).
 */
module RecordView {

  import opened Wrappers
  import opened Text
  import opened Entities
  import opened LocalDates
  import ManageMedicinesView

  /** `formatDateForInput(date)` */
  function FormatDateForInput(now: LocalDateTime): string {
    DateText(now.date)
  }

  /** `formatTimeForInput(date)` */
  function FormatTimeForInput(now: LocalDateTime): string {
    TimeText(now.hours, now.minutes)
  }

  /** The arguments of `new Date(year, monthIndex, day, hours, minutes)`. */
  datatype DateArgs = DateArgs(year: int, monthIndex: int, day: int, hours: int, minutes: int)

  /** The inputs of the form. */
  datatype FormState = FormState(selectedId: string, date: string, time: string)

  // ---------------------------------------------------------------------------
  // handleRecord
  // ---------------------------------------------------------------------------

  /** `medicines.find(m => m.id === id)`: the first medicine with that id. */
  function FindMedicine(meds: seq<MedicineItem>, id: string): (r: Option<MedicineItem>)
    ensures r.None? <==> forall k :: 0 <= k < |meds| ==> meds[k].id != id
    ensures r.Some? ==> exists k :: 0 <= k < |meds| && meds[k] == r.value && r.value.id == id
                                   && forall j :: 0 <= j < k ==> meds[j].id != id
  {
    var i := ManageMedicinesView.FindIndex(meds, id);
    if i < 0 then None else Some(meds[i])
  }

  /** The timestamp built from the two input texts: the date split on "-",
      the time on ":", each piece read with `Number`, and the month made
      0-based; None when a field is not a number or the date is invalid. */
  function TimestampOf(date: string, time: string, localTime: DateArgs -> Option<int>): Option<int> {
    var ds := NumbersOf(date, '-');
    var ts := NumbersOf(time, ':');
    var year, month, day := At(ds, 0), At(ds, 1), At(ds, 2);
    var hours, minutes := At(ts, 0), At(ts, 1);
    if year.Some? && month.Some? && day.Some? && hours.Some? && minutes.Some?
    then localTime(DateArgs(year.value, month.value - 1, day.value, hours.value, minutes.value))
    else None
  }

  /** The error toasts `handleRecord` can show. */
  datatype RecordError = NoMedicineSelected | NoDateOrTime | InvalidDateOrTime

  /** What pressing "Record Intake" does: refuse with a toast, do nothing (the
      selected id is not in the list), or call `onRecordIntake`. */
  datatype RecordOutcome =
    | Refused(error: RecordError)
    | NotFound
    | Recorded(medicineId: string, medicineName: string, timestamp: int)

  /** `handleRecord`: first the selection is checked, then that both texts are
      non-empty, then the medicine is looked up, then the timestamp built. */
  function HandleRecord(meds: seq<MedicineItem>, form: FormState,
                        localTime: DateArgs -> Option<int>): (r: RecordOutcome)
    ensures r == Refused(NoMedicineSelected) <==> form.selectedId == ""
    ensures r == Refused(NoDateOrTime) <==> form.selectedId != "" && (form.date == "" || form.time == "")
    ensures r.NotFound? <==>
              && form.selectedId != "" && form.date != "" && form.time != ""
              && forall k :: 0 <= k < |meds| ==> meds[k].id != form.selectedId
    ensures r == Refused(InvalidDateOrTime) ==> TimestampOf(form.date, form.time, localTime).None?
    ensures r.Recorded? ==>
              && FindMedicine(meds, form.selectedId) == Some(MedicineItem(r.medicineId, r.medicineName))
              && r.medicineId == form.selectedId
              && TimestampOf(form.date, form.time, localTime) == Some(r.timestamp)
  {
    if form.selectedId == "" then Refused(NoMedicineSelected)
    else if form.date == "" || form.time == "" then Refused(NoDateOrTime)
    else match FindMedicine(meds, form.selectedId)
      case None => NotFound
      case Some(m) =>
        match TimestampOf(form.date, form.time, localTime)
        case None => Refused(InvalidDateOrTime)
        case Some(t) => Recorded(m.id, m.name, t)
  }

  /** The texts the form is filled with read back as the fields they came
      from: submitting a pre-filled date and time records exactly that local
      minute (the month goes up by one in the text and down by one when read). */
  lemma FormInputRoundTrip(now: LocalDateTime, localTime: DateArgs -> Option<int>)
    requires now.date.year >= 0 && IsClockTime(now)
    ensures TimestampOf(FormatDateForInput(now), FormatTimeForInput(now), localTime)
            == localTime(DateArgs(now.date.year, now.date.month, now.date.day, now.hours, now.minutes))
  {
    DateTextRoundTrip(now.date);
    TimeTextRoundTrip(now.hours, now.minutes);
    TimestampOfNumbers(FormatDateForInput(now), FormatTimeForInput(now), localTime,
                       now.date.year, now.date.month + 1, now.date.day, now.hours, now.minutes);
  }

  /** Texts that read back as five numbers build the timestamp of those
      numbers, with the month made 0-based. */
  lemma TimestampOfNumbers(date: string, time: string, localTime: DateArgs -> Option<int>,
                           year: int, month: int, day: int, hours: int, minutes: int)
    requires NumbersOf(date, '-') == [Some(year), Some(month), Some(day)]
    requires NumbersOf(time, ':') == [Some(hours), Some(minutes)]
    ensures TimestampOf(date, time, localTime) == localTime(DateArgs(year, month - 1, day, hours, minutes))
  {
  }

  /** Recording with the pre-filled texts and a listed medicine records that
      medicine's own id and name at the pre-filled minute. */
  lemma RecordPrefilled(meds: seq<MedicineItem>, k: nat, now: LocalDateTime,
                        localTime: DateArgs -> Option<int>)
    requires k < |meds| && meds[k].id != ""
    requires forall j :: 0 <= j < k ==> meds[j].id != meds[k].id
    requires now.date.year >= 0 && IsClockTime(now)
    ensures var form := FormState(meds[k].id, FormatDateForInput(now), FormatTimeForInput(now));
            var at := localTime(DateArgs(now.date.year, now.date.month, now.date.day, now.hours, now.minutes));
            HandleRecord(meds, form, localTime)
            == if at.Some? then Recorded(meds[k].id, meds[k].name, at.value) else Refused(InvalidDateOrTime)
  {
    FormInputRoundTrip(now, localTime);
    var i := ManageMedicinesView.FindIndex(meds, meds[k].id);
    assert i == k;
  }

  // ---------------------------------------------------------------------------
  // The pre-select effect
  // ---------------------------------------------------------------------------

  /** The `useEffect` as written. It runs whenever the medicines or the
      selected id change: it resets the date and time to now and, when the
      list is non-empty and nothing is selected, selects the first medicine. */
  function EffectAsWritten(meds: seq<MedicineItem>, form: FormState, now: LocalDateTime): (r: FormState)
    ensures r.date == FormatDateForInput(now) && r.time == FormatTimeForInput(now)
    ensures |meds| > 0 && form.selectedId == "" ==> r.selectedId == meds[0].id
    ensures !(|meds| > 0 && form.selectedId == "") ==> r.selectedId == form.selectedId
  {
    FormState(
      if |meds| > 0 && form.selectedId == "" then meds[0].id else form.selectedId,
      FormatDateForInput(now),
      FormatTimeForInput(now))
  }

  /** Choosing a medicine in the list as written: the selection changes, and a
      changed selection runs the effect again. */
  function ChooseMedicineAsWritten(meds: seq<MedicineItem>, form: FormState, id: string,
                                   now: LocalDateTime): (r: FormState)
    ensures r.selectedId == (if id == "" && |meds| > 0 && id != form.selectedId then meds[0].id else id)
    ensures id != form.selectedId ==> r.date == FormatDateForInput(now) && r.time == FormatTimeForInput(now)
    ensures id == form.selectedId ==> r == form
  {
    var chosen := form.(selectedId := id);
    if id != form.selectedId then EffectAsWritten(meds, chosen, now) else chosen
  }

  /** A date and time entered before choosing a medicine are thrown away:
      entering 2024-01-01 08:00 and then choosing the second medicine leaves
      the form at the current minute. */
  lemma ChoosingMedicineDiscardsEnteredTime()
    ensures var meds := [MedicineItem("default-1", "Vitamin C"), MedicineItem("default-2", "Vitamin D")];
            var entered := FormState("default-1", DateText(Day(2024, 0, 1)), TimeText(8, 0));
            var now := LocalDateTime(Day(2025, 5, 15), 9, 30);
            var r := ChooseMedicineAsWritten(meds, entered, "default-2", now);
            r.selectedId == "default-2" && r.date != entered.date && r.time != entered.time
  {
    DateTextInjective(Day(2025, 5, 15), Day(2024, 0, 1));
    TimeTextRoundTrip(9, 30);
    TimeTextRoundTrip(8, 0);
  }

  /** The pre-select rule on its own: when the list is non-empty and nothing
      is selected, select the first medicine; the date and time the user
      entered are kept. */
  function Preselect(meds: seq<MedicineItem>, form: FormState): (r: FormState)
    ensures r.date == form.date && r.time == form.time
    ensures |meds| > 0 && form.selectedId == "" ==> r.selectedId == meds[0].id
    ensures !(|meds| > 0 && form.selectedId == "") ==> r.selectedId == form.selectedId
  {
    form.(selectedId := if |meds| > 0 && form.selectedId == "" then meds[0].id else form.selectedId)
  }

  /** Choosing a medicine with the pre-select rule kept apart from the reset
      of the date and time. */
  function ChooseMedicine(meds: seq<MedicineItem>, form: FormState, id: string): (r: FormState)
    ensures r.date == form.date && r.time == form.time
    ensures r.selectedId == (if id == "" && |meds| > 0 then meds[0].id else id)
  {
    Preselect(meds, form.(selectedId := id))
  }

  /** Choosing a listed medicine selects it and keeps the entered date and
      time, so a backdated intake is recorded at the entered minute. */
  lemma ChooseMedicineKeepsEnteredTime(meds: seq<MedicineItem>, form: FormState, id: string)
    requires id != ""
    ensures ChooseMedicine(meds, form, id) == form.(selectedId := id)
  {
  }

  /** Running the pre-select rule again changes nothing, and a second run of
      the effect, at whatever later minute, keeps the selection the first run
      made: the re-run that the selection change triggers comes to rest. */
  lemma PreselectSettles(meds: seq<MedicineItem>, form: FormState, now: LocalDateTime, later: LocalDateTime)
    ensures Preselect(meds, Preselect(meds, form)) == Preselect(meds, form)
    ensures EffectAsWritten(meds, EffectAsWritten(meds, form, now), later).selectedId
            == EffectAsWritten(meds, form, now).selectedId
  {
  }
}
