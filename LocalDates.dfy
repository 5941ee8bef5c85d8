/**
 * Local calendar fields and their text forms: the `YYYY-MM-DD` day text used
 * both by the date input of the record form and by the day keys of the
 * history calendar, the `HH:MM` time text, and reading them back with
 * `split` and `Number`.
 */
module LocalDates {

  import opened Wrappers
  import opened Text

  /** A local calendar day as `Date` reports it: `getFullYear()`,
      `getMonth()` (0-based) and `getDate()`. */
  datatype Day = Day(year: int, month: int, day: int)

  /** A local date and time to the minute (`getHours()`, `getMinutes()`). */
  datatype LocalDateTime = LocalDateTime(date: Day, hours: int, minutes: int)

  /** The fields `Date` can report for a real day and time. */
  predicate IsCalendarDay(d: Day) {
    0 <= d.month < 12 && 1 <= d.day <= 31
  }

  predicate IsClockTime(t: LocalDateTime) {
    IsCalendarDay(t.date) && 0 <= t.hours < 24 && 0 <= t.minutes < 60
  }

  /** `${year}-${(month + 1) padded}-${day padded}` */
  function DateText(d: Day): string {
    IntToString(d.year) + "-" + Pad2(d.month + 1) + "-" + Pad2(d.day)
  }

  /** `${hours padded}:${minutes padded}` */
  function TimeText(hours: int, minutes: int): string {
    Pad2(hours) + ":" + Pad2(minutes)
  }

  /** `parts.map(Number)` */
  function Numbers(parts: seq<string>): (ns: seq<Option<int>>)
    ensures |ns| == |parts|
  {
    if parts == [] then [] else [ToNumber(parts[0])] + Numbers(parts[1..])
  }

  /** `map(Number)` reads each piece in place. */
  lemma {:induction false} NumbersReadEachPiece(parts: seq<string>)
    ensures forall k :: 0 <= k < |parts| ==> Numbers(parts)[k] == ToNumber(parts[k])
  {
    if parts != [] {
      NumbersReadEachPiece(parts[1..]);
      assert forall k :: 1 <= k < |parts| ==> parts[k] == parts[1..][k - 1];
    }
  }

  /** `s.split(sep).map(Number)` */
  function NumbersOf(s: string, sep: char): seq<Option<int>> {
    Numbers(Split(s, sep))
  }

  /** Array destructuring: a missing element is `undefined`, which every
      `Date` field turns into `NaN`. */
  function At(ns: seq<Option<int>>, i: nat): Option<int> {
    if i < |ns| then ns[i] else None
  }

  /** Three digit strings joined by a non-digit separator read back as their
      three values. */
  lemma NumbersOfThree(a: string, b: string, c: string, sep: char)
    requires a != [] && AllDigits(a) && b != [] && AllDigits(b) && c != [] && AllDigits(c)
    requires !IsDigit(sep)
    ensures NumbersOf(a + [sep] + b + [sep] + c, sep)
            == [Some(DigitsValue(a)), Some(DigitsValue(b)), Some(DigitsValue(c))]
  {
    DigitsExclude(a, sep);
    DigitsExclude(b, sep);
    DigitsExclude(c, sep);
    SplitThree(a, b, c, sep);
    NumberOfDigits(a);
    NumberOfDigits(b);
    NumberOfDigits(c);
    assert Numbers([b, c]) == [ToNumber(b)] + Numbers([c]) by { assert [b, c][1..] == [c]; }
    assert Numbers([a, b, c]) == [ToNumber(a)] + Numbers([b, c]) by { assert [a, b, c][1..] == [b, c]; }
  }

  /** Two digit strings joined by a non-digit separator read back as their
      two values. */
  lemma NumbersOfTwo(a: string, b: string, sep: char)
    requires a != [] && AllDigits(a) && b != [] && AllDigits(b)
    requires !IsDigit(sep)
    ensures NumbersOf(a + [sep] + b, sep) == [Some(DigitsValue(a)), Some(DigitsValue(b))]
  {
    DigitsExclude(a, sep);
    DigitsExclude(b, sep);
    SplitTwo(a, b, sep);
    NumberOfDigits(a);
    NumberOfDigits(b);
    assert Numbers([a, b]) == [ToNumber(a)] + Numbers([b]) by { assert [a, b][1..] == [b]; }
  }

  /** For a year of at least 0, the day text reads back as the year, the
      1-based month and the day. */
  lemma DateTextRoundTrip(d: Day)
    requires d.year >= 0 && d.month + 1 >= 0 && d.day >= 0
    ensures NumbersOf(DateText(d), '-') == [Some(d.year), Some(d.month + 1), Some(d.day)]
  {
    var a, b, c := NatToString(d.year), Pad2(d.month + 1), Pad2(d.day);
    assert IntToString(d.year) == a;
    NatToStringRoundTrip(d.year);
    Pad2Value(d.month + 1);
    Pad2Value(d.day);
    assert DateText(d) == a + ['-'] + b + ['-'] + c;
    NumbersOfThree(a, b, c, '-');
  }

  /** The time text reads back as the hours and the minutes. */
  lemma TimeTextRoundTrip(hours: nat, minutes: nat)
    ensures NumbersOf(TimeText(hours, minutes), ':') == [Some(hours), Some(minutes)]
  {
    var a, b := Pad2(hours), Pad2(minutes);
    Pad2Value(hours);
    Pad2Value(minutes);
    assert TimeText(hours, minutes) == a + [':'] + b;
    NumbersOfTwo(a, b, ':');
  }

  /** Distinct days of non-negative years have distinct day texts. */
  lemma DateTextInjective(d: Day, e: Day)
    requires d.year >= 0 && d.month + 1 >= 0 && d.day >= 0
    requires e.year >= 0 && e.month + 1 >= 0 && e.day >= 0
    ensures DateText(d) == DateText(e) <==> d == e
  {
    DateTextRoundTrip(d);
    DateTextRoundTrip(e);
  }
}
