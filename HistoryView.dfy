/**
 * The derived views of the intake history (src/components/HistoryView.tsx):
 * the records newest first, the set of days that have records, the records
 * of the day picked in the calendar, and where the list view puts a date
 * header. Turning a timestamp into a local calendar day and into a header
 * label depends on the time zone and the clock, so both are parameters.
 */
module HistoryView {

  import opened Wrappers
  import opened Entities
  import opened LocalDates

  /** Newest first: timestamps never increase along the list. */
  predicate Descending(rs: seq<IntakeRecord>) {
    forall i, j :: 0 <= i < j < |rs| ==> rs[i].timestamp >= rs[j].timestamp
  }

  /** The records carrying timestamp `t`, in list order. */
  function WithTimestamp(rs: seq<IntakeRecord>, t: int): seq<IntakeRecord> {
    if rs == [] then []
    else (if rs[0].timestamp == t then [rs[0]] else []) + WithTimestamp(rs[1..], t)
  }

  // ---------------------------------------------------------------------------
  // sortedRecords
  // ---------------------------------------------------------------------------

  /** Puts `x` before the first record that is not newer than it, so that it
      stays ahead of the records with the same timestamp. */
  function InsertNewestFirst(x: IntakeRecord, sorted: seq<IntakeRecord>): (r: seq<IntakeRecord>)
    requires Descending(sorted)
    ensures Descending(r)
    ensures multiset(r) == multiset(sorted) + multiset{x}
    ensures forall y :: y in r <==> y == x || y in sorted
  {
    if sorted == [] || sorted[0].timestamp <= x.timestamp then [x] + sorted
    else
      var rest := InsertNewestFirst(x, sorted[1..]);
      assert sorted == [sorted[0]] + sorted[1..];
      assert rest[0] == x || rest[0] == sorted[1];
      [sorted[0]] + rest
  }

  /** `[...records].sort((a, b) => b.timestamp - a.timestamp)`: a copy of the
      records, newest first, holding the same records as many times each. The
      sort is stable (see `SortIsStable`). */
  function SortedRecords(records: seq<IntakeRecord>): (r: seq<IntakeRecord>)
    ensures Descending(r)
    ensures multiset(r) == multiset(records) && |r| == |records|
  {
    if records == [] then []
    else
      assert records == [records[0]] + records[1..];
      InsertNewestFirst(records[0], SortedRecords(records[1..]))
  }

  lemma {:induction false} InsertKeepsTies(x: IntakeRecord, sorted: seq<IntakeRecord>, t: int)
    requires Descending(sorted)
    ensures WithTimestamp(InsertNewestFirst(x, sorted), t)
            == (if x.timestamp == t then [x] else []) + WithTimestamp(sorted, t)
  {
    if sorted == [] || sorted[0].timestamp <= x.timestamp {
      assert ([x] + sorted)[1..] == sorted;
    } else {
      var rest := InsertNewestFirst(x, sorted[1..]);
      var head := if sorted[0].timestamp == t then [sorted[0]] else [];
      var own := if x.timestamp == t then [x] else [];
      assert ([sorted[0]] + rest)[1..] == rest;
      assert WithTimestamp([sorted[0]] + rest, t) == head + WithTimestamp(rest, t);
      InsertKeepsTies(x, sorted[1..], t);
      assert WithTimestamp(sorted, t) == head + WithTimestamp(sorted[1..], t);
      assert head + (own + WithTimestamp(sorted[1..], t)) == own + (head + WithTimestamp(sorted[1..], t)) by {
        assert head == [] || own == [] || head == own;
      }
    }
  }

  /** Records with equal timestamps keep their relative order. */
  lemma {:induction false} SortIsStable(records: seq<IntakeRecord>, t: int)
    ensures WithTimestamp(SortedRecords(records), t) == WithTimestamp(records, t)
  {
    if records != [] {
      SortIsStable(records[1..], t);
      InsertKeepsTies(records[0], SortedRecords(records[1..]), t);
    }
  }

  // ---------------------------------------------------------------------------
  // datesWithRecords
  // ---------------------------------------------------------------------------

  /** The day texts of the records' local days. */
  ghost function DayKeys(records: seq<IntakeRecord>, localDay: int -> Day): set<string> {
    set r | r in records :: DateText(localDay(r.timestamp))
  }

  /** `datesWithRecords`: a `Set` filled by a `forEach` over the records. */
  method DatesWithRecords(records: seq<IntakeRecord>, localDay: int -> Day) returns (dates: set<string>)
    ensures dates == DayKeys(records, localDay)
  {
    dates := {};
    for i := 0 to |records|
      invariant dates == DayKeys(records[..i], localDay)
    {
      assert records[..i + 1] == records[..i] + [records[i]];
      dates := dates + {DateText(localDay(records[i].timestamp))};
    }
    assert records[..|records|] == records;
  }

  /** The day has a purely numeric text: the year, the 1-based month and the
      day are all at least 0. */
  predicate HasDigitText(d: Day) {
    d.year >= 0 && d.month + 1 >= 0 && d.day >= 0
  }

  /** One key per distinct local day: a day's key is in the set exactly when
      some record falls on that day. */
  lemma DayKeyPerDay(records: seq<IntakeRecord>, localDay: int -> Day, d: Day)
    requires HasDigitText(d)
    requires forall r :: r in records ==> HasDigitText(localDay(r.timestamp))
    ensures DateText(d) in DayKeys(records, localDay)
            <==> exists r :: r in records && localDay(r.timestamp) == d
  {
    if DateText(d) in DayKeys(records, localDay) {
      var r :| r in records && DateText(localDay(r.timestamp)) == DateText(d);
      DateTextInjective(localDay(r.timestamp), d);
    }
  }

  // ---------------------------------------------------------------------------
  // recordsForSelectedDate
  // ---------------------------------------------------------------------------

  /** The records whose local day is `d`, in list order. */
  function OnDay(rs: seq<IntakeRecord>, localDay: int -> Day, d: Day): (r: seq<IntakeRecord>)
    ensures forall x :: x in r <==> x in rs && localDay(x.timestamp) == d
  {
    if rs == [] then []
    else if localDay(rs[0].timestamp) == d then [rs[0]] + OnDay(rs[1..], localDay, d)
    else OnDay(rs[1..], localDay, d)
  }

  /** Picking out one day keeps the records newest first. */
  lemma {:induction false} OnDayKeepsOrder(rs: seq<IntakeRecord>, localDay: int -> Day, d: Day)
    requires Descending(rs)
    ensures Descending(OnDay(rs, localDay, d))
  {
    if rs != [] {
      var tail := rs[1..];
      assert Descending(tail) by {
        forall i, j | 0 <= i < j < |tail| ensures tail[i].timestamp >= tail[j].timestamp {
          assert tail[i] == rs[i + 1] && tail[j] == rs[j + 1];
        }
      }
      OnDayKeepsOrder(tail, localDay, d);
      var rest := OnDay(tail, localDay, d);
      if localDay(rs[0].timestamp) == d {
        forall j | 0 <= j < |rest| ensures rs[0].timestamp >= rest[j].timestamp {
          assert rest[j] in tail;
          var k :| 0 <= k < |tail| && tail[k] == rest[j];
          assert rs[k + 1] == rest[j];
        }
      }
    }
  }

  /** Picking out one day distributes over concatenation: it keeps each
      record where it was relative to the others. */
  lemma {:induction false} OnDayAppend(xs: seq<IntakeRecord>, ys: seq<IntakeRecord>,
                                       localDay: int -> Day, d: Day)
    ensures OnDay(xs + ys, localDay, d) == OnDay(xs, localDay, d) + OnDay(ys, localDay, d)
  {
    if xs == [] {
      assert xs + ys == ys;
    } else {
      assert (xs + ys)[0] == xs[0];
      assert (xs + ys)[1..] == xs[1..] + ys;
      OnDayAppend(xs[1..], ys, localDay, d);
      if localDay(xs[0].timestamp) == d {
        assert [xs[0]] + (OnDay(xs[1..], localDay, d) + OnDay(ys, localDay, d))
               == ([xs[0]] + OnDay(xs[1..], localDay, d)) + OnDay(ys, localDay, d);
      }
    }
  }

  /** Each record of the day is kept as many times as it occurs, and no
      record of another day is kept. */
  lemma {:induction false} OnDayCount(rs: seq<IntakeRecord>, localDay: int -> Day, d: Day, x: IntakeRecord)
    ensures multiset(OnDay(rs, localDay, d))[x]
            == if localDay(x.timestamp) == d then multiset(rs)[x] else 0
  {
    if rs != [] {
      assert rs == [rs[0]] + rs[1..];
      OnDayCount(rs[1..], localDay, d, x);
    }
  }

  /** Among the records with one timestamp, the day keeps all of them in
      their order when that timestamp falls on the day, and none otherwise. */
  lemma {:induction false} OnDayTies(rs: seq<IntakeRecord>, localDay: int -> Day, d: Day, t: int)
    ensures WithTimestamp(OnDay(rs, localDay, d), t)
            == if localDay(t) == d then WithTimestamp(rs, t) else []
  {
    if rs != [] {
      OnDayTies(rs[1..], localDay, d, t);
      if localDay(rs[0].timestamp) == d {
        var rest := OnDay(rs[1..], localDay, d);
        assert ([rs[0]] + rest)[1..] == rest;
      }
    }
  }

  /** The selected day's records: `OnDay` of the sorted records, with the
      sort's stability carried over. */
  lemma SelectedDayOfSorted(records: seq<IntakeRecord>, localDay: int -> Day, d: Day)
    ensures var r := OnDay(SortedRecords(records), localDay, d);
            && Descending(r)
            && (forall x :: multiset(r)[x] == if localDay(x.timestamp) == d then multiset(records)[x] else 0)
            && (forall t :: WithTimestamp(r, t) == if localDay(t) == d then WithTimestamp(records, t) else [])
  {
    var sorted := SortedRecords(records);
    var r := OnDay(sorted, localDay, d);
    OnDayKeepsOrder(sorted, localDay, d);
    forall x: IntakeRecord
      ensures multiset(r)[x] == if localDay(x.timestamp) == d then multiset(records)[x] else 0
    {
      OnDayCount(sorted, localDay, d, x);
    }
    forall t
      ensures WithTimestamp(r, t) == if localDay(t) == d then WithTimestamp(records, t) else []
    {
      OnDayTies(sorted, localDay, d, t);
      SortIsStable(records, t);
    }
  }

  /** `recordsForSelectedDate`: nothing when no day is selected; otherwise
      the sorted records that fall on the selected day, still newest first. */
  function RecordsForSelectedDate(records: seq<IntakeRecord>, localDay: int -> Day,
                                  selected: Option<Day>): (r: seq<IntakeRecord>)
    ensures selected.None? ==> r == []
    ensures selected.Some? ==>
              && Descending(r)
              && (forall x :: multiset(r)[x]
                              == if localDay(x.timestamp) == selected.value then multiset(records)[x] else 0)
              && (forall t :: WithTimestamp(r, t)
                              == if localDay(t) == selected.value then WithTimestamp(records, t) else [])
  {
    match selected
    case None => []
    case Some(d) =>
      SelectedDayOfSorted(records, localDay, d);
      OnDay(SortedRecords(records), localDay, d)
  }

  // ---------------------------------------------------------------------------
  // renderListView
  // ---------------------------------------------------------------------------

  /** One entry of the list view: the record, and the date header shown above
      it, if any. */
  datatype Row = Row(record: IntakeRecord, dateHeader: Option<string>)

  datatype ListView = NoHistoryYet | Rows(rows: seq<Row>)

  /** The header shown above position `i`: shown exactly when its text differs
      from the previous record's, and always above the first record. */
  function HeaderAt(sorted: seq<IntakeRecord>, dateHeader: int -> string, i: nat): (r: Option<string>)
    requires i < |sorted|
    ensures r.Some? ==> r.value == dateHeader(sorted[i].timestamp)
    ensures i == 0 ==> r.Some?
    ensures i > 0 ==> (r.None? <==> dateHeader(sorted[i].timestamp) == dateHeader(sorted[i - 1].timestamp))
  {
    var current := dateHeader(sorted[i].timestamp);
    if i == 0 || current != dateHeader(sorted[i - 1].timestamp) then Some(current) else None
  }

  /** `renderListView`: the "No intake history yet." message for an empty
      history; otherwise the sorted records, walked with the last header
      shown in `lastDateHeader`. */
  method RenderListView(records: seq<IntakeRecord>, dateHeader: int -> string) returns (view: ListView)
    ensures view.NoHistoryYet? <==> records == []
    ensures view.Rows? ==>
              var sorted := SortedRecords(records);
              && |view.rows| == |sorted|
              && forall i :: 0 <= i < |sorted| ==>
                   view.rows[i] == Row(sorted[i], HeaderAt(sorted, dateHeader, i))
  {
    var sorted := SortedRecords(records);
    if |sorted| == 0 {
      return NoHistoryYet;
    }
    var lastDateHeader: Option<string> := None;
    var rows: seq<Row> := [];
    for i := 0 to |sorted|
      invariant |rows| == i
      invariant lastDateHeader == if i == 0 then None else Some(dateHeader(sorted[i - 1].timestamp))
      invariant forall k :: 0 <= k < i ==> rows[k] == Row(sorted[k], HeaderAt(sorted, dateHeader, k))
    {
      var currentDateHeader := dateHeader(sorted[i].timestamp);
      var showDateHeader := Some(currentDateHeader) != lastDateHeader;
      if showDateHeader {
        lastDateHeader := Some(currentDateHeader);
      }
      rows := rows + [Row(sorted[i], if showDateHeader then Some(currentDateHeader) else None)];
    }
    view := Rows(rows);
  }
}
