/**
 * The events calendar's month view: the month shown and its neighbours, the
 * grid of cells (blank cells up to the first day, Monday first, then the days
 * of the month), the `YYYY-MM-DD` key of a day and the events filed under it.
 * The weekday of the first of the month comes from the date library and is
 * an input (0 for Sunday up to 6 for Saturday).
 */
module EventCalendar {
  import opened Wrappers
  import opened Text
  import opened JsNumbers
  import opened TimeRemaining
  import opened EventForm

  /** A month as the component holds it: the year and the zero-based month index. */
  datatype Month = Month(year: int, month: nat)

  predicate ValidMonth(m: Month) {
    m.month < 12
  }

  /**
   * The year a `Date` constructor reads from its year argument: JavaScript
   * takes a year from 0 to 99 as 1900 to 1999, and any other year as given.
   */
  function FullYear(y: int): int {
    if 0 <= y <= 99 then 1900 + y else y
  }

  /** Months counted from January of year 0. */
  function MonthIndex(m: Month): int {
    m.year * 12 + m.month
  }

  /**
   * `new Date(year, month - 1, 1)`: the month before, in the year the
   * constructor reads; January steps back to December of the year before.
   */
  function PrevMonth(m: Month): (p: Month)
    requires ValidMonth(m)
    ensures ValidMonth(p)
    ensures MonthIndex(p) == FullYear(m.year) * 12 + m.month - 1
    ensures !(0 <= m.year <= 99) ==> MonthIndex(p) == MonthIndex(m) - 1
  {
    var y := FullYear(m.year);
    if m.month == 0 then Month(y - 1, 11) else Month(y, m.month - 1)
  }

  /**
   * `new Date(year, month + 1, 1)`: the month after, in the year the
   * constructor reads; December steps on to January of the year after.
   */
  function NextMonth(m: Month): (n: Month)
    requires ValidMonth(m)
    ensures ValidMonth(n)
    ensures MonthIndex(n) == FullYear(m.year) * 12 + m.month + 1
    ensures !(0 <= m.year <= 99) ==> MonthIndex(n) == MonthIndex(m) + 1
  {
    var y := FullYear(m.year);
    if m.month == 11 then Month(y + 1, 0) else Month(y, m.month + 1)
  }

  /**
   * Going back a month and forward again returns to the month shown, and
   * the other way round, as long as neither step passes through the years
   * 0 to 99 that the constructor reads as 1900 to 1999.
   */
  lemma PrevNextInverse(m: Month)
    requires ValidMonth(m) && (m.year <= -2 || m.year >= 101)
    ensures NextMonth(PrevMonth(m)) == m && PrevMonth(NextMonth(m)) == m
  {
  }

  /** From January of year 100, back then forward lands in January 2000: December of year 99 reads as 1999. */
  lemma PrevNextJumpAtYear100(m: Month)
    requires m == Month(100, 0)
    ensures PrevMonth(m) == Month(99, 11)
    ensures NextMonth(PrevMonth(m)) == Month(2000, 0)
  {
  }

  predicate LeapYear(year: int) {
    (year % 4 == 0 && year % 100 != 0) || year % 400 == 0
  }

  /**
   * `new Date(year, month + 1, 0).getDate()`: the last day of the month in
   * the Gregorian calendar, February's length read off the year the
   * constructor reads.
   */
  function DaysInMonth(m: Month): (n: nat)
    requires ValidMonth(m)
    ensures 28 <= n <= 31
    ensures m.month == 1 ==> (n == 29 <==> LeapYear(FullYear(m.year)))
    ensures m.month != 1 ==> (n == 30 <==> m.month in {3, 5, 8, 10})
  {
    if m.month == 1 then (if LeapYear(FullYear(m.year)) then 29 else 28)
    else if m.month in {3, 5, 8, 10} then 30
    else 31
  }

  /** `startDay === 0 ? 6 : startDay - 1`: the number of blank cells before the first, counting from Monday. */
  function AdjustedStartDay(startDay: nat): (a: nat)
    requires startDay < 7
    ensures a < 7
    ensures (a + 1) % 7 == startDay
  {
    if startDay == 0 then 6 else startDay - 1
  }

  /** The grid's column headers, Monday first, and JavaScript's weekday names, Sunday first. */
  const COLUMNS: seq<string> := ["Lun", "Mar", "Mer", "Jeu", "Ven", "Sam", "Dim"]
  const WEEKDAYS: seq<string> := ["Dim", "Lun", "Mar", "Mer", "Jeu", "Ven", "Sam"]

  /** The `days` array: `adjustedStartDay` blanks, then the days 1 to `totalDays` in order. */
  method BuildDays(adjustedStartDay: nat, totalDays: nat) returns (days: seq<Option<nat>>)
    ensures |days| == adjustedStartDay + totalDays
    ensures forall i :: 0 <= i < adjustedStartDay ==> days[i].None?
    ensures forall i :: adjustedStartDay <= i < |days| ==> days[i] == Some(i - adjustedStartDay + 1)
  {
    days := [];
    for i := 0 to adjustedStartDay
      invariant |days| == i
      invariant forall j :: 0 <= j < i ==> days[j].None?
    {
      days := days + [None];
    }
    for d := 1 to totalDays + 1
      invariant |days| == adjustedStartDay + d - 1
      invariant forall j :: 0 <= j < adjustedStartDay ==> days[j].None?
      invariant forall j :: adjustedStartDay <= j < |days| ==> days[j] == Some(j - adjustedStartDay + 1)
    {
      days := days + [Some(d)];
    }
  }

  /**
   * Day `d` of the month sits in the grid column whose header names the
   * weekday the date library gives it: the Monday-first offset lines the
   * days up with the headers.
   */
  lemma DayUnderItsWeekday(startDay: nat, d: nat)
    requires startDay < 7 && d >= 1
    ensures COLUMNS[(AdjustedStartDay(startDay) + d - 1) % 7] == WEEKDAYS[(startDay + d - 1) % 7]
  {
    var a := AdjustedStartDay(startDay);
    var c := (a + d - 1) % 7;
    assert (startDay + d - 1) % 7 == (c + 1) % 7 by {
      assert startDay == (a + 1) % 7;
      ModShift(a + d - 1, 1);
      ModShift(a + 1, d - 1);
    }
    ColumnNamesNextWeekday(c);
  }

  /** Column `c` of the grid is headed by the weekday JavaScript numbers `c + 1`, Sunday wrapping to 0. */
  lemma ColumnNamesNextWeekday(c: nat)
    requires c < 7
    ensures COLUMNS[c] == WEEKDAYS[(c + 1) % 7]
  {
  }

  lemma ModShift(x: nat, k: nat)
    ensures (x % 7 + k) % 7 == (x + k) % 7
  {
  }

  /** `${year}-${(month + 1).toString().padStart(2, '0')}-${day.toString().padStart(2, '0')}`. */
  function DayKey(m: Month, day: nat): string {
    IntToString(m.year) + "-" + PadStart(NatToString(m.month + 1), 2, '0') + "-" + PadStart(NatToString(day), 2, '0')
  }

  /** A number below 100 padded to two places is two digits. */
  lemma TwoDigits(n: nat)
    requires n < 100
    ensures |PadStart(NatToString(n), 2, '0')| == 2 && AllDigits(PadStart(NatToString(n), 2, '0'))
  {
    PrintedBelowHundred(n);
  }

  /** A year from 1000 to 9999 prints in four digits. */
  lemma FourDigitYear(y: nat)
    requires 1000 <= y <= 9999
    ensures |NatToString(y)| == 4
  {
    var a := y / 10;
    var b := a / 10;
    assert 10 <= b < 100;
    OneMoreDigit(y);
    OneMoreDigit(a);
    PrintedBelowHundred(b);
  }

  /** Printing a number of two digits or more prints its tenth, then one more digit. */
  lemma OneMoreDigit(n: nat)
    requires n >= 10
    ensures |NatToString(n)| == |NatToString(n / 10)| + 1
  {
  }

  /** Four digits, a dash, two digits, a dash, two digits. */
  lemma DatePatternOf(y: string, mm: string, dd: string)
    requires |y| == 4 && |mm| == 2 && |dd| == 2 && AllDigits(y) && AllDigits(mm) && AllDigits(dd)
    ensures DatePattern(y + "-" + mm + "-" + dd)
  {
    var k := y + "-" + mm + "-" + dd;
    assert forall i :: 0 <= i < 4 ==> k[i] == y[i];
    assert forall i :: 5 <= i < 7 ==> k[i] == mm[i - 5];
    assert forall i :: 8 <= i < 10 ==> k[i] == dd[i - 8];
  }

  /** For a four-digit year, the key of a day has exactly the shape the event form accepts as a date. */
  lemma DayKeyIsFormDate(m: Month, day: nat)
    requires ValidMonth(m) && 1000 <= m.year <= 9999 && day < 100
    ensures DatePattern(DayKey(m, day))
  {
    var y, mm, dd := NatToString(m.year), PadStart(NatToString(m.month + 1), 2, '0'), PadStart(NatToString(day), 2, '0');
    assert DayKey(m, day) == y + "-" + mm + "-" + dd;
    FourDigitYear(m.year);
    TwoDigits(m.month + 1);
    TwoDigits(day);
    DatePatternOf(y, mm, dd);
  }

  datatype CalendarEvent = CalendarEvent(
    id: string, title: string, date: string, startTime: string, endTime: string, location: string, kind: string)

  /** `events.filter(e => e.date === key)`. */
  function OnDate(events: seq<CalendarEvent>, key: string): (r: seq<CalendarEvent>)
    ensures forall e :: multiset(r)[e] == if e.date == key then multiset(events)[e] else 0
    decreases |events|
  {
    if events == [] then []
    else
      var n := |events| - 1;
      assert events == events[..n] + [events[n]];
      OnDate(events[..n], key) + (if events[n].date == key then [events[n]] else [])
  }

  /** Filtering a concatenation filters each part, so the events keep their order. */
  lemma {:induction false} OnDateConcat(a: seq<CalendarEvent>, b: seq<CalendarEvent>, key: string)
    ensures OnDate(a + b, key) == OnDate(a, key) + OnDate(b, key)
    decreases |b|
  {
    if b == [] {
      assert a + b == a;
    } else {
      var n := |b| - 1;
      var last := if b[n].date == key then [b[n]] else [];
      assert (a + b)[..|a + b| - 1] == a + b[..n];
      assert (a + b)[|a + b| - 1] == b[n];
      assert OnDate(a + b, key) == OnDate(a + b[..n], key) + last;
      OnDateConcat(a, b[..n], key);
      assert OnDate(b, key) == OnDate(b[..n], key) + last;
      ConcatAssoc(OnDate(a, key), OnDate(b[..n], key), last);
    }
  }

  /** `getEventsForDay(day)`: the events filed under the day's key. */
  function EventsForDay(events: seq<CalendarEvent>, m: Month, day: nat): (r: seq<CalendarEvent>)
    ensures forall e :: e in r <==> e in events && e.date == DayKey(m, day)
  {
    var r := OnDate(events, DayKey(m, day));
    assert forall e :: e in r <==> multiset(r)[e] > 0;
    r
  }
}
