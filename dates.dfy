/**
 * Calendar dates as the browser's `Date` exposes them through its local
 * fields: `getFullYear()`, `getMonth()` (0 = January) and `getDate()`, with the
 * proleptic Gregorian calendar. Time of day and time zones are not modelled.
 */
module Dates {

  datatype Date = Date(year: int, month: int, day: int)

  predicate IsLeapYear(y: int) {
    (y % 4 == 0 && y % 100 != 0) || y % 400 == 0
  }

  /** `new Date(year, month + 1, 0).getDate()`: the last day of the month. */
  function DaysInMonth(year: int, month: int): (n: int)
    requires 0 <= month < 12
    ensures 28 <= n <= 31
    ensures n == 31 <==> month in {0, 2, 4, 6, 7, 9, 11}
    ensures n == 30 <==> month in {3, 5, 8, 10}
    ensures month == 1 ==> (n == 29 <==> IsLeapYear(year))
  {
    if month == 1 then (if IsLeapYear(year) then 29 else 28)
    else if month in {3, 5, 8, 10} then 30
    else 31
  }

  predicate Valid(d: Date) {
    0 <= d.month < 12 && 1 <= d.day <= DaysInMonth(d.year, d.month)
  }

  /** The following calendar day: the earliest valid date after `d`. */
  function NextDay(d: Date): (r: Date)
    requires Valid(d)
    ensures Valid(r) && Before(d, r)
    ensures forall e :: Valid(e) && Before(d, e) ==> e == r || Before(r, e)
  {
    if d.day < DaysInMonth(d.year, d.month) then d.(day := d.day + 1)
    else if d.month < 11 then Date(d.year, d.month + 1, 1)
    else Date(d.year + 1, 0, 1)
  }

  /** `addDays(d, n)` for n >= 0. */
  function AddDays(d: Date, n: nat): (r: Date)
    requires Valid(d)
    ensures Valid(r)
    decreases n
  {
    if n == 0 then d else AddDays(NextDay(d), n - 1)
  }

  /** Chronological order. */
  predicate Before(a: Date, b: Date) {
    a.year < b.year || (a.year == b.year && (a.month < b.month || (a.month == b.month && a.day < b.day)))
  }

  lemma BeforeTransitive(a: Date, b: Date, c: Date)
    requires Before(a, b) && Before(b, c)
    ensures Before(a, c)
  {
  }

  /** Each further day lies strictly later, so `AddDays(d, .)` never repeats a date. */
  lemma {:induction false} AddDaysIncreasing(d: Date, i: nat, j: nat)
    requires Valid(d) && i < j
    ensures Before(AddDays(d, i), AddDays(d, j))
    decreases j
  {
    if j == i + 1 {
      AddDaysSucc(d, i);
    } else {
      AddDaysIncreasing(d, i, j - 1);
      AddDaysSucc(d, j - 1);
      BeforeTransitive(AddDays(d, i), AddDays(d, j - 1), AddDays(d, j));
    }
  }

  /** Adding one more day is taking the next day. */
  lemma {:induction false} AddDaysSucc(d: Date, n: nat)
    requires Valid(d)
    ensures AddDays(d, n + 1) == NextDay(AddDays(d, n))
    decreases n
  {
    if n > 0 { AddDaysSucc(NextDay(d), n - 1); }
  }

  /** Sakamoto's offsets, indexed by the 1-based month. */
  function MonthOffset(m: int): int
    requires 1 <= m <= 12
  {
    [0, 3, 2, 5, 0, 3, 5, 1, 4, 6, 2, 4][m - 1]
  }

  /** Days contributed by whole years, up to a constant: y + y/4 - y/100 + y/400. */
  function YearShift(y: int): int {
    y + y / 4 - y / 100 + y / 400
  }

  /** `getDay()`: the day of the week, 0 = Sunday .. 6 = Saturday. */
  function Weekday(d: Date): (w: int)
    requires 0 <= d.month < 12
    ensures 0 <= w < 7
  {
    DayCount(d) % 7
  }

  /** Sakamoto's day count, correct up to a multiple of 7. */
  function DayCount(d: Date): int
    requires 0 <= d.month < 12
  {
    var m := d.month + 1;
    var y := if m < 3 then d.year - 1 else d.year;
    YearShift(y) + MonthOffset(m) + d.day
  }

  /** A year adds one day of the week, a leap year two. */
  lemma YearShiftStep(y: int)
    ensures YearShift(y) - YearShift(y - 1) == if IsLeapYear(y) then 2 else 1
  {
    DivStep(y, 4);
    DivStep(y, 100);
    DivStep(y, 400);
    var a, b, c := y / 4 - (y - 1) / 4, y / 100 - (y - 1) / 100, y / 400 - (y - 1) / 400;
    assert YearShift(y) - YearShift(y - 1) == 1 + a - b + c;
    DivisorsOfCentury(y);
  }

  /** A multiple of 400 is a multiple of 100, and a multiple of 100 one of 4. */
  lemma DivisorsOfCentury(y: int)
    ensures y % 400 == 0 ==> y % 100 == 0
    ensures y % 100 == 0 ==> y % 4 == 0
  {
    if y % 400 == 0 {
      MultipleMod(y, y / 400 * 4, 100);
    }
    if y % 100 == 0 {
      MultipleMod(y, y / 100 * 25, 4);
    }
  }

  lemma MultipleMod(y: int, m: int, k: int)
    requires k == 4 || k == 100
    requires y == k * m
    ensures y % k == 0
  {
    if k == 4 {
      assert y / 4 == m;
    } else {
      assert y / 100 == m;
    }
  }

  lemma DivStep(y: int, k: int)
    requires k == 4 || k == 100 || k == 400
    ensures y / k - (y - 1) / k == if y % k == 0 then 1 else 0
  {
    if k == 4 {
      assert y == 4 * (y / 4) + y % 4;
      assert y - 1 == 4 * ((y - 1) / 4) + (y - 1) % 4;
    } else if k == 100 {
      assert y == 100 * (y / 100) + y % 100;
      assert y - 1 == 100 * ((y - 1) / 100) + (y - 1) % 100;
    } else {
      assert y == 400 * (y / 400) + y % 400;
      assert y - 1 == 400 * ((y - 1) / 400) + (y - 1) % 400;
    }
  }

  lemma ModSeven(x: int, k: int)
    ensures (x + 7 * k) % 7 == x % 7
    ensures (x % 7 + k) % 7 == (x + k) % 7
  {
    assert x == 7 * (x / 7) + x % 7;
    assert x + 7 * k == 7 * (x / 7 + k) + x % 7;
    assert x % 7 + k == (x + k) - 7 * (x / 7);
    assert (x + k) == 7 * ((x + k) / 7) + (x + k) % 7;
    assert x % 7 + k == 7 * ((x + k) / 7 - x / 7) + (x + k) % 7;
  }

  /** The weekday advances by one from each day to the next, across months and years. */
  lemma WeekdayOfNextDay(d: Date)
    requires Valid(d)
    ensures Weekday(NextDay(d)) == (Weekday(d) + 1) % 7
  {
    var b, b' := DayCount(d), DayCount(NextDay(d));
    if d.day == DaysInMonth(d.year, d.month) && d.month == 1 {
      YearShiftStep(d.year);
    }
    assert b' == b + 1 || b' == b + 1 - 28 || b' == b + 1 - 35;
    ModSeven(b + 1, if b' == b + 1 then 0 else if b' == b + 1 - 28 then -4 else -5);
    ModSeven(b, 1);
  }

  /** n days later is n places further in the week. */
  lemma {:induction false} WeekdayAfter(d: Date, n: nat)
    requires Valid(d)
    ensures Weekday(AddDays(d, n)) == (Weekday(d) + n) % 7
    decreases n
  {
    if n > 0 {
      WeekdayOfNextDay(d);
      WeekdayAfter(NextDay(d), n - 1);
      ModSeven(Weekday(d) + 1, n - 1);
      ModSeven(Weekday(d), 1);
    }
  }

  /** Within a month, day k falls k - 1 places after the first of the month. */
  lemma WeekdayInMonth(year: int, month: int, day: int)
    requires 0 <= month < 12
    ensures Weekday(Date(year, month, day)) == (Weekday(Date(year, month, 1)) + day - 1) % 7
  {
    ModSeven(DayCount(Date(year, month, 1)), day - 1);
  }

  /** date-fns `format(d, "EEEE")` and `toLocaleDateString` weekday names, Sunday first. */
  const WeekdayNames: seq<string> :=
    ["Sunday", "Monday", "Tuesday", "Wednesday", "Thursday", "Friday", "Saturday"]

  const MonthNames: seq<string> :=
    ["January", "February", "March", "April", "May", "June", "July",
     "August", "September", "October", "November", "December"]

  function WeekdayName(d: Date): string
    requires 0 <= d.month < 12
  {
    WeekdayNames[Weekday(d)]
  }

  /** 15 January 2024 was a Monday. */
  lemma KnownMonday()
    ensures Weekday(Date(2024, 0, 15)) == 1
  {
  }
}
