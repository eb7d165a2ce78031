/**
  Calendar arithmetic in the proleptic Gregorian calendar, which is the
  calendar JavaScript's `Date` uses. Dates are plain (year, month, day) values;
  the reference day adds its weekday (0 = Sunday .. 6 = Saturday), and the
  weekday of any other day of the same month is found by counting days from it.
 */
module Calendar {

  datatype Date = Date(year: int, month: int, day: int)

  predicate IsLeapYear(y: int) {
    (y % 4 == 0 && y % 100 != 0) || y % 400 == 0
  }

  /** What `new Date(y, m, 0).getDate()` yields: the length of month `m` (1-based) of year `y`. */
  function DaysInMonth(y: int, m: int): (n: int)
    requires 1 <= m <= 12
    ensures 28 <= n <= 31
    ensures n == 29 <==> m == 2 && IsLeapYear(y)
  {
    if m == 2 then (if IsLeapYear(y) then 29 else 28)
    else if m == 4 || m == 6 || m == 9 || m == 11 then 30
    else 31
  }

  predicate ValidDate(d: Date) {
    1 <= d.month <= 12 && 1 <= d.day <= DaysInMonth(d.year, d.month)
  }

  /** A real calendar day. */
  type CalDate = d: Date | ValidDate(d) witness Date(1970, 1, 1)

  /** A day of the week as `Date.prototype.getDay` numbers it. */
  type Weekday = w: int | 0 <= w < 7

  /** The reference day of one evaluation: a calendar day and its weekday. */
  datatype Today = Today(date: CalDate, weekday: Weekday)

  // ---------------------------------------------------------------------------
  // Day numbers
  // ---------------------------------------------------------------------------

  function YearLength(y: int): int {
    if IsLeapYear(y) then 366 else 365
  }

  /** Days from 0001-01-01 to the first day of year `y`. */
  function DaysBeforeYear(y: int): int {
    365 * (y - 1) + (y - 1) / 4 - (y - 1) / 100 + (y - 1) / 400
  }

  /** Days from the first of January of year `y` to the first day of month `m`. */
  function DaysBeforeMonth(y: int, m: int): int
    requires 1 <= m <= 12
  {
    [0, 31, 59, 90, 120, 151, 181, 212, 243, 273, 304, 334][m - 1]
      + (if m > 2 && IsLeapYear(y) then 1 else 0)
  }

  /**
    The day's distance in days from 0001-01-01. An out-of-range day of the
    month counts on (or back) linearly, as the `Date` constructor does.
   */
  function DayNumber(d: Date): int
    requires 1 <= d.month <= 12
  {
    DaysBeforeYear(d.year) + DaysBeforeMonth(d.year, d.month) + d.day - 1
  }

  /** Going from `y - 1` to `y` adds one to `y / k` exactly when `k` divides `y`. */
  lemma DivStep(y: int, k: int)
    requires k == 4 || k == 100 || k == 400
    ensures y / k - (y - 1) / k == if y % k == 0 then 1 else 0
  {
    var q, r := (y - 1) / k, (y - 1) % k;
    assert y == k * q + r + 1;
    if r == k - 1 {
      assert y == k * (q + 1);
    } else {
      assert y == k * q + (r + 1);
    }
  }

  lemma DivisorChain(y: int)
    ensures y % 400 == 0 ==> y % 100 == 0
    ensures y % 100 == 0 ==> y % 4 == 0
  {
    if y % 400 == 0 {
      var q := 4 * (y / 400);
      assert y == 100 * q;
    }
    if y % 100 == 0 {
      var q := 25 * (y / 100);
      assert y == 4 * q;
    }
  }

  lemma YearStep(y: int)
    ensures DaysBeforeYear(y + 1) == DaysBeforeYear(y) + YearLength(y)
  {
    DivStep(y, 4);
    DivStep(y, 100);
    DivStep(y, 400);
    DivisorChain(y);
  }

  lemma MonthStep(y: int, m: int)
    requires 1 <= m < 12
    ensures DaysBeforeMonth(y, m + 1) == DaysBeforeMonth(y, m) + DaysInMonth(y, m)
  {
  }

  lemma DecemberEnd(y: int)
    ensures DaysBeforeMonth(y, 12) + DaysInMonth(y, 12) == YearLength(y)
  {
  }

  /** Every later month of the same year starts after this one ends. */
  lemma {:induction false} MonthsBefore(y: int, m: int, m2: int)
    requires 1 <= m < m2 <= 12
    ensures DaysBeforeMonth(y, m) + DaysInMonth(y, m) <= DaysBeforeMonth(y, m2)
    decreases m2 - m
  {
    MonthStep(y, m);
    if m + 1 < m2 {
      MonthsBefore(y, m + 1, m2);
    }
  }

  /** Every later year starts after this one ends. */
  lemma {:induction false} YearsBefore(y: int, y2: int)
    requires y < y2
    ensures DaysBeforeYear(y) + YearLength(y) <= DaysBeforeYear(y2)
    decreases y2 - y
  {
    YearStep(y);
    if y + 1 < y2 {
      YearsBefore(y + 1, y2);
    }
  }

  /** Strictly earlier in the calendar: by year, then month, then day. */
  predicate Before(a: Date, b: Date) {
    a.year < b.year
    || (a.year == b.year && a.month < b.month)
    || (a.year == b.year && a.month == b.month && a.day < b.day)
  }

  lemma DayInYear(d: CalDate)
    ensures 0 <= DaysBeforeMonth(d.year, d.month) + d.day - 1 < YearLength(d.year)
  {
    if d.month < 12 {
      MonthsBefore(d.year, d.month, 12);
    }
    DecemberEnd(d.year);
  }

  lemma BeforeNumbered(a: CalDate, b: CalDate)
    requires Before(a, b)
    ensures DayNumber(a) < DayNumber(b)
  {
    if a.year < b.year {
      DayInYear(a);
      DayInYear(b);
      YearsBefore(a.year, b.year);
    } else if a.month < b.month {
      MonthsBefore(a.year, a.month, b.month);
    }
  }

  /** Day numbers order calendar days exactly as the calendar does. */
  lemma DayNumberOrder(a: CalDate, b: CalDate)
    ensures Before(a, b) <==> DayNumber(a) < DayNumber(b)
    ensures a == b <==> DayNumber(a) == DayNumber(b)
  {
    if Before(a, b) {
      BeforeNumbered(a, b);
    } else if Before(b, a) {
      BeforeNumbered(b, a);
    }
  }

  // ---------------------------------------------------------------------------
  // Stepping through days
  // ---------------------------------------------------------------------------

  /** The calendar day after `d`. */
  function NextDay(d: CalDate): CalDate {
    if d.day < DaysInMonth(d.year, d.month) then Date(d.year, d.month, d.day + 1)
    else if d.month < 12 then Date(d.year, d.month + 1, 1)
    else Date(d.year + 1, 1, 1)
  }

  lemma NextDayNumber(d: CalDate)
    ensures DayNumber(NextDay(d)) == DayNumber(d) + 1
  {
    if d.day == DaysInMonth(d.year, d.month) {
      if d.month < 12 {
        MonthStep(d.year, d.month);
      } else {
        YearStep(d.year);
        DecemberEnd(d.year);
      }
    }
  }

  /** The day `k` days after `d`. */
  function AddDays(d: CalDate, k: nat): CalDate
    decreases k
  {
    if k == 0 then d else AddDays(NextDay(d), k - 1)
  }

  lemma {:induction false} AddDaysNumber(d: CalDate, k: nat)
    ensures DayNumber(AddDays(d, k)) == DayNumber(d) + k
    decreases k
  {
    if k > 0 {
      NextDayNumber(d);
      AddDaysNumber(NextDay(d), k - 1);
    }
  }

  /**
    The day `k` days after `d` is the only calendar day whose day number is
    `k` more than `d`'s.
   */
  lemma DayDistance(d: CalDate, e: CalDate, k: nat)
    ensures DayNumber(e) - DayNumber(d) == k <==> e == AddDays(d, k)
  {
    AddDaysNumber(d, k);
    DayNumberOrder(e, AddDays(d, k));
  }

  function NextMonth(y: int, m: int): (r: (int, int))
    requires 1 <= m <= 12
    ensures 1 <= r.1 <= 12 && r.1 != m
  {
    if m < 12 then (y, m + 1) else (y + 1, 1)
  }

  function PrevMonth(y: int, m: int): (r: (int, int))
    requires 1 <= m <= 12
    ensures 1 <= r.1 <= 12 && r.1 != m
  {
    if m > 1 then (y, m - 1) else (y - 1, 12)
  }

  /**
    The calendar day that `new Date(y, m - 1, d)` (or `setDate(d)` on a day of
    that month) lands on: a day of the month beyond its length carries into the
    following months, one before the first into the preceding months.
   */
  function Normalize(y: int, m: int, d: int): CalDate
    requires 1 <= m <= 12
    decreases if d < 1 then 1 else 0, if d < 1 then -d else d
  {
    if d < 1 then
      var (py, pm) := PrevMonth(y, m);
      Normalize(py, pm, d + DaysInMonth(py, pm))
    else if d > DaysInMonth(y, m) then
      var (ny, nm) := NextMonth(y, m);
      Normalize(ny, nm, d - DaysInMonth(y, m))
    else
      Date(y, m, d)
  }

  lemma FirstOfNextMonth(y: int, m: int)
    requires 1 <= m <= 12
    ensures var (ny, nm) := NextMonth(y, m);
      DayNumber(Date(ny, nm, 1)) == DayNumber(Date(y, m, 1)) + DaysInMonth(y, m)
  {
    if m < 12 {
      MonthStep(y, m);
    } else {
      YearStep(y);
      DecemberEnd(y);
    }
  }

  /** Normalizing moves no day: the result is `d - 1` days after the first of the month. */
  lemma {:induction false} NormalizeDayNumber(y: int, m: int, d: int)
    requires 1 <= m <= 12
    ensures DayNumber(Normalize(y, m, d)) == DayNumber(Date(y, m, 1)) + d - 1
    decreases if d < 1 then 1 else 0, if d < 1 then -d else d
  {
    if d < 1 {
      var (py, pm) := PrevMonth(y, m);
      NormalizeDayNumber(py, pm, d + DaysInMonth(py, pm));
      FirstOfNextMonth(py, pm);
      assert NextMonth(py, pm) == (y, m);
    } else if d > DaysInMonth(y, m) {
      var (ny, nm) := NextMonth(y, m);
      NormalizeDayNumber(ny, nm, d - DaysInMonth(y, m));
      FirstOfNextMonth(y, m);
    }
  }

  /**
    Within four weeks of either end of the month, the normalized day stays in
    the month exactly when the day of the month is in range.
   */
  lemma NormalizeNearMonth(y: int, m: int, d: int)
    requires 1 <= m <= 12
    requires -27 <= d <= DaysInMonth(y, m) + 28
    ensures Normalize(y, m, d).month == m <==> 1 <= d <= DaysInMonth(y, m)
    ensures 1 <= d <= DaysInMonth(y, m) ==> Normalize(y, m, d) == Date(y, m, d)
  {
  }

  // ---------------------------------------------------------------------------
  // Weekdays within the reference month
  // ---------------------------------------------------------------------------

  /** The weekday of day `d` of the reference day's month, counted from the reference day. */
  function WeekdayOf(t: Today, d: int): Weekday {
    (t.weekday + d - t.date.day) % 7
  }

  function LastDayOfMonth(t: Today): int {
    DaysInMonth(t.date.year, t.date.month)
  }

  /** The remainder of `x` by 7 is the `m` of any way of writing `x` as a multiple of 7 plus `m`. */
  lemma ModSeven(x: int, q: int, m: int)
    requires x == 7 * q + m && 0 <= m < 7
    ensures x % 7 == m
  {
  }

  /** Counting `j` days on from day `d` counts `j` weekdays on. */
  lemma WeekdayAt(t: Today, d: int, j: int)
    ensures WeekdayOf(t, d + j) == (WeekdayOf(t, d) + j) % 7
  {
    var a := t.weekday + d - t.date.day;
    var m := (a % 7 + j) % 7;
    var q1, q2 := a / 7, (a % 7 + j) / 7;
    assert a == 7 * q1 + a % 7;
    assert a % 7 + j == 7 * q2 + m;
    ModSeven(a + j, q1 + q2, m);
  }

  /** From weekday `w`, weekday `dow` is reached after exactly `(dow - w) % 7` days of a week. */
  lemma ForwardResidue(w: Weekday, dow: Weekday, j: int)
    requires 0 <= j < 7
    ensures (w + j) % 7 == dow <==> j == (dow - w) % 7
  {
    if w + j < 7 { ModSeven(w + j, 0, w + j); } else { ModSeven(w + j, 1, w + j - 7); }
    if dow >= w { ModSeven(dow - w, 0, dow - w); } else { ModSeven(dow - w, -1, dow - w + 7); }
  }

  /** Back from weekday `w`, weekday `dow` is reached after exactly `(w - dow) % 7` days of a week. */
  lemma BackwardResidue(w: Weekday, dow: Weekday, j: int)
    requires 0 <= j < 7
    ensures (w - j) % 7 == dow <==> j == (w - dow) % 7
  {
    if w - j >= 0 { ModSeven(w - j, 0, w - j); } else { ModSeven(w - j, -1, w - j + 7); }
    if w >= dow { ModSeven(w - dow, 0, w - dow); } else { ModSeven(w - dow, -1, w - dow + 7); }
  }

  lemma FirstOccurrenceFacts(t: Today, dow: Weekday)
    ensures var k := (dow - WeekdayOf(t, 1)) % 7;
      WeekdayOf(t, 1 + k) == dow && forall e :: 1 <= e < 1 + k ==> WeekdayOf(t, e) != dow
  {
    var w := WeekdayOf(t, 1);
    var k := (dow - w) % 7;
    WeekdayAt(t, 1, k);
    ForwardResidue(w, dow, k);
    forall e | 1 <= e < 1 + k
      ensures WeekdayOf(t, e) != dow
    {
      WeekdayAt(t, 1, e - 1);
      ForwardResidue(w, dow, e - 1);
    }
  }

  lemma LastOccurrenceFacts(t: Today, dow: Weekday)
    ensures var last := LastDayOfMonth(t);
      var k := (WeekdayOf(t, last) - dow) % 7;
      WeekdayOf(t, last - k) == dow && forall e :: last - k < e <= last ==> WeekdayOf(t, e) != dow
  {
    var last := LastDayOfMonth(t);
    var w := WeekdayOf(t, last);
    var k := (w - dow) % 7;
    WeekdayAt(t, last, -k);
    BackwardResidue(w, dow, k);
    forall e | last - k < e <= last
      ensures WeekdayOf(t, e) != dow
    {
      WeekdayAt(t, last, -(last - e));
      BackwardResidue(w, dow, last - e);
    }
  }

  /** The first day of the reference month that falls on weekday `dow`. */
  function FirstOccurrenceDay(t: Today, dow: Weekday): (r: int)
    ensures 1 <= r <= 7 && WeekdayOf(t, r) == dow
    ensures forall e :: 1 <= e < r ==> WeekdayOf(t, e) != dow
  {
    FirstOccurrenceFacts(t, dow);
    1 + (dow - WeekdayOf(t, 1)) % 7
  }

  /** The last day of the reference month that falls on weekday `dow`. */
  function LastOccurrenceDay(t: Today, dow: Weekday): (r: int)
    ensures LastDayOfMonth(t) - 6 <= r <= LastDayOfMonth(t) && WeekdayOf(t, r) == dow
    ensures forall e :: r < e <= LastDayOfMonth(t) ==> WeekdayOf(t, e) != dow
  {
    LastOccurrenceFacts(t, dow);
    LastDayOfMonth(t) - (WeekdayOf(t, LastDayOfMonth(t)) - dow) % 7
  }

  /** Days a whole number of weeks apart share their weekday, and only those. */
  lemma SameWeekday(t: Today, d: int, e: int)
    ensures WeekdayOf(t, d) == WeekdayOf(t, e) <==> (d - e) % 7 == 0
  {
  }
}
