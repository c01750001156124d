/**
 Instants and month windows.

 The reporting window of a (year, month) pair is built from Go's `time.Date` with day 0,
 which normalises any month into a year and then counts days on the proleptic Gregorian
 calendar. `DayNumber` is that count in closed form; `CivilOfDay` is an independent
 reference that walks the calendar one day at a time, and the two are inverse.
 */
module Calendar {

  const SECONDS_PER_DAY := 86400
  // Days from 0001-01-01 to 1970-01-01.
  const EPOCH_DAYS := 719162
  // Days before the first of each month in a common year.
  const DAYS_BEFORE := [0, 31, 59, 90, 120, 151, 181, 212, 243, 273, 304, 334]

  datatype Civil = Civil(year: int, month: int, day: int)

  predicate IsLeap(y: int) {
    y % 4 == 0 && (y % 100 != 0 || y % 400 == 0)
  }

  function DaysIn(y: int, m: int): (n: int)
    requires 1 <= m <= 12
    ensures 28 <= n <= 31
  {
    if m == 2 then (if IsLeap(y) then 29 else 28)
    else if m == 4 || m == 6 || m == 9 || m == 11 then 30 else 31
  }

  predicate Valid(c: Civil) {
    1 <= c.month <= 12 && 1 <= c.day <= DaysIn(c.year, c.month)
  }

  function DaysBeforeYear(y: int): int {
    var p := y - 1;
    365 * p + p / 4 - p / 100 + p / 400
  }

  function DaysBeforeMonth(y: int, m: int): int
    requires 1 <= m <= 12
  {
    DAYS_BEFORE[m - 1] + if m > 2 && IsLeap(y) then 1 else 0
  }

  /** Days from 1970-01-01; the day of the month may lie outside the month, as in `time.Date`. */
  function DayNumber(c: Civil): int
    requires 1 <= c.month <= 12
  {
    DaysBeforeYear(c.year) + DaysBeforeMonth(c.year, c.month) + c.day - 1 - EPOCH_DAYS
  }

  /** `time.Date(y, m, d, 0, 0, 0, 0, time.UTC).Unix()` for any integers y, m and d. */
  function DateUnix(y: int, m: int, d: int): int {
    SECONDS_PER_DAY * DayNumber(Civil(y + (m - 1) / 12, (m - 1) % 12 + 1, d))
  }

  function WindowStart(y: int, m: int): int { DateUnix(y, m, 0) }

  function WindowEnd(y: int, m: int): int { DateUnix(y, m + 1, 0) }

  predicate InRange(t: int, lo: int, hi: int) { lo <= t <= hi }

  predicate InWindow(y: int, m: int, t: int) {
    InRange(t, WindowStart(y, m), WindowEnd(y, m))
  }

  // ----- the calendar as a walk over days

  function NextDay(c: Civil): (n: Civil)
    requires Valid(c)
    ensures Valid(n)
  {
    if c.day < DaysIn(c.year, c.month) then c.(day := c.day + 1)
    else if c.month < 12 then Civil(c.year, c.month + 1, 1)
    else Civil(c.year + 1, 1, 1)
  }

  function PrevDay(c: Civil): (p: Civil)
    requires Valid(c)
    ensures Valid(p) && NextDay(p) == c
  {
    if c.day > 1 then c.(day := c.day - 1)
    else if c.month > 1 then Civil(c.year, c.month - 1, DaysIn(c.year, c.month - 1))
    else Civil(c.year - 1, 12, 31)
  }

  lemma Every4(y: int)
    ensures y / 4 - (y - 1) / 4 == if y % 4 == 0 then 1 else 0
  {
  }

  lemma Every100(y: int)
    ensures y / 100 - (y - 1) / 100 == if y % 100 == 0 then 1 else 0
  {
    var q, r := y / 100, y % 100;
    assert y == 100 * q + r;
    if r == 0 {
      assert y - 1 == 100 * (q - 1) + 99;
    } else {
      assert y - 1 == 100 * q + (r - 1);
    }
  }

  lemma Every400(y: int)
    ensures y / 400 - (y - 1) / 400 == if y % 400 == 0 then 1 else 0
  {
    var q, r := y / 400, y % 400;
    assert y == 400 * q + r;
    if r == 0 {
      assert y - 1 == 400 * (q - 1) + 399;
    } else {
      assert y - 1 == 400 * q + (r - 1);
    }
  }

  lemma CenturiesAreDivisible(y: int)
    ensures y % 400 == 0 ==> y % 100 == 0
    ensures y % 100 == 0 ==> y % 4 == 0
  {
    assert y == 400 * (y / 400) + y % 400 && y == 100 * (y / 100) + y % 100;
    assert y % 400 == 0 ==> y == 100 * (4 * (y / 400));
    assert y % 100 == 0 ==> y == 4 * (25 * (y / 100));
  }

  lemma YearLength(y: int)
    ensures DaysBeforeYear(y + 1) - DaysBeforeYear(y) == if IsLeap(y) then 366 else 365
  {
    Every4(y);
    Every100(y);
    Every400(y);
    CenturiesAreDivisible(y);
  }

  /** The closed form advances by exactly one when the calendar does. */
  lemma NextDayNumber(c: Civil)
    requires Valid(c)
    ensures DayNumber(NextDay(c)) == DayNumber(c) + 1
  {
    YearLength(c.year);
  }

  /** The civil date n days after 1970-01-01, found by walking; the closed form inverts it. */
  function CivilOfDay(n: int): (c: Civil)
    ensures Valid(c) && DayNumber(c) == n
    decreases if n < 0 then -n else n
  {
    if n == 0 then Civil(1970, 1, 1)
    else if n > 0 then
      NextDayNumber(CivilOfDay(n - 1));
      NextDay(CivilOfDay(n - 1))
    else
      NextDayNumber(PrevDay(CivilOfDay(n + 1)));
      PrevDay(CivilOfDay(n + 1))
  }

  predicate Before(a: Civil, b: Civil) {
    a.year < b.year
    || (a.year == b.year && (a.month < b.month || (a.month == b.month && a.day < b.day)))
  }

  lemma {:induction false} YearStartsIncrease(y: int, z: int)
    requires y < z
    ensures DaysBeforeYear(y) + 365 <= DaysBeforeYear(z)
    ensures DaysBeforeYear(y) + (if IsLeap(y) then 366 else 365) <= DaysBeforeYear(z)
    decreases z - y
  {
    YearLength(z - 1);
    if y == z - 1 {
    } else {
      YearStartsIncrease(y, z - 1);
    }
  }

  /** Day numbers order valid dates as the calendar does. */
  lemma DayNumberIncreases(a: Civil, b: Civil)
    requires Valid(a) && Valid(b) && Before(a, b)
    ensures DayNumber(a) < DayNumber(b)
  {
    if a.year < b.year {
      YearStartsIncrease(a.year, b.year);
    }
  }

  lemma CivilIsUnique(a: Civil, b: Civil)
    requires Valid(a) && Valid(b) && DayNumber(a) == DayNumber(b)
    ensures a == b
  {
    if Before(a, b) {
      DayNumberIncreases(a, b);
    } else if Before(b, a) {
      DayNumberIncreases(b, a);
    }
  }

  // ----- month windows

  /** The k-th month boundary; month m of year y has index 12 * y + m - 1. */
  function Boundary(k: int): int {
    SECONDS_PER_DAY * DayNumber(Civil(k / 12, k % 12 + 1, 0))
  }

  function MonthIndex(y: int, m: int): int { 12 * y + m - 1 }

  /**
   A window depends only on its month index: end(y, m) is start(y, m + 1), and twelve months
   more is one year more.
   */
  lemma WindowByIndex(y: int, m: int)
    ensures WindowStart(y, m) == Boundary(MonthIndex(y, m))
    ensures WindowEnd(y, m) == Boundary(MonthIndex(y, m) + 1)
  {
    hide DayNumber;
    assert MonthIndex(y, m) / 12 == y + (m - 1) / 12;
    assert (MonthIndex(y, m) + 1) / 12 == y + m / 12;
  }

  lemma MonthLength(k: int)
    ensures Boundary(k + 1) - Boundary(k) == SECONDS_PER_DAY * DaysIn(k / 12, k % 12 + 1)
  {
    var y, m := k / 12, k % 12 + 1;
    if m == 12 {
      assert (k + 1) / 12 == y + 1 && (k + 1) % 12 == 0;
      YearLength(y);
    } else {
      assert (k + 1) / 12 == y && (k + 1) % 12 == m;
    }
  }

  lemma MonthsAreLong(k: int)
    ensures Boundary(k) + 28 * 86400 <= Boundary(k + 1)
  {
    MonthLength(k);
  }

  lemma {:induction false} BoundariesIncrease(j: int, k: int)
    requires j < k
    ensures Boundary(j) < Boundary(k)
    decreases k - j
  {
    hide *;
    MonthsAreLong(k - 1);
    if j == k - 1 {
    } else {
      BoundariesIncrease(j, k - 1);
    }
  }

  lemma BoundaryOrder(j: int, k: int)
    ensures Boundary(j) < Boundary(k) <==> j < k
  {
    hide *;
    if j < k {
      BoundariesIncrease(j, k);
    } else if k < j {
      BoundariesIncrease(k, j);
    }
  }

  /** Adjacent windows share one instant, and twelve months more is one year more. */
  lemma WindowAliases(y: int, m: int)
    ensures WindowEnd(y, m) == WindowStart(y, m + 1)
    ensures WindowStart(y, m + 12) == WindowStart(y + 1, m)
  {
    hide WindowStart, WindowEnd, Boundary;
    WindowByIndex(y, m);
    WindowByIndex(y, m + 1);
    WindowByIndex(y, m + 12);
    WindowByIndex(y + 1, m);
  }

  /** A window is as long as its month, for all integers y and m. */
  lemma WindowLength(y: int, m: int)
    ensures var days := DaysIn(y + (m - 1) / 12, (m - 1) % 12 + 1);
            28 <= days <= 31 && WindowEnd(y, m) - WindowStart(y, m) == SECONDS_PER_DAY * days
  {
    hide WindowStart, WindowEnd, Boundary, DaysIn;
    WindowByIndex(y, m);
    var k := MonthIndex(y, m);
    MonthLength(k);
    assert k / 12 == y + (m - 1) / 12;
    assert k % 12 == (m - 1) % 12;
  }

  /** The start of a window depends only on 12y + m and strictly increases with it. */
  lemma WindowOrder(y: int, m: int, y': int, m': int)
    ensures WindowStart(y, m) < WindowStart(y', m') <==> 12 * y + m < 12 * y' + m'
    ensures WindowStart(y, m) == WindowStart(y', m') <==> 12 * y + m == 12 * y' + m'
  {
    WindowByIndex(y, m);
    WindowByIndex(y', m');
    BoundaryOrder(MonthIndex(y, m), MonthIndex(y', m'));
    BoundaryOrder(MonthIndex(y', m'), MonthIndex(y, m));
  }

  // ----- what a window means on the calendar

  function DayOf(t: int): Civil { CivilOfDay(t / SECONDS_PER_DAY) }

  function SecondOfDay(t: int): int { t % SECONDS_PER_DAY }

  predicate OnDate(t: int, y: int, m: int)
  {
    DayOf(t).year == y && DayOf(t).month == m
  }

  predicate IsLastDay(c: Civil)
    requires Valid(c)
  {
    c.day == DaysIn(c.year, c.month)
  }

  lemma DayInMonth(y: int, m: int, d: int)
    requires 1 <= m <= 12
    ensures DayNumber(Civil(y, m, d)) == DayNumber(Civil(y, m, 1)) + d - 1
  {
  }

  lemma WindowAroundMonth(y: int, m: int)
    requires 1 <= m <= 12
    ensures var first := DayNumber(Civil(y, m, 1));
            && WindowStart(y, m) == 86400 * (first - 1)
            && WindowEnd(y, m) == 86400 * (first - 1 + DaysIn(y, m))
  {
    assert WindowStart(y, m) == SECONDS_PER_DAY * DayNumber(Civil(y, m, 0));
    WindowStartsOnLastDay(y, m);
    DayInMonth(y, m, DaysIn(y, m));
  }

  /** Day 0 of the next month is the last day of this one. */
  lemma WindowStartsOnLastDay(y: int, m: int)
    requires 1 <= m <= 12
    ensures WindowStart(y, m + 1) == 86400 * DayNumber(Civil(y, m, DaysIn(y, m)))
  {
    if m == 12 {
      YearLength(y);
      assert m / 12 == 1 && m % 12 == 0;
    } else {
      assert m / 12 == 0 && m % 12 == m;
    }
  }

  /**
   A window runs from midnight opening the last day of the previous month to midnight opening
   the last day of its own month, both included.
   */
  lemma WindowOnCalendar(y: int, m: int, t: int)
    requires 1 <= m <= 12
    ensures InWindow(y, m, t) <==>
            || (OnDate(t, y, m) && (IsLastDay(DayOf(t)) ==> SecondOfDay(t) == 0))
            || (DayOf(t) == PrevDay(Civil(y, m, 1)))
  {
    hide DayNumber, CivilOfDay, WindowStart, WindowEnd, DaysIn;
    var first := Civil(y, m, 1);
    var c, d := DayOf(t), t / SECONDS_PER_DAY;
    var f, n := DayNumber(first), DaysIn(y, m);
    assert Valid(first);
    WindowAroundMonth(y, m);
    NextDayNumber(PrevDay(first));
    DayInMonth(c.year, c.month, c.day);
    if d == f - 1 {
      CivilIsUnique(c, PrevDay(first));
    } else if f <= d < f + n {
      DayInMonth(y, m, d - f + 1);
      CivilIsUnique(c, Civil(y, m, d - f + 1));
    }
  }

  /**
   The report of a month covers the events of that month except those after midnight on its
   last day: an instant is inside the window of the month it falls in exactly when it is not
   later than midnight on that month's last day.
   */
  lemma ReportedInOwnMonth(t: int)
    ensures var c := DayOf(t);
            InWindow(c.year, c.month, t) <==> !(IsLastDay(c) && SecondOfDay(t) > 0)
  {
    var c := DayOf(t);
    WindowOnCalendar(c.year, c.month, t);
  }

  lemma LastDayOpensNextWindow(c: Civil, t: int)
    requires Valid(c) && IsLastDay(c) && t / SECONDS_PER_DAY == DayNumber(c)
    ensures InWindow(c.year, c.month + 1, t)
  {
    var lo, hi, d := WindowStart(c.year, c.month + 1), WindowEnd(c.year, c.month + 1), DayNumber(c);
    assert lo == SECONDS_PER_DAY * d by { WindowStartsOnLastDay(c.year, c.month); }
    assert hi - lo >= SECONDS_PER_DAY by { WindowLength(c.year, c.month + 1); }
    assert lo <= t <= hi;
  }

  /** What falls later than midnight on a month's last day is in the next month's window instead. */
  lemma LastDayIsReportedLate(t: int)
    requires IsLastDay(DayOf(t)) && SecondOfDay(t) > 0
    ensures var c := DayOf(t); !InWindow(c.year, c.month, t) && InWindow(c.year, c.month + 1, t)
  {
    ReportedInOwnMonth(t);
    LastDayOpensNextWindow(DayOf(t), t);
  }

  /** Noon on 31 May 2020 is such an instant. */
  lemma NoonOnLastOfMay(t: int)
    requires t == 1590926400
    ensures DayOf(t) == Civil(2020, 5, 31)
    ensures !InWindow(2020, 5, t) && InWindow(2020, 6, t)
  {
    CivilIsUnique(DayOf(t), Civil(2020, 5, 31));
    LastDayIsReportedLate(t);
  }

  /** Midnight of 31 May 2020, on the boundary between the two windows, is in both. */
  lemma MidnightIsInBothWindows(t: int)
    requires t == 1590883200
    ensures DayOf(t) == Civil(2020, 5, 31)
    ensures InWindow(2020, 5, t) && InWindow(2020, 6, t)
  {
    CivilIsUnique(DayOf(t), Civil(2020, 5, 31));
    ReportedInOwnMonth(t);
    LastDayOpensNextWindow(DayOf(t), t);
  }

  /**
   Known instants: the epoch, the days after 28 February in century years, leap and not, and arguments
   outside their range.
   */
  lemma KnownInstants()
    ensures DateUnix(1970, 1, 1) == 0
    ensures DateUnix(1900, 2, 29) == -2203891200 && DateUnix(1900, 3, 1) == -2203891200
    ensures DateUnix(2000, 2, 29) == 951782400 && DateUnix(2000, 3, 1) == 951868800
    ensures DateUnix(2100, 2, 29) == 4107542400 && DateUnix(2100, 3, 1) == 4107542400
    ensures DateUnix(2020, 13, 0) == 1609372800 && DateUnix(2020, 0, 1) == 1575158400
  {
    hide DateUnix;
    AtDay(1970, 1, 1, 0);
    AtDay(1900, 2, 29, -25508);
    AtDay(1900, 3, 1, -25508);
    AtDay(2000, 2, 29, 11016);
    AtDay(2000, 3, 1, 11017);
    AtDay(2100, 2, 29, 47541);
    AtDay(2100, 3, 1, 47541);
    AtDay(2021, 1, 0, 18627);
    AtDay(2019, 12, 1, 18231);
    OtherMonths(2020);
  }

  lemma AtDay(y: int, m: int, d: int, n: int)
    requires 1 <= m <= 12 && DayNumber(Civil(y, m, d)) == n
    ensures DateUnix(y, m, d) == 86400 * n
  {
    hide DayNumber;
  }

  lemma OtherMonths(y: int)
    ensures DateUnix(y, 13, 0) == DateUnix(y + 1, 1, 0) && DateUnix(y, 0, 1) == DateUnix(y - 1, 12, 1)
  {
    hide DayNumber;
  }

  /** An instant strictly between two adjacent boundaries is in that window and no other. */
  lemma OnlyWindow(k: int, j: int, t: int)
    requires Boundary(k) < t < Boundary(k + 1)
    ensures InRange(t, Boundary(j), Boundary(j + 1)) <==> j == k
  {
    hide Boundary;
    BoundaryOrder(k, j);
    BoundaryOrder(j, k);
    BoundaryOrder(k + 1, j);
    BoundaryOrder(j + 1, k);
  }

  lemma EpochBoundaries(k: int)
    requires k == 12 * 1970
    ensures Boundary(k) == -86400 && Boundary(k + 1) == 2592000
  {
    assert k / 12 == 1970 && k % 12 == 0;
    assert (k + 1) / 12 == 1970 && (k + 1) % 12 == 1;
  }

  /** The instant 0, stored for an unmerged pull request, lies only in January 1970 and its aliases. */
  lemma EpochWindow(y: int, m: int)
    ensures InWindow(y, m, 0) <==> 12 * y + m == 12 * 1970 + 1
  {
    WindowByIndex(y, m);
    EpochBoundaries(MonthIndex(1970, 1));
    OnlyWindow(MonthIndex(1970, 1), MonthIndex(y, m), 0);
  }
}
