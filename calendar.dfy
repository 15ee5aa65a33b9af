/** The pure logic both WorkoutCalendar components share: the day toggle, month
    navigation with year carry, the Gregorian month lengths and weekdays that date-fns
    supplies to the grid, and the future-day test. */
module Calendar {
  import opened Seqs

  /** `prev.includes(day) ? prev.filter(d => d !== day) : [...prev, day]`. */
  function Toggle(days: seq<int>, day: int): (r: seq<int>)
    ensures day in r <==> day !in days
    ensures RemoveAll(r, day) == RemoveAll(days, day)
    ensures day !in days ==> r == days + [day]
  {
    if day in days then
      RemoveAllIdempotent(days, day);
      RemoveAll(days, day)
    else
      RemoveAllAppend(days, [day], day);
      RemoveAllAbsent(days, day);
      days + [day]
  }

  /** Every other day keeps its number of occurrences. */
  lemma ToggleKeepsOtherDays(days: seq<int>, day: int, other: int)
    requires other != day
    ensures Count(Toggle(days, day), other) == Count(days, other)
  {
    var r := Toggle(days, day);
    assert multiset(RemoveAll(r, day))[other] == multiset(r)[other];
    assert multiset(RemoveAll(days, day))[other] == multiset(days)[other];
  }

  /** Toggling an absent day twice restores the list exactly. */
  lemma ToggleTwiceAbsent(days: seq<int>, day: int)
    requires day !in days
    ensures Toggle(Toggle(days, day), day) == days
  {
    RemoveAllAppend(days, [day], day);
    RemoveAllAbsent(days, day);
  }

  /** Toggling a day that occurs at most once twice restores the same days with the same
      multiplicities; a present day comes back at the end of the list. */
  lemma ToggleTwiceSameDays(days: seq<int>, day: int)
    requires Count(days, day) <= 1
    ensures multiset(Toggle(Toggle(days, day), day)) == multiset(days)
  {
    if day !in days {
      ToggleTwiceAbsent(days, day);
    } else {
      var once := Toggle(days, day);
      assert once == RemoveAll(days, day);
      assert Toggle(once, day) == once + [day];
      assert multiset(days)[day] == 1;
    }
  }

  /** The order is not restored when the day was present and not last. */
  lemma ToggleTwiceMovesPresentDay()
    ensures Toggle(Toggle([3, 5], 3), 3) == [5, 3]
  {
    assert RemoveAll([3, 5], 3) == [5] by {
      assert [3, 5][1..] == [5];
      assert [5][1..] == [];
    }
    assert 3 !in [5];
  }

  /** A list without duplicates stays without duplicates. */
  lemma ToggleKeepsNoDuplicates(days: seq<int>, day: int)
    requires NoDuplicates(days)
    ensures NoDuplicates(Toggle(days, day))
  {
    if day in days {
      RemoveAllKeepsNoDuplicates(days, day);
    }
  }

  // ---- dates ----

  predicate IsLeapYear(year: int)
  {
    (year % 4 == 0 && year % 100 != 0) || year % 400 == 0
  }

  /** Length of month 1..12 of the Gregorian calendar. */
  function DaysInMonth(year: int, month: int): (r: int)
    requires 1 <= month <= 12
    ensures 28 <= r <= 31
    ensures month == 2 ==> (r == 29 <==> IsLeapYear(year))
  {
    if month == 2 then (if IsLeapYear(year) then 29 else 28)
    else if month == 4 || month == 6 || month == 9 || month == 11 then 30
    else 31
  }

  /** Days of the year before the first of `month` (1..13). */
  function DaysBeforeMonth(year: int, month: int): (r: int)
    requires 1 <= month <= 13
  {
    if month == 1 then 0 else DaysBeforeMonth(year, month - 1) + DaysInMonth(year, month - 1)
  }

  /** Days from 0001-01-01 to the first of `year` in the proleptic Gregorian calendar. */
  function DaysBeforeYear(year: int): int
  {
    var y := year - 1;
    365 * y + y / 4 - y / 100 + y / 400
  }

  /** Day number of a date, counted from 0001-01-01 (a Monday) as day 0. */
  function DayNumber(year: int, month: int, day: int): int
    requires 1 <= month <= 12
  {
    DaysBeforeYear(year) + DaysBeforeMonth(year, month) + day - 1
  }

  /** `Date.getDay()`: 0 for Sunday through 6 for Saturday. */
  function Weekday(year: int, month: int, day: int): (r: int)
    requires 1 <= month <= 12
    ensures 0 <= r < 7
  {
    (DayNumber(year, month, day) + 1) % 7
  }

  /** The twelve months add up to the length of the year. */
  lemma DaysInYear(year: int)
    ensures DaysBeforeMonth(year, 13) == if IsLeapYear(year) then 366 else 365
  {
    assert DaysBeforeMonth(year, 2) == 31;
    assert DaysBeforeMonth(year, 3) == 31 + DaysInMonth(year, 2);
    assert DaysBeforeMonth(year, 4) == 62 + DaysInMonth(year, 2);
    assert DaysBeforeMonth(year, 5) == 92 + DaysInMonth(year, 2);
    assert DaysBeforeMonth(year, 6) == 123 + DaysInMonth(year, 2);
    assert DaysBeforeMonth(year, 7) == 153 + DaysInMonth(year, 2);
    assert DaysBeforeMonth(year, 8) == 184 + DaysInMonth(year, 2);
    assert DaysBeforeMonth(year, 9) == 215 + DaysInMonth(year, 2);
    assert DaysBeforeMonth(year, 10) == 245 + DaysInMonth(year, 2);
    assert DaysBeforeMonth(year, 11) == 276 + DaysInMonth(year, 2);
    assert DaysBeforeMonth(year, 12) == 306 + DaysInMonth(year, 2);
    assert DaysBeforeMonth(year, 13) == 337 + DaysInMonth(year, 2);
  }

  /** Integer division by a positive constant steps up by one exactly at its multiples. */
  lemma DivStep(n: int, k: int)
    requires k > 0
    ensures (n + 1) / k == n / k + (if (n + 1) % k == 0 then 1 else 0)
  {
    var q, r := n / k, n % k;
    if r == k - 1 {
      assert n + 1 == k * (q + 1);
      DivOfMultiple(n + 1, k, q + 1);
    } else {
      assert n + 1 == k * q + (r + 1);
      DivWithRemainder(n + 1, k, q, r + 1);
    }
  }

  lemma DivOfMultiple(n: int, k: int, q: int)
    requires k > 0 && n == k * q
    ensures n / k == q && n % k == 0
  {
    DivWithRemainder(n, k, q, 0);
  }

  lemma DivWithRemainder(n: int, k: int, q: int, r: int)
    requires k > 0 && 0 <= r < k && n == k * q + r
    ensures n / k == q && n % k == r
  {
    var q', r' := n / k, n % k;
    assert k * (q - q') == r' - r;
    if q > q' {
      assert k * (q - q') >= k by { MulAtLeast(k, q - q'); }
    } else if q < q' {
      assert k * (q' - q) >= k by { MulAtLeast(k, q' - q); }
    }
  }

  lemma MulAtLeast(k: int, m: int)
    requires k > 0 && m >= 1
    ensures k * m >= k
  {
  }

  /** A year has 366 days exactly when it is a leap year. */
  lemma YearLength(year: int)
    ensures DaysBeforeYear(year + 1) - DaysBeforeYear(year) == if IsLeapYear(year) then 366 else 365
  {
    var y := year - 1;
    DivStep(y, 4);
    DivStep(y, 100);
    DivStep(y, 400);
    assert (y + 1) % 400 == 0 ==> (y + 1) % 100 == 0 by {
      if (y + 1) % 400 == 0 {
        DivOfMultiple(y + 1, 100, 4 * ((y + 1) / 400));
      }
    }
    assert (y + 1) % 100 == 0 ==> (y + 1) % 4 == 0 by {
      if (y + 1) % 100 == 0 {
        DivOfMultiple(y + 1, 4, 25 * ((y + 1) / 100));
      }
    }
  }

  lemma WeekdayShift(a: int, n: int)
    ensures (a + n + 1) % 7 == ((a + 1) % 7 + n) % 7
  {
    var q := (a + 1) / 7;
    assert a + n + 1 == ((a + 1) % 7 + n) + 7 * q;
    ModAddMultiple((a + 1) % 7 + n, q);
  }

  lemma ModAddMultiple(x: int, q: int)
    ensures (x + 7 * q) % 7 == x % 7
  {
    DivWithRemainder(x + 7 * q, 7, x / 7 + q, x % 7);
  }

  // ---- navigation (months are 0..11, as `Date.getMonth()` returns them) ----

  predicate ValidMonth(month0: int) { 0 <= month0 < 12 }

  /** Months since year 0, so that consecutive months differ by one. */
  function MonthIndex(year: int, month0: int): int { 12 * year + month0 }

  /** `addMonths(currentDate, 1)`, on (year, month). */
  function NextMonth(year: int, month0: int): (r: (int, int))
    requires ValidMonth(month0)
    ensures ValidMonth(r.1)
    ensures MonthIndex(r.0, r.1) == MonthIndex(year, month0) + 1
  {
    if month0 == 11 then (year + 1, 0) else (year, month0 + 1)
  }

  /** `subMonths(currentDate, 1)`, on (year, month). */
  function PrevMonth(year: int, month0: int): (r: (int, int))
    requires ValidMonth(month0)
    ensures ValidMonth(r.1)
    ensures MonthIndex(r.0, r.1) == MonthIndex(year, month0) - 1
  {
    if month0 == 0 then (year - 1, 11) else (year, month0 - 1)
  }

  /** The first of the next month falls right after the last day of this one, so the
      weekdays of consecutive grids line up. */
  lemma NextMonthStartsAfterThisOne(year: int, month0: int)
    requires ValidMonth(month0)
    ensures var (ny, nm) := NextMonth(year, month0);
      DayNumber(ny, nm + 1, 1) == DayNumber(year, month0 + 1, 1) + DaysInMonth(year, month0 + 1)
      && Weekday(ny, nm + 1, 1) == (Weekday(year, month0 + 1, 1) + DaysInMonth(year, month0 + 1)) % 7
  {
    var (ny, nm) := NextMonth(year, month0);
    var n := DaysInMonth(year, month0 + 1);
    if month0 == 11 {
      YearLength(year);
      DaysInYear(year);
      assert DaysBeforeMonth(year, 13) == DaysBeforeMonth(year, 12) + n;
    } else {
      assert DaysBeforeMonth(year, month0 + 2) == DaysBeforeMonth(year, month0 + 1) + n;
    }
    assert DayNumber(ny, nm + 1, 1) == DayNumber(year, month0 + 1, 1) + n;
    WeekdayShift(DayNumber(year, month0 + 1, 1), n);
  }

  /** Anchors of the weekday count. */
  lemma KnownWeekdays()
    ensures Weekday(1970, 1, 1) == 4  // Thursday
    ensures Weekday(2025, 3, 1) == 6  // Saturday
    ensures Weekday(2000, 2, 29) == 2 // Tuesday
  {
  }

  // ---- the grid ----

  /** The day buttons of a month: 1..DaysInMonth, each once, in order. */
  function GridDays(year: int, month: int): (r: seq<int>)
    requires 1 <= month <= 12
    ensures |r| == DaysInMonth(year, month)
    ensures forall d :: d in r <==> 1 <= d <= DaysInMonth(year, month)
    ensures forall i, j :: 0 <= i < j < |r| ==> r[i] < r[j]
  {
    var r := seq(DaysInMonth(year, month), i => i + 1);
    assert forall d :: 1 <= d <= DaysInMonth(year, month) ==> d in r by {
      forall d | 1 <= d <= DaysInMonth(year, month)
        ensures d in r
      {
        assert r[d - 1] == d;
      }
    }
    r
  }

  /** The numbers 1..n. */
  function DayRange(n: nat): (r: set<int>)
    ensures |r| == n
    ensures forall d :: d in r <==> 1 <= d <= n
  {
    if n == 0 then {} else
      assert n !in DayRange(n - 1);
      DayRange(n - 1) + {n}
  }

  lemma {:induction false} DistinctCard(days: seq<int>)
    requires NoDuplicates(days)
    ensures |set d | d in days| == |days|
  {
    if days != [] {
      var rest := days[..|days| - 1];
      var last := days[|days| - 1];
      assert NoDuplicates(rest);
      DistinctCard(rest);
      assert days == rest + [last];
      assert last !in rest;
      assert (set d | d in days) == (set d | d in rest) + {last};
    }
  }

  /** A month's marked days, kept without duplicates and within the grid, number at
      most the days of the month: the monthly figure never exceeds the grid. */
  lemma MonthlyCountBound(days: seq<int>, year: int, month: int)
    requires 1 <= month <= 12
    requires NoDuplicates(days)
    requires forall d :: d in days ==> 1 <= d <= DaysInMonth(year, month)
    ensures |days| <= DaysInMonth(year, month)
  {
    DistinctCard(days);
    var grid := DayRange(DaysInMonth(year, month));
    assert (set d | d in days) <= grid;
    SubsetCard((set d | d in days), grid);
  }

  lemma SubsetCard(a: set<int>, b: set<int>)
    requires a <= b
    ensures |a| <= |b|
  {
    assert b == a + (b - a);
    assert a * (b - a) == {};
  }

  /** The blank cells before the 1st: its weekday. */
  function LeadingBlanks(year: int, month: int): (r: int)
    requires 1 <= month <= 12
    ensures 0 <= r <= 6
  {
    Weekday(year, month, 1)
  }

  /** A date given as (year, month 0..11, day of month). */
  datatype Date = Date(year: int, month0: int, day: int)

  /** `day > new Date()` for a day button: its midnight is later than the current
      instant exactly when its date is later than today's date. */
  predicate IsFuture(year: int, month0: int, day: int, now: Date)
    ensures year > now.year ==> IsFuture(year, month0, day, now)
    ensures IsFuture(year, month0, day, now) ==> year >= now.year
  {
    year > now.year
    || (year == now.year && month0 > now.month0)
    || (year == now.year && month0 == now.month0 && day > now.day)
  }

  /** Later months start later within a year. */
  lemma {:induction false} DaysBeforeMonthMonotone(year: int, m1: int, m2: int)
    requires 1 <= m1 <= m2 <= 13
    ensures DaysBeforeMonth(year, m1) <= DaysBeforeMonth(year, m2)
  {
    if m1 < m2 {
      DaysBeforeMonthMonotone(year, m1, m2 - 1);
    }
  }

  /** Later years start later. */
  lemma {:induction false} DaysBeforeYearMonotone(y1: int, y2: int)
    requires y1 <= y2
    ensures DaysBeforeYear(y1) <= DaysBeforeYear(y2)
    decreases y2 - y1
  {
    if y1 < y2 {
      DaysBeforeYearMonotone(y1, y2 - 1);
      YearLength(y2 - 1);
    }
  }

  /** A date's day number lies within its year. */
  lemma DayWithinYear(year: int, month: int, day: int)
    requires 1 <= month <= 12 && 1 <= day <= DaysInMonth(year, month)
    ensures DaysBeforeYear(year) <= DayNumber(year, month, day) < DaysBeforeYear(year + 1)
  {
    DaysBeforeMonthMonotone(year, 1, month);
    DaysBeforeMonthMonotone(year, month + 1, 13);
    assert DaysBeforeMonth(year, month + 1) == DaysBeforeMonth(year, month) + DaysInMonth(year, month);
    DaysInYear(year);
    YearLength(year);
  }

  /** A date before another in the same year has a smaller day number. */
  lemma DayNumberWithinYearOrder(year: int, m1: int, d1: int, m2: int, d2: int)
    requires 1 <= m1 < m2 <= 12 && 1 <= d1 <= DaysInMonth(year, m1) && 1 <= d2
    ensures DayNumber(year, m1, d1) < DayNumber(year, m2, d2)
  {
    DaysBeforeMonthMonotone(year, m1 + 1, m2);
  }

  /** The disable rule agrees with the day count: a day button is in the future exactly
      when its day number is greater than today's. */
  lemma IsFutureIffLaterDay(year: int, month0: int, day: int, now: Date)
    requires ValidMonth(month0) && 1 <= day <= DaysInMonth(year, month0 + 1)
    requires ValidMonth(now.month0) && 1 <= now.day <= DaysInMonth(now.year, now.month0 + 1)
    ensures IsFuture(year, month0, day, now) <==> DayNumber(year, month0 + 1, day) > DayNumber(now.year, now.month0 + 1, now.day)
  {
    var a := DayNumber(year, month0 + 1, day);
    var b := DayNumber(now.year, now.month0 + 1, now.day);
    DayWithinYear(year, month0 + 1, day);
    DayWithinYear(now.year, now.month0 + 1, now.day);
    if year < now.year {
      DaysBeforeYearMonotone(year + 1, now.year);
    } else if year > now.year {
      DaysBeforeYearMonotone(now.year + 1, year);
    } else if month0 < now.month0 {
      DayNumberWithinYearOrder(year, month0 + 1, day, now.month0 + 1, now.day);
    } else if month0 > now.month0 {
      DayNumberWithinYearOrder(year, now.month0 + 1, now.day, month0 + 1, day);
    }
  }
}
