/** Proleptic Gregorian calendar arithmetic, as Python's `datetime.date` does it.
    The record store keys every mark by a "%Y-%m-%d" string; the model keeps the
    (year, month, day) triple and compares triples lexicographically, which is the
    order SQLite uses for those strings (`BETWEEN`, `ORDER BY date DESC`). */
module Calendar {

  datatype Ymd = Ymd(year: int, month: int, day: int)

  predicate IsLeap(y: int) {
    y % 4 == 0 && (y % 100 != 0 || y % 400 == 0)
  }

  function DaysInMonth(y: int, m: int): (n: int)
    requires 1 <= m <= 12
    ensures 28 <= n <= 31
  {
    if m == 2 then (if IsLeap(y) then 29 else 28)
    else if m == 4 || m == 6 || m == 9 || m == 11 then 30
    else 31
  }

  predicate IsValid(d: Ymd) {
    1 <= d.month <= 12 && 1 <= d.day <= DaysInMonth(d.year, d.month)
  }

  /** A day of the proleptic Gregorian calendar. The year is unbounded here, while
      `datetime.date` accepts only the years 1 to 9999. */
  type Date = d: Ymd | IsValid(d) witness Ymd(2000, 1, 1)

  function DaysInYear(y: int): int {
    if IsLeap(y) then 366 else 365
  }

  /** Days in all years before `y` (year 1 starts at 0), Python's `_days_before_year`. */
  function DaysBeforeYear(y: int): int {
    var p := y - 1;
    p * 365 + p / 4 - p / 100 + p / 400
  }

  /** Days in the months of year `y` before month `m`, Python's `_days_before_month`. */
  function DaysBeforeMonth(y: int, m: int): int
    requires 1 <= m <= 12
  {
    var table := [0, 31, 59, 90, 120, 151, 181, 212, 243, 273, 304, 334];
    table[m - 1] + (if m > 2 && IsLeap(y) then 1 else 0)
  }

  /** `date.toordinal()`: 0001-01-01 is day 1. */
  function Ordinal(d: Date): int {
    DaysBeforeYear(d.year) + DaysBeforeMonth(d.year, d.month) + d.day
  }

  /** `date.weekday()`: Monday is 0, Sunday is 6. */
  function Weekday(d: Date): int {
    (Ordinal(d) + 6) % 7
  }

  /** Whole days from `b` to `a`: `(a - b).days`. */
  function DaysBetween(a: Date, b: Date): int {
    Ordinal(a) - Ordinal(b)
  }

  /** Lexicographic order of the triples (= order of their "%Y-%m-%d" strings). */
  predicate Before(a: Date, b: Date) {
    a.year < b.year ||
    (a.year == b.year && (a.month < b.month || (a.month == b.month && a.day < b.day)))
  }

  /** SQL `d BETWEEN lo AND hi` on the date strings. */
  predicate Between(d: Date, lo: Date, hi: Date) {
    !Before(d, lo) && !Before(hi, d)
  }

  /** The following day: `d + timedelta(days=1)`. */
  function Next(d: Date): Date {
    if d.day < DaysInMonth(d.year, d.month) then Ymd(d.year, d.month, d.day + 1)
    else if d.month < 12 then Ymd(d.year, d.month + 1, 1)
    else Ymd(d.year + 1, 1, 1)
  }

  /** The previous day: `d - timedelta(days=1)`. */
  function Prev(d: Date): Date {
    if d.day > 1 then Ymd(d.year, d.month, d.day - 1)
    else if d.month > 1 then Ymd(d.year, d.month - 1, DaysInMonth(d.year, d.month - 1))
    else Ymd(d.year - 1, 12, 31)
  }

  /** `d + timedelta(days=n)` for any integer `n`. */
  function AddDays(d: Date, n: int): Date
    decreases if n < 0 then -n else n
  {
    if n == 0 then d
    else if n > 0 then AddDays(Next(d), n - 1)
    else AddDays(Prev(d), n + 1)
  }

  /** `d.replace(day=k)` for a day every month has. */
  function WithDay(d: Date, k: int): Date
    requires 1 <= k <= 28
  {
    Ymd(d.year, d.month, k)
  }

  // ---------------------------------------------------------------------------
  // The ordinal is a faithful day count

  /** Leap-year rule: year `y` adds 366 days exactly when the count of multiples of 4, 100
      and 400 passed grows by the right amounts. */
  lemma YearStep(y: int)
    ensures DaysBeforeYear(y + 1) == DaysBeforeYear(y) + DaysInYear(y)
  {
    var p := y - 1;
    assert (p + 1) / 4 == p / 4 + (if y % 4 == 0 then 1 else 0) by {}
    assert (p + 1) / 100 == p / 100 + (if y % 100 == 0 then 1 else 0) by {}
    assert (p + 1) / 400 == p / 400 + (if y % 400 == 0 then 1 else 0) by {}
  }

  lemma {:induction false} DaysBeforeYearGrows(y1: int, y2: int)
    requires y1 < y2
    ensures DaysBeforeYear(y1) + DaysInYear(y1) <= DaysBeforeYear(y2)
    decreases y2 - y1
  {
    YearStep(y1);
    if y1 + 1 < y2 {
      DaysBeforeYearGrows(y1 + 1, y2);
    }
  }

  /** Every day of year `y` has an ordinal inside that year's block of days. */
  lemma OrdinalWithinYear(d: Date)
    ensures DaysBeforeYear(d.year) < Ordinal(d) <= DaysBeforeYear(d.year) + DaysInYear(d.year)
  {
  }

  /** The successor has the next ordinal. */
  lemma NextIsSuccessor(d: Date)
    ensures Ordinal(Next(d)) == Ordinal(d) + 1
  {
    if d.day == DaysInMonth(d.year, d.month) && d.month == 12 {
      YearStep(d.year);
    }
  }

  /** The predecessor has the previous ordinal. */
  lemma PrevIsPredecessor(d: Date)
    ensures Ordinal(Prev(d)) == Ordinal(d) - 1
  {
    if d.day == 1 && d.month == 1 {
      YearStep(d.year - 1);
    }
  }

  /** Adding `n` days moves the ordinal by exactly `n`. */
  lemma {:induction false} AddDaysOrdinal(d: Date, n: int)
    ensures Ordinal(AddDays(d, n)) == Ordinal(d) + n
    decreases if n < 0 then -n else n
  {
    if n > 0 {
      NextIsSuccessor(d);
      AddDaysOrdinal(Next(d), n - 1);
    } else if n < 0 {
      PrevIsPredecessor(d);
      AddDaysOrdinal(Prev(d), n + 1);
    }
  }

  /** The string order of two dates is the order of their ordinals. */
  lemma OrdinalMonotone(a: Date, b: Date)
    requires Before(a, b)
    ensures Ordinal(a) < Ordinal(b)
  {
    if a.year < b.year {
      OrdinalWithinYear(a);
      OrdinalWithinYear(b);
      DaysBeforeYearGrows(a.year, b.year);
    }
  }

  lemma OrdinalOrder(a: Date, b: Date)
    ensures Before(a, b) <==> Ordinal(a) < Ordinal(b)
    ensures a == b <==> Ordinal(a) == Ordinal(b)
  {
    if Before(a, b) {
      OrdinalMonotone(a, b);
    } else if Before(b, a) {
      OrdinalMonotone(b, a);
    } else {
      assert a == b;
    }
  }

  /** `SQL BETWEEN` on date strings is an interval of ordinals. */
  lemma BetweenIsOrdinalInterval(d: Date, lo: Date, hi: Date)
    ensures Between(d, lo, hi) <==> Ordinal(lo) <= Ordinal(d) <= Ordinal(hi)
  {
    OrdinalOrder(d, lo);
    OrdinalOrder(hi, d);
  }

  // ---------------------------------------------------------------------------
  // The month and week windows of the statistics queries

  /** `now.replace(day=1)`: the first day of the current month. */
  function MonthStart(today: Date): (first: Date)
    ensures first.year == today.year && first.month == today.month && first.day == 1
    ensures !Before(today, first)
  {
    WithDay(today, 1)
  }

  /** `(now.replace(day=28) + timedelta(days=4)).replace(day=1) - timedelta(days=1)`:
      the last day of the current month. */
  function MonthEnd(today: Date): (last: Date)
    ensures last.year == today.year && last.month == today.month
    ensures last.day == DaysInMonth(today.year, today.month)
    ensures !Before(last, today)
  {
    FourDaysAfterThe28th(today);
    Prev(WithDay(AddDays(WithDay(today, 28), 4), 1))
  }

  /** Moving from `today` to weekday `j` of the same week lands on a day with weekday `j`,
      `j - Weekday(today)` days away. */
  lemma ShiftToWeekday(today: Date, j: int)
    requires 0 <= j < 7
    ensures Weekday(AddDays(today, j - Weekday(today))) == j
    ensures Ordinal(AddDays(today, j - Weekday(today))) == Ordinal(today) + j - Weekday(today)
  {
    AddDaysOrdinal(today, j - Weekday(today));
    CycleShift(Ordinal(today), j);
  }

  /** `now - timedelta(days=now.weekday())`: the Monday of the current week. */
  function WeekStart(today: Date): (monday: Date)
    ensures Weekday(monday) == 0
    ensures Ordinal(monday) == Ordinal(today) - Weekday(today)
    ensures 0 <= Ordinal(today) - Ordinal(monday) < 7
  {
    ShiftToWeekday(today, 0);
    AddDays(today, 0 - Weekday(today))
  }

  /** `now + timedelta(days=6 - now.weekday())`: the Sunday of the current week. */
  function WeekEnd(today: Date): (sunday: Date)
    ensures Weekday(sunday) == 6
    ensures 0 <= Ordinal(sunday) - Ordinal(today) < 7
    ensures Ordinal(sunday) == Ordinal(WeekStart(today)) + 6
  {
    ShiftToWeekday(today, 6);
    AddDays(today, 6 - Weekday(today))
  }

  /** Four days after the 28th always lands in the next month (on its 1st to 4th). */
  lemma FourDaysAfterThe28th(today: Date)
    ensures var n := AddDays(WithDay(today, 28), 4);
            if today.month < 12 then n.year == today.year && n.month == today.month + 1
            else n.year == today.year + 1 && n.month == 1
  {
  }

  /** The month window runs from the 1st to the last day of the current month. */
  lemma MonthWindowIsCalendarMonth(today: Date)
    ensures MonthStart(today) == Ymd(today.year, today.month, 1)
    ensures MonthEnd(today) == Ymd(today.year, today.month, DaysInMonth(today.year, today.month))
  {
    FourDaysAfterThe28th(today);
  }

  /** A date is in the month window exactly when it is in the month of `today`. */
  lemma InMonthWindow(d: Date, today: Date)
    ensures Between(d, MonthStart(today), MonthEnd(today)) <==>
            d.year == today.year && d.month == today.month
  {
    MonthWindowIsCalendarMonth(today);
  }

  /** Stepping back to the start of a 7-day cycle and forward `j` days lands on weekday `j`. */
  lemma CycleShift(o: int, j: int)
    requires 0 <= j < 7
    ensures (o - (o + 6) % 7 + j + 6) % 7 == j
  {
    var w := (o + 6) % 7;
    var q := (o + 6) / 7;
    assert o + 6 - w == 7 * q;
    assert o - w + j + 6 == 7 * q + j;
  }

  /** The week window runs from the Monday to the Sunday of the week of `today`. */
  lemma WeekWindowIsCalendarWeek(today: Date)
    ensures Weekday(WeekStart(today)) == 0 && Weekday(WeekEnd(today)) == 6
    ensures Ordinal(WeekEnd(today)) == Ordinal(WeekStart(today)) + 6
    ensures Ordinal(WeekStart(today)) <= Ordinal(today) <= Ordinal(WeekEnd(today))
  {
  }

  /** A date is in the week window exactly when it is one of the seven days from that Monday. */
  lemma InWeekWindow(d: Date, today: Date)
    ensures Between(d, WeekStart(today), WeekEnd(today)) <==>
            0 <= Ordinal(d) - Ordinal(WeekStart(today)) < 7
  {
    WeekWindowIsCalendarWeek(today);
    BetweenIsOrdinalInterval(d, WeekStart(today), WeekEnd(today));
  }
}
