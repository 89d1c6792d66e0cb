/** The streak calculator of db.py (`_calculate_streak_from_dates`): how many consecutive
    days, ending today, a newest-first list of activity dates covers. */
module Streaks {
  import opened Calendar
  import opened Sorting

  /** Reference definition: a streak ending `today` is non-empty when the first date is
      `today`, and then continues with a streak ending the day before in the rest. */
  function Streak(dates: seq<Date>, today: Date): (k: nat)
    ensures k <= |dates|
  {
    if dates == [] || dates[0] != today then 0
    else 1 + Streak(dates[1..], Prev(today))
  }

  /** The loop of the source: walk the list, counting while the i-th date lies exactly
      i days before today, and stop at the first one that does not. */
  method CalculateStreak(dates: seq<Date>, today: Date) returns (streak: nat)
    ensures streak == Streak(dates, today)
  {
    if |dates| == 0 {
      return 0;
    }
    streak := 0;
    var i := 0;
    while i < |dates|
      invariant 0 <= i <= |dates| && streak == i
      invariant forall j :: 0 <= j < i ==> DaysBetween(today, dates[j]) == j
    {
      if DaysBetween(today, dates[i]) == streak {
        streak := streak + 1;
      } else {
        break;
      }
      i := i + 1;
    }
    StreakCharacterized(dates, today);
  }

  // ---------------------------------------------------------------------------
  // Properties

  /** The streak is the longest prefix whose i-th entry is i days old. */
  lemma {:induction false} StreakCharacterized(dates: seq<Date>, today: Date)
    ensures var k := Streak(dates, today);
            (forall i :: 0 <= i < k ==> DaysBetween(today, dates[i]) == i) &&
            (k < |dates| ==> DaysBetween(today, dates[k]) != k)
  {
    if dates == [] {
    } else if dates[0] != today {
      OrdinalOrder(dates[0], today);
    } else {
      var rest, yesterday := dates[1..], Prev(today);
      StreakCharacterized(rest, yesterday);
      PrevIsPredecessor(today);
      var k := Streak(dates, today);
      forall i | 0 < i < k ensures DaysBetween(today, dates[i]) == i {
        assert dates[i] == rest[i - 1];
      }
      if k < |dates| {
        assert dates[k] == rest[k - 1];
      }
    }
  }

  /** The day `i` days before `today`. */
  function DaysAgo(today: Date, i: int): Date {
    AddDays(today, -i)
  }

  /** A streak of `k` means the first `k` entries are today, yesterday, …, today - (k-1). */
  lemma StreakEntriesAreConsecutiveDays(dates: seq<Date>, today: Date, i: int)
    requires 0 <= i < Streak(dates, today)
    ensures dates[i] == DaysAgo(today, i)
  {
    StreakCharacterized(dates, today);
    AddDaysOrdinal(today, -i);
    OrdinalOrder(dates[i], DaysAgo(today, i));
  }

  /** An empty list has no streak; a list whose newest date is not today has none either. */
  lemma NoStreakWithoutToday(dates: seq<Date>, today: Date)
    requires dates == [] || dates[0] != today
    ensures Streak(dates, today) == 0
  {
  }

  /** Examples: three days in a row ending today give 3, a list missing today
      gives 0, a gap after today gives 1. */
  lemma StreakExamples(today: Date)
    ensures Streak([today, Prev(today), Prev(Prev(today))], today) == 3
    ensures Streak([Prev(today), Prev(Prev(today))], today) == 0
    ensures Streak([today, Prev(Prev(today))], today) == 1
  {
    PrevIsPredecessor(today);
    PrevIsPredecessor(Prev(today));
    var y1, y2 := Prev(today), Prev(Prev(today));
    assert y1 != today && y2 != y1 && y2 != today;
    assert Streak([y2], y2) == 1 by {
      assert [y2][1..] == [];
    }
    assert Streak([y1, y2], y1) == 2 by {
      assert [y1, y2][1..] == [y2];
    }
    assert [today, y1, y2][1..] == [y1, y2];
    assert [today, y2][1..] == [y2];
  }

  /** The same date twice in a row ends the count at the second copy. */
  lemma DuplicateStopsStreak(dates: seq<Date>, today: Date, j: int)
    requires 0 <= j && j + 1 < |dates| && dates[j] == dates[j + 1]
    ensures Streak(dates, today) <= j + 1
  {
    StreakCharacterized(dates, today);
  }

  /** Distinct dates sorted newest first have strictly falling day numbers. */
  lemma StrictlyFalling(s: seq<Date>, i: int, j: int)
    requires DescendingBy(s, Ordinal) && NoDuplicates(s)
    requires 0 <= i < j < |s|
    ensures Ordinal(s[i]) > Ordinal(s[j])
  {
    OrdinalOrder(s[i], s[j]);
  }

  /** On strictly falling dates none of which is after today, the day just before the
      streak is missing from the whole list. */
  lemma DayBeforeStreakMissing(s: seq<Date>, today: Date)
    requires DescendingBy(s, Ordinal) && NoDuplicates(s)
    requires forall i :: 0 <= i < |s| ==> Ordinal(s[i]) <= Ordinal(today)
    ensures DaysAgo(today, Streak(s, today)) !in s
  {
    var k: int := Streak(s, today);
    StreakCharacterized(s, today);
    AddDaysOrdinal(today, -k);
    var gone := DaysAgo(today, k);
    if j :| 0 <= j < |s| && s[j] == gone {
      if j > k {
        StrictlyFalling(s, k, j);
        if k > 0 {
          StrictlyFalling(s, k - 1, k);
        }
      }
    }
  }

  /** For the dates of one user's records (no date twice, none after today) sorted newest
      first as the store returns them, the streak is the number of consecutive days ending
      today that all carry a record: each of them is present and the day before is not. */
  lemma StreakCountsConsecutiveDays(dates: seq<Date>, today: Date)
    requires NoDuplicates(dates)
    requires forall i :: 0 <= i < |dates| ==> !Before(today, dates[i])
    ensures var k := Streak(SortDesc(dates, Ordinal), today);
            (forall i :: 0 <= i < k ==> DaysAgo(today, i) in dates) &&
            DaysAgo(today, k) !in dates
  {
    var s := SortDesc(dates, Ordinal);
    var k := Streak(s, today);
    SortKeepsDistinct(dates, Ordinal);
    forall i | 0 <= i < k ensures DaysAgo(today, i) in dates {
      StreakEntriesAreConsecutiveDays(s, today, i);
      assert s[i] in multiset(dates);
    }
    forall i | 0 <= i < |s| ensures Ordinal(s[i]) <= Ordinal(today) {
      assert s[i] in multiset(dates);
      var m :| 0 <= m < |dates| && dates[m] == s[i];
      OrdinalOrder(today, dates[m]);
    }
    DayBeforeStreakMissing(s, today);
    assert DaysAgo(today, k) !in multiset(s);
  }
}
