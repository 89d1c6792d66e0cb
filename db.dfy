/** The record store of db.py: the four tables `users`, `attendance`, `wakeup` and `study`
    held in memory, the operations that insert and update their rows, and the read-only
    queries (level, streaks, month and week statistics, experience ranking). "Today" is a
    parameter instead of a clock read. */
module Db {
  import opened Calendar
  import opened Levels
  import opened Sorting
  import opened Streaks

  datatype Option<T> = None | Some(value: T)

  type UserId = int

  /** A row of `users (user_id, nickname, exp)`. */
  datatype User = User(id: UserId, nickname: string, exp: int)

  /** A row of `attendance (user_id, date)` or of `wakeup (user_id, date)`. */
  datatype Mark = Mark(user: UserId, date: Date)

  /** A row of `study (user_id, date, minutes)`. */
  datatype StudyRow = StudyRow(user: UserId, date: Date, minutes: int)

  /** The dictionary returned by `get_monthly_stats` and `get_weekly_stats`. */
  datatype Stats = Stats(attendance: nat, wakeup: nat, studyDays: nat, studyMinutes: int, exp: int)

  /** The floor for a day to count as a study day. */
  const MinStudyMinutes := 10

  // ---------------------------------------------------------------------------
  // The users table

  ghost predicate UniqueIds(users: seq<User>) {
    forall i, j :: 0 <= i < j < |users| ==> users[i].id != users[j].id
  }

  /** `SELECT … FROM users WHERE user_id=?` followed by `fetchone()`: the first matching row. */
  function UserIndex(users: seq<User>, id: UserId): (r: Option<nat>)
    ensures r.None? ==> forall i :: 0 <= i < |users| ==> users[i].id != id
    ensures r.Some? ==> r.value < |users| && users[r.value].id == id &&
                        forall i :: 0 <= i < r.value ==> users[i].id != id
  {
    if users == [] then None
    else if users[0].id == id then Some(0)
    else match UserIndex(users[1..], id)
      case None => None
      case Some(i) => Some(i + 1)
  }

  /** A user's experience, 0 when the user has no row (`row[0] if row else 0`). */
  function ExpOf(users: seq<User>, id: UserId): int {
    match UserIndex(users, id)
    case Some(i) => users[i].exp
    case None => 0
  }

  /** The users table after `_register_user(id, nickname)`. */
  function Registered(users: seq<User>, id: UserId, nickname: string): (r: seq<User>)
    ensures UserIndex(r, id).Some?
    ensures |users| <= |r| <= |users| + 1 && r[..|users|] == users
    ensures UserIndex(users, id).Some? ==> r == users
    ensures UserIndex(users, id).None? ==> r[|users|] == User(id, nickname, 0)
  {
    if UserIndex(users, id).Some? then users
    else
      var r := users + [User(id, nickname, 0)];
      assert r[|users|].id == id;
      r
  }

  /** The users table after `add_exp(id, amount)`: the same rows with the same ids and
      nicknames, the user's row updated in place, or one "Unknown" row appended for a new
      user. */
  function WithExpAdded(users: seq<User>, id: UserId, amount: int): (r: seq<User>)
    ensures |r| == if UserIndex(users, id).Some? then |users| else |users| + 1
    ensures forall i :: 0 <= i < |users| ==> r[i].id == users[i].id && r[i].nickname == users[i].nickname
    ensures forall i :: 0 <= i < |users| && users[i].id != id ==> r[i] == users[i]
    ensures UserIndex(users, id).None? ==> r[|users|] == User(id, "Unknown", amount)
  {
    match UserIndex(users, id)
    case Some(i) => users[i := users[i].(exp := users[i].exp + amount)]
    case None => users + [User(id, "Unknown", amount)]
  }

  /** Registration leaves every existing row, nickname and experience included, untouched,
      and gives a new user experience 0. */
  lemma RegisterKeepsUsers(users: seq<User>, id: UserId, nickname: string, other: UserId)
    requires UniqueIds(users)
    ensures UniqueIds(Registered(users, id, nickname))
    ensures ExpOf(Registered(users, id, nickname), other) == ExpOf(users, other)
  {
    var r := Registered(users, id, nickname);
    if UserIndex(users, id).None? {
      FirstMatchAfterAppend(users, User(id, nickname, 0), other);
    }
  }

  /** Looking up a key in a table with one row appended finds the old row if there was one. */
  lemma FirstMatchAfterAppend(users: seq<User>, u: User, id: UserId)
    ensures UserIndex(users + [u], id) ==
            if UserIndex(users, id).Some? then UserIndex(users, id)
            else if u.id == id then Some(|users|) else None
  {
    var r := UserIndex(users + [u], id);
    var s := UserIndex(users, id);
    if s.Some? {
      assert (users + [u])[s.value].id == id;
    } else if u.id == id {
      assert (users + [u])[|users|].id == id;
    }
  }

  /** `add_exp` raises exactly this user's experience by `amount`, from 0 for a new user
      (who gets the nickname "Unknown"); nobody else's experience or nickname changes. */
  lemma AddExpAccumulates(users: seq<User>, id: UserId, amount: int, other: UserId)
    requires UniqueIds(users)
    ensures var r := WithExpAdded(users, id, amount);
            UniqueIds(r) &&
            ExpOf(r, id) == ExpOf(users, id) + amount &&
            (other != id ==> ExpOf(r, other) == ExpOf(users, other)) &&
            (forall i :: 0 <= i < |users| ==> r[i].id == users[i].id && r[i].nickname == users[i].nickname) &&
            (UserIndex(users, id).Some? ==> |r| == |users|) &&
            (UserIndex(users, id).None? ==> |r| == |users| + 1 && r[|users|] == User(id, "Unknown", amount))
  {
    var r := WithExpAdded(users, id, amount);
    match UserIndex(users, id)
    case None =>
      FirstMatchAfterAppend(users, User(id, "Unknown", amount), id);
      FirstMatchAfterAppend(users, User(id, "Unknown", amount), other);
    case Some(i) =>
      SameIdsSameIndex(users, r, id);
      SameIdsSameIndex(users, r, other);
  }

  /** Two tables with the same ids in the same places answer every lookup alike. */
  lemma {:induction false} SameIdsSameIndex(a: seq<User>, b: seq<User>, id: UserId)
    requires |a| == |b| && forall i :: 0 <= i < |a| ==> a[i].id == b[i].id
    ensures UserIndex(a, id) == UserIndex(b, id)
  {
    if a != [] && a[0].id != id {
      SameIdsSameIndex(a[1..], b[1..], id);
    }
  }

  /** Experience never falls when the amounts added are not negative. */
  lemma ExpNeverDecreases(users: seq<User>, id: UserId, amount: int, other: UserId)
    requires UniqueIds(users) && amount >= 0
    ensures ExpOf(WithExpAdded(users, id, amount), other) >= ExpOf(users, other)
  {
    AddExpAccumulates(users, id, amount, other);
  }

  // ---------------------------------------------------------------------------
  // The study table

  /** At most one study row per (user, date). */
  ghost predicate UniqueStudyKeys(rows: seq<StudyRow>) {
    forall i, j :: 0 <= i < j < |rows| ==>
      rows[i].user != rows[j].user || rows[i].date != rows[j].date
  }

  /** `SELECT minutes FROM study WHERE user_id=? AND date=?` followed by `fetchone()`. */
  function StudyIndex(rows: seq<StudyRow>, user: UserId, date: Date): (r: Option<nat>)
    ensures r.None? ==> forall i :: 0 <= i < |rows| ==> rows[i].user != user || rows[i].date != date
    ensures r.Some? ==> r.value < |rows| && rows[r.value].user == user && rows[r.value].date == date &&
                        forall i :: 0 <= i < r.value ==> rows[i].user != user || rows[i].date != date
  {
    if rows == [] then None
    else if rows[0].user == user && rows[0].date == date then Some(0)
    else match StudyIndex(rows[1..], user, date)
      case None => None
      case Some(i) => Some(i + 1)
  }

  /** Minutes studied by `user` on `date`, 0 without a row (`get_today_study_time`). */
  function MinutesOn(rows: seq<StudyRow>, user: UserId, date: Date): (m: int)
    ensures (forall i :: 0 <= i < |rows| ==> rows[i].user != user || rows[i].date != date) ==> m == 0
    ensures UniqueStudyKeys(rows) ==>
            forall i :: 0 <= i < |rows| && rows[i].user == user && rows[i].date == date ==> m == rows[i].minutes
  {
    match StudyIndex(rows, user, date)
    case Some(i) => rows[i].minutes
    case None => 0
  }

  /** The study table after `log_study_time(user, minutes)` on `date`: the day's row gains
      `minutes`, or a row with `minutes` is added. */
  function Accumulated(rows: seq<StudyRow>, user: UserId, date: Date, minutes: int): (r: seq<StudyRow>)
    ensures |r| == if StudyIndex(rows, user, date).Some? then |rows| else |rows| + 1
    ensures forall i :: 0 <= i < |rows| && (rows[i].user != user || rows[i].date != date) ==> r[i] == rows[i]
    ensures StudyIndex(r, user, date).Some?
  {
    match StudyIndex(rows, user, date)
    case Some(i) =>
      var r := rows[i := rows[i].(minutes := rows[i].minutes + minutes)];
      assert r[i].user == user && r[i].date == date;
      r
    case None =>
      var r := rows + [StudyRow(user, date, minutes)];
      assert r[|rows|].user == user && r[|rows|].date == date;
      r
  }

  /** Create-or-accumulate: the day's total grows by exactly `minutes`, every other
      (user, date) total is unchanged, and there is still at most one row per (user, date). */
  lemma AccumulateAdds(rows: seq<StudyRow>, user: UserId, date: Date, minutes: int, u: UserId, d: Date)
    requires UniqueStudyKeys(rows)
    ensures var r := Accumulated(rows, user, date, minutes);
            UniqueStudyKeys(r) &&
            MinutesOn(r, user, date) == MinutesOn(rows, user, date) + minutes &&
            ((u, d) != (user, date) ==> MinutesOn(r, u, d) == MinutesOn(rows, u, d)) &&
            |rows| <= |r| <= |rows| + 1
  {
    var r := Accumulated(rows, user, date, minutes);
    match StudyIndex(rows, user, date)
    case Some(i) =>
      assert r[i].user == user && r[i].date == date;
      if StudyIndex(rows, u, d).Some? {
        var j := StudyIndex(rows, u, d).value;
        assert r[j] == rows[j] || (u, d) == (user, date);
      }
    case None =>
      assert r[|rows|].user == user && r[|rows|].date == date;
      if StudyIndex(rows, u, d).Some? {
        var j := StudyIndex(rows, u, d).value;
        assert r[j] == rows[j];
      }
  }

  // ---------------------------------------------------------------------------
  // Activity dates for the streak queries

  /** `SELECT date FROM attendance|wakeup WHERE user_id=?`, in table order. */
  function MarkDates(marks: seq<Mark>, user: UserId): (ds: seq<Date>)
    ensures forall d :: d in ds <==> Mark(user, d) in marks
  {
    if marks == [] then []
    else
      var rest := MarkDates(marks[1..], user);
      assert marks == [marks[0]] + marks[1..];
      if marks[0].user == user then [marks[0].date] + rest else rest
  }

  /** `SELECT date FROM study WHERE user_id=? AND minutes >= 10`, in table order. */
  function QualifyingStudyDates(rows: seq<StudyRow>, user: UserId): (ds: seq<Date>)
    ensures forall d :: d in ds <==>
      exists i :: 0 <= i < |rows| && rows[i].user == user && rows[i].date == d && rows[i].minutes >= MinStudyMinutes
  {
    if rows == [] then []
    else
      var rest := QualifyingStudyDates(rows[1..], user);
      assert forall i :: 0 < i < |rows| ==> rows[i] == rows[1..][i - 1];
      if rows[0].user == user && rows[0].minutes >= MinStudyMinutes then [rows[0].date] + rest else rest
  }

  /** One mark per (user, day) means a user's mark dates are all different. */
  lemma {:induction false} MarkDatesDistinct(marks: seq<Mark>, user: UserId)
    requires NoDuplicates(marks)
    ensures NoDuplicates(MarkDates(marks, user))
  {
    if marks != [] {
      assert marks == [marks[0]] + marks[1..];
      MarkDatesDistinct(marks[1..], user);
      if marks[0].user == user {
        assert marks[0] !in marks[1..];
      }
    }
  }

  /** One study row per (user, day) means a user's qualifying study dates are all different. */
  lemma {:induction false} StudyDatesDistinct(rows: seq<StudyRow>, user: UserId)
    requires UniqueStudyKeys(rows)
    ensures NoDuplicates(QualifyingStudyDates(rows, user))
  {
    if rows != [] {
      StudyDatesDistinct(rows[1..], user);
      var rest := QualifyingStudyDates(rows[1..], user);
      if rows[0].user == user && rows[0].minutes >= MinStudyMinutes && rows[0].date in rest {
        var i :| 0 <= i < |rows[1..]| && rows[1..][i].user == user && rows[1..][i].date == rows[0].date
                 && rows[1..][i].minutes >= MinStudyMinutes;
        assert rows[i + 1] == rows[1..][i];
      }
    }
  }

  // ---------------------------------------------------------------------------
  // Window statistics

  /** `COUNT(DISTINCT date)` of a user's marks with `date BETWEEN lo AND hi`. */
  function MarkDaysIn(marks: seq<Mark>, user: UserId, lo: Date, hi: Date): set<Date> {
    set m | m in marks && m.user == user && Between(m.date, lo, hi) :: m.date
  }

  /** `COUNT(DISTINCT date)` of a user's study rows in the window with `minutes >= 10`. */
  function StudyDaysIn(rows: seq<StudyRow>, user: UserId, lo: Date, hi: Date): set<Date> {
    set r | r in rows && r.user == user && Between(r.date, lo, hi) && r.minutes >= MinStudyMinutes :: r.date
  }

  /** `COALESCE(SUM(minutes), 0)` of a user's study rows in the window. */
  function MinutesIn(rows: seq<StudyRow>, user: UserId, lo: Date, hi: Date): (total: int)
    ensures (forall i :: 0 <= i < |rows| ==> rows[i].user != user || !Between(rows[i].date, lo, hi)) ==> total == 0
    ensures (forall i :: 0 <= i < |rows| ==> rows[i].minutes >= 0) ==> total >= 0
  {
    if rows == [] then 0
    else
      assert forall i :: 0 < i < |rows| ==> rows[i] == rows[1..][i - 1];
      (if rows[0].user == user && Between(rows[0].date, lo, hi) then rows[0].minutes else 0)
      + MinutesIn(rows[1..], user, lo, hi)
  }

  /** A day in the window is a study day exactly when that day's total reaches the floor. */
  lemma StudyDayIffEnoughMinutes(rows: seq<StudyRow>, user: UserId, lo: Date, hi: Date, d: Date)
    requires UniqueStudyKeys(rows)
    requires Between(d, lo, hi)
    ensures d in StudyDaysIn(rows, user, lo, hi) <==> MinutesOn(rows, user, d) >= MinStudyMinutes
  {
    if MinutesOn(rows, user, d) >= MinStudyMinutes {
      var i := StudyIndex(rows, user, d).value;
      assert rows[i] in rows;
    }
  }

  /** Example: 5, 15 and 20 minutes on three days of the window make two study days
      (the 5-minute day is under the floor) and 40 minutes. */
  lemma StudyWindowExample(user: UserId, a: Date, b: Date, c: Date, lo: Date, hi: Date)
    requires a != b && b != c && a != c
    requires Between(a, lo, hi) && Between(b, lo, hi) && Between(c, lo, hi)
    ensures var rows := [StudyRow(user, a, 5), StudyRow(user, b, 15), StudyRow(user, c, 20)];
            |StudyDaysIn(rows, user, lo, hi)| == 2 && MinutesIn(rows, user, lo, hi) == 40
  {
    var rows := [StudyRow(user, a, 5), StudyRow(user, b, 15), StudyRow(user, c, 20)];
    assert StudyDaysIn(rows, user, lo, hi) == {b, c} by {
      forall x | x in StudyDaysIn(rows, user, lo, hi) ensures x == b || x == c {
        var r :| r in rows && r.user == user && Between(r.date, lo, hi) && r.minutes >= MinStudyMinutes && r.date == x;
      }
      assert rows[1] in rows && rows[2] in rows;
    }
    assert |{b, c}| == 2;
    assert rows[1..] == [StudyRow(user, b, 15), StudyRow(user, c, 20)];
    assert rows[1..][1..] == [StudyRow(user, c, 20)];
    assert MinutesIn([StudyRow(user, c, 20)], user, lo, hi) == 20 by {
      assert [StudyRow(user, c, 20)][1..] == [];
    }
  }

  /** A mark day of the window is a day in the window on which the user has a mark. */
  lemma MarkDayInWindow(marks: seq<Mark>, user: UserId, lo: Date, hi: Date, d: Date)
    ensures d in MarkDaysIn(marks, user, lo, hi) <==> Mark(user, d) in marks && Between(d, lo, hi)
  {
    if Mark(user, d) in marks && Between(d, lo, hi) {
      var m := Mark(user, d);
      assert m.date == d;
    }
  }

  /** The month statistics count exactly the marks of the current calendar month. */
  lemma MonthlyMarkDays(marks: seq<Mark>, user: UserId, today: Date, d: Date)
    ensures d in MarkDaysIn(marks, user, MonthStart(today), MonthEnd(today)) <==>
            Mark(user, d) in marks && d.year == today.year && d.month == today.month
  {
    MarkDayInWindow(marks, user, MonthStart(today), MonthEnd(today), d);
    InMonthWindow(d, today);
  }

  /** The week statistics count exactly the marks of the seven days from this week's Monday. */
  lemma WeeklyMarkDays(marks: seq<Mark>, user: UserId, today: Date, d: Date)
    ensures d in MarkDaysIn(marks, user, WeekStart(today), WeekEnd(today)) <==>
            Mark(user, d) in marks && 0 <= Ordinal(d) - Ordinal(WeekStart(today)) < 7
  {
    MarkDayInWindow(marks, user, WeekStart(today), WeekEnd(today), d);
    InWeekWindow(d, today);
  }

  /** The month statistics' study days are the days of the current month whose total
      reaches the floor. */
  lemma MonthlyStudyDays(rows: seq<StudyRow>, user: UserId, today: Date, d: Date)
    requires UniqueStudyKeys(rows)
    ensures d in StudyDaysIn(rows, user, MonthStart(today), MonthEnd(today)) <==>
            d.year == today.year && d.month == today.month && MinutesOn(rows, user, d) >= MinStudyMinutes
  {
    InMonthWindow(d, today);
    if Between(d, MonthStart(today), MonthEnd(today)) {
      StudyDayIffEnoughMinutes(rows, user, MonthStart(today), MonthEnd(today), d);
    }
  }

  /** A window holding none of the user's study rows has no study day and sums to 0. */
  lemma EmptyWindowHasNoStudy(rows: seq<StudyRow>, user: UserId, lo: Date, hi: Date)
    ensures (forall i :: 0 <= i < |rows| ==> rows[i].user != user || !Between(rows[i].date, lo, hi)) ==>
            StudyDaysIn(rows, user, lo, hi) == {} && MinutesIn(rows, user, lo, hi) == 0
  {
  }

  /** `get_monthly_stats`/`get_weekly_stats` over the window [lo, hi]. */
  function WindowStats(users: seq<User>, attendance: seq<Mark>, wakeup: seq<Mark>, study: seq<StudyRow>,
                       user: UserId, lo: Date, hi: Date): (s: Stats)
    ensures s.attendance == 0 <==> forall d :: Mark(user, d) in attendance ==> !Between(d, lo, hi)
    ensures s.wakeup == 0 <==> forall d :: Mark(user, d) in wakeup ==> !Between(d, lo, hi)
    ensures s.studyDays == 0 <==>
            forall r :: r in study && r.user == user && Between(r.date, lo, hi) ==> r.minutes < MinStudyMinutes
    ensures s.exp == ExpOf(users, user) && (UserIndex(users, user).None? ==> s.exp == 0)
  {
    forall d ensures d in MarkDaysIn(attendance, user, lo, hi) <==> Mark(user, d) in attendance && Between(d, lo, hi) {
      MarkDayInWindow(attendance, user, lo, hi, d);
    }
    forall d ensures d in MarkDaysIn(wakeup, user, lo, hi) <==> Mark(user, d) in wakeup && Between(d, lo, hi) {
      MarkDayInWindow(wakeup, user, lo, hi, d);
    }
    forall r | r in study && r.user == user && Between(r.date, lo, hi) && r.minutes >= MinStudyMinutes
      ensures r.date in StudyDaysIn(study, user, lo, hi)
    {
    }
    Stats(|MarkDaysIn(attendance, user, lo, hi)|,
          |MarkDaysIn(wakeup, user, lo, hi)|,
          |StudyDaysIn(study, user, lo, hi)|,
          MinutesIn(study, user, lo, hi),
          ExpOf(users, user))
  }

  // ---------------------------------------------------------------------------
  // Ranking

  function ExpKey(u: User): int {
    u.exp
  }

  /** SQLite's `LIMIT n`: at most `n` rows, and a negative limit means no limit. */
  function LimitCount(limit: int, size: nat): (n: nat)
    ensures n <= size
    ensures 0 <= limit ==> n <= limit
    ensures limit < 0 ==> n == size
    ensures n == size || n == limit
  {
    if 0 <= limit < size then limit else size
  }

  /** The `(nickname, exp)` columns of a row. */
  function RowOf(u: User): (string, int) {
    (u.nickname, u.exp)
  }

  /** The `(nickname, exp)` columns of every row, in order. */
  function Rows(users: seq<User>): (r: seq<(string, int)>)
    ensures |r| == |users| && forall i :: 0 <= i < |users| ==> r[i] == RowOf(users[i])
  {
    if users == [] then [] else [RowOf(users[0])] + Rows(users[1..])
  }

  /** Inserting a row adds exactly its columns to the projected rows. */
  lemma {:induction false} RowsOfInsert(x: User, s: seq<User>)
    requires DescendingBy(s, ExpKey)
    ensures multiset(Rows(Insert(x, s, ExpKey))) == multiset(Rows(s)) + multiset{RowOf(x)}
  {
    if s == [] || ExpKey(s[0]) <= ExpKey(x) {
      assert ([x] + s)[1..] == s;
    } else {
      var rest := Insert(x, s[1..], ExpKey);
      RowsOfInsert(x, s[1..]);
      assert Insert(x, s, ExpKey) == [s[0]] + rest;
      assert ([s[0]] + rest)[1..] == rest;
    }
  }

  /** Sorting does not change which `(nickname, exp)` pairs the table holds, nor how often. */
  lemma {:induction false} RowsOfSort(s: seq<User>)
    ensures multiset(Rows(SortDesc(s, ExpKey))) == multiset(Rows(s))
  {
    if s != [] {
      RowsOfSort(s[1..]);
      RowsOfInsert(s[0], SortDesc(s[1..], ExpKey));
    }
  }

  /** Two positions of the sorted table: the earlier one has at least the experience. */
  lemma SortedExpAt(users: seq<User>, i: int, j: int)
    requires 0 <= i < j < |users|
    ensures SortDesc(users, ExpKey)[i].exp >= SortDesc(users, ExpKey)[j].exp
  {
    var sorted := SortDesc(users, ExpKey);
    assert ExpKey(sorted[i]) >= ExpKey(sorted[j]);
  }

  /** The first `n` projected rows of the sorted table are the first `n` sorted users'
      columns, non-increasing in experience, and taken from distinct rows of the table. */
  lemma TopRows(users: seq<User>, n: nat)
    requires n <= |users|
    ensures var sorted := SortDesc(users, ExpKey);
            var top := Rows(sorted)[..n];
            |top| == n &&
            (forall i :: 0 <= i < n ==> top[i] == RowOf(sorted[i])) &&
            (forall i, j :: 0 <= i < j < n ==> top[i].1 >= top[j].1) &&
            multiset(top) <= multiset(Rows(users))
  {
    var sorted := SortDesc(users, ExpKey);
    var all := Rows(sorted);
    var top := all[..n];
    forall i, j | 0 <= i < j < n ensures top[i].1 >= top[j].1 {
      SortedExpAt(users, i, j);
    }
    TopRowsFromTable(users, n);
  }

  /** A prefix of the sorted projection is a sub-multiset of the table's projection. */
  lemma TopRowsFromTable(users: seq<User>, n: nat)
    requires n <= |users|
    ensures multiset(Rows(SortDesc(users, ExpKey))[..n]) <= multiset(Rows(users))
  {
    var all := Rows(SortDesc(users, ExpKey));
    PrefixSubMultiset(all, n);
    RowsOfSort(users);
  }

  /** A prefix of a sequence holds no element more often than the whole sequence. */
  lemma PrefixSubMultiset<T>(s: seq<T>, n: nat)
    requires n <= |s|
    ensures multiset(s[..n]) <= multiset(s)
  {
    assert s == s[..n] + s[n..];
  }

  /** `SELECT nickname, exp FROM users ORDER BY exp DESC LIMIT ?`: as many rows as the limit
      lets through, non-increasing in experience, each taken from a distinct row of the table. */
  function TopUsers(users: seq<User>, limit: int): (r: seq<(string, int)>)
    ensures |r| == LimitCount(limit, |users|)
    ensures forall i, j :: 0 <= i < j < |r| ==> r[i].1 >= r[j].1
    ensures multiset(r) <= multiset(Rows(users))
  {
    var n := LimitCount(limit, |users|);
    TopRows(users, n);
    Rows(SortDesc(users, ExpKey))[..n]
  }

  /** The ranking shows only existing users, and every user left out has no more
      experience than anyone shown. */
  lemma TopUsersAreTheTop(users: seq<User>, limit: int)
    ensures var r := TopUsers(users, limit);
            (forall i :: 0 <= i < |r| ==> exists u :: u in users && u.nickname == r[i].0 && u.exp == r[i].1) &&
            (forall u :: u in users ==> (u.nickname, u.exp) in r || forall i :: 0 <= i < |r| ==> u.exp <= r[i].1)
  {
    var n := LimitCount(limit, |users|);
    ShownAreUsers(users, n);
    OmittedAreNoHigher(users, n);
  }

  /** Each of the first `n` ranked rows is the row of some user. */
  lemma ShownAreUsers(users: seq<User>, n: nat)
    requires n <= |users|
    ensures var top := Rows(SortDesc(users, ExpKey))[..n];
            forall i :: 0 <= i < n ==> exists u :: u in users && u.nickname == top[i].0 && u.exp == top[i].1
  {
    var sorted := SortDesc(users, ExpKey);
    var top := Rows(sorted)[..n];
    TopRows(users, n);
    forall i | 0 <= i < n
      ensures exists u :: u in users && u.nickname == top[i].0 && u.exp == top[i].1
    {
      var u := sorted[i];
      assert u in multiset(users);
      assert u in users && top[i] == RowOf(u);
    }
  }

  /** A user whose row is not among the first `n` has no more experience than any of them. */
  lemma OmittedAreNoHigher(users: seq<User>, n: nat)
    requires n <= |users|
    ensures var top := Rows(SortDesc(users, ExpKey))[..n];
            forall u :: u in users ==> (u.nickname, u.exp) in top || forall i :: 0 <= i < n ==> u.exp <= top[i].1
  {
    forall u | u in users
      ensures var top := Rows(SortDesc(users, ExpKey))[..n];
              (u.nickname, u.exp) in top || forall i :: 0 <= i < n ==> u.exp <= top[i].1
    {
      OmittedUserNoHigher(users, n, u);
    }
  }

  /** One user of the table: shown among the first `n`, or below every shown row. */
  lemma OmittedUserNoHigher(users: seq<User>, n: nat, u: User)
    requires n <= |users| && u in users
    ensures var top := Rows(SortDesc(users, ExpKey))[..n];
            (u.nickname, u.exp) in top || forall i :: 0 <= i < n ==> u.exp <= top[i].1
  {
    var j := SortedPosition(users, u);
    var top := Rows(SortDesc(users, ExpKey))[..n];
    if j < n {
      assert top[j] == (u.nickname, u.exp);
    } else {
      forall i | 0 <= i < n ensures u.exp <= top[i].1 {
        SortedExpAt(users, i, j);
      }
    }
  }

  /** Every user of the table has a position in the sorted table. */
  lemma SortedPosition(users: seq<User>, u: User) returns (j: nat)
    requires u in users
    ensures j < |users| && SortDesc(users, ExpKey)[j] == u
  {
    var sorted := SortDesc(users, ExpKey);
    assert u in multiset(users);
    assert u in multiset(sorted);
    j :| 0 <= j < |sorted| && sorted[j] == u;
  }

  // ---------------------------------------------------------------------------
  // The store

  class Store {
    var users: seq<User>
    var attendance: seq<Mark>
    var wakeup: seq<Mark>
    var study: seq<StudyRow>

    /** One row per user, one mark per (user, day) in each mark table, one study row per
        (user, day). The source keeps the last three by looking before inserting. */
    ghost predicate Valid()
      reads this
    {
      UniqueIds(users) && NoDuplicates(attendance) && NoDuplicates(wakeup) && UniqueStudyKeys(study)
    }

    /** The four tables together, to state that an operation left all of them as they were. */
    ghost function Tables(): (seq<User>, seq<Mark>, seq<Mark>, seq<StudyRow>)
      reads this
    {
      (users, attendance, wakeup, study)
    }

    constructor ()
      ensures Valid()
      ensures users == [] && attendance == [] && wakeup == [] && study == []
    {
      users, attendance, wakeup, study := [], [], [], [];
    }

    /** `_register_user`: insert `(user, nickname, 0)` only when the user has no row. */
    method RegisterUser(user: UserId, nickname: string)
      requires Valid()
      modifies this
      ensures Valid()
      ensures users == Registered(old(users), user, nickname)
      ensures attendance == old(attendance) && wakeup == old(wakeup) && study == old(study)
    {
      if UserIndex(users, user).None? {
        users := users + [User(user, nickname, 0)];
      }
      RegisterKeepsUsers(old(users), user, nickname, user);
    }

    /** `save_attendance`: check-then-insert today's mark, then register the user. */
    method SaveAttendance(user: UserId, nickname: string, today: Date) returns (saved: bool)
      requires Valid()
      modifies this
      ensures Valid()
      ensures saved <==> Mark(user, today) !in old(attendance)
      ensures attendance == if saved then old(attendance) + [Mark(user, today)] else old(attendance)
      ensures users == if saved then Registered(old(users), user, nickname) else old(users)
      ensures wakeup == old(wakeup) && study == old(study)
      ensures Mark(user, today) in attendance
    {
      if Mark(user, today) in attendance {
        return false;
      }
      AppendKeepsDistinct(attendance, Mark(user, today));
      attendance := attendance + [Mark(user, today)];
      RegisterUser(user, nickname);
      return true;
    }

    /** `save_wakeup`: the same check-then-insert on the wake-up table. */
    method SaveWakeup(user: UserId, nickname: string, today: Date) returns (saved: bool)
      requires Valid()
      modifies this
      ensures Valid()
      ensures saved <==> Mark(user, today) !in old(wakeup)
      ensures wakeup == if saved then old(wakeup) + [Mark(user, today)] else old(wakeup)
      ensures users == if saved then Registered(old(users), user, nickname) else old(users)
      ensures attendance == old(attendance) && study == old(study)
      ensures Mark(user, today) in wakeup
    {
      if Mark(user, today) in wakeup {
        return false;
      }
      AppendKeepsDistinct(wakeup, Mark(user, today));
      wakeup := wakeup + [Mark(user, today)];
      RegisterUser(user, nickname);
      return true;
    }

    /** `log_study_time`: register the user as "Unknown" if needed, then add `minutes`
        to today's study row or create it. */
    method LogStudyTime(user: UserId, minutes: int, today: Date)
      requires Valid()
      modifies this
      ensures Valid()
      ensures users == Registered(old(users), user, "Unknown")
      ensures study == Accumulated(old(study), user, today, minutes)
      ensures attendance == old(attendance) && wakeup == old(wakeup)
    {
      RegisterUser(user, "Unknown");
      AccumulateAdds(study, user, today, minutes, user, today);
      var row := StudyIndex(study, user, today);
      if row.Some? {
        var total := study[row.value].minutes + minutes;
        study := study[row.value := StudyRow(user, today, total)];
      } else {
        study := study + [StudyRow(user, today, minutes)];
      }
    }

    /** `add_exp`: raise the user's experience, or create the user with it. */
    method AddExp(user: UserId, amount: int)
      requires Valid()
      modifies this
      ensures Valid()
      ensures users == WithExpAdded(old(users), user, amount)
      ensures attendance == old(attendance) && wakeup == old(wakeup) && study == old(study)
    {
      AddExpAccumulates(users, user, amount, user);
      var row := UserIndex(users, user);
      if row.Some? {
        var newExp := users[row.value].exp + amount;
        users := users[row.value := users[row.value].(exp := newExp)];
      } else {
        users := users + [User(user, "Unknown", amount)];
      }
    }

    /** `get_today_study_time`: 0 without a row for today, otherwise that row's minutes. */
    function TodayStudyTime(user: UserId, today: Date): (m: int)
      reads this
      ensures (forall i :: 0 <= i < |study| ==> study[i].user != user || study[i].date != today) ==> m == 0
      ensures Valid() ==>
              forall i :: 0 <= i < |study| && study[i].user == user && study[i].date == today ==> m == study[i].minutes
    {
      MinutesOn(study, user, today)
    }

    /** `get_level`: 1 for a user without a row, otherwise the 9-entry table's level. */
    method GetLevel(user: UserId) returns (level: int)
      ensures level == DbLevel(ExpOf(users, user))
      ensures UserIndex(users, user).None? ==> level == 1
      ensures 1 <= level <= 9
    {
      DbLevelFacts(ExpOf(users, user));
      var row := UserIndex(users, user);
      if row.None? {
        return 1;
      }
      level := LevelFrom(DbThresholds, users[row.value].exp);
    }

    /** `get_top_users_by_exp(limit)` */
    function TopUsersByExp(limit: int): (r: seq<(string, int)>)
      reads this
      ensures |r| == LimitCount(limit, |users|)
      ensures forall i, j :: 0 <= i < j < |r| ==> r[i].1 >= r[j].1
      ensures multiset(r) <= multiset(Rows(users))
    {
      TopUsers(users, limit)
    }

    /** `get_monthly_stats`: the window is the calendar month of `today`. Experience is the
        live total, not a windowed one; a month without study rows has no study days and
        0 minutes. */
    function MonthlyStats(user: UserId, today: Date): (s: Stats)
      reads this
      ensures s.exp == ExpOf(users, user) && (UserIndex(users, user).None? ==> s.exp == 0)
      ensures (forall i :: 0 <= i < |study| && study[i].user == user ==>
                 study[i].date.year != today.year || study[i].date.month != today.month) ==>
              s.studyDays == 0 && s.studyMinutes == 0
    {
      var lo, hi := MonthStart(today), MonthEnd(today);
      forall i | 0 <= i < |study| ensures
        Between(study[i].date, lo, hi) <==> study[i].date.year == today.year && study[i].date.month == today.month
      {
        InMonthWindow(study[i].date, today);
      }
      EmptyWindowHasNoStudy(study, user, lo, hi);
      WindowStats(users, attendance, wakeup, study, user, lo, hi)
    }

    /** `get_weekly_stats`: the window is Monday to Sunday of the week of `today`, with the
        same live experience; a week without study rows has no study days and 0 minutes. */
    function WeeklyStats(user: UserId, today: Date): (s: Stats)
      reads this
      ensures s.exp == ExpOf(users, user) && (UserIndex(users, user).None? ==> s.exp == 0)
      ensures (forall i :: 0 <= i < |study| && study[i].user == user ==>
                 !(0 <= Ordinal(study[i].date) - Ordinal(WeekStart(today)) < 7)) ==>
              s.studyDays == 0 && s.studyMinutes == 0
    {
      var lo, hi := WeekStart(today), WeekEnd(today);
      forall i | 0 <= i < |study| ensures
        Between(study[i].date, lo, hi) <==> 0 <= Ordinal(study[i].date) - Ordinal(lo) < 7
      {
        InWeekWindow(study[i].date, today);
      }
      EmptyWindowHasNoStudy(study, user, lo, hi);
      WindowStats(users, attendance, wakeup, study, user, lo, hi)
    }

    /** `get_streak_attendance`: the user's attendance dates newest first, then the streak.
        With no mark dated after today, the result counts the consecutive days ending today
        that carry a mark. */
    method GetStreakAttendance(user: UserId, today: Date) returns (streak: nat)
      requires Valid()
      ensures streak == Streak(SortDesc(MarkDates(attendance, user), Ordinal), today)
      ensures (forall d :: Mark(user, d) in attendance ==> !Before(today, d)) ==>
              (forall i :: 0 <= i < streak ==> Mark(user, DaysAgo(today, i)) in attendance) &&
              Mark(user, DaysAgo(today, streak)) !in attendance
    {
      var dates := MarkDates(attendance, user);
      MarkDatesDistinct(attendance, user);
      if forall i :: 0 <= i < |dates| ==> !Before(today, dates[i]) {
        StreakCountsConsecutiveDays(dates, today);
      }
      streak := CalculateStreak(SortDesc(dates, Ordinal), today);
    }

    /** `get_streak_wakeup`: the same over the wake-up table. */
    method GetStreakWakeup(user: UserId, today: Date) returns (streak: nat)
      requires Valid()
      ensures streak == Streak(SortDesc(MarkDates(wakeup, user), Ordinal), today)
      ensures (forall d :: Mark(user, d) in wakeup ==> !Before(today, d)) ==>
              (forall i :: 0 <= i < streak ==> Mark(user, DaysAgo(today, i)) in wakeup) &&
              Mark(user, DaysAgo(today, streak)) !in wakeup
    {
      var dates := MarkDates(wakeup, user);
      MarkDatesDistinct(wakeup, user);
      if forall i :: 0 <= i < |dates| ==> !Before(today, dates[i]) {
        StreakCountsConsecutiveDays(dates, today);
      }
      streak := CalculateStreak(SortDesc(dates, Ordinal), today);
    }

    /** `get_streak_study`: only days with at least 10 minutes count. With no study row
        dated after today, the result counts the consecutive days ending today whose
        total reaches the floor. */
    method GetStreakStudy(user: UserId, today: Date) returns (streak: nat)
      requires Valid()
      ensures streak == Streak(SortDesc(QualifyingStudyDates(study, user), Ordinal), today)
      ensures (forall i :: 0 <= i < |study| && study[i].user == user ==> !Before(today, study[i].date)) ==>
              (forall i :: 0 <= i < streak ==> MinutesOn(study, user, DaysAgo(today, i)) >= MinStudyMinutes) &&
              MinutesOn(study, user, DaysAgo(today, streak)) < MinStudyMinutes
    {
      StudyStreakCountsDays(study, user, today);
      streak := CalculateStreak(SortDesc(QualifyingStudyDates(study, user), Ordinal), today);
    }
  }

  /** The study streak counts the consecutive days ending today whose total reaches the
      floor, when no study row of the user is dated after today. */
  lemma StudyStreakCountsDays(rows: seq<StudyRow>, user: UserId, today: Date)
    requires UniqueStudyKeys(rows)
    ensures var k := Streak(SortDesc(QualifyingStudyDates(rows, user), Ordinal), today);
            (forall i :: 0 <= i < |rows| && rows[i].user == user ==> !Before(today, rows[i].date)) ==>
            (forall i :: 0 <= i < k ==> MinutesOn(rows, user, DaysAgo(today, i)) >= MinStudyMinutes) &&
            MinutesOn(rows, user, DaysAgo(today, k)) < MinStudyMinutes
  {
    var dates := QualifyingStudyDates(rows, user);
    if forall i :: 0 <= i < |rows| && rows[i].user == user ==> !Before(today, rows[i].date) {
      StudyDatesDistinct(rows, user);
      forall i | 0 <= i < |dates| ensures !Before(today, dates[i]) {
        assert dates[i] in dates;
      }
      StreakCountsConsecutiveDays(dates, today);
      StudyDatesMeanEnoughMinutes(rows, user);
    }
  }

  /** A date is a qualifying study date exactly when that day's total reaches the floor. */
  lemma StudyDatesMeanEnoughMinutes(rows: seq<StudyRow>, user: UserId)
    requires UniqueStudyKeys(rows)
    ensures forall d :: d in QualifyingStudyDates(rows, user) <==> MinutesOn(rows, user, d) >= MinStudyMinutes
  {
    forall d ensures d in QualifyingStudyDates(rows, user) <==> MinutesOn(rows, user, d) >= MinStudyMinutes {
      if MinutesOn(rows, user, d) >= MinStudyMinutes {
        var i := StudyIndex(rows, user, d).value;
        assert rows[i].user == user && rows[i].date == d;
      }
    }
  }
}
