# Study-bot gamification engine, in Dafny

A model of the gamification core of a study-community chat bot. It has two parts.

The record store (`db.py`) keeps four tables: users with their nickname and experience,
daily attendance marks, daily wake-up marks and daily study minutes. It records daily marks
with a check-then-insert, registers users lazily and accumulates study minutes and
experience. It answers read-only queries:

- the level on a 9-entry experience table;
- the streak of consecutive days ending today;
- month and week statistics;
- the top users by experience.

The bot (`main.py`) works in three places:

- It keeps `study_sessions`, the open study session of each member in the tracked voice
  channel. Entering opens a session. Leaving closes it and, after at least 10 minutes,
  credits the whole minutes and `round(minutes / 3)` experience.
- Check-in and wake-up award 5 experience before 09:00 and 3 after.
- The ranking shows levels from a second, 7-entry table.

Modules, one file each:

- `Calendar` (`calendar.dfy`): date arithmetic as `datetime.date` does it. This covers the
  day number (`toordinal`), the weekday, adding days, and the string order of `"%Y-%m-%d"`
  keys. It also holds the month and week windows of the statistics queries.
- `Levels` (`levels.dfy`): the threshold loop shared by `get_level` and
  `calculate_level_from_exp`, and the two tables.
- `Sorting` (`sorting.dfy`): descending order by an integer key. This is the
  `ORDER BY … DESC` of the date and experience queries.
- `Streaks` (`streak.dfy`): `_calculate_streak_from_dates`, as a loop proved equal to a
  recursive reference definition.
- `Db` (`db.dfy`): the class `Store` holding the four tables as sequences, their mutating
  methods, and the queries.
- `Bot` (`bot.dfy`): the class `StudyBot` holding the session map, the enter and leave
  logic, the award rules and the ranking rows.

Clock reads are parameters:

- `today` is the store's calendar day.
- `now` is a time in whole seconds.
- `hour` is the hour of day of a command.

Message ids from the chat platform are passed in.

## Model

| member | source | states |
|---|---|---|
| Calendar.PrevIsPredecessor | db.py:159 | the day before a date (`- timedelta(days=1)`, also the one-day steps behind the day differences at db.py:305) has the previous day number, across month and year ends |
| Calendar.AddDaysOrdinal | db.py:157-159 | adding `n` days (`timedelta(days=n)`) moves the day number by exactly `n` |
| Calendar.OrdinalOrder | db.py:288-293 | the order of `"%Y-%m-%d"` keys is the order of their day numbers, and equal day numbers mean equal dates |
| Calendar.BetweenIsOrdinalInterval | db.py:164-166 | `date BETWEEN lo AND hi` holds exactly for the day numbers from `lo` to `hi` |
| Calendar.FourDaysAfterThe28th | db.py:157-158 | four days after the 28th always lands in the next month, the next year after December |
| Calendar.MonthWindowIsCalendarMonth | db.py:156-159 | `month_start` is the 1st and `month_end` the last day of the current month |
| Calendar.InMonthWindow | db.py:156-166 | a date lies in the month window exactly when it has today's year and month |
| Calendar.MonthStart | db.py:156 | `month_start` is day 1 of today's year and month, not after today |
| Calendar.MonthEnd | db.py:157-159 | `month_end` has today's year and month and is that month's last day, not before today |
| Calendar.WeekStart | db.py:211 | `week_start` is a Monday at most 6 days before today |
| Calendar.WeekEnd | db.py:212 | `week_end` is a Sunday at most 6 days after today, exactly 6 days after `week_start` |
| Calendar.ShiftToWeekday | db.py:211-212 | moving `j - weekday()` days from today lands on weekday `j` of the same week |
| Calendar.WeekWindowIsCalendarWeek | db.py:211-212 | `week_start` is a Monday, `week_end` the Sunday 6 days later, and today lies between them |
| Calendar.InWeekWindow | db.py:211-219 | a date lies in the week window exactly when it is one of the seven days from that Monday |
| Levels.Reached | db.py:131-135 | the count of leading thresholds reached: all of them are at most `exp` and the next one is above it |
| Levels.LevelFrom | db.py:130-136 | the threshold loop with its early exit returns the level function's value, at least 1 and at most the table size, and a level above 1 has its threshold reached |
| Levels.LevelIsRank | db.py:131-135 | on a sorted table the level is the rank of the last threshold not above `exp` |
| Levels.ThresholdPromotes | db.py:133-135 | experience equal to a threshold earns that threshold's level |
| Levels.ReachedMonotone | db.py:131-135 | more experience never reaches fewer thresholds |
| Levels.LevelMonotone | db.py:124-136 | the level never falls as experience grows, for either table |
| Levels.DbTableSorted | db.py:130 | the 9-entry table is strictly increasing |
| Levels.BotTableSorted | main.py:80 | the 7-entry table is strictly increasing |
| Levels.DbLevelFacts | db.py:124-136 | `get_level`'s table gives levels 1 to 9, with 29 → 1, 30 → 2 and 1300 → 9 |
| Levels.BotLevelFacts | main.py:79-86 | `calculate_level_from_exp` gives levels 1 to 7, with 29 → 1, 30 → 2 and 1300 → 7 |
| Levels.TablesDiverge | main.py:80 | the two tables agree exactly below 900; from 900 on the ranking shows 7 while `get_level` gives 8 or 9 |
| Sorting.Insert | db.py:292 | inserting into a descending sequence keeps it descending and adds exactly the one element |
| Sorting.SortDesc | db.py:292 | `ORDER BY … DESC` returns a descending permutation of the rows |
| Sorting.InsertKeepsDistinct | db.py:292 | inserting a new element keeps a duplicate-free sequence duplicate-free |
| Sorting.SortKeepsDistinct | db.py:292 | sorting keeps a duplicate-free sequence duplicate-free |
| Sorting.AppendKeepsDistinct | db.py:58-59 | inserting a mark that is not yet there keeps the table free of duplicates |
| Streaks.Streak | db.py:298-309 | the reference streak, never longer than the list |
| Streaks.CalculateStreak | db.py:298-309 | the loop, counting while the i-th date is i days old and stopping at the first that is not, returns the reference streak |
| Streaks.StreakCharacterized | db.py:303-308 | the streak is the longest prefix whose i-th entry is exactly i days before today |
| Streaks.StreakEntriesAreConsecutiveDays | db.py:303-308 | a streak of k means the first k entries are today, yesterday, …, today − (k − 1) |
| Streaks.NoStreakWithoutToday | db.py:299-300 | an empty list, or one whose newest date is not today, gives 0 |
| Streaks.StreakExamples | db.py:298-309 | three consecutive days ending today give 3, a list missing today gives 0, a gap after today gives 1 |
| Streaks.DuplicateStopsStreak | db.py:303-308 | a date repeated at positions j and j+1 stops the count at j + 1 at most |
| Streaks.StrictlyFalling | db.py:292 | distinct dates sorted newest first have strictly falling day numbers |
| Streaks.DayBeforeStreakMissing | db.py:303-308 | on distinct dates none after today, the day just before the streak is not in the list |
| Streaks.StreakCountsConsecutiveDays | db.py:287-295 | for distinct dates none after today, sorted newest first, the streak k is such that each of the k days ending today is present and the day before them is absent |
| Db.UserIndex | db.py:45-46 | the lookup finds the first row with the id, or reports that no row has it |
| Db.Registered | db.py:44-49 | after registration the user has a row; existing rows are kept; a new row is `(id, nickname, 0)`; a present user leaves the table as it was |
| Db.RegisterKeepsUsers | db.py:44-49 | registration keeps ids unique and changes nobody's experience |
| Db.FirstMatchAfterAppend | db.py:47-49 | after appending a row a lookup still finds the old row when there was one |
| Db.AddExpAccumulates | db.py:110-121 | `add_exp` raises exactly this user's experience by `amount`, from 0 for a new user created as "Unknown"; an existing user gets no extra row; ids, nicknames and other users' experience are unchanged |
| Db.WithExpAdded | db.py:110-121 | the users table after `add_exp`: same length when the user exists, one more row otherwise; ids and nicknames kept; other users' rows unchanged; a new user's row is `(id, "Unknown", amount)` |
| Db.SameIdsSameIndex | db.py:113-116 | updating experience in place does not change which row a lookup finds |
| Db.ExpNeverDecreases | db.py:110-121 | adding a non-negative amount never lowers anyone's experience |
| Db.StudyIndex | db.py:88-90 | the lookup finds the first study row of the (user, day), or reports that there is none |
| Db.MinutesOn | db.py:102-107 | the day's minutes: 0 without a row, the row's minutes when there is one |
| Db.Accumulated | db.py:85-99 | the study table after `log_study_time`: same length when today's row exists, one more row otherwise; rows of other (user, day) pairs unchanged; today's row exists afterwards |
| Db.AccumulateAdds | db.py:85-99 | create-or-accumulate: the day's minutes grow by exactly `minutes`, every other (user, day) is unchanged, there is still one row per (user, day), and at most one row is added |
| Db.MarkDates | db.py:287-294 | a date is listed exactly when the user has a mark on it |
| Db.QualifyingStudyDates | db.py:277-283 | a date is listed exactly when the user has a study row on it with at least 10 minutes |
| Db.MarkDatesDistinct | db.py:52-59 | one mark per (user, day) means a user's mark dates are all different |
| Db.StudyDatesDistinct | db.py:88-98 | one study row per (user, day) means a user's qualifying dates are all different |
| Db.MinutesIn | db.py:186-191 | `COALESCE(SUM(minutes), 0)`: 0 when no row of the user is in the window, never negative when no row's minutes are negative |
| Db.StudyDayIffEnoughMinutes | db.py:178-183 | a day of the window is a study day exactly when that day's total is at least 10 minutes |
| Db.StudyWindowExample | db.py:178-191 | 5, 15 and 20 minutes on three days of a window make 2 study days and 40 minutes |
| Db.MarkDayInWindow | db.py:162-167 | a day counts towards the mark total exactly when the user has a mark on it and it lies in the window |
| Db.MonthlyMarkDays | db.py:154-175 | the monthly mark count counts exactly the user's marks in today's calendar month |
| Db.WeeklyMarkDays | db.py:209-228 | the weekly mark count counts exactly the user's marks in the seven days from this week's Monday |
| Db.MonthlyStudyDays | db.py:177-183 | the monthly study days are the days of today's month whose total is at least 10 minutes |
| Db.EmptyWindowHasNoStudy | db.py:186-191 | a window without the user's study rows has no study day and 0 minutes |
| Db.WindowStats | db.py:161-205 | the statistics of a window: the attendance or wake-up count is 0 exactly when the user has no such mark in the window, the study-day count is 0 exactly when every row of the window is under 10 minutes, and the experience is the live total, 0 for an absent user |
| Db.LimitCount | db.py:144 | `LIMIT n` keeps at most `n` rows and at most the table's rows, all of them when the table is smaller; a negative `n` keeps all of them |
| Db.Rows | db.py:142 | the `(nickname, exp)` columns of every row, in table order |
| Db.RowsOfInsert | db.py:143 | inserting a user into the sorted table adds exactly that user's columns to the projected rows |
| Db.RowsOfSort | db.py:143 | `ORDER BY exp DESC` does not change which `(nickname, exp)` pairs the table holds, nor how often |
| Db.TopRows | db.py:142-144 | the first `n` sorted rows are non-increasing in experience and a sub-multiset of the table's rows |
| Db.TopUsers | db.py:139-146 | the ranking has exactly `LIMIT` many rows, its experience never rises down the list, and its rows are distinct rows of the table (a sub-multiset of them) |
| Db.ShownAreUsers | db.py:139-146 | each ranked row is the row of some user |
| Db.OmittedAreNoHigher | db.py:139-146 | a user not in the ranking has no more experience than anyone in it |
| Db.OmittedUserNoHigher | db.py:139-146 | any one user is either shown in the ranking or has no more experience than every shown row |
| Db.SortedPosition | db.py:143 | every user keeps a position in the `ORDER BY exp DESC` result |
| Db.SortedExpAt | db.py:143 | of two positions in the sorted result, the earlier has at least as much experience |
| Db.TopRowsFromTable | db.py:142-144 | the rows kept by `LIMIT` occur in the table at least as often as in the result |
| Db.TopUsersAreTheTop | db.py:139-146 | every shown row is an existing user, and every user left out has no more experience than anyone shown |
| Db.Store.constructor | db.py:9-40 | the store starts with four empty tables |
| Db.Store.RegisterUser | db.py:44-49 | `_register_user` updates the users table as `Registered` says and keeps the other tables and the uniqueness invariant |
| Db.Store.SaveAttendance | db.py:52-62 | returns true exactly when today's mark was absent; then it appends the mark once and registers the user, otherwise it changes nothing; the mark is present afterwards |
| Db.Store.SaveWakeup | db.py:72-82 | the same check-then-insert contract on the wake-up table |
| Db.Store.TodayStudyTime | db.py:102-107 | 0 without a row for the user today, otherwise that row's minutes |
| Db.Store.TopUsersByExp | db.py:139-146 | the same ranking contract as `TopUsers` over the store's users table |
| Db.Store.LogStudyTime | db.py:85-99 | registers the user as "Unknown" and accumulates today's minutes, keeping the marks |
| Db.Store.AddExp | db.py:110-121 | the users table becomes `WithExpAdded` and the other tables are kept |
| Db.Store.GetLevel | db.py:124-136 | the 9-entry level of the user's experience, 1 for an absent user, between 1 and 9 |
| Db.Store.MonthlyStats | db.py:154-206 | the month statistics carry the live experience, 0 for an absent user, and a month without study rows has 0 study days and 0 minutes |
| Db.Store.WeeklyStats | db.py:209-259 | the same for the Monday-to-Sunday week of today |
| Db.Store.GetStreakAttendance | db.py:287-295 | the streak of the user's attendance dates sorted newest first; with no mark after today, each of the counted days has a mark and the day before does not |
| Db.Store.GetStreakWakeup | db.py:271-272 | the same over the wake-up table |
| Db.Store.GetStreakStudy | db.py:275-284 | the streak of the qualifying study dates; with no row after today, each counted day has at least 10 minutes and the day before has fewer |
| Db.StudyStreakCountsDays | db.py:275-284 | the study streak counts the consecutive days ending today with at least 10 minutes |
| Db.StudyDatesMeanEnoughMinutes | db.py:277-283 | a date is a qualifying study date exactly when that day's total is at least 10 minutes |
| Bot.Enters | main.py:100 | the entry test holds exactly when the new channel is tracked: the comparison of a channel object with a channel name never stops it |
| Bot.Leaves | main.py:114-116 | the exit test holds exactly when the old channel is tracked and the new one is not |
| Bot.SessionsAfter | main.py:100-118 | the session map after an update: other members untouched; a tracked new channel sets the member's session to `now`; leaving the tracked channel removes it; an update outside it changes nothing |
| Bot.MarkExp | main.py:172-183 | the award is 5 exactly before 09:00 and 3 otherwise |
| Bot.OtherSessionsUntouched | main.py:100-117 | an update never adds, removes or changes another member's session |
| Bot.EnterAndLeaveExclusive | main.py:100-116 | no update both opens and closes a session |
| Bot.UpdateInsideChannelRestarts | main.py:100-111 | any update whose new channel is tracked, even one that stays in it, restarts the session at `now` |
| Bot.LeaveClosesSession | main.py:114-117 | leaving removes the member's session whether or not there was one |
| Bot.StudyExp | main.py:140 | the award is `seconds / 180` rounded to the nearest integer, ties to even as Python's `round` does |
| Bot.StudyExpMonotone | main.py:140 | a longer session never earns less |
| Bot.StudyExpExamples | main.py:120-140 | 45 minutes earn 15 experience, and the 10-minute floor earns 3 |
| Bot.WholeMinutes | main.py:139 | `int(duration)` is the number of whole minutes in the session |
| Bot.RankingRows | main.py:59-77 | the rows of `get_top_users_by_exp()` with its default limit of 10, in that order, each with its level from the 7-entry table, between 1 and 7 |
| Bot.CalculateLevelFromExp | main.py:79-86 | the loop gives the 7-entry level, between 1 and 7, equal to `get_level`'s below 900 and lower from 900 on |
| Bot.StudyBot.constructor | main.py:23 | the session map starts empty |
| Bot.StudyBot.Enter | main.py:108-111 | the member's session is set or replaced with start `now` |
| Bot.StudyBot.Leave | main.py:113-143 | pops the session. Without one, or under 10 minutes, nothing else changes. Otherwise it logs the whole minutes, registers the member as "Unknown", adds `StudyExp` experience, and reports the new level and today's total |
| Bot.StudyBot.OnVoiceStateUpdate | main.py:99-143 | the session map becomes `SessionsAfter`; an entry changes no table; a leave credits as `Leave` does; any other update changes nothing |
| Bot.StudyBot.CheckIn | main.py:166-195 | awards exactly when the attendance mark was new: 5 before 09:00 and 3 after, raising the user's experience by that much and reporting the level; otherwise the store is unchanged |
| Bot.StudyBot.WakeUp | main.py:197-226 | the same award rule over the wake-up table |
| Bot.CheckInTwiceSameDay | main.py:176-184 | a second check-in on the same day is refused, so the day earns 0 or 5 in total |
| Bot.SessionScenarios | main.py:113-143 | a 9-minute session ends too short; re-entering and staying 45 minutes credits 45 minutes and 15 experience; the session is closed afterwards |

## Left out

- Everything on the chat platform is left out: embeds, sending, fetching, editing and
  pinning messages, the ranking message's setup, the rendering of the other commands, and
  the hours-and-minutes text (main.py:145-147).
- The `update_ranking` timer loop (main.py:46-57) is left out. It is timer-driven I/O that
  swallows its own exceptions.
- The SQLite connection and the table creation are replaced by in-memory sequences. The
  token loading and `bot.run` are left out.
- `get_attendance` (db.py:65-69) only feeds a display command and is not part of this model.
- Clocks are parameters. main.py reads Seoul time while db.py reads the process's local
  time, so near midnight the two can name different days. The model passes `today` to the
  store separately from `now` and `hour` and does not model time zones.
- Bot.StudyBot.OnVoiceStateUpdate: each voice-state update is one atomic step. The handler
  awaits the announcement (main.py:107) before it stores the session (main.py:108), so a
  leave handled during that wait finds no session and the entry then opens a session for a
  member who has already left. Interleavings at these suspension points are not modelled.
- Bot.StudyBot.Leave: the source reads the clock twice (main.py:92 and main.py:119) and
  uses the second reading for the duration; the model takes one `now`.
- Bot.StudyExp: durations are whole seconds and the arithmetic is exact. The source
  divides floating-point minutes with microseconds, so float rounding at exact ties is not
  modelled.
- Calendar.AddDays: dates are unbounded in both directions. Python's `date` only holds the
  years 1 to 9999 and raises `OverflowError` outside them; `Date` admits any year, so that
  error is not modelled.
- Calendar.OrdinalOrder: the order of the triples equals the string order of
  `"%Y-%m-%d"` keys only for 4-digit years. Other years are not considered.
- Db.TopUsers: SQLite leaves the order of users with equal experience unspecified. The
  model fixes table order; `TopUsersAreTheTop` states what holds whatever the order.
- User ids: `user_id` is a `TEXT` column that is looked up with integer ids. The model
  takes ids as integers compared for equality, which is what SQLite's type affinity makes
  of those lookups.
- Session messages: the announcement message id is kept but never interpreted. The fallback to
  a fresh message when fetching it fails is I/O.
