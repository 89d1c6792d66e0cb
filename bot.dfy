/** The gamification logic of main.py: the `study_sessions` map that turns entering and
    leaving the tracked voice channel into credited study time, the 5/3 experience award of
    the check-in and wake-up commands, the ranking rows and the 7-entry level table.
    Clock reads become parameters: `now` is a time in whole seconds, `hour` the hour of day,
    `today` the store's calendar day. Message ids come from the chat platform and are
    passed in. */
module Bot {
  import opened Calendar
  import opened Levels
  import opened Db

  /** TRACKED_VOICE_CHANNELS */
  const TrackedVoiceChannels: seq<string> := ["🎥｜캠스터디"]

  /** Checking in or waking up at this hour or later is late. */
  const LateHour := 9

  /** A session shorter than this (10 minutes) earns nothing. */
  const MinSessionSeconds := 600

  /** The rows shown in the ranking: `get_top_users_by_exp()` uses its default limit. */
  const RankingSize := 10

  /** An open study session: when it started and the message announcing it. */
  datatype Session = Session(start: int, msgId: int)

  /** What a leave event produced. */
  datatype LeaveOutcome =
    | NoSession
    | TooShort
    | Completed(minutes: int, exp: int, level: int, todayTotal: int)

  /** What a voice-state update produced. */
  datatype VoiceOutcome = Ignored | Entered | Left(leave: LeaveOutcome)

  /** What the check-in and wake-up commands produced. */
  datatype MarkOutcome = AlreadyDone | Marked(exp: int, level: int)

  predicate IsTracked(channel: Option<string>) {
    channel.Some? && channel.value in TrackedVoiceChannels
  }

  /** Python's `before.channel == after_channel`, where `before.channel` is a channel object
      or None (`before` names that channel) and `after_channel` is a channel name or None.
      A channel object never equals a string, so only None equals None. */
  predicate ChannelEqualsName(before: Option<string>, afterName: Option<string>) {
    before.None? && afterName.None?
  }

  /** The entry test `after_channel in TRACKED_VOICE_CHANNELS and before.channel != after_channel`.
      Its second half never fails once the first holds, so any update whose new channel is
      tracked is an entry, wherever the member came from. */
  predicate Enters(before: Option<string>, after: Option<string>): (b: bool)
    ensures b <==> IsTracked(after)
  {
    IsTracked(after) && !ChannelEqualsName(before, after)
  }

  /** The exit test `before_channel in TRACKED_VOICE_CHANNELS and (after.channel is None or
      after_channel not in TRACKED_VOICE_CHANNELS)`: the member left the tracked channel for
      no channel or an untracked one. */
  predicate Leaves(before: Option<string>, after: Option<string>): (b: bool)
    ensures b <==> IsTracked(before) && !IsTracked(after)
  {
    IsTracked(before) && (after.None? || !IsTracked(after))
  }

  /** The session map after one voice-state update. An entry opens (or reopens) the member's
      session at `now`; a leave closes it; nobody else's session changes. */
  function SessionsAfter(sessions: map<UserId, Session>, member: UserId,
                         before: Option<string>, after: Option<string>,
                         now: int, msgId: int): (r: map<UserId, Session>)
    ensures forall k :: k != member ==> (k in r <==> k in sessions) && (k in r ==> r[k] == sessions[k])
    ensures IsTracked(after) ==> member in r && r[member] == Session(now, msgId)
    ensures IsTracked(before) && !IsTracked(after) ==> member !in r
    ensures !IsTracked(before) && !IsTracked(after) ==> r == sessions
  {
    if Enters(before, after) then sessions[member := Session(now, msgId)]
    else if Leaves(before, after) then sessions - {member}
    else sessions
  }

  /** An update never touches another member's session. */
  lemma OtherSessionsUntouched(sessions: map<UserId, Session>, member: UserId,
                               before: Option<string>, after: Option<string>,
                               now: int, msgId: int, other: UserId)
    requires other != member
    ensures var s := SessionsAfter(sessions, member, before, after, now, msgId);
            (other in s <==> other in sessions) && (other in s ==> s[other] == sessions[other])
  {
  }

  /** An update never both opens and closes a session. */
  lemma EnterAndLeaveExclusive(before: Option<string>, after: Option<string>)
    ensures !(Enters(before, after) && Leaves(before, after))
  {
  }

  /** Any update whose new channel is tracked, including one that stays inside the tracked
      channel (muting, turning the camera on), restarts the session at `now`: the time
      already spent is dropped without being credited. */
  lemma UpdateInsideChannelRestarts(sessions: map<UserId, Session>, member: UserId,
                                    channel: string, now: int, msgId: int)
    requires channel in TrackedVoiceChannels
    ensures var s := SessionsAfter(sessions, member, Some(channel), Some(channel), now, msgId);
            member in s && s[member].start == now
  {
  }

  /** Leaving removes the member's session, whether or not there was one. */
  lemma LeaveClosesSession(sessions: map<UserId, Session>, member: UserId,
                           before: Option<string>, after: Option<string>, now: int, msgId: int)
    requires Leaves(before, after)
    ensures member !in SessionsAfter(sessions, member, before, after, now, msgId)
    ensures SessionsAfter(sessions, member, before, after, now, msgId) == sessions - {member}
  {
  }

  /** `round((duration / 30) * 10)` for a duration of `seconds / 60` minutes, that is
      `seconds / 180` rounded to the nearest integer with ties to the even one, as
      Python's `round` does. */
  function StudyExp(seconds: int): (exp: int)
    ensures -90 <= seconds - 180 * exp <= 90
    ensures (seconds - 180 * exp == 90 || seconds - 180 * exp == -90) ==> exp % 2 == 0
  {
    var q, r := seconds / 180, seconds % 180;
    if r < 90 then q
    else if r > 90 then q + 1
    else if q % 2 == 0 then q
    else q + 1
  }

  /** Longer sessions never earn less. */
  lemma StudyExpMonotone(s1: int, s2: int)
    requires s1 <= s2
    ensures StudyExp(s1) <= StudyExp(s2)
  {
  }

  /** 45 minutes earn 15; the shortest credited session (10 minutes) earns 3. */
  lemma StudyExpExamples()
    ensures StudyExp(45 * 60) == 15
    ensures StudyExp(MinSessionSeconds) == 3
  {
  }

  /** `int(duration)` for a duration of `seconds / 60` minutes. */
  function WholeMinutes(seconds: int): (m: int)
    requires seconds >= 0
    ensures 60 * m <= seconds < 60 * (m + 1)
  {
    seconds / 60
  }

  /** `5 if not is_late else 3` with `is_late = hour >= 9`: 5 exactly before 09:00. */
  function MarkExp(hour: int): (exp: int)
    ensures exp == 5 || exp == 3
    ensures exp == 5 <==> hour < LateHour
  {
    if hour >= LateHour then 3 else 5
  }

  /** The ranking rows of `make_ranking_embed`: name, experience and the level from the
      7-entry table, for the top users by experience. */
  function RankingRows(users: seq<User>): (rows: seq<(string, int, int)>)
    ensures |rows| == LimitCount(RankingSize, |users|)
    ensures forall i :: 0 <= i < |rows| ==> (rows[i].0, rows[i].1) == TopUsers(users, RankingSize)[i]
    ensures forall i :: 0 <= i < |rows| ==> 1 <= rows[i].2 <= 7 && rows[i].2 == BotLevel(rows[i].1)
    ensures forall i, j :: 0 <= i < j < |rows| ==> rows[i].1 >= rows[j].1
  {
    var top := TopUsers(users, RankingSize);
    seq(|top|, i requires 0 <= i < |top| =>
      (BotLevelFacts(top[i].1); (top[i].0, top[i].1, BotLevel(top[i].1))))
  }

  /** `calculate_level_from_exp`: the same loop as `get_level` over the 7-entry table. */
  method CalculateLevelFromExp(exp: int) returns (level: int)
    ensures level == BotLevel(exp)
    ensures 1 <= level <= 7
    ensures exp < 900 ==> level == DbLevel(exp)
    ensures exp >= 900 ==> level == 7 && level < DbLevel(exp)
  {
    BotLevelFacts(exp);
    TablesDiverge(exp);
    level := LevelFrom(BotThresholds, exp);
  }

  class StudyBot {
    /** `study_sessions`: at most one open session per member, by construction of the map. */
    var studySessions: map<UserId, Session>
    const store: Store

    ghost predicate Valid()
      reads this, store
    {
      store.Valid()
    }

    constructor (store: Store)
      requires store.Valid()
      ensures Valid() && this.store == store && studySessions == map[]
    {
      this.store := store;
      studySessions := map[];
    }

    /** What closing `session` at `now` did to the store and reported: no session, a session
        under 10 minutes and an update that was no leave change nothing; a session of 10
        minutes or more logs its whole minutes on `today`, registers the member as "Unknown"
        if needed, awards `StudyExp` experience and reports the new level and today's total. */
    twostate predicate Credited(session: Option<Session>, member: UserId, now: int, today: Date,
                                outcome: LeaveOutcome)
      reads store
    {
      match session
      case None => outcome == NoSession && store.Tables() == old(store.Tables())
      case Some(s) =>
        var seconds := now - s.start;
        if seconds < MinSessionSeconds then
          outcome == TooShort && store.Tables() == old(store.Tables())
        else
          var minutes, exp := WholeMinutes(seconds), StudyExp(seconds);
          store.study == Accumulated(old(store.study), member, today, minutes) &&
          store.users == WithExpAdded(Registered(old(store.users), member, "Unknown"), member, exp) &&
          store.attendance == old(store.attendance) && store.wakeup == old(store.wakeup) &&
          outcome == Completed(minutes, exp, DbLevel(ExpOf(store.users, member)),
                               MinutesOn(store.study, member, today))
    }

    /** The member's open session, if any. */
    function SessionOf(member: UserId): Option<Session>
      reads this
    {
      if member in studySessions then Some(studySessions[member]) else None
    }

    /** The entry branch: open the member's session at `now`, replacing any open one. */
    method Enter(member: UserId, now: int, msgId: int)
      modifies this
      ensures studySessions == old(studySessions)[member := Session(now, msgId)]
    {
      studySessions := studySessions[member := Session(now, msgId)];
    }

    /** The exit branch: pop the member's session and credit it. */
    method Leave(member: UserId, now: int, today: Date) returns (outcome: LeaveOutcome)
      requires Valid()
      modifies this, store
      ensures Valid()
      ensures studySessions == old(studySessions) - {member}
      ensures Credited(old(SessionOf(member)), member, now, today, outcome)
    {
      var session := SessionOf(member);
      studySessions := studySessions - {member};
      if session.None? {
        return NoSession;
      }
      var seconds := now - session.value.start;
      if seconds < MinSessionSeconds {
        return TooShort;
      }
      var minutes := WholeMinutes(seconds);
      store.LogStudyTime(member, minutes, today);
      var exp := StudyExp(seconds);
      store.AddExp(member, exp);
      var level := store.GetLevel(member);
      var todayTotal := store.TodayStudyTime(member, today);
      outcome := Completed(minutes, exp, level, todayTotal);
    }

    /** `on_voice_state_update`, logic only: the entry test, then the exit test. */
    method OnVoiceStateUpdate(member: UserId, before: Option<string>, after: Option<string>,
                              now: int, msgId: int, today: Date) returns (outcome: VoiceOutcome)
      requires Valid()
      modifies this, store
      ensures Valid()
      ensures studySessions == SessionsAfter(old(studySessions), member, before, after, now, msgId)
      ensures Enters(before, after) ==> outcome == Entered && store.Tables() == old(store.Tables())
      ensures Leaves(before, after) ==>
                outcome.Left? && Credited(old(SessionOf(member)), member, now, today, outcome.leave)
      ensures !Enters(before, after) && !Leaves(before, after) ==>
                outcome == Ignored && store.Tables() == old(store.Tables())
    {
      outcome := Ignored;
      if Enters(before, after) {
        Enter(member, now, msgId);
        outcome := Entered;
      }
      if Leaves(before, after) {
        var leave := Leave(member, now, today);
        outcome := Left(leave);
      }
    }

    /** `checkin`: award 5 (before 09:00) or 3 experience when today's attendance mark was
        new, nothing when it was already there. */
    method CheckIn(user: UserId, nickname: string, hour: int, today: Date) returns (outcome: MarkOutcome)
      requires Valid()
      modifies store
      ensures Valid()
      ensures outcome.Marked? <==> Mark(user, today) !in old(store.attendance)
      ensures outcome == AlreadyDone ==> store.Tables() == old(store.Tables())
      ensures outcome.Marked? ==>
                outcome.exp == (if hour < LateHour then 5 else 3) &&
                store.attendance == old(store.attendance) + [Mark(user, today)] &&
                store.users == WithExpAdded(Registered(old(store.users), user, nickname), user, outcome.exp) &&
                store.wakeup == old(store.wakeup) && store.study == old(store.study) &&
                ExpOf(store.users, user) == ExpOf(old(store.users), user) + outcome.exp &&
                outcome.level == DbLevel(ExpOf(store.users, user))
      ensures Mark(user, today) in store.attendance
    {
      var saved := store.SaveAttendance(user, nickname, today);
      if !saved {
        return AlreadyDone;
      }
      var exp := MarkExp(hour);
      ghost var registered := store.users;
      store.AddExp(user, exp);
      RegisterKeepsUsers(old(store.users), user, nickname, user);
      AddExpAccumulates(registered, user, exp, user);
      var level := store.GetLevel(user);
      outcome := Marked(exp, level);
    }

    /** `wakeup`: the same award rule over the wake-up table. */
    method WakeUp(user: UserId, nickname: string, hour: int, today: Date) returns (outcome: MarkOutcome)
      requires Valid()
      modifies store
      ensures Valid()
      ensures outcome.Marked? <==> Mark(user, today) !in old(store.wakeup)
      ensures outcome == AlreadyDone ==> store.Tables() == old(store.Tables())
      ensures outcome.Marked? ==>
                outcome.exp == (if hour < LateHour then 5 else 3) &&
                store.wakeup == old(store.wakeup) + [Mark(user, today)] &&
                store.users == WithExpAdded(Registered(old(store.users), user, nickname), user, outcome.exp) &&
                store.attendance == old(store.attendance) && store.study == old(store.study) &&
                ExpOf(store.users, user) == ExpOf(old(store.users), user) + outcome.exp &&
                outcome.level == DbLevel(ExpOf(store.users, user))
      ensures Mark(user, today) in store.wakeup
    {
      var saved := store.SaveWakeup(user, nickname, today);
      if !saved {
        return AlreadyDone;
      }
      var exp := MarkExp(hour);
      ghost var registered := store.users;
      store.AddExp(user, exp);
      RegisterKeepsUsers(old(store.users), user, nickname, user);
      AddExpAccumulates(registered, user, exp, user);
      var level := store.GetLevel(user);
      outcome := Marked(exp, level);
    }
  }

  // ---------------------------------------------------------------------------
  // Two scenarios, as callers see them

  /** Two check-ins on the same day before 09:00: the first (if today was not yet marked)
      earns 5 experience, the second is refused, so the day earns at most 5 in total. */
  method CheckInTwiceSameDay(bot: StudyBot, user: UserId, nickname: string, today: Date)
      returns (second: MarkOutcome)
    requires bot.Valid()
    modifies bot.store
    ensures second == AlreadyDone
    ensures ExpOf(bot.store.users, user) - ExpOf(old(bot.store.users), user) in {0, 5}
  {
    var first := bot.CheckIn(user, nickname, 8, today);
    second := bot.CheckIn(user, nickname, 8, today);
  }

  /** Entering and leaving 9 minutes later credits nothing; entering again and leaving 45
      minutes later credits 45 minutes and 15 experience. */
  method SessionScenarios(bot: StudyBot, member: UserId, t: int, msgId: int, today: Date)
      returns (short: VoiceOutcome, long: VoiceOutcome)
    requires bot.Valid()
    modifies bot, bot.store
    ensures short == Left(TooShort)
    ensures long.Left? && long.leave.Completed? && long.leave.minutes == 45 && long.leave.exp == 15
    ensures member !in bot.studySessions
  {
    var channel := Some(TrackedVoiceChannels[0]);
    var back := t + 9 * 60;
    var entered := bot.OnVoiceStateUpdate(member, None, channel, t, msgId, today);
    short := bot.OnVoiceStateUpdate(member, channel, None, back, msgId, today);
    entered := bot.OnVoiceStateUpdate(member, None, channel, back, msgId, today);
    long := bot.OnVoiceStateUpdate(member, channel, None, back + 45 * 60, msgId, today);
    StudyExpExamples();
  }
}
