/**
 When a PVE report is stale (internal/service/report.go, internal/domain/schedule.go).

 Days are numbered; day d starts at `DayStart(d)` in the configured time zone and lasts
 23 to 25 hours, so that clock changes are covered.  Day d's backups are due at the
 expected finish time of the next morning: `Cutoff(d)`.
 */
module Staleness {
  import opened Wrappers

  type Time = int // minutes

  const HOUR := 60

  // A calendar: the start of day d is that of day 0 plus the lengths in between.
  datatype Calendar = Calendar(dayStart: int -> int, weekdayOfDay0: int)

  function DayLength(cal: Calendar, d: int): int { cal.dayStart(d + 1) - cal.dayStart(d) }

  ghost predicate ValidCalendar(cal: Calendar) {
    forall d :: 23 * HOUR <= DayLength(cal, d) <= 25 * HOUR
  }

  // 0 is Sunday, as in time.Weekday.
  function Weekday(cal: Calendar, d: int): int { (d + cal.weekdayOfDay0) % 7 }

  predicate IsDay(cal: Calendar, d: int, t: Time) { cal.dayStart(d) <= t < cal.dayStart(d + 1) }

  // dayStart.AddDate(0, 0, 1) plus hours and minutes
  function Cutoff(cal: Calendar, d: int, finish: int): Time { cal.dayStart(d + 1) + finish }

  // A row of the backup configuration: the days by weekday number.
  datatype VMConfig = VMConfig(excluded: bool, days: set<int>)

  // ---------------------------------------------------------------- the configuration

  function Expected(configs: seq<VMConfig>): set<int> {
    set c, w | c in configs && !c.excluded && w in c.days && 0 <= w < 7 :: w
  }

  // VMHasAnyScheduledDay; VMScheduledForDay is `w in days`
  predicate AnyDay(c: VMConfig) { exists w :: 0 <= w < 7 && w in c.days }

  // HasActiveVMBackupConfigs
  method HasActiveConfigs(configs: seq<VMConfig>) returns (active: bool)
    ensures active <==> Expected(configs) != {}
    ensures active <==> exists i, w :: 0 <= i < |configs| && !configs[i].excluded && w in configs[i].days && 0 <= w <= 6
  {
    for i := 0 to |configs|
      invariant forall j :: 0 <= j < i ==> configs[j].excluded || !AnyDay(configs[j])
    {
      if !configs[i].excluded && AnyDay(configs[i]) {
        var w :| 0 <= w < 7 && w in configs[i].days;
        assert configs[i] in configs;
        assert w in Expected(configs);
        return true;
      }
    }
    active := false;
    if w :| w in Expected(configs) {
      var c :| c in configs && !c.excluded && w in c.days && 0 <= w < 7;
      assert AnyDay(c);
    }
  }

  // PVEStaleSuppressed: staleHours is the per-server override, 0 disables.
  predicate Suppressed(configs: seq<VMConfig>, staleHours: Option<int>, noVMsConfirmed: bool) {
    staleHours == Some(0) || noVMsConfirmed || (configs != [] && Expected(configs) == {})
  }

  // A clock time that may fail to parse: minutes since midnight.
  type Clock = Option<int>

  predicate ValidClock(c: Clock) { c.Some? ==> 0 <= c.value < 24 * HOUR }

  // expectedFinishFromAlertConfig: server override, then the global time, then 9:00.
  function ExpectedFinish(serverTime: Option<Clock>, globalTime: Clock): (m: int)
    requires (serverTime.Some? ==> ValidClock(serverTime.value)) && ValidClock(globalTime)
    ensures 0 <= m < 24 * HOUR
    ensures serverTime.Some? && serverTime.value.Some? ==> m == serverTime.value.value
    ensures (serverTime.None? || serverTime.value.None?) && globalTime.Some? ==> m == globalTime.value
    ensures (serverTime.None? || serverTime.value.None?) && globalTime.None? ==> m == 540
  {
    if serverTime.Some? && serverTime.value.Some? then serverTime.value.value
    else if globalTime.Some? then globalTime.value
    else 9 * HOUR
  }

  // ---------------------------------------------------------------- the calendar

  lemma {:induction false} StartsIncrease(cal: Calendar, d: int, e: int)
    requires ValidCalendar(cal) && d <= e
    ensures cal.dayStart(e) - cal.dayStart(d) >= 23 * HOUR * (e - d)
    decreases e - d
  {
    if d < e {
      StartsIncrease(cal, d, e - 1);
      assert DayLength(cal, e - 1) >= 23 * HOUR;
    }
  }

  lemma CutoffsIncrease(cal: Calendar, d: int, e: int, finish: int)
    requires ValidCalendar(cal) && d < e
    ensures Cutoff(cal, d, finish) < Cutoff(cal, e, finish)
    ensures cal.dayStart(d) < cal.dayStart(e)
  {
    StartsIncrease(cal, d, e);
    StartsIncrease(cal, d + 1, e + 1);
  }

  // Three days later every cutoff has passed, even across the shortest days.
  lemma ThreeDaysClose(cal: Calendar, today: int, now: Time, d: int, finish: int)
    requires ValidCalendar(cal) && IsDay(cal, today, now) && d <= today - 3 && finish < 24 * HOUR
    ensures Cutoff(cal, d, finish) <= now
  {
    StartsIncrease(cal, d + 1, today);
  }

  // Today's own cutoff lies ahead.
  lemma TodayIsOpen(cal: Calendar, today: int, now: Time, d: int, finish: int)
    requires ValidCalendar(cal) && IsDay(cal, today, now) && d >= today && finish >= 0
    ensures now < Cutoff(cal, d, finish)
  {
    StartsIncrease(cal, today + 1, d + 1);
  }

  // The day of a time is found by walking from day d towards it.
  lemma {:induction false} DayFrom(cal: Calendar, t: Time, d: int) returns (day: int)
    requires ValidCalendar(cal)
    ensures IsDay(cal, day, t)
    decreases if t < cal.dayStart(d) then cal.dayStart(d) - t else t - cal.dayStart(d)
  {
    assert DayLength(cal, d - 1) <= 25 * HOUR && DayLength(cal, d) >= 23 * HOUR;
    if t < cal.dayStart(d - 1) {
      day := DayFrom(cal, t, d - 1);
    } else if t < cal.dayStart(d) {
      day := d - 1;
    } else if t < cal.dayStart(d + 1) {
      day := d;
    } else {
      day := DayFrom(cal, t, d + 1);
    }
  }

  /** Every time, midnight included, is in exactly one day. */
  lemma OneDay(cal: Calendar, t: Time)
    requires ValidCalendar(cal)
    ensures exists d :: IsDay(cal, d, t)
    ensures forall d, e :: IsDay(cal, d, t) && IsDay(cal, e, t) ==> d == e
  {
    var day := DayFrom(cal, t, 0);
    forall d, e | IsDay(cal, d, t) && IsDay(cal, e, t) && d < e ensures false {
      StartsIncrease(cal, d + 1, e);
    }
  }

  // ---------------------------------------------------------------- the decision

  // d is the latest expected day whose cutoff has passed at `now`.
  ghost predicate LatestDue(cal: Calendar, expected: set<int>, finish: int, now: Time, d: int) {
    && Weekday(cal, d) in expected && Cutoff(cal, d, finish) <= now
    && forall e :: e > d && Weekday(cal, e) in expected ==> now < Cutoff(cal, e, finish)
  }

  /** Some day of the two weeks before today is due: the loop always decides. */
  lemma SomeDayIsDue(cal: Calendar, expected: set<int>, finish: int, today: int, now: Time) returns (i: int)
    requires ValidCalendar(cal) && IsDay(cal, today, now) && 0 <= finish < 24 * HOUR
    requires exists w :: w in expected && 0 <= w < 7
    ensures 1 <= i <= 14 && Weekday(cal, today - i) in expected && Cutoff(cal, today - i, finish) <= now
  {
    var w :| w in expected && 0 <= w < 7;
    // the occurrence of w between 8 and 14 days ago
    i := 8 + (today + cal.weekdayOfDay0 - 8 - w) % 7;
    var q := (today + cal.weekdayOfDay0 - 8 - w) / 7;
    assert today - i + cal.weekdayOfDay0 == 7 * q + w;
    assert Weekday(cal, today - i) == w;
    ThreeDaysClose(cal, today, now, today - i, finish);
  }

  lemma LatestDueUnique(cal: Calendar, expected: set<int>, finish: int, now: Time, d: int, e: int)
    requires LatestDue(cal, expected, finish, now, d) && LatestDue(cal, expected, finish, now, e)
    ensures d == e
  {
  }

  // Filling the map of expected weekdays.
  method ExpectedDays(configs: seq<VMConfig>) returns (expected: set<int>)
    ensures expected == Expected(configs)
  {
    expected := {};
    for i := 0 to |configs|
      invariant expected == Expected(configs[..i])
    {
      assert configs[..i + 1] == configs[..i] + [configs[i]];
      if !configs[i].excluded {
        expected := expected + set w | 0 <= w < 7 && w in configs[i].days;
      }
    }
    assert configs[..|configs|] == configs;
  }

  // The decision: reported before the start of the latest expected day that is due.
  ghost predicate Late(cal: Calendar, expected: set<int>, finish: int, reportedAt: Time, now: Time) {
    exists d :: LatestDue(cal, expected, finish, now, d) && reportedAt < cal.dayStart(d)
  }

  // The backup of day d should be there: its day is expected, and the finish time of the next
  // morning has come.
  predicate ShouldBeThere(cal: Calendar, expected: set<int>, finish: int, now: Time, d: int) {
    (d + cal.weekdayOfDay0) % 7 in expected && cal.dayStart(d + 1) + finish <= now
  }

  // d is the last such day, and the report counts as stale exactly when it is from before d.
  ghost predicate DecidingDay(cal: Calendar, expected: set<int>, finish: int, reportedAt: Time, now: Time, d: int,
                              stale: bool)
  {
    && ShouldBeThere(cal, expected, finish, now, d)
    && (forall e :: e > d ==> !ShouldBeThere(cal, expected, finish, now, e))
    && (stale <==> reportedAt < cal.dayStart(d))
  }

  lemma DecidedBy(cal: Calendar, expected: set<int>, finish: int, reportedAt: Time, now: Time, d: int)
    requires LatestDue(cal, expected, finish, now, d)
    ensures DecidingDay(cal, expected, finish, reportedAt, now, d, reportedAt < cal.dayStart(d))
  {
    forall e | e > d ensures !ShouldBeThere(cal, expected, finish, now, e) {
      assert Weekday(cal, e) in expected ==> now < Cutoff(cal, e, finish);
    }
  }

  /** The look-back loop: it always finds the latest expected day due, so the fallback
      below it (is there a report of today?) is never reached. */
  method LookBack(cal: Calendar, expected: set<int>, finish: int, reportedAt: Time, today: int, now: Time)
    returns (stale: bool)
    requires ValidCalendar(cal) && IsDay(cal, today, now) && 0 <= finish < 24 * HOUR
    requires exists w :: w in expected && 0 <= w < 7
    ensures stale <==> Late(cal, expected, finish, reportedAt, now)
    ensures exists d :: LatestDue(cal, expected, finish, now, d) && today - 14 <= d < today
    ensures exists d :: DecidingDay(cal, expected, finish, reportedAt, now, d, stale)
  {
    for i := 1 to 15
      invariant forall e :: today - i < e < today && Weekday(cal, e) in expected ==> now < Cutoff(cal, e, finish)
    {
      var candidate := today - i;
      if Weekday(cal, candidate) in expected {
        var dayStart := cal.dayStart(candidate);
        var cutoff := cal.dayStart(candidate + 1) + finish;
        if now >= cutoff {
          forall e | e > candidate && Weekday(cal, e) in expected ensures now < Cutoff(cal, e, finish) {
            if e >= today {
              TodayIsOpen(cal, today, now, e, finish);
            }
          }
          assert LatestDue(cal, expected, finish, now, candidate);
          DecidedBy(cal, expected, finish, reportedAt, now, candidate);
          return reportedAt < dayStart;
        }
      }
    }
    ghost var i := SomeDayIsDue(cal, expected, finish, today, now);
    assert false;
  }

  /** isStaleForConfigsAt */
  method IsStaleForConfigsAt(cal: Calendar, configs: seq<VMConfig>, finish: int, reportedAt: Time, today: int,
      now: Time)
    returns (stale: bool)
    requires ValidCalendar(cal) && IsDay(cal, today, now) && 0 <= finish < 24 * HOUR
    ensures stale <==> Expected(configs) != {} && Late(cal, Expected(configs), finish, reportedAt, now)
  {
    var expected := ExpectedDays(configs);
    if expected == {} {
      return false;
    }
    assert exists w :: w in expected && 0 <= w < 7 by {
      var w :| w in expected;
    }
    stale := LookBack(cal, expected, finish, reportedAt, today, now);
  }

  /** Monotone: with the configuration and the report fixed, what is stale once is stale
      for ever after. */
  lemma OnceStaleAlwaysStale(cal: Calendar, expected: set<int>, finish: int, reportedAt: Time, now: Time,
                             today: int, later: Time)
    requires ValidCalendar(cal) && now <= later && IsDay(cal, today, later) && 0 <= finish < 24 * HOUR
    requires exists w :: w in expected && 0 <= w < 7
    requires Late(cal, expected, finish, reportedAt, now)
    ensures Late(cal, expected, finish, reportedAt, later)
  {
    var due :| LatestDue(cal, expected, finish, now, due) && reportedAt < cal.dayStart(due);
    var dueLater := LatestDueExists(cal, expected, finish, today, later);
    assert Cutoff(cal, due, finish) <= later;
    assert due <= dueLater;
    if due < dueLater {
      CutoffsIncrease(cal, due, dueLater, finish);
    }
  }

  lemma LatestDueExists(cal: Calendar, expected: set<int>, finish: int, today: int, now: Time) returns (d: int)
    requires ValidCalendar(cal) && IsDay(cal, today, now) && 0 <= finish < 24 * HOUR
    requires exists w :: w in expected && 0 <= w < 7
    ensures LatestDue(cal, expected, finish, now, d)
  {
    var i := SomeDayIsDue(cal, expected, finish, today, now);
    d := LatestFrom(cal, expected, finish, today, now, today - i);
  }

  lemma {:induction false} LatestFrom(cal: Calendar, expected: set<int>, finish: int, today: int, now: Time, from: int)
    returns (d: int)
    requires ValidCalendar(cal) && IsDay(cal, today, now) && 0 <= finish && from < today
    requires Weekday(cal, from) in expected && Cutoff(cal, from, finish) <= now
    ensures LatestDue(cal, expected, finish, now, d)
    decreases today - from
  {
    if e :| e > from && Weekday(cal, e) in expected && Cutoff(cal, e, finish) <= now {
      if e >= today { TodayIsOpen(cal, today, now, e, finish); }
      d := LatestFrom(cal, expected, finish, today, now, e);
    } else {
      d := from;
    }
  }

  /** Nothing turns stale, or fresh, before the next expected day is due. */
  lemma FreshUntilNextCutoff(cal: Calendar, expected: set<int>, finish: int, reportedAt: Time, now: Time, later: Time,
      due: int)
    requires ValidCalendar(cal) && now <= later && LatestDue(cal, expected, finish, now, due)
    requires forall e :: e > due && Weekday(cal, e) in expected ==> later < Cutoff(cal, e, finish)
    ensures Late(cal, expected, finish, reportedAt, later) <==> Late(cal, expected, finish, reportedAt, now)
  {
    assert LatestDue(cal, expected, finish, later, due);
    forall d
      ensures LatestDue(cal, expected, finish, now, d) ==> d == due
      ensures LatestDue(cal, expected, finish, later, d) ==> d == due
    {
      if LatestDue(cal, expected, finish, now, d) { LatestDueUnique(cal, expected, finish, now, d, due); }
      if LatestDue(cal, expected, finish, later, d) { LatestDueUnique(cal, expected, finish, later, d, due); }
    }
  }

  /** IsStaleForLoadedPVEConfig: suppression comes first. */
  method IsStaleForLoadedPVEConfig(cal: Calendar, configs: seq<VMConfig>, staleHours: Option<int>, noVMsConfirmed: bool,
                                   serverTime: Option<Clock>, globalTime: Clock, reportedAt: Time, today: int,
                                   now: Time)
    returns (stale: bool)
    requires ValidCalendar(cal) && IsDay(cal, today, now)
    requires (serverTime.Some? ==> ValidClock(serverTime.value)) && ValidClock(globalTime)
    ensures stale <==> staleHours != Some(0) && !noVMsConfirmed && Expected(configs) != {}
                       && Late(cal, Expected(configs), ExpectedFinish(serverTime, globalTime), reportedAt, now)
    ensures stale <==> !Suppressed(configs, staleHours, noVMsConfirmed) && Expected(configs) != {}
                       && Late(cal, Expected(configs), ExpectedFinish(serverTime, globalTime), reportedAt, now)
  {
    var active := HasActiveConfigs(configs);
    if staleHours == Some(0) || noVMsConfirmed || (configs != [] && !active) {
      return false;
    }
    var finish := ExpectedFinish(serverTime, globalTime);
    stale := IsStaleForConfigsAt(cal, configs, finish, reportedAt, today, now);
  }
}
