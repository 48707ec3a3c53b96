/**
 Reading the PVE backup jobs into one schedule per VM (client/backup_config.go): day
 lists and cyclic day ranges, and the fold that merges several jobs covering a VM.
 */
module Schedules {
  import opened Wrappers

  datatype Days = Days(mon: bool, tue: bool, wed: bool, thu: bool, fri: bool, sat: bool, sun: bool)

  const NO_DAYS := Days(false, false, false, false, false, false, false)

  predicate Has(d: Days, i: int) {
    (i == 0 && d.mon) || (i == 1 && d.tue) || (i == 2 && d.wed) || (i == 3 && d.thu)
    || (i == 4 && d.fri) || (i == 5 && d.sat) || (i == 6 && d.sun)
  }

  function WithDay(d: Days, i: int): (r: Days)
    ensures forall j :: Has(r, j) <==> Has(d, j) || (0 <= i < 7 && j == i)
  {
    match i
    case 0 => d.(mon := true)
    case 1 => d.(tue := true)
    case 2 => d.(wed := true)
    case 3 => d.(thu := true)
    case 4 => d.(fri := true)
    case 5 => d.(sat := true)
    case 6 => d.(sun := true)
    case _ => d
  }

  predicate AnyDay(d: Days) { d.mon || d.tue || d.wed || d.thu || d.fri || d.sat || d.sun }

  function Bit(b: bool): nat { if b then 1 else 0 }

  function DayCount(d: Days): nat {
    Bit(d.mon) + Bit(d.tue) + Bit(d.wed) + Bit(d.thu) + Bit(d.fri) + Bit(d.sat) + Bit(d.sun)
  }

  // ---------------------------------------------------------------- day lists

  // How many days after `from` comes d, around the week.
  function Ahead(from: int, d: int): int { if from <= d then d - from else d - from + 7 }

  // d is met when counting from `from` to `to`.
  predicate InCycle(from: int, to: int, d: int) { 0 <= d < 7 && Ahead(from, d) <= Ahead(from, to) }

  /** The range loop sets exactly the cyclic interval and ends. */
  method WithRange(days: Days, from: nat, to: nat) returns (r: Days)
    requires from < 7 && to < 7
    ensures forall d :: Has(r, d) <==> Has(days, d) || InCycle(from, to, d)
  {
    r := days;
    var i := from;
    while true
      invariant 0 <= i < 7 && Ahead(from, i) <= Ahead(from, to)
      invariant forall d :: Has(r, d) <==> Has(days, d) || (0 <= d < 7 && Ahead(from, d) < Ahead(from, i))
      decreases Ahead(i, to)
    {
      r := WithDay(r, i);
      if i == to {
        break;
      }
      i := (i + 1) % 7;
    }
  }

  // A comma-separated part: a day name, a range of two names, or nothing; None is a
  // name pveDayIndex does not know.
  datatype Part = Day(day: Option<nat>) | Range(from: Option<nat>, to: Option<nat>) | Blank

  predicate Known(day: Option<nat>) { day.Some? && day.value < 7 }

  predicate Readable(p: Part) {
    match p
    case Day(d) => Known(d)
    case Range(a, b) => Known(a) && Known(b)
    case Blank => true
  }

  predicate Names(p: Part, d: int)
    requires Readable(p)
  {
    match p
    case Day(i) => d == i.value
    case Range(a, b) => InCycle(a.value, b.value, d)
    case Blank => false
  }

  predicate AllReadable(parts: seq<Part>) { forall i :: 0 <= i < |parts| ==> Readable(parts[i]) }

  ghost predicate Named(parts: seq<Part>, d: int)
    requires AllReadable(parts)
  {
    exists i :: 0 <= i < |parts| && Names(parts[i], d)
  }

  /** The list form of parsePVEDays: accepted exactly when every part is readable and some
      day is named; then exactly the named days are set. */
  method ParseDays(parts: seq<Part>) returns (days: Days, ok: bool)
    ensures ok <==> AllReadable(parts) && exists d :: Named(parts, d)
    ensures ok ==> forall d :: Has(days, d) <==> Named(parts, d)
  {
    days := NO_DAYS;
    for n := 0 to |parts|
      invariant AllReadable(parts[..n])
      invariant forall d :: Has(days, d) <==> Named(parts[..n], d)
    {
      var part := parts[n];
      if !Readable(part) {
        return NO_DAYS, false;
      }
      ghost var before := days;
      match part {
        case Blank =>
        case Day(d) => days := WithDay(days, d.value);
        case Range(a, b) => days := WithRange(days, a.value, b.value);
      }
      forall d ensures Has(days, d) <==> Named(parts[..n + 1], d) {
        NamedNext(parts, n, d);
        assert Has(before, d) <==> Named(parts[..n], d);
      }
    }
    assert parts[..|parts|] == parts;
    ok := AnyDay(days);
    AnyDayMeans(days);
    assert forall d :: Has(days, d) <==> Named(parts, d);
  }

  /** Every weekday can be named alone and at either end of a range, and nothing else can; a
      range from a day to itself is that day, and one that ends the day before it starts is the
      whole week. */
  lemma EveryDayCanBeNamed(a: nat, b: nat)
    ensures Readable(Day(Some(a))) <==> a <= 6
    ensures Readable(Range(Some(a), Some(b))) <==> a <= 6 && b <= 6
    ensures !Readable(Day(None)) && !Readable(Range(None, Some(a))) && !Readable(Range(Some(a), None))
    ensures Readable(Blank)
    ensures a <= 6 ==> forall d :: Names(Range(Some(a), Some(a)), d) <==> d == a
    ensures a <= 6 && b == (a + 6) % 7 ==> forall d :: Names(Range(Some(a), Some(b)), d) <==> 0 <= d <= 6
  {
  }

  // The day token: the words parsePVEDays knows, or a list.
  datatype Token = Everything | Weekdays | Weekend | List(parts: seq<Part>)

  ghost predicate NamesDay(token: Token, d: int)
    requires token.List? ==> AllReadable(token.parts)
  {
    match token
    case Everything => 0 <= d < 7
    case Weekdays => 0 <= d < 5
    case Weekend => 5 <= d < 7
    case List(parts) => Named(parts, d)
  }

  /** parsePVEDays: an empty token, "daily" and "*" are Everything. */
  method ParsePVEDays(token: Token) returns (days: Days, ok: bool)
    ensures ok <==> (token.List? ==> AllReadable(token.parts) && exists d :: Named(token.parts, d))
    ensures ok ==> forall d :: Has(days, d) <==> NamesDay(token, d)
  {
    match token {
      case Everything => days, ok := Days(true, true, true, true, true, true, true), true;
      case Weekdays => days, ok := Days(true, true, true, true, true, false, false), true;
      case Weekend => days, ok := Days(false, false, false, false, false, true, true), true;
      case List(parts) => days, ok := ParseDays(parts);
    }
  }

  lemma NamedNext(parts: seq<Part>, n: nat, d: int)
    requires n < |parts| && AllReadable(parts[..n]) && Readable(parts[n])
    ensures AllReadable(parts[..n + 1])
    ensures Named(parts[..n + 1], d) <==> Named(parts[..n], d) || Names(parts[n], d)
  {
    var less, more := parts[..n], parts[..n + 1];
    assert more == less + [parts[n]];
    if Named(less, d) {
      var i :| 0 <= i < |less| && Names(less[i], d);
      assert Names(more[i], d);
    }
    if Names(parts[n], d) { assert Names(more[n], d); }
  }

  lemma AnyDayMeans(days: Days)
    ensures AnyDay(days) <==> exists d :: Has(days, d)
  {
    if AnyDay(days) {
      assert Has(days, 0) || Has(days, 1) || Has(days, 2) || Has(days, 3) || Has(days, 4) || Has(days, 5)
          || Has(days, 6);
    }
  }

  // ---------------------------------------------------------------- merging the jobs

  datatype Schedule = Schedule(days: Days, startMin: int, weekdays: bool)

  // A backup job: None when its schedule text does not parse; the VMs it covers.
  datatype Job = Job(enabled: bool, schedule: Option<Schedule>, vmids: seq<string>)

  predicate Usable(j: Job) { j.enabled && j.schedule.Some? }

  predicate Covers(j: Job, v: string) { Usable(j) && v in j.vmids }

  predicate BetterPrimary(candidate: Schedule, current: Schedule) {
    if candidate.weekdays != current.weekdays then candidate.weekdays
    else if candidate.startMin != current.startMin then candidate.startMin > current.startMin
    else DayCount(candidate.days) > DayCount(current.days)
  }

  function MergeWeekend(base: Days, extra: Days): Days {
    base.(sat := base.sat || extra.sat, sun := base.sun || extra.sun)
  }

  const NO_SCHEDULE := Schedule(NO_DAYS, 0, false)

  type Merged = map<string, Schedule>

  // One VM of one job.  The job's own schedule changes too when it takes over weekend
  // days, and the job's next VM sees that.
  function MergeVM(schedule: Schedule, merged: Merged, v: string): (Schedule, Merged) {
    var current := if v in merged then merged[v] else NO_SCHEDULE;
    if v !in merged || BetterPrimary(schedule, current) then
      var s := schedule.(days := MergeWeekend(schedule.days, current.days));
      (s, merged[v := s])
    else if schedule.days.sat || schedule.days.sun then
      (schedule, merged[v := current.(days := MergeWeekend(current.days, schedule.days))])
    else (schedule, merged)
  }

  function MergeVMs(schedule: Schedule, merged: Merged, vmids: seq<string>): (Schedule, Merged) {
    if vmids == [] then (schedule, merged)
    else
      var (s, m) := MergeVMs(schedule, merged, vmids[..|vmids| - 1]);
      MergeVM(s, m, vmids[|vmids| - 1])
  }

  function MergeJobs(jobs: seq<Job>): Merged {
    if jobs == [] then map[]
    else
      var merged := MergeJobs(jobs[..|jobs| - 1]);
      var j := jobs[|jobs| - 1];
      if Usable(j) then MergeVMs(j.schedule.value, merged, j.vmids).1 else merged
  }

  /** discoverPVEBackupSchedules over the decoded jobs. */
  method DiscoverSchedules(jobs: seq<Job>) returns (schedules: Merged)
    ensures schedules == MergeJobs(jobs)
    ensures forall v :: v in schedules <==>
                        exists i :: 0 <= i < |jobs| && jobs[i].enabled && jobs[i].schedule.Some? && v in jobs[i].vmids
    ensures forall v :: RightFor(schedules, jobs, v)
  {
    schedules := map[];
    for i := 0 to |jobs|
      invariant schedules == MergeJobs(jobs[..i])
    {
      assert jobs[..i + 1][..i] == jobs[..i];
      var job := jobs[i];
      if !job.enabled || job.schedule.None? {
        continue;
      }
      var schedule := job.schedule.value;
      ghost var start := schedules;
      for n := 0 to |job.vmids|
        invariant (schedule, schedules) == MergeVMs(job.schedule.value, start, job.vmids[..n])
      {
        assert job.vmids[..n + 1][..n] == job.vmids[..n];
        var vmid := job.vmids[n];
        var known := vmid in schedules;
        var current := if known then schedules[vmid] else NO_SCHEDULE;
        if !known || BetterPrimary(schedule, current) {
          schedule := schedule.(days := MergeWeekend(schedule.days, current.days));
          schedules := schedules[vmid := schedule];
          continue;
        }
        if schedule.days.sat || schedule.days.sun {
          current := current.(days := MergeWeekend(current.days, schedule.days));
          schedules := schedules[vmid := current];
        }
      }
      assert job.vmids[..|job.vmids|] == job.vmids;
    }
    assert jobs[..|jobs|] == jobs;
    forall v ensures RightFor(schedules, jobs, v) { MergeIsRight(jobs, v); }
    forall v
      ensures v in schedules <==>
              exists i :: 0 <= i < |jobs| && jobs[i].enabled && jobs[i].schedule.Some? && v in jobs[i].vmids
    {
      assert RightFor(schedules, jobs, v);
      CoveredMeans(jobs, v);
    }
  }

  lemma CoveredMeans(jobs: seq<Job>, v: string)
    ensures Covered(jobs, v) <==>
            exists i :: 0 <= i < |jobs| && jobs[i].enabled && jobs[i].schedule.Some? && v in jobs[i].vmids
  {
    if i :| 0 <= i < |jobs| && jobs[i].enabled && jobs[i].schedule.Some? && v in jobs[i].vmids {
      assert Covers(jobs[i], v);
    }
  }

  // ---------------------------------------------------------------- what the merge means

  // Monday to Friday first, then the later start.
  predicate AtMost(a: Schedule, b: Schedule) {
    if a.weekdays != b.weekdays then b.weekdays else a.startMin <= b.startMin
  }

  predicate SameWeek(a: Schedule, b: Schedule) {
    && a.weekdays == b.weekdays && a.startMin == b.startMin
    && a.days == b.days.(sat := a.days.sat, sun := a.days.sun)
  }

  predicate WeekendWithin(a: Schedule, b: Schedule) { (a.days.sat ==> b.days.sat) && (a.days.sun ==> b.days.sun) }

  const SATURDAY := 5
  const SUNDAY := 6

  // Some usable job runs on day w ...
  ghost predicate DayIn(jobs: seq<Job>, w: int) {
    exists i :: 0 <= i < |jobs| && Usable(jobs[i]) && Has(jobs[i].schedule.value.days, w)
  }

  // ... and some job covering v does.
  ghost predicate DayFor(jobs: seq<Job>, v: string, w: int) {
    exists i :: 0 <= i < |jobs| && Covers(jobs[i], v) && Has(jobs[i].schedule.value.days, w)
  }

  ghost predicate Covered(jobs: seq<Job>, v: string) { exists i :: 0 <= i < |jobs| && Covers(jobs[i], v) }

  // s is at least as good as every job covering v and loses none of its weekend days.
  ghost predicate Dominates(s: Schedule, jobs: seq<Job>, v: string) {
    forall i :: 0 <= i < |jobs| && Covers(jobs[i], v) ==>
                  AtMost(jobs[i].schedule.value, s) && WeekendWithin(jobs[i].schedule.value, s)
  }

  // The week of s is that of a covering job.
  ghost predicate FromJob(s: Schedule, jobs: seq<Job>, v: string) {
    exists i :: 0 <= i < |jobs| && Covers(jobs[i], v) && SameWeek(jobs[i].schedule.value, s)
  }

  ghost predicate WeekendFrom(s: Schedule, jobs: seq<Job>) {
    (s.days.sat ==> DayIn(jobs, SATURDAY)) && (s.days.sun ==> DayIn(jobs, SUNDAY))
  }

  // What the merged map says about v is right for these jobs.
  ghost predicate RightFor(merged: Merged, jobs: seq<Job>, v: string) {
    && (v in merged <==> Covered(jobs, v))
    && (v in merged ==> Dominates(merged[v], jobs, v) && FromJob(merged[v], jobs, v) && WeekendFrom(merged[v], jobs))
  }

  lemma MoreJobs(merged: Merged, jobs: seq<Job>, j: Job, v: string)
    requires RightFor(merged, jobs, v) && !Covers(j, v)
    ensures RightFor(merged, jobs + [j], v)
  {
    var more := jobs + [j];
    assert forall i :: 0 <= i < |jobs| ==> more[i] == jobs[i];
    if v in merged {
      var i :| 0 <= i < |jobs| && Covers(jobs[i], v) && SameWeek(jobs[i].schedule.value, merged[v]);
      assert more[i] == jobs[i];
      WeekendGrows(merged[v], jobs, j);
    }
  }

  lemma WeekendGrows(s: Schedule, jobs: seq<Job>, j: Job)
    requires WeekendFrom(s, jobs)
    ensures WeekendFrom(s, jobs + [j])
  {
    var more := jobs + [j];
    if s.days.sat {
      var i :| 0 <= i < |jobs| && Usable(jobs[i]) && Has(jobs[i].schedule.value.days, SATURDAY);
      assert more[i] == jobs[i];
    }
    if s.days.sun {
      var i :| 0 <= i < |jobs| && Usable(jobs[i]) && Has(jobs[i].schedule.value.days, SUNDAY);
      assert more[i] == jobs[i];
    }
  }

  // The running schedule of job j: its own week, at least its own weekend, and no weekend
  // day from nowhere.
  ghost predicate Running(s: Schedule, jobs: seq<Job>, j: Job)
    requires Usable(j)
  {
    SameWeek(j.schedule.value, s) && WeekendWithin(j.schedule.value, s) && WeekendFrom(s, jobs + [j])
  }

  // What is known of v before job j is merged for it, seen from all the jobs.
  lemma KnownOf(merged: Merged, jobs: seq<Job>, j: Job, v: string)
    requires RightFor(merged, jobs, v) || RightFor(merged, jobs + [j], v)
    ensures v in merged ==> Dominates(merged[v], jobs, v)
    ensures v in merged ==> FromJob(merged[v], jobs + [j], v) && WeekendFrom(merged[v], jobs + [j])
    ensures v !in merged ==> !Covered(jobs, v)
  {
    var more := jobs + [j];
    assert forall i :: 0 <= i < |jobs| ==> more[i] == jobs[i];
    if RightFor(merged, jobs, v) {
      if v in merged {
        var i :| 0 <= i < |jobs| && Covers(jobs[i], v) && SameWeek(jobs[i].schedule.value, merged[v]);
        assert Covers(more[i], v) && SameWeek(more[i].schedule.value, merged[v]);
        WeekendGrows(merged[v], jobs, j);
      }
    }
  }

  lemma MergeOne(s: Schedule, merged: Merged, jobs: seq<Job>, j: Job, v: string)
    requires Covers(j, v) && Running(s, jobs, j)
    requires RightFor(merged, jobs, v) || RightFor(merged, jobs + [j], v)
    ensures Running(MergeVM(s, merged, v).0, jobs, j)
    ensures RightFor(MergeVM(s, merged, v).1, jobs + [j], v)
  {
    var more := jobs + [j];
    assert more[|jobs|] == j;
    KnownOf(merged, jobs, j, v);
    RunningOn(s, merged, jobs, j, v);
    MergedWeek(s, merged, more, |jobs|, v);
    MergedDominates(s, merged, jobs, j, v);
    assert Covered(more, v) by { assert Covers(more[|jobs|], v); }
  }

  lemma RunningOn(s: Schedule, merged: Merged, jobs: seq<Job>, j: Job, v: string)
    requires Usable(j) && Running(s, jobs, j)
    requires v in merged ==> WeekendFrom(merged[v], jobs + [j])
    ensures Running(MergeVM(s, merged, v).0, jobs, j)
  {
  }

  lemma OnlyOneEntry(s: Schedule, merged: Merged, v: string, u: string)
    requires u != v
    ensures var m' := MergeVM(s, merged, v).1; (u in m' <==> u in merged) && (u in m' ==> m'[u] == merged[u])
  {
  }

  // What v gets is at least as good as what it had and as the job.
  lemma MergedBeatsBoth(s: Schedule, merged: Merged, v: string, x: Schedule)
    ensures var m' := MergeVM(s, merged, v).1;
            && v in m'
            && (v in merged && AtMost(x, merged[v]) && WeekendWithin(x, merged[v]) ==>
               AtMost(x, m'[v]) && WeekendWithin(x, m'[v]))
            && (SameWeek(x, s) && WeekendWithin(x, s) ==> AtMost(x, m'[v]) && WeekendWithin(x, m'[v]))
  {
  }

  lemma MergedDominates(s: Schedule, merged: Merged, jobs: seq<Job>, j: Job, v: string)
    requires Covers(j, v) && SameWeek(j.schedule.value, s) && WeekendWithin(j.schedule.value, s)
    requires v in merged ==> Dominates(merged[v], jobs, v)
    requires v !in merged ==> !Covered(jobs, v)
    ensures v in MergeVM(s, merged, v).1 && Dominates(MergeVM(s, merged, v).1[v], jobs + [j], v)
  {
    MergedBeatsBoth(s, merged, v, j.schedule.value);
    var more, t := jobs + [j], MergeVM(s, merged, v).1[v];
    forall i | 0 <= i < |more| && Covers(more[i], v)
      ensures AtMost(more[i].schedule.value, t) && WeekendWithin(more[i].schedule.value, t)
    {
      if i < |jobs| {
        assert more[i] == jobs[i] && Covers(jobs[i], v);
        MergedBeatsBoth(s, merged, v, jobs[i].schedule.value);
      }
    }
  }

  lemma MergedWeek(s: Schedule, merged: Merged, more: seq<Job>, n: nat, v: string)
    requires n < |more| && Covers(more[n], v) && SameWeek(more[n].schedule.value, s) && WeekendFrom(s, more)
    requires v in merged ==> FromJob(merged[v], more, v) && WeekendFrom(merged[v], more)
    ensures var m' := MergeVM(s, merged, v).1;
            v in m' && FromJob(m'[v], more, v) && WeekendFrom(m'[v], more)
  {
    var m' := MergeVM(s, merged, v).1;
    if v in merged && !BetterPrimary(s, merged[v]) {
      var i :| 0 <= i < |more| && Covers(more[i], v) && SameWeek(more[i].schedule.value, merged[v]);
      assert SameWeek(more[i].schedule.value, m'[v]);
    } else {
      assert SameWeek(more[n].schedule.value, m'[v]);
    }
  }

  lemma {:induction false} MergeMany(merged: Merged, jobs: seq<Job>, j: Job, vmids: seq<string>)
    requires Usable(j) && forall v <- vmids :: v in j.vmids
    requires forall v :: RightFor(merged, jobs, v)
    ensures var (s, m) := MergeVMs(j.schedule.value, merged, vmids);
            && Running(s, jobs, j)
            && forall v :: if v in vmids then RightFor(m, jobs + [j], v)
                           else (v in m <==> v in merged) && (v in m ==> m[v] == merged[v])
  {
    if vmids == [] {
      var more := jobs + [j];
      assert more[|jobs|] == j;
    } else {
      var front, v := vmids[..|vmids| - 1], vmids[|vmids| - 1];
      assert vmids == front + [v];
      MergeMany(merged, jobs, j, front);
      var (s, m) := MergeVMs(j.schedule.value, merged, front);
      assert RightFor(m, jobs, v) || RightFor(m, jobs + [j], v) by {
        if v !in front { assert RightFor(merged, jobs, v); SameEntry(m, merged, jobs, v); }
      }
      MergeOne(s, m, jobs, j, v);
      var m' := MergeVM(s, m, v).1;
      forall u
        ensures if u in vmids then RightFor(m', jobs + [j], u)
                else (u in m' <==> u in merged) && (u in m' ==> m'[u] == merged[u])
      {
        if u != v {
          OnlyOneEntry(s, m, v, u);
          if u in front { SameEntry(m', m, jobs + [j], u); }
        }
      }
    }
  }

  lemma SameEntry(a: Merged, b: Merged, jobs: seq<Job>, v: string)
    requires (v in a <==> v in b) && (v in a ==> a[v] == b[v]) && RightFor(b, jobs, v)
    ensures RightFor(a, jobs, v)
  {
  }

  /** For every list of jobs and every VM, whatever their order: (Weekdays, StartMin) of
      the merged schedule is the greatest of the enabled, parseable jobs covering the VM,
      its Monday-to-Friday pattern is that of one of these greatest jobs, no weekend day of
      a covering job is lost, and a weekend day comes from some usable job of the list. */
  lemma {:induction false} MergeIsRight(jobs: seq<Job>, v: string)
    ensures RightFor(MergeJobs(jobs), jobs, v)
  {
    if jobs == [] {
    } else {
      var front, j := jobs[..|jobs| - 1], jobs[|jobs| - 1];
      assert jobs == front + [j];
      forall u ensures RightFor(MergeJobs(front), front, u) { MergeIsRight(front, u); }
      if Usable(j) {
        MergeMany(MergeJobs(front), front, j, j.vmids);
        if v !in j.vmids {
          MoreJobs(MergeJobs(front), front, j, v);
          SameEntry(MergeJobs(jobs), MergeJobs(front), jobs, v);
        }
      } else {
        MoreJobs(MergeJobs(front), front, j, v);
      }
    }
  }

  // ---------------------------------------------------------------- which of the covering jobs

  // The days of a pattern.
  ghost function DaySet(d: Days): set<int> { set i | 0 <= i < 7 && Has(d, i) }

  ghost function DaysBefore(d: Days, n: int): set<int> { set i | 0 <= i < 7 && i < n && Has(d, i) }

  lemma OneMoreDay(d: Days, n: int)
    requires 0 <= n < 7
    ensures |DaysBefore(d, n + 1)| == |DaysBefore(d, n)| + if Has(d, n) then 1 else 0
  {
    assert DaysBefore(d, n + 1) == if Has(d, n) then DaysBefore(d, n) + {n} else DaysBefore(d, n);
  }

  lemma DaysCounted(d: Days)
    ensures DayCount(d) == |DaySet(d)|
  {
    assert DaysBefore(d, 0) == {} && DaysBefore(d, 7) == DaySet(d);
    OneMoreDay(d, 0);
    OneMoreDay(d, 1);
    OneMoreDay(d, 2);
    OneMoreDay(d, 3);
    OneMoreDay(d, 4);
    OneMoreDay(d, 5);
    OneMoreDay(d, 6);
  }

  // Monday to Friday first, then the later start, then the more days.
  ghost predicate Beats(a: Schedule, b: Schedule) {
    || (a.weekdays && !b.weekdays)
    || (a.weekdays == b.weekdays && a.startMin > b.startMin)
    || (a.weekdays == b.weekdays && a.startMin == b.startMin && |DaySet(a.days)| > |DaySet(b.days)|)
  }

  ghost predicate SameWeekdays(a: Days, b: Days) { forall i :: 0 <= i < 5 ==> (Has(a, i) <==> Has(b, i)) }

  /** One VM of one job: it gets the job's week if it had none or the job beats what it had, and
      keeps its own otherwise; weekend days come together either way. */
  lemma MergePicks(s: Schedule, merged: Merged, v: string)
    ensures var after := MergeVM(s, merged, v).1;
            && v in after
            && var wins := v !in merged || Beats(s, merged[v]);
               var from := if wins then s else merged[v];
            && after[v].weekdays == from.weekdays && after[v].startMin == from.startMin
            && SameWeekdays(after[v].days, from.days)
            && forall w :: SATURDAY <= w <= SUNDAY ==>
                             (Has(after[v].days, w) <==> Has(s.days, w) || DayOf(merged, v, w))
  {
    DaysCounted(s.days);
    if v in merged { DaysCounted(merged[v].days); }
  }

  predicate NoWeekend(d: Days) { !d.sat && !d.sun }

  // Job i is the best of those that cover v, and the first of them.
  ghost predicate FirstBest(jobs: seq<Job>, v: string, i: int) {
    && 0 <= i < |jobs| && Covers(jobs[i], v)
    && forall j :: 0 <= j < |jobs| && Covers(jobs[j], v) ==>
                     && !Beats(jobs[j].schedule.value, jobs[i].schedule.value)
                     && (j < i ==> Beats(jobs[i].schedule.value, jobs[j].schedule.value))
  }

  ghost predicate Picked(merged: Merged, jobs: seq<Job>, v: string) {
    && (v in merged <==> Covered(jobs, v))
    && (v in merged ==> exists i :: FirstBest(jobs, v, i) && merged[v] == jobs[i].schedule.value)
  }

  ghost predicate AllPlain(jobs: seq<Job>) {
    forall i :: 0 <= i < |jobs| && Usable(jobs[i]) ==> NoWeekend(jobs[i].schedule.value.days)
  }

  lemma PlainStays(jobs: seq<Job>, v: string)
    requires AllPlain(jobs)
    ensures v in MergeJobs(jobs) ==> NoWeekend(MergeJobs(jobs)[v].days)
  {
    MergeIsRight(jobs, v);
  }

  // Without weekend days a job is handed on unchanged.
  lemma {:induction false} PlainJob(s: Schedule, merged: Merged, vmids: seq<string>)
    requires NoWeekend(s.days) && forall v :: v in merged ==> NoWeekend(merged[v].days)
    ensures MergeVMs(s, merged, vmids).0 == s
    ensures forall v :: MergedPlain(s, merged, v, MergeVMs(s, merged, vmids).1, v in vmids)
  {
    if vmids == [] {
    } else {
      var front, v := vmids[..|vmids| - 1], vmids[|vmids| - 1];
      assert vmids == front + [v];
      PlainJob(s, merged, front);
      var m := MergeVMs(s, merged, front).1;
      assert forall u :: MergedPlain(s, merged, u, m, u in front);
      assert MergedPlain(s, merged, v, m, v in front);
      PlainVM(s, m, v);
      forall u ensures MergedPlain(s, merged, u, MergeVM(s, m, v).1, u in vmids) {
        assert MergedPlain(s, merged, u, m, u in front);
        if u != v { OnlyOneEntry(s, m, v, u); }
      }
    }
  }

  lemma PlainVM(s: Schedule, m: Merged, v: string)
    requires NoWeekend(s.days) && (v in m ==> NoWeekend(m[v].days))
    ensures var after := MergeVM(s, m, v);
            after.0 == s && v in after.1
            && after.1[v] == if v in m && !Beats(s, m[v]) then m[v] else s
  {
    DaysCounted(s.days);
    if v in m { DaysCounted(m[v].days); }
  }

  // What v has after the job.
  ghost predicate MergedPlain(s: Schedule, merged: Merged, v: string, after: Merged, covered: bool) {
    && (v in after <==> v in merged || covered)
    && (v in after ==> NoWeekend(after[v].days))
    && (v in after ==> after[v] == if v in merged && !(covered && Beats(s, merged[v])) then merged[v] else s)
  }

  lemma PickedNext(merged: Merged, jobs: seq<Job>, j: Job, after: Merged, v: string)
    requires Picked(merged, jobs, v)
    requires if Usable(j) then MergedPlain(j.schedule.value, merged, v, after, v in j.vmids)
             else (v in after <==> v in merged) && (v in after ==> after[v] == merged[v])
    ensures Picked(after, jobs + [j], v)
  {
    var more, last := jobs + [j], |jobs|;
    assert more[last] == j && forall i :: 0 <= i < last ==> more[i] == jobs[i];
    if v in merged {
      var i :| FirstBest(jobs, v, i) && merged[v] == jobs[i].schedule.value;
      if Covers(j, v) && Beats(j.schedule.value, merged[v]) {
        assert FirstBest(more, v, last);
      } else {
        assert FirstBest(more, v, i);
      }
    } else if Covers(j, v) {
      assert forall i :: 0 <= i < last ==> !Covers(jobs[i], v);
      assert FirstBest(more, v, last);
    }
    CoveredNext(jobs, j, v);
  }

  lemma CoveredNext(jobs: seq<Job>, j: Job, v: string)
    ensures Covered(jobs + [j], v) <==> Covered(jobs, v) || Covers(j, v)
  {
    var more := jobs + [j];
    assert more[|jobs|] == j;
    if Covered(jobs, v) {
      var i :| 0 <= i < |jobs| && Covers(jobs[i], v);
      assert Covers(more[i], v);
    }
  }

  /** When no job runs on a weekend day the merge is a choice: each VM gets the whole schedule of
      the first of its covering jobs that none of the others beats. */
  lemma {:induction false} FirstBestIsPicked(jobs: seq<Job>, v: string)
    requires AllPlain(jobs)
    ensures Picked(MergeJobs(jobs), jobs, v)
  {
    if jobs == [] {
    } else {
      var front, j := jobs[..|jobs| - 1], jobs[|jobs| - 1];
      assert jobs == front + [j];
      assert AllPlain(front) by {
        forall i | 0 <= i < |front| && Usable(front[i]) ensures NoWeekend(front[i].schedule.value.days) {
          assert front[i] == jobs[i];
        }
      }
      FirstBestIsPicked(front, v);
      var merged := MergeJobs(front);
      if Usable(j) {
        assert NoWeekend(j.schedule.value.days) by { assert jobs[|jobs| - 1] == j; }
        forall u ensures u in merged ==> NoWeekend(merged[u].days) { PlainStays(front, u); }
        PlainJob(j.schedule.value, merged, j.vmids);
      }
      PickedNext(merged, front, j, MergeJobs(jobs), v);
    }
  }

  // ---------------------------------------------------------------- where a weekend day comes from

  predicate DayOf(merged: Merged, v: string, w: int) { v in merged && Has(merged[v].days, w) }

  // Merging v, the job takes day w over into its own schedule.
  predicate Takes(s: Schedule, merged: Merged, v: string, w: int) { DayOf(merged, v, w) && BetterPrimary(s, merged[v]) }

  // ... with the schedule and the map it has when it comes to its n-th VM.
  predicate Hands(s: Schedule, merged: Merged, vmids: seq<string>, n: nat, w: int)
    requires n < |vmids|
  {
    var (t, m) := MergeVMs(s, merged, vmids[..n]);
    Takes(t, m, vmids[n], w)
  }

  predicate RunningDay(s: Schedule, merged: Merged, vmids: seq<string>, n: nat, w: int)
    requires n <= |vmids|
  {
    Has(MergeVMs(s, merged, vmids[..n]).0.days, w)
  }

  lemma DayAfterOne(s: Schedule, merged: Merged, v: string, w: int)
    requires w == SATURDAY || w == SUNDAY
    ensures var (t, m) := MergeVM(s, merged, v);
            && (Has(t.days, w) <==> Has(s.days, w) || Takes(s, merged, v, w))
            && (DayOf(m, v, w) <==> Has(s.days, w) || DayOf(merged, v, w))
            && forall u :: u != v ==> (DayOf(m, u, w) <==> DayOf(merged, u, w))
  {
  }

  lemma MergeVMsNext(s: Schedule, merged: Merged, vmids: seq<string>, n: nat)
    requires n < |vmids|
    ensures var (t, m) := MergeVMs(s, merged, vmids[..n]);
            MergeVMs(s, merged, vmids[..n + 1]) == MergeVM(t, m, vmids[n])
  {
    assert vmids[..n + 1][..n] == vmids[..n];
  }

  /** A job runs on a weekend day when it comes to its n-th VM if and only if it does so
      itself or took the day over from a VM listed before. */
  lemma {:induction false} RunningDayIff(s: Schedule, merged: Merged, vmids: seq<string>, n: nat, w: int)
    requires (w == SATURDAY || w == SUNDAY) && n <= |vmids|
    ensures RunningDay(s, merged, vmids, n, w) <==>
            Has(s.days, w) || exists m :: 0 <= m < n && Hands(s, merged, vmids, m, w)
  {
    if n == 0 {
      assert vmids[..0] == [];
    } else {
      RunningDayIff(s, merged, vmids, n - 1, w);
      MergeVMsNext(s, merged, vmids, n - 1);
      var (t, m) := MergeVMs(s, merged, vmids[..n - 1]);
      DayAfterOne(t, m, vmids[n - 1], w);
      assert Hands(s, merged, vmids, n - 1, w) <==> Takes(t, m, vmids[n - 1], w);
    }
  }

  /** What a VM has after the job: what it had, or what the job ran on when it came to it. */
  lemma {:induction false} GivenDayIff(s: Schedule, merged: Merged, vmids: seq<string>, n: nat, v: string, w: int)
    requires (w == SATURDAY || w == SUNDAY) && n <= |vmids|
    ensures DayOf(MergeVMs(s, merged, vmids[..n]).1, v, w) <==>
            DayOf(merged, v, w) || exists i :: 0 <= i < n && vmids[i] == v && RunningDay(s, merged, vmids, i, w)
  {
    if n == 0 {
      assert vmids[..0] == [];
    } else {
      GivenDayIff(s, merged, vmids, n - 1, v, w);
      MergeVMsNext(s, merged, vmids, n - 1);
      var (t, m) := MergeVMs(s, merged, vmids[..n - 1]);
      DayAfterOne(t, m, vmids[n - 1], w);
      assert RunningDay(s, merged, vmids, n - 1, w) <==> Has(t.days, w);
    }
  }

  // Job i covers v as its n-th VM and took day w over from its m-th, before that.
  ghost predicate HandedDown(jobs: seq<Job>, v: string, w: int, i: int, m: int, n: int) {
    && 0 <= i < |jobs| && Usable(jobs[i]) && 0 <= m < n < |jobs[i].vmids| && jobs[i].vmids[n] == v
    && Hands(jobs[i].schedule.value, MergeJobs(jobs[..i]), jobs[i].vmids, m, w)
  }

  ghost predicate HandedDownBy(jobs: seq<Job>, v: string, w: int, i: int) {
    exists m, n :: HandedDown(jobs, v, w, i, m, n)
  }

  ghost predicate SomeHandedDown(jobs: seq<Job>, v: string, w: int) { exists i :: HandedDownBy(jobs, v, w, i) }

  lemma LastJobGives(jobs: seq<Job>, v: string, w: int)
    requires (w == SATURDAY || w == SUNDAY) && jobs != [] && Usable(jobs[|jobs| - 1])
    ensures DayOf(MergeJobs(jobs), v, w) <==>
            || DayOf(MergeJobs(jobs[..|jobs| - 1]), v, w)
            || (v in jobs[|jobs| - 1].vmids && Has(jobs[|jobs| - 1].schedule.value.days, w))
            || HandedDownBy(jobs, v, w, |jobs| - 1)
  {
    var last := |jobs| - 1;
    var j, merged := jobs[last], MergeJobs(jobs[..last]);
    var s, vmids := j.schedule.value, j.vmids;
    assert vmids[..|vmids|] == vmids;
    GivenDayIff(s, merged, vmids, |vmids|, v, w);
    forall n | 0 <= n < |vmids| ensures
      RunningDay(s, merged, vmids, n, w) <==> Has(s.days, w) || exists m :: 0 <= m < n && Hands(s, merged, vmids, m, w)
    {
      RunningDayIff(s, merged, vmids, n, w);
    }
    if m, n :| HandedDown(jobs, v, w, last, m, n) {
      assert RunningDay(s, merged, vmids, n, w);
    }
    if n :| 0 <= n < |vmids| && vmids[n] == v && RunningDay(s, merged, vmids, n, w) {
      if !Has(s.days, w) {
        var m :| 0 <= m < n && Hands(s, merged, vmids, m, w);
        assert HandedDown(jobs, v, w, last, m, n);
      }
    }
    if v in vmids && Has(s.days, w) {
      var n :| 0 <= n < |vmids| && vmids[n] == v;
      assert RunningDay(s, merged, vmids, n, w);
    }
  }

  lemma HandedDownFront(jobs: seq<Job>, v: string, w: int, i: int, m: int, n: int)
    requires jobs != []
    ensures HandedDown(jobs[..|jobs| - 1], v, w, i, m, n) <==> HandedDown(jobs, v, w, i, m, n) && i < |jobs| - 1
  {
    var front := jobs[..|jobs| - 1];
    if 0 <= i < |front| { assert front[..i] == jobs[..i] && front[i] == jobs[i]; }
  }

  lemma DayForFront(jobs: seq<Job>, v: string, w: int)
    requires jobs != []
    ensures DayFor(jobs, v, w) <==>
            || DayFor(jobs[..|jobs| - 1], v, w)
            || (Covers(jobs[|jobs| - 1], v) && Has(jobs[|jobs| - 1].schedule.value.days, w))
  {
    var front := jobs[..|jobs| - 1];
    if DayFor(front, v, w) {
      var i :| 0 <= i < |front| && Covers(front[i], v) && Has(front[i].schedule.value.days, w);
      assert Covers(jobs[i], v) && Has(jobs[i].schedule.value.days, w);
    }
    if DayFor(jobs, v, w) {
      var i :| 0 <= i < |jobs| && Covers(jobs[i], v) && Has(jobs[i].schedule.value.days, w);
      if i < |front| { assert front[i] == jobs[i]; }
    }
  }

  /** For every list of jobs, VM and weekend day: the VM gets the day if and only if a job
      covering it runs on it, or a job covering it took the day over from a VM it lists
      before.  So a day of no covering job is got exactly in the second way. */
  lemma {:induction false} WeekendDayIff(jobs: seq<Job>, v: string, w: int)
    requires w == SATURDAY || w == SUNDAY
    ensures DayOf(MergeJobs(jobs), v, w) <==> DayFor(jobs, v, w) || SomeHandedDown(jobs, v, w)
  {
    if jobs == [] {
    } else {
      var last := |jobs| - 1;
      var front := jobs[..last];
      WeekendDayIff(front, v, w);
      DayForFront(jobs, v, w);
      if Usable(jobs[last]) { LastJobGives(jobs, v, w); }
      SplitHandedDown(jobs, v, w);
    }
  }

  lemma SplitHandedDown(jobs: seq<Job>, v: string, w: int)
    requires jobs != []
    ensures SomeHandedDown(jobs, v, w) <==>
            SomeHandedDown(jobs[..|jobs| - 1], v, w) || HandedDownBy(jobs, v, w, |jobs| - 1)
  {
    var front, last := jobs[..|jobs| - 1], |jobs| - 1;
    if i :| HandedDownBy(jobs, v, w, i) {
      var m, n :| HandedDown(jobs, v, w, i, m, n);
      HandedDownFront(jobs, v, w, i, m, n);
      assert if i == last then HandedDownBy(jobs, v, w, last) else HandedDownBy(front, v, w, i);
    }
    if i :| HandedDownBy(front, v, w, i) {
      var m, n :| HandedDown(front, v, w, i, m, n);
      HandedDownFront(jobs, v, w, i, m, n);
      assert HandedDownBy(jobs, v, w, i);
    }
  }

  // A day that is handed down is the job's own or one of a job before it.
  lemma HandedFromBefore(jobs: seq<Job>, v: string, w: int, i: int, m: int, n: int)
    requires (w == SATURDAY || w == SUNDAY) && HandedDown(jobs, v, w, i, m, n)
    ensures Has(jobs[i].schedule.value.days, w) || DayIn(jobs[..i], w)
  {
    var before, j := jobs[..i], jobs[i];
    var merged, vmids := MergeJobs(before), j.vmids[..m];
    var x := j.vmids[m];
    forall u ensures RightFor(merged, before, u) { MergeIsRight(before, u); }
    MergeMany(merged, before, j, vmids);
    var after := MergeVMs(j.schedule.value, merged, vmids).1;
    assert DayOf(after, x, w);
    if x in vmids {
      assert RightFor(after, before + [j], x);
      DayInLast(before, j, w);
    } else {
      assert RightFor(merged, before, x);
    }
  }

  lemma DayInLast(before: seq<Job>, j: Job, w: int)
    requires Usable(j) && DayIn(before + [j], w)
    ensures DayIn(before, w) || Has(j.schedule.value.days, w)
  {
    var more := before + [j];
    var i :| 0 <= i < |more| && Usable(more[i]) && Has(more[i].schedule.value.days, w);
    if i < |before| { assert before[i] == more[i]; }
  }

  predicate ListedLater(j: Job, v: string) { exists n :: 1 <= n < |j.vmids| && j.vmids[n] == v }

  /** What a caller can look up: nothing leaks into v when every job that lists v after
      another VM comes before all jobs that run on the day. */
  lemma NoLeak(jobs: seq<Job>, v: string, w: int)
    requires w == SATURDAY || w == SUNDAY
    requires forall i :: 0 <= i < |jobs| && Usable(jobs[i]) && ListedLater(jobs[i], v) ==> !DayIn(jobs[..i], w)
    ensures DayOf(MergeJobs(jobs), v, w) <==> DayFor(jobs, v, w)
  {
    WeekendDayIff(jobs, v, w);
    if i :| HandedDownBy(jobs, v, w, i) {
      var m, n :| HandedDown(jobs, v, w, i, m, n);
      HandedFromBefore(jobs, v, w, i, m, n);
      assert ListedLater(jobs[i], v) && Covers(jobs[i], v);
    }
  }

  /** The weekend day may come from a job that does not cover the VM: merging changes the
      schedule the job hands to its next VM. */
  lemma WeekendLeaksToTheNextVM()
    ensures var saturday := Schedule(NO_DAYS.(sat := true), 60, false);
            var week := Schedule(Days(true, true, true, true, true, false, false), 60, true);
            var jobs := [Job(true, Some(saturday), ["101"]), Job(true, Some(week), ["101", "102"])];
            var merged := MergeJobs(jobs);
            "102" in merged && merged["102"].days.sat && !DayFor(jobs, "102", SATURDAY)
  {
    var saturday := Schedule(NO_DAYS.(sat := true), 60, false);
    var week := Schedule(Days(true, true, true, true, true, false, false), 60, true);
    var a, b := Job(true, Some(saturday), ["101"]), Job(true, Some(week), ["101", "102"]);
    assert [a, b][..1] == [a] && [a][..0] == [];
    assert ["101"][..0] == [] && ["101", "102"][..1] == ["101"];
    assert "101" != "102" by { assert "101"[2] != "102"[2]; }
    var m0: Merged := map[];
    var m1 := MergeJobs([a]);
    assert MergeJobs([]) == m0 && MergeVMs(saturday, m0, []) == (saturday, m0);
    assert MergeVMs(saturday, m0, ["101"]) == MergeVM(saturday, m0, "101");
    assert m1 == MergeVM(saturday, m0, "101").1 && m1["101"].days.sat;
    assert ["101"][..0] == [] && MergeVMs(week, m1, []) == (week, m1);
    var (s, m) := MergeVM(week, m1, "101");
    assert MergeVMs(week, m1, ["101"]) == (s, m) && s.days.sat;
    assert MergeVMs(week, m1, ["101", "102"]) == MergeVM(s, m, "102");
    assert MergeJobs([a, b]) == MergeVMs(week, m1, ["101", "102"]).1;
    assert !DayFor([a, b], "102", SATURDAY);
  }
}
