/**
 The daily copy to the NAS (internal/service/nas_backup.go over the single row of
 internal/store/nas_backup.go): several server processes, each with its own lock, load
 the row, decide, claim by compare-and-swap on last_attempt, copy and finish; manual
 copies, configuration changes and crashes come in between.
 */
module NASBackup {
  import opened Wrappers

  // An attempt's time stamp: the stored text is unique to the attempt (id) and tells the
  // calendar day in the configured zone and the minute of that day.
  datatype Token = Token(id: int, day: int, minute: int)

  // nas_backup_config; None is the empty string.
  datatype Row = Row(enabled: bool, sendTime: Option<int>,
                     lastAttempt: Option<Token>, lastScheduled: Option<Token>,
                     lastSuccess: Option<Token>, lastError: string)

  const IN_PROGRESS := "Copia en curso; si el servicio se reinicia, se retomará al día siguiente"

  // nasBackupDue
  predicate Due(r: Row, now: Token) {
    r.enabled && r.sendTime.Some? && now.minute >= r.sendTime.value
    && (r.lastScheduled.Some? ==> r.lastScheduled.value.day < now.day)
  }

  /** An enabled row with a send time is due from that minute to the end of a day that is not used
      up and not before; any other row is not due. */
  lemma DueWindow(r: Row, id: int, day: int, minute: int)
    ensures r.enabled && r.sendTime.Some? && (r.lastScheduled.Some? ==> r.lastScheduled.value.day < day) ==>
              (Due(r, Token(id, day, minute)) <==> r.sendTime.value <= minute)
    ensures !r.enabled || r.sendTime.None? || (r.lastScheduled.Some? && day <= r.lastScheduled.value.day) ==>
              !Due(r, Token(id, day, minute))
  {
  }

  // claimNASBackup
  predicate CanClaim(r: Row, previous: Option<Token>, manual: bool) {
    (r.enabled || manual) && r.lastAttempt == previous
  }

  function Claimed(r: Row, attempt: Token, manual: bool): Row {
    r.(lastAttempt := Some(attempt), lastScheduled := if manual then r.lastScheduled else Some(attempt),
    lastError := IN_PROGRESS)
  }

  // FinishNASBackupResult
  function Finished(r: Row, attempt: Token, completed: bool, message: string): Row {
    if r.lastAttempt == Some(attempt)
    then r.(lastError := message, lastSuccess := if completed then Some(attempt) else r.lastSuccess)
    else r
  }

  // ---------------------------------------------------------------- interleaved processes

  // seen: how many attempts had been claimed when the row was loaded.
  datatype Phase =
    | Free                                       // the process does not hold its lock
    | Loaded(row: Row, seen: nat)
    | Decided(row: Row, seen: nat, attempt: Token)
    | LoadedManually(row: Row, seen: nat)
    | Copying(attempt: Token)

  // attempts: all claimed attempts; scheduled: those of the scheduler; speaker: whose
  // outcome last_error is.
  datatype World = World(row: Row, processes: map<int, Phase>, attempts: seq<Token>, scheduled: seq<Token>,
      speaker: Option<Token>)

  datatype Step =
    | Load(p: int)
    | Decide(p: int, now: Token)
    | Claim(p: int)
    | LoadManual(p: int)
    | ClaimManual(p: int, attempt: Token)
    | Finish(p: int, completed: bool, message: string)
    | Crash(p: int)
    | SaveConfig(enabled: bool, sendTime: Option<int>)

  function PhaseOf(w: World, p: int): Phase { if p in w.processes then w.processes[p] else Free }

  function Enter(w: World, p: int, phase: Phase): World { w.(processes := w.processes[p := phase]) }

  // Attempt tokens are never reused.
  predicate FreshToken(w: World, t: Token) {
    t !in w.attempts && forall p <- w.processes :: !(w.processes[p].Decided? && w.processes[p].attempt == t)
  }

  predicate Enabled(w: World, s: Step) {
    match s
    case Load(p) => PhaseOf(w, p).Free?
    case Decide(p, now) => PhaseOf(w, p).Loaded? && FreshToken(w, now)
    case Claim(p) => PhaseOf(w, p).Decided?
    case LoadManual(p) => PhaseOf(w, p).Free?
    case ClaimManual(p, attempt) => PhaseOf(w, p).LoadedManually? && FreshToken(w, attempt)
    case Finish(p, _, _) => PhaseOf(w, p).Copying?
    case _ => true
  }

  function Apply(w: World, s: Step): World
    requires Enabled(w, s)
  {
    match s
    case Load(p) => Enter(w, p, Loaded(w.row, |w.attempts|))
    case Decide(p, now) =>
      var ph := PhaseOf(w, p);
      if Due(ph.row, now) then Enter(w, p, Decided(ph.row, ph.seen, now)) else Enter(w, p, Free)
    case Claim(p) =>
      var ph := PhaseOf(w, p);
      if CanClaim(w.row, ph.row.lastAttempt, false)
      then Enter(w.(row := Claimed(w.row, ph.attempt, false), attempts := w.attempts + [ph.attempt],
                 scheduled := w.scheduled + [ph.attempt], speaker := Some(ph.attempt)), p, Copying(ph.attempt))
      else Enter(w, p, Free)
    case LoadManual(p) => Enter(w, p, LoadedManually(w.row, |w.attempts|))
    case ClaimManual(p, attempt) =>
      var ph := PhaseOf(w, p);
      if CanClaim(w.row, ph.row.lastAttempt, true)
      then Enter(w.(row := Claimed(w.row, attempt, true), attempts := w.attempts + [attempt], speaker := Some(attempt)),
                 p, Copying(attempt))
      else Enter(w, p, Free)
    case Finish(p, completed, message) =>
      var attempt := PhaseOf(w, p).attempt;
      Enter(w.(row := Finished(w.row, attempt, completed, message),
            speaker := if w.row.lastAttempt == Some(attempt) then Some(attempt) else w.speaker), p, Free)
    case Crash(p) => Enter(w, p, Free)
    case SaveConfig(enabled, sendTime) => w.(row := w.row.(enabled := enabled, sendTime := sendTime))
  }

  function Last(ts: seq<Token>): Option<Token> { if ts == [] then None else Some(ts[|ts| - 1]) }

  ghost predicate Distinct(ts: seq<Token>) { forall i, j :: 0 <= i < j < |ts| ==> ts[i] != ts[j] }

  ghost predicate DaysIncrease(ts: seq<Token>) { forall i, j :: 0 <= i < j < |ts| ==> ts[i].day < ts[j].day }

  // A loaded row is what the table held after the first `seen` attempts.
  predicate Snapshot(w: World, row: Row, seen: nat) {
    && seen <= |w.attempts| && row.lastAttempt == Last(w.attempts[..seen])
    && (seen == |w.attempts| ==> row.lastScheduled == w.row.lastScheduled)
  }

  ghost predicate PhaseOk(w: World, ph: Phase) {
    match ph
    case Free => true
    case Loaded(row, seen) => Snapshot(w, row, seen)
    case Decided(row, seen, attempt) =>
      Snapshot(w, row, seen) && attempt !in w.attempts
      && (row.lastScheduled.Some? ==> row.lastScheduled.value.day < attempt.day)
    case LoadedManually(row, seen) => Snapshot(w, row, seen)
    case Copying(attempt) => attempt in w.attempts
  }

  ghost predicate Inv(w: World) {
    && Distinct(w.attempts) && DaysIncrease(w.scheduled)
    && w.row.lastAttempt == Last(w.attempts) && w.row.lastScheduled == Last(w.scheduled)
    && w.speaker == w.row.lastAttempt
    && (forall p :: p in w.processes ==> PhaseOk(w, w.processes[p]))
    && (forall p, q :: p != q && HasDecided(w, p) && HasDecided(w, q) ==>
                         w.processes[p].attempt != w.processes[q].attempt)
  }

  predicate HasDecided(w: World, p: int) { p in w.processes && w.processes[p].Decided? }

  function Listed(t: Option<Token>): seq<Token> { if t.Some? then [t.value] else [] }

  // No process runs yet; the row may remember attempts of processes that are gone.
  function Start(row: Row): World {
    World(row, map[], Listed(row.lastAttempt), Listed(row.lastScheduled), row.lastAttempt)
  }

  lemma StartKeepsInv(row: Row)
    ensures Inv(Start(row))
  {
  }

  lemma EarlierLast(ts: seq<Token>, n: nat)
    requires Distinct(ts) && n <= |ts|
    ensures Last(ts[..n]) == Last(ts) <==> n == |ts|
  {
    assert ts[..|ts|] == ts;
    if 0 < n < |ts| {
      assert ts[n - 1] != ts[|ts| - 1];
    }
  }

  // The compare-and-swap succeeds only for whoever saw the latest attempt.
  lemma OnlyTheLatestClaims(w: World, row: Row, seen: nat)
    requires Inv(w) && Snapshot(w, row, seen) && row.lastAttempt == w.row.lastAttempt
    ensures seen == |w.attempts| && row.lastScheduled == w.row.lastScheduled
  {
    EarlierLast(w.attempts, seen);
  }

  lemma SnapshotsAge(w: World, attempt: Token, row: Row, w': World, seen: nat)
    requires Snapshot(w, row, seen) && w'.attempts == w.attempts + [attempt]
    ensures Snapshot(w', row, seen)
  {
    assert w'.attempts[..seen] == w.attempts[..seen];
  }

  lemma ClaimKeepsPhases(w: World, attempt: Token, w': World, p: int)
    requires Inv(w) && w'.attempts == w.attempts + [attempt] && w'.processes == w.processes[p := Copying(attempt)]
    requires forall q :: q in w.processes && q != p && w.processes[q].Decided? ==> w.processes[q].attempt != attempt
    ensures forall q :: q in w'.processes ==> PhaseOk(w', w'.processes[q])
  {
    forall q | q in w'.processes ensures PhaseOk(w', w'.processes[q]) {
      if q == p {
        assert w'.attempts[|w.attempts|] == attempt;
      } else {
        assert PhaseOk(w, w.processes[q]);
        match w.processes[q]
        case Free =>
        case Loaded(row, seen) => SnapshotsAge(w, attempt, row, w', seen);
        case Decided(row, seen, _) => SnapshotsAge(w, attempt, row, w', seen);
        case LoadedManually(row, seen) => SnapshotsAge(w, attempt, row, w', seen);
        case Copying(a) =>
      }
    }
  }

  lemma ClaimKeepsInv(w: World, p: int)
    requires Inv(w) && Enabled(w, Claim(p)) && CanClaim(w.row, PhaseOf(w, p).row.lastAttempt, false)
    ensures Inv(Apply(w, Claim(p)))
  {
    var after, ph := Apply(w, Claim(p)), PhaseOf(w, p);
    assert PhaseOk(w, ph);
    OnlyTheLatestClaims(w, ph.row, ph.seen);
    ClaimKeepsPhases(w, ph.attempt, after, p);
    DaysStillIncrease(w.scheduled, ph.attempt);
    StillDistinct(w.attempts, ph.attempt);
  }

  lemma DaysStillIncrease(ts: seq<Token>, t: Token)
    requires DaysIncrease(ts) && (ts != [] ==> ts[|ts| - 1].day < t.day)
    ensures DaysIncrease(ts + [t])
  {
    forall i | 0 <= i < |ts| ensures ts[i].day < t.day {
      assert i < |ts| - 1 ==> ts[i].day < ts[|ts| - 1].day;
    }
  }

  lemma StillDistinct(ts: seq<Token>, t: Token)
    requires Distinct(ts) && t !in ts
    ensures Distinct(ts + [t])
  {
  }

  lemma ClaimManualKeepsInv(w: World, p: int, attempt: Token)
    requires Inv(w) && Enabled(w, ClaimManual(p, attempt)) && CanClaim(w.row, PhaseOf(w, p).row.lastAttempt, true)
    ensures Inv(Apply(w, ClaimManual(p, attempt)))
  {
    assert forall q :: q in w.processes && w.processes[q].Decided? ==> w.processes[q].attempt != attempt;
    ClaimKeepsPhases(w, attempt, Apply(w, ClaimManual(p, attempt)), p);
    StillDistinct(w.attempts, attempt);
  }

  // A process moves on while no attempt is claimed.
  lemma EnterKeepsInv(w: World, p: int, ph: Phase)
    requires Inv(w) && PhaseOk(w, ph)
    requires ph.Decided? ==> forall q :: q in w.processes && q != p && w.processes[q].Decided? ==>
        w.processes[q].attempt != ph.attempt
    ensures Inv(Enter(w, p, ph))
  {
    var n := Enter(w, p, ph);
    forall q | q in n.processes ensures PhaseOk(n, n.processes[q]) {
      assert PhaseOk(w, n.processes[q]);
    }
  }

  // The rest of the row changes.
  lemma RowKeepsInv(w: World, row: Row)
    requires Inv(w) && row.lastAttempt == w.row.lastAttempt && row.lastScheduled == w.row.lastScheduled
    ensures Inv(w.(row := row))
  {
    var n := w.(row := row);
    forall q | q in n.processes ensures PhaseOk(n, n.processes[q]) {
      assert PhaseOk(w, w.processes[q]);
    }
  }

  lemma LoadKeepsInv(w: World, p: int)
    requires Inv(w)
    ensures Inv(Enter(w, p, Loaded(w.row, |w.attempts|))) && Inv(Enter(w, p, LoadedManually(w.row, |w.attempts|)))
  {
    assert w.attempts[..|w.attempts|] == w.attempts;
    EnterKeepsInv(w, p, Loaded(w.row, |w.attempts|));
    EnterKeepsInv(w, p, LoadedManually(w.row, |w.attempts|));
  }

  lemma DecideKeepsInv(w: World, p: int, now: Token)
    requires Inv(w) && Enabled(w, Decide(p, now))
    ensures Inv(Apply(w, Decide(p, now)))
  {
    var ph := PhaseOf(w, p);
    assert PhaseOk(w, ph);
    EnterKeepsInv(w, p, if Due(ph.row, now) then Decided(ph.row, ph.seen, now) else Free);
  }

  lemma FinishKeepsInv(w: World, p: int, completed: bool, message: string)
    requires Inv(w) && Enabled(w, Finish(p, completed, message))
    ensures Inv(Apply(w, Finish(p, completed, message)))
  {
    var row := Finished(w.row, PhaseOf(w, p).attempt, completed, message);
    RowKeepsInv(w, row);
    EnterKeepsInv(w.(row := row), p, Free);
    assert Apply(w, Finish(p, completed, message)) == Enter(w.(row := row), p, Free);
  }

  // Steps that claim nothing.
  lemma OthersKeepInv(w: World, s: Step)
    requires Inv(w) && Enabled(w, s)
    requires s.Claim? ==> !CanClaim(w.row, PhaseOf(w, s.p).row.lastAttempt, false)
    requires s.ClaimManual? ==> !CanClaim(w.row, PhaseOf(w, s.p).row.lastAttempt, true)
    ensures Inv(Apply(w, s))
  {
    match s
    case Load(p) => LoadKeepsInv(w, p);
    case LoadManual(p) => LoadKeepsInv(w, p);
    case Decide(p, now) => DecideKeepsInv(w, p, now);
    case Finish(p, completed, message) => FinishKeepsInv(w, p, completed, message);
    case SaveConfig(enabled, sendTime) => RowKeepsInv(w, w.row.(enabled := enabled, sendTime := sendTime));
    case _ => EnterKeepsInv(w, s.p, Free);
  }

  lemma StepKeepsInv(w: World, s: Step)
    requires Inv(w) && Enabled(w, s)
    ensures Inv(Apply(w, s))
  {
    if s.Claim? && CanClaim(w.row, PhaseOf(w, s.p).row.lastAttempt, false) {
      ClaimKeepsInv(w, s.p);
    } else if s.ClaimManual? && CanClaim(w.row, PhaseOf(w, s.p).row.lastAttempt, true) {
      ClaimManualKeepsInv(w, s.p, s.attempt);
    } else {
      OthersKeepInv(w, s);
    }
  }

  ghost predicate AllEnabled(w: World, steps: seq<Step>)
    decreases |steps|
  {
    steps == [] || (Enabled(w, steps[0]) && AllEnabled(Apply(w, steps[0]), steps[1..]))
  }

  ghost function Run(w: World, steps: seq<Step>): World
    requires AllEnabled(w, steps)
    decreases |steps|
  {
    if steps == [] then w else Run(Apply(w, steps[0]), steps[1..])
  }

  lemma {:induction false} RunKeepsInv(w: World, steps: seq<Step>)
    requires Inv(w) && AllEnabled(w, steps)
    ensures Inv(Run(w, steps)) && w.scheduled <= Run(w, steps).scheduled
    decreases |steps|
  {
    if steps == [] {
    } else {
      StepKeepsInv(w, steps[0]);
      RunKeepsInv(Apply(w, steps[0]), steps[1..]);
    }
  }

  /** From any stored row, over any interleaving of schedulers, manual copies, restarts and
      finishes, with no assumption on the clock: the scheduled claims, the one the row
      remembers included, have strictly increasing calendar days, so at most one is made per
      day, and last_error is always about the latest attempt. */
  lemma AtMostOneScheduledCopyPerDay(row: Row, steps: seq<Step>)
    requires AllEnabled(Start(row), steps)
    ensures var n := Run(Start(row), steps);
            && Listed(row.lastScheduled) <= n.scheduled
            && (forall i, j :: 0 <= i < j < |n.scheduled| ==> n.scheduled[i].day < n.scheduled[j].day)
            && n.speaker == n.row.lastAttempt
  {
    StartKeepsInv(row);
    RunKeepsInv(Start(row), steps);
  }

  /** A manual copy never consumes the daily slot. */
  lemma ManualKeepsTheSlot(w: World, p: int, attempt: Token, now: Token)
    requires Inv(w) && Enabled(w, ClaimManual(p, attempt))
    ensures Due(Apply(w, ClaimManual(p, attempt)).row, now) <==> Due(w.row, now)
    ensures Apply(w, ClaimManual(p, attempt)).scheduled == w.scheduled
  {
  }

  /** A finish changes the row exactly when its attempt is the latest, so it never
      overwrites the outcome of a later one. */
  lemma FinishOnlyTheLatest(w: World, p: int, completed: bool, message: string)
    requires Inv(w) && Enabled(w, Finish(p, completed, message))
    ensures var attempt := PhaseOf(w, p).attempt;
            var after := Apply(w, Finish(p, completed, message)).row;
            && (Last(w.attempts) != Some(attempt) ==> after == w.row)
            && (Last(w.attempts) == Some(attempt) ==>
                  after == w.row.(lastError := message, lastSuccess := if completed then Some(attempt)
                      else w.row.lastSuccess))
  {
  }

  /** Who claims: a process of the scheduler only while the row is enabled, and anybody only when
      the attempt it loaded is still the latest; whoever fails leaves the row as it is. */
  lemma ClaimDecides(w: World, p: int, attempt: Token)
    requires Inv(w)
    ensures var ph := PhaseOf(w, p); ph.Decided? ==>
              var n := Apply(w, Claim(p));
              if w.row.enabled && w.row.lastAttempt == ph.row.lastAttempt
              then PhaseOf(n, p) == Copying(ph.attempt) && n.scheduled == w.scheduled + [ph.attempt]
                   && n.row.lastAttempt == Some(ph.attempt) && n.row.lastScheduled == Some(ph.attempt)
              else PhaseOf(n, p) == Free && n.row == w.row && n.scheduled == w.scheduled
    ensures var ph := PhaseOf(w, p); Enabled(w, ClaimManual(p, attempt)) ==>
              var n := Apply(w, ClaimManual(p, attempt));
              if w.row.lastAttempt == ph.row.lastAttempt
              then PhaseOf(n, p) == Copying(attempt) && n.attempts == w.attempts + [attempt]
                   && n.row.lastAttempt == Some(attempt) && n.row.lastScheduled == w.row.lastScheduled
              else PhaseOf(n, p) == Free && n.row == w.row && n.attempts == w.attempts
  {
  }

  lemma ThreeSteps(w: World, s1: Step, s2: Step, s3: Step, w1: World, w2: World)
    requires Enabled(w, s1) && w1 == Apply(w, s1) && Enabled(w1, s2) && w2 == Apply(w1, s2) && Enabled(w2, s3)
    ensures AllEnabled(w, [s1, s2, s3]) && Run(w, [s1, s2, s3]) == Apply(w2, s3)
  {
    var w3 := Apply(w2, s3);
    assert [s1, s2, s3][1..] == [s2, s3] && [s2, s3][1..] == [s3] && [s3][1..] == [];
    assert AllEnabled(w3, []) && Run(w3, []) == w3;
    assert AllEnabled(w2, [s3]) && Run(w2, [s3]) == w3;
    assert AllEnabled(w1, [s2, s3]) && Run(w1, [s2, s3]) == w3;
  }

  lemma {:induction false} RunAppends(w: World, first: seq<Step>, second: seq<Step>)
    requires AllEnabled(w, first) && AllEnabled(Run(w, first), second)
    ensures AllEnabled(w, first + second) && Run(w, first + second) == Run(Run(w, first), second)
    decreases |first|
  {
    if first == [] {
      assert first + second == second;
    } else {
      assert (first + second)[1..] == first[1..] + second;
      RunAppends(Apply(w, first[0]), first[1..], second);
    }
  }

  // A process that loads the row, whatever it did before, once a time is configured.
  lemma LoadsConfigured(w: World, p: int, time: int)
    ensures var steps := [Crash(p), SaveConfig(true, Some(time)), Load(p)];
            var row := w.row.(enabled := true, sendTime := Some(time));
            AllEnabled(w, steps)
            && Run(w, steps) == Enter(w.(row := row), p, Loaded(row, |w.attempts|))
  {
    var w1 := Apply(w, Crash(p));
    var w2 := Apply(w1, SaveConfig(true, Some(time)));
    ThreeSteps(w, Crash(p), SaveConfig(true, Some(time)), Load(p), w1, w2);
    assert w2.processes[p := Loaded(w2.row, |w.attempts|)] == w.processes[p := Loaded(w2.row, |w.attempts|)];
  }

  // It then decides, claims, copies and finishes undisturbed.
  lemma CopiesUndisturbed(w: World, p: int, now: Token, completed: bool, message: string)
    requires PhaseOf(w, p) == Loaded(w.row, |w.attempts|) && Due(w.row, now) && FreshToken(w, now)
    ensures var steps := [Decide(p, now), Claim(p), Finish(p, completed, message)];
            AllEnabled(w, steps) && var n := Run(w, steps);
            && n.scheduled == w.scheduled + [now] && n.attempts == w.attempts + [now]
            && n.row == w.row.(lastAttempt := Some(now), lastScheduled := Some(now), lastError := message,
                               lastSuccess := if completed then Some(now) else w.row.lastSuccess)
  {
    var w1 := Apply(w, Decide(p, now));
    assert PhaseOf(w1, p) == Decided(w.row, |w.attempts|, now);
    var w2 := Apply(w1, Claim(p));
    assert PhaseOf(w2, p) == Copying(now);
    ThreeSteps(w, Decide(p, now), Claim(p), Finish(p, completed, message), w1, w2);
  }

  /** After any history, even one in which the process died while it copied: once a time of day
      is configured, the first look at or after it, on a day later than the last scheduled
      claim, copies and records the outcome. */
  lemma ConfiguredDayIsCopied(w: World, p: int, time: int, now: Token, completed: bool, message: string)
    requires Inv(w) && time <= now.minute
    requires w.row.lastScheduled.Some? ==> w.row.lastScheduled.value.day < now.day
    requires now !in w.attempts && forall q :: HasDecided(w, q) ==> w.processes[q].attempt != now
    ensures var steps := [Crash(p), SaveConfig(true, Some(time)), Load(p), Decide(p, now), Claim(p),
                          Finish(p, completed, message)];
            && AllEnabled(w, steps) && var n := Run(w, steps);
            && n.scheduled == w.scheduled + [now] && n.attempts == w.attempts + [now]
            && n.row == Row(true, Some(time), Some(now), Some(now),
                            if completed then Some(now) else w.row.lastSuccess, message)
  {
    var first := [Crash(p), SaveConfig(true, Some(time)), Load(p)];
    var second := [Decide(p, now), Claim(p), Finish(p, completed, message)];
    LoadsConfigured(w, p, time);
    var loaded := Run(w, first);
    forall q | q in loaded.processes && loaded.processes[q].Decided? ensures loaded.processes[q].attempt != now {
      assert HasDecided(w, q);
    }
    CopiesUndisturbed(loaded, p, now, completed, message);
    RunAppends(w, first, second);
    assert first + second ==
           [Crash(p), SaveConfig(true, Some(time)), Load(p), Decide(p, now), Claim(p), Finish(p, completed, message)];
  }

  // ---------------------------------------------------------------- one process undisturbed

  class Scheduler {
    var row: Row
    var locked: bool

    /** claimNASBackup: of all who saw the same last attempt only one claims.  A scheduled
        claim uses the day up, a manual one and a failed one leave what is due as it was. */
    method ClaimNASBackup(previous: Option<Token>, attempt: Token, manual: bool) returns (claimed: bool)
      modifies this`row
      ensures claimed <==> CanClaim(old(row), previous, manual)
      ensures claimed <==> (old(row).enabled || manual) && old(row).lastAttempt == previous
      ensures claimed ==> row.lastAttempt == Some(attempt) && row.lastSuccess == old(row).lastSuccess
      ensures claimed ==> row.lastScheduled == if manual then old(row).lastScheduled else Some(attempt)
      ensures row.enabled == old(row).enabled && row.sendTime == old(row).sendTime
      ensures row == if claimed then Claimed(old(row), attempt, manual) else old(row)
      ensures claimed && previous != Some(attempt) ==> forall again :: !CanClaim(row, previous, again)
      ensures claimed && !manual ==> forall now: Token :: now.day <= attempt.day ==> !Due(row, now)
      ensures !claimed || manual ==> forall now :: Due(row, now) <==> Due(old(row), now)
    {
      claimed := (row.enabled || manual) && row.lastAttempt == previous;
      if claimed {
        row := row.(lastAttempt := Some(attempt), lastScheduled := if manual then row.lastScheduled else Some(attempt),
        lastError := IN_PROGRESS);
      }
    }

    /** FinishNASBackupResult: only the latest attempt has its outcome recorded, and whoever
        could claim and whatever was due stays so. */
    method FinishNASBackupResult(attempt: Token, completed: bool, message: string)
      modifies this`row
      ensures row == Finished(old(row), attempt, completed, message)
      ensures old(row).lastAttempt != Some(attempt) ==> row == old(row)
      ensures old(row).lastAttempt == Some(attempt) ==>
                row.lastError == message && (row.lastSuccess == old(row).lastSuccess
                    || (completed && row.lastSuccess == Some(attempt)))
      ensures completed && old(row).lastAttempt == Some(attempt) ==> row.lastSuccess == Some(attempt)
      ensures forall now :: Due(row, now) <==> Due(old(row), now)
      ensures forall previous, manual :: CanClaim(row, previous, manual) <==> CanClaim(old(row), previous, manual)
    {
      if row.lastAttempt == Some(attempt) {
        row := row.(lastError := message);
        if completed {
          row := row.(lastSuccess := Some(attempt));
        }
      }
    }

    /** runNASBackup: copies exactly when the lock is free and the row says due; afterwards
        the day is used up whatever the upload did, and its outcome is on record. */
    method RunNASBackup(now: Token, completed: bool, message: string) returns (copied: bool)
      modifies this
      ensures locked == old(locked)
      ensures copied <==> !old(locked) && Due(old(row), now)
      ensures copied ==> old(row).enabled && old(row).sendTime.Some? && old(row).sendTime.value <= now.minute
      ensures copied ==> row.lastScheduled == Some(now) && row.lastAttempt == Some(now) && row.lastError == message
                         && row.lastSuccess == (if completed then Some(now) else old(row).lastSuccess)
                         && forall later: Token :: later.day <= now.day ==> !Due(row, later)
      ensures !copied ==> row == old(row)
    {
      if locked {
        return false;
      }
      locked := true;
      var c := row;
      copied := c.enabled && c.sendTime.Some? && now.minute >= c.sendTime.value
                && (c.lastScheduled.None? || c.lastScheduled.value.day < now.day);
      if copied {
        var claimed := ClaimNASBackup(c.lastAttempt, now, false);
        assert claimed;
        FinishNASBackupResult(now, completed, message);
      }
      locked := false;
    }
  }
}
