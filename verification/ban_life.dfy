/**
 Login bans for one key (internal/ratelimit/banhammer.go): what each operation does
 to the key's in-memory state, and what the key's history says about it.
 */
module BanLife {
  import opened Wrappers

  type Time = int // nanoseconds

  const SECOND := 1_000_000_000

  // banExpiry: zero, a time, or the sentinel for permanent.
  datatype Expiry = NotBanned | Until(at: Time) | Forever

  datatype State = State(failures: seq<Time>, expiry: Expiry, banCount: nat, bannedAt: Time)

  const FRESH := State([], NotBanned, 0, 0)

  // NewBanhammer never leaves banDurs empty.
  datatype Config = Config(maxFails: int, window: int, banDurs: seq<int>)

  predicate Active(e: Expiry, now: Time) { e.Forever? || (e.Until? && now < e.at) }

  function Remaining(e: Expiry, now: Time): int
    requires Active(e, now)
  {
    if e.Forever? then -1 else e.at - now
  }

  // The failures strictly younger than the cutoff.
  function Recent(times: seq<Time>, cutoff: Time): seq<Time> {
    if times == [] then []
    else
      var earlier := Recent(times[..|times| - 1], cutoff);
      var t := times[|times| - 1];
      if t > cutoff then earlier + [t] else earlier
  }

  // banDurFor
  function BanDur(cfg: Config, count: nat): int
    requires cfg.banDurs != []
  {
    if count >= |cfg.banDurs| then cfg.banDurs[|cfg.banDurs| - 1] else cfg.banDurs[count]
  }

  function BanEnd(now: Time, dur: int): Expiry { if dur == 0 then Forever else Until(now + dur) }

  function StateOf(entry: Option<State>): State { if entry.Some? then entry.value else FRESH }

  // RecordFailure for an untrusted address: the new state and whether it got banned.
  function AfterFailure(entry: Option<State>, now: Time, cfg: Config): (State, bool)
    requires cfg.banDurs != []
  {
    var s := StateOf(entry);
    if Active(s.expiry, now) then (s, false)
    else
      var valid := Recent(s.failures, now - cfg.window) + [now];
      if |valid| < cfg.maxFails then (s.(failures := valid), false)
      else (State([], BanEnd(now, BanDur(cfg, s.banCount)), s.banCount + 1, now), true)
  }

  // IsBanned for an untrusted address forgets an expired ban.
  function AfterCheck(entry: Option<State>, now: Time): Option<State> {
    if entry.Some? && entry.value.expiry.Until? && !Active(entry.value.expiry, now)
    then Some(entry.value.(expiry := NotBanned, failures := []))
    else entry
  }

  function AfterClear(entry: Option<State>): Option<State> {
    if entry.Some? then Some(entry.value.(failures := [])) else None
  }

  // cleanupAt
  function AfterSweep(entry: Option<State>, now: Time, cfg: Config): Option<State> {
    if entry.None? || Active(entry.value.expiry, now) then entry
    else if Recent(entry.value.failures, now - cfg.window) != [] then entry
    else if entry.value.banCount == 0 then None
    else Some(entry.value.(failures := []))
  }

  // ListBanned still lists a ban at the very instant it expires.
  predicate Listed(e: Expiry, now: Time) { e.Forever? || (e.Until? && now <= e.at) }

  // The row of ip_bans: RFC 3339 text keeps whole seconds only.
  datatype StoredBan = StoredBan(banCount: nat, expiry: Expiry, bannedAt: Time)

  function WholeSeconds(t: Time): Time { t - t % SECOND }

  function Truncated(e: Expiry): Expiry { if e.Until? then Until(WholeSeconds(e.at)) else e }

  // Load
  function Reloaded(row: StoredBan, now: Time): State {
    State([], if Active(row.expiry, now) then row.expiry else NotBanned, row.banCount, row.bannedAt)
  }

  // ---------------------------------------------------------------- the key's history

  datatype Note =
    | Failure(at: Time)                 // a counted failure that did not ban
    | Banned(at: Time, expiry: Expiry)
    | Cleared                           // a successful login
    | Lapsed                            // IsBanned noticed that the ban had expired
    | Lifted                            // unbanned by an administrator
    | Restarted(at: Time)               // the process ended and Load ran

  // All failures recorded since the last ban, clear, lapse, lift or restart.
  function FailuresSince(notes: seq<Note>): seq<Time> {
    if notes == [] then []
    else match notes[|notes| - 1]
      case Failure(t) => FailuresSince(notes[..|notes| - 1]) + [t]
      case _ => []
  }

  // The bans since the last lift.
  function BansSinceLift(notes: seq<Note>): nat {
    if notes == [] then 0
    else
      var earlier := notes[..|notes| - 1];
      match notes[|notes| - 1]
      case Banned(_, _) => BansSinceLift(earlier) + 1
      case Lifted => 0
      case _ => BansSinceLift(earlier)
  }

  // The ban in force: that of the last ban, unless it was lifted or found lapsed.  A
  // restart keeps whole seconds, and drops what has expired by then.
  function BanInForce(notes: seq<Note>): Expiry {
    if notes == [] then NotBanned
    else
      var earlier := BanInForce(notes[..|notes| - 1]);
      match notes[|notes| - 1]
      case Banned(_, e) => e
      case Lapsed => NotBanned
      case Lifted => NotBanned
      case Restarted(now) => if Active(Truncated(earlier), now) then Truncated(earlier) else NotBanned
      case _ => earlier
  }

  // What the store holds of the last ban: a lapse does not touch it.
  function BanOnRecord(notes: seq<Note>): Expiry {
    if notes == [] then NotBanned
    else match notes[|notes| - 1]
      case Banned(_, e) => Truncated(e)
      case Lifted => NotBanned
      case _ => BanOnRecord(notes[..|notes| - 1])
  }

  // When the last ban began; a restart keeps whole seconds.
  function BanStart(notes: seq<Note>): Time {
    if notes == [] then 0
    else
      var earlier := BanStart(notes[..|notes| - 1]);
      match notes[|notes| - 1]
      case Banned(t, _) => t
      case Lifted => 0
      case Restarted(_) => WholeSeconds(earlier)
      case _ => earlier
  }

  // The in-memory entry says what the history says, from `clock` on.
  ghost predicate Faithful(entry: Option<State>, notes: seq<Note>, clock: Time, cfg: Config) {
    var s := StateOf(entry);
    && s.banCount == BansSinceLift(notes)
    && s.expiry == BanInForce(notes)
    && s.bannedAt == BanStart(notes)
    && (s.banCount == 0 ==> s.expiry.NotBanned? && s.bannedAt == 0)
    && Recent(s.failures, clock - cfg.window) == Recent(FailuresSince(notes), clock - cfg.window)
  }

  // The store holds a row exactly for a key with a ban since the last lift.
  ghost predicate Coupled(row: Option<StoredBan>, notes: seq<Note>, clock: Time) {
    && (row.Some? <==> BansSinceLift(notes) > 0)
    && (row.Some? ==> row.value.banCount == BansSinceLift(notes) && row.value.expiry == BanOnRecord(notes))
    && (row.Some? ==> row.value.bannedAt == WholeSeconds(BanStart(notes)))
    && (BansSinceLift(notes) == 0 ==> BanOnRecord(notes).NotBanned?)
    // a ban in force is on record to the second, and one that is over is over on record
    && (!BanInForce(notes).NotBanned? ==> BanOnRecord(notes) == Truncated(BanInForce(notes)))
    && (BanInForce(notes).NotBanned? ==> !Active(BanOnRecord(notes), clock))
  }

  // ---------------------------------------------------------------- the rules, written out

  // How many of the times are strictly later than the cutoff.
  ghost function LaterThan(times: seq<Time>, cutoff: Time): nat {
    |set i | 0 <= i < |times| && times[i] > cutoff|
  }

  lemma {:induction false} RecentCounts(times: seq<Time>, cutoff: Time)
    ensures |Recent(times, cutoff)| == LaterThan(times, cutoff)
  {
    if times == [] {
    } else {
      var n := |times| - 1;
      var front := times[..n];
      RecentCounts(front, cutoff);
      var all := set i | 0 <= i < |times| && times[i] > cutoff;
      var less := set i | 0 <= i < |front| && front[i] > cutoff;
      assert all == if times[n] > cutoff then less + {n} else less;
    }
  }

  // A failure finds no ban running.
  predicate Free(e: Expiry, now: Time) { e.NotBanned? || (e.Until? && e.at <= now) }

  // An entry that the cleanup keeps: a ban runs or was ever made, or a failure is recent.
  ghost predicate InUse(s: State, now: Time, window: int) {
    !Free(s.expiry, now) || s.banCount > 0 || LaterThan(s.failures, now - window) > 0
  }

  // The stored row of a banned key: the number of bans and both times to the second.
  ghost predicate OnRecord(row: Option<StoredBan>, notes: seq<Note>) {
    && row.Some? && row.value.banCount == BansSinceLift(notes)
    && ToTheSecond(row.value.bannedAt, BanStart(notes))
    && match BanInForce(notes)
       case Until(at) => row.value.expiry.Until? && ToTheSecond(row.value.expiry.at, at)
       case e => row.value.expiry == e
  }

  predicate ToTheSecond(stored: Time, t: Time) { stored <= t < stored + 1_000_000_000 && stored % 1_000_000_000 == 0 }

  lemma StoredToTheSecond(row: Option<StoredBan>, notes: seq<Note>, clock: Time)
    requires Coupled(row, notes, clock) && BansSinceLift(notes) > 0 && !BanInForce(notes).NotBanned?
    ensures OnRecord(row, notes)
  {
    WholeSecondsFacts(BanStart(notes));
    if BanInForce(notes).Until? { WholeSecondsFacts(BanInForce(notes).at); }
  }

  /** What a failure does to the history.  While a ban runs, nothing.  Otherwise it bans exactly
      when it is at least the maxFails-th of those strictly within the window since the last
      reset; the first ban since the last lift lasts the first duration, each further one the
      next, and when they are used up the last, zero standing for ever. */
  lemma FailureRule(notes: seq<Note>, now: Time, cfg: Config)
    requires cfg.banDurs != []
    ensures var k := BansSinceLift(notes);
            var d := cfg.banDurs[if k < |cfg.banDurs| then k else |cfg.banDurs| - 1];
            var full := LaterThan(FailuresSince(notes), now - cfg.window) + 1 >= cfg.maxFails;
            && (BansNow(notes, now, cfg) <==> Free(BanInForce(notes), now) && full)
            && FailureNote(notes, now, cfg) ==
               if !Free(BanInForce(notes), now) then []
               else if full then [Banned(now, if d == 0 then Forever else Until(now + d))]
               else [Failure(now)]
  {
    RecentCounts(FailuresSince(notes), now - cfg.window);
  }

  // ---------------------------------------------------------------- windows

  lemma RecentAppend(times: seq<Time>, t: Time, cutoff: Time)
    ensures Recent(times + [t], cutoff) == if t > cutoff then Recent(times, cutoff) + [t] else Recent(times, cutoff)
  {
    assert (times + [t])[..|times|] == times;
  }

  lemma {:induction false} RecentSome(times: seq<Time>, i: nat, cutoff: Time)
    requires i < |times| && times[i] > cutoff
    ensures Recent(times, cutoff) != []
  {
    if i < |times| - 1 {
      RecentSome(times[..|times| - 1], i, cutoff);
    }
  }

  /** Looking back less far through a window that was cut before changes nothing. */
  lemma {:induction false} RecentAgain(times: seq<Time>, c1: Time, c2: Time)
    requires c1 <= c2
    ensures Recent(Recent(times, c1), c2) == Recent(times, c2)
  {
    if times == [] {
    } else {
      var front, t := times[..|times| - 1], times[|times| - 1];
      RecentAgain(front, c1, c2);
      if t > c1 { RecentAppend(Recent(front, c1), t, c2); }
    }
  }

  lemma RecentStaysEqual(a: seq<Time>, b: seq<Time>, c1: Time, c2: Time)
    requires c1 <= c2 && Recent(a, c1) == Recent(b, c1)
    ensures Recent(a, c2) == Recent(b, c2)
  {
    RecentAgain(a, c1, c2);
    RecentAgain(b, c1, c2);
  }

  lemma Noted(notes: seq<Note>, n: Note)
    ensures FailuresSince(notes + [n]) == if n.Failure? then FailuresSince(notes) + [n.at] else []
    ensures BansSinceLift(notes + [n]) ==
            if n.Banned? then BansSinceLift(notes) + 1 else if n.Lifted? then 0 else BansSinceLift(notes)
    ensures BanInForce(notes + [n]) ==
            match n
            case Banned(_, e) => e
            case Lapsed => NotBanned
            case Lifted => NotBanned
            case Restarted(now) =>
              if Active(Truncated(BanInForce(notes)), now) then Truncated(BanInForce(notes)) else NotBanned
            case _ => BanInForce(notes)
    ensures BanOnRecord(notes + [n]) ==
            match n
            case Banned(_, e) => Truncated(e)
            case Lifted => NotBanned
            case _ => BanOnRecord(notes)
    ensures BanStart(notes + [n]) ==
            match n
            case Banned(t, _) => t
            case Lifted => 0
            case Restarted(_) => WholeSeconds(BanStart(notes))
            case _ => BanStart(notes)
  {
    assert (notes + [n])[..|notes|] == notes;
  }

  // The history after a failure, written out.
  lemma FailureTells(n: seq<Note>, now: Time, cfg: Config)
    requires cfg.banDurs != []
    ensures var after := n + FailureNote(n, now, cfg);
            var k := BansSinceLift(n);
            var d := cfg.banDurs[if k < |cfg.banDurs| then k else |cfg.banDurs| - 1];
            var recent := LaterThan(FailuresSince(n), now - cfg.window);
            var banned := BansNow(n, now, cfg);
            && (banned <==> Free(BanInForce(n), now) && recent + 1 >= cfg.maxFails)
            && (banned ==> BanInForce(after) == if d == 0 then Forever else Until(now + d))
            && (banned ==> BansSinceLift(after) == k + 1)
            && (!banned && Free(BanInForce(n), now) ==> after == n + [Failure(now)])
            && (!Free(BanInForce(n), now) ==> after == n)
  {
    FailureRule(n, now, cfg);
    var note := FailureNote(n, now, cfg);
    if note == [] {
      assert n + [] == n;
    } else {
      Noted(n, note[0]);
    }
  }

  lemma BanGoesOnRecord(n: seq<Note>, next: State, now: Time, cfg: Config)
    requires cfg.banDurs != [] && BansNow(n, now, cfg)
    requires Coupled(Some(StoredBan(next.banCount, Truncated(next.expiry), WholeSeconds(now))),
                     n + FailureNote(n, now, cfg), now)
    ensures OnRecord(Some(StoredBan(next.banCount, Truncated(next.expiry), WholeSeconds(now))),
                     n + FailureNote(n, now, cfg))
  {
    FailureTells(n, now, cfg);
    StoredToTheSecond(Some(StoredBan(next.banCount, Truncated(next.expiry), WholeSeconds(now))),
                      n + FailureNote(n, now, cfg), now);
  }

  // ---------------------------------------------------------------- every operation refines the history

  // With this failure, the failures recorded strictly within the window since the last
  // reset reach maxFails, and no ban is in force.
  predicate BansNow(notes: seq<Note>, now: Time, cfg: Config) {
    !Active(BanInForce(notes), now) && |Recent(FailuresSince(notes), now - cfg.window)| + 1 >= cfg.maxFails
  }

  // The note an untrusted failure leaves.
  function FailureNote(notes: seq<Note>, now: Time, cfg: Config): seq<Note>
    requires cfg.banDurs != []
  {
    if Active(BanInForce(notes), now) then []
    else if BansNow(notes, now, cfg)
    then [Banned(now, BanEnd(now, BanDur(cfg, BansSinceLift(notes))))]
    else [Failure(now)]
  }

  /** Sliding window: a failure bans exactly when no ban is in force and, with it, the
      failures recorded strictly within the window since the last reset reach maxFails;
      the ban lasts as long as the number of bans since the last lift says. */
  lemma FailureRefines(entry: Option<State>, notes: seq<Note>, clock: Time, now: Time, cfg: Config)
    requires cfg.banDurs != [] && clock <= now && Faithful(entry, notes, clock, cfg)
    ensures Faithful(Some(AfterFailure(entry, now, cfg).0), notes + FailureNote(notes, now, cfg), now, cfg)
    ensures AfterFailure(entry, now, cfg).1 <==> BansNow(notes, now, cfg)
  {
    LaterRefines(entry, notes, clock, now, cfg);
    FailureDecision(entry, notes, now, cfg);
    var s, after := StateOf(entry), notes + FailureNote(notes, now, cfg);
    if Active(BanInForce(notes), now) {
      assert after == notes;
    } else if BansNow(notes, now, cfg) {
      var e := BanEnd(now, BanDur(cfg, BansSinceLift(notes)));
      assert after == notes + [Banned(now, e)];
      BanRefines(s, notes, now, e, cfg);
    } else {
      assert after == notes + [Failure(now)];
      CountRefines(s, notes, now, cfg);
    }
  }

  // What the code decides from the entry, told by the history.
  lemma FailureDecision(entry: Option<State>, notes: seq<Note>, now: Time, cfg: Config)
    requires cfg.banDurs != [] && Faithful(entry, notes, now, cfg)
    ensures var s := StateOf(entry);
            AfterFailure(entry, now, cfg) ==
            if Active(BanInForce(notes), now) then (s, false)
            else if BansNow(notes, now, cfg)
            then (State([], BanEnd(now, BanDur(cfg, BansSinceLift(notes))), s.banCount + 1, now), true)
            else (s.(failures := Recent(s.failures, now - cfg.window) + [now]), false)
  {
    var valid := Recent(StateOf(entry).failures, now - cfg.window);
    assert |valid + [now]| == |valid| + 1;
  }

  lemma BanRefines(s: State, notes: seq<Note>, now: Time, e: Expiry, cfg: Config)
    requires s.banCount == BansSinceLift(notes)
    ensures Faithful(Some(State([], e, s.banCount + 1, now)), notes + [Banned(now, e)], now, cfg)
  {
    Noted(notes, Banned(now, e));
  }

  lemma CountRefines(s: State, notes: seq<Note>, now: Time, cfg: Config)
    requires Faithful(Some(s), notes, now, cfg)
    ensures Faithful(Some(s.(failures := Recent(s.failures, now - cfg.window) + [now])), notes + [Failure(now)], now,
        cfg)
  {
    var after := notes + [Failure(now)];
    assert FailuresSince(after) == FailuresSince(notes) + [now] && BansSinceLift(after) == BansSinceLift(notes)
           && BanInForce(after) == BanInForce(notes) by {
      Noted(notes, Failure(now));
    }
    FailureWindow(s.failures, FailuresSince(notes), now, now - cfg.window);
  }

  // Pruning before appending keeps the window.
  lemma FailureWindow(pruned: seq<Time>, all: seq<Time>, now: Time, cutoff: Time)
    requires Recent(pruned, cutoff) == Recent(all, cutoff)
    ensures Recent(Recent(pruned, cutoff) + [now], cutoff) == Recent(all + [now], cutoff)
  {
    RecentAppend(all, now, cutoff);
    RecentAppend(Recent(pruned, cutoff), now, cutoff);
    RecentAgain(pruned, cutoff, cutoff);
  }

  lemma CheckRefines(entry: Option<State>, notes: seq<Note>, clock: Time, now: Time, cfg: Config)
    requires clock <= now && Faithful(entry, notes, clock, cfg)
    ensures var after := if AfterCheck(entry, now) == entry then notes else notes + [Lapsed];
            Faithful(AfterCheck(entry, now), after, now, cfg)
    ensures AfterCheck(entry, now) != entry <==> BanInForce(notes).Until? && BanInForce(notes).at <= now
  {
    RecentStaysEqual(StateOf(entry).failures, FailuresSince(notes), clock - cfg.window, now - cfg.window);
    Noted(notes, Lapsed);
  }

  lemma ClearRefines(entry: Option<State>, notes: seq<Note>, clock: Time, cfg: Config)
    requires Faithful(entry, notes, clock, cfg)
    ensures Faithful(AfterClear(entry), notes + [Cleared], clock, cfg)
  {
    Noted(notes, Cleared);
  }

  lemma LiftRefines(notes: seq<Note>, clock: Time, cfg: Config)
    ensures Faithful(None, notes + [Lifted], clock, cfg) && Coupled(None, notes + [Lifted], clock)
  {
    Noted(notes, Lifted);
  }

  /** The hourly cleanup leaves no note: the entry still says what the history says. */
  lemma SweepRefines(entry: Option<State>, notes: seq<Note>, clock: Time, now: Time, cfg: Config)
    requires clock <= now && Faithful(entry, notes, clock, cfg)
    ensures Faithful(AfterSweep(entry, now, cfg), notes, now, cfg)
  {
    RecentStaysEqual(StateOf(entry).failures, FailuresSince(notes), clock - cfg.window, now - cfg.window);
  }

  /** Time passing changes nothing. */
  lemma LaterRefines(entry: Option<State>, notes: seq<Note>, clock: Time, now: Time, cfg: Config)
    requires clock <= now && Faithful(entry, notes, clock, cfg)
    ensures Faithful(entry, notes, now, cfg)
  {
    RecentStaysEqual(StateOf(entry).failures, FailuresSince(notes), clock - cfg.window, now - cfg.window);
  }

  /** The store after a failure: a new row exactly when the key got banned. */
  lemma FailureCoupled(row: Option<StoredBan>, notes: seq<Note>, clock: Time, now: Time, cfg: Config)
    requires cfg.banDurs != [] && clock <= now && Coupled(row, notes, clock)
    ensures var n := FailureNote(notes, now, cfg);
            Coupled(if n != [] && n[0].Banned?
                    then Some(StoredBan(BansSinceLift(notes) + 1, Truncated(n[0].expiry), WholeSeconds(now))) else row,
                    notes + n, now)
  {
    var n := FailureNote(notes, now, cfg);
    if n == [] { assert notes + [] == notes; } else { Noted(notes, n[0]); }
  }

  lemma BanIsNoted(notes: seq<Note>, now: Time, cfg: Config)
    requires cfg.banDurs != []
    ensures var n := FailureNote(notes, now, cfg);
            var e := BanEnd(now, BanDur(cfg, BansSinceLift(notes)));
            && (BansNow(notes, now, cfg) <==> n != [] && n[0].Banned?)
            && (BansNow(notes, now, cfg) ==>
                  && n[0].expiry == e && BanInForce(notes + n) == e
                  && BansSinceLift(notes + n) == BansSinceLift(notes) + 1)
  {
    if BansNow(notes, now, cfg) { Noted(notes, Banned(now, BanEnd(now, BanDur(cfg, BansSinceLift(notes))))); }
  }

  /** Memory, store and history of a key after one failure, together. */
  lemma FailureKey(entry: Option<State>, row: Option<StoredBan>, notes: seq<Note>, clock: Time, now: Time, cfg: Config)
    requires cfg.banDurs != [] && clock <= now && Faithful(entry, notes, clock, cfg) && Coupled(row, notes, clock)
    ensures var (next, banned) := AfterFailure(entry, now, cfg);
            var notes' := notes + FailureNote(notes, now, cfg);
            var stored := StoredBan(next.banCount, Truncated(next.expiry), WholeSeconds(now));
            var row' := if banned then Some(stored) else row;
            && Faithful(Some(next), notes', now, cfg) && Coupled(row', notes', now)
            && (banned <==> BansNow(notes, now, cfg))
            && (banned ==> BanInForce(notes') == BanEnd(now, BanDur(cfg, BansSinceLift(notes))))
  {
    FailureRefines(entry, notes, clock, now, cfg);
    FailureCoupled(row, notes, clock, now, cfg);
    BanIsNoted(notes, now, cfg);
  }

  lemma QuietNoteCoupled(row: Option<StoredBan>, notes: seq<Note>, n: Note, clock: Time, now: Time)
    requires clock <= now && Coupled(row, notes, clock)
    requires n.Cleared? || (n.Lapsed? && !Active(BanInForce(notes), now)) || n == Restarted(now)
    ensures Coupled(row, notes + [n], now)
  {
    Noted(notes, n);
    TruncatedTwice(BanInForce(notes));
    WholeSecondsFacts(BanStart(notes));
    if BanInForce(notes).Until? { WholeSecondsFacts(BanInForce(notes).at); }
  }

  lemma TruncatedTwice(e: Expiry)
    ensures Truncated(Truncated(e)) == Truncated(e)
  {
    if e.Until? { WholeSecondsFacts(e.at); WholeSecondsFacts(WholeSeconds(e.at)); }
  }

  lemma WholeSecondsFacts(t: Time)
    ensures WholeSeconds(t) <= t < WholeSeconds(t) + 1_000_000_000
    ensures WholeSeconds(t) % 1_000_000_000 == 0
    ensures WholeSeconds(WholeSeconds(t)) == WholeSeconds(t)
  {
    var q, r := t / SECOND, t % SECOND;
    assert t - r == q * SECOND;
    assert (q * SECOND) % SECOND == 0;
  }

  /** Restart and Load: every escalation level survives, the failures of an unbanned key
      are forgotten, and the ban in force is the stored one. */
  lemma RestartRefines(row: Option<StoredBan>, notes: seq<Note>, clock: Time, now: Time, cfg: Config)
    requires clock <= now && Coupled(row, notes, clock)
    requires BansSinceLift(notes) == 0 ==> BanInForce(notes).NotBanned? && BanStart(notes) == 0
    ensures var entry := if row.Some? then Some(Reloaded(row.value, now)) else None;
            Faithful(entry, notes + [Restarted(now)], now, cfg)
  {
    Noted(notes, Restarted(now));
  }

  /** What is lost: a ban survives the restart if and only if its whole-second expiry is
      still ahead, so an active ban is lost only in its last fraction of a second, and a
      kept one ends less than a second early. */
  lemma RestartKeepsBanIff(e: Expiry, now: Time)
    requires Active(e, now)
    ensures var kept := if Active(Truncated(e), now) then Truncated(e) else NotBanned;
            && (Active(kept, now) <==> e.Forever? || now < WholeSeconds(e.at))
            && (!Active(kept, now) ==> e.Until? && e.at - now < SECOND)
            && (Active(kept, now) ==> forall t :: Active(kept, t) ==> Active(e, t))
            && (Active(kept, now) ==> forall t :: Active(e, t) && !Active(kept, t) ==> e.at - t < SECOND)
  {
    if e.Until? { WholeSecondsFacts(e.at); }
  }

  /** IsBanned and ListBanned agree about a ban except at the instant it expires. */
  lemma ListDisagreesIff(e: Expiry, now: Time)
    ensures (Listed(e, now) <==> Active(e, now)) <==> !(e.Until? && now == e.at)
  {
  }

  // ---------------------------------------------------------------- cleanup cannot be observed

  datatype Op = Fail(now: Time) | Check(now: Time) | Clear | Lift | List(now: Time) | Sweep(now: Time)

  // What the caller of an operation sees.
  datatype Out = Nothing | GotBanned(banned: bool) | Checked(active: bool, remaining: int)
               | Shown(listed: bool, banCount: nat, expiry: Expiry, bannedAt: Time)

  function After(entry: Option<State>, op: Op, cfg: Config): Option<State>
    requires cfg.banDurs != []
  {
    match op
    case Fail(now) => Some(AfterFailure(entry, now, cfg).0)
    case Check(now) => AfterCheck(entry, now)
    case Clear => AfterClear(entry)
    case Lift => None
    case List(now) => entry
    case Sweep(now) => AfterSweep(entry, now, cfg)
  }

  function Output(entry: Option<State>, op: Op, cfg: Config): Out
    requires cfg.banDurs != []
  {
    var s := StateOf(entry);
    match op
    case Fail(now) => GotBanned(AfterFailure(entry, now, cfg).1)
    case Check(now) => if Active(s.expiry, now) then Checked(true, Remaining(s.expiry, now)) else Checked(false, 0)
    case List(now) =>
      if Listed(s.expiry, now) then Shown(true, s.banCount, s.expiry, s.bannedAt) else Shown(false, 0, NotBanned, 0)
    case _ => Nothing
  }

  function Outputs(entry: Option<State>, ops: seq<Op>, cfg: Config): seq<Out>
    requires cfg.banDurs != []
    decreases |ops|
  {
    if ops == [] then [] else [Output(entry, ops[0], cfg)] + Outputs(After(entry, ops[0], cfg), ops[1..], cfg)
  }

  predicate Timed(op: Op) { !op.Clear? && !op.Lift? }

  // The calls come in the order of a clock that starts at `clock`.
  predicate InOrder(clock: Time, ops: seq<Op>)
    decreases |ops|
  {
    if ops == [] then true
    else if Timed(ops[0]) then clock <= ops[0].now && InOrder(ops[0].now, ops[1..])
    else InOrder(clock, ops[1..])
  }

  // A key that was never banned shows no ban.
  predicate Sane(entry: Option<State>) {
    var s := StateOf(entry);
    s.banCount == 0 ==> s.expiry.NotBanned? && s.bannedAt == 0
  }

  // Indistinguishable from `clock` on.
  ghost predicate Alike(a: Option<State>, b: Option<State>, clock: Time, cfg: Config) {
    var s, t := StateOf(a), StateOf(b);
    && s.expiry == t.expiry && s.banCount == t.banCount && s.bannedAt == t.bannedAt
    && Recent(s.failures, clock - cfg.window) == Recent(t.failures, clock - cfg.window)
    && Sane(a)
  }

  lemma AlikeStep(a: Option<State>, b: Option<State>, clock: Time, op: Op, cfg: Config)
    requires cfg.banDurs != [] && Alike(a, b, clock, cfg) && (Timed(op) ==> clock <= op.now)
    ensures Output(a, op, cfg) == Output(b, op, cfg)
    ensures Alike(After(a, op, cfg), After(b, op, cfg), if Timed(op) then op.now else clock, cfg)
  {
    if Timed(op) {
      RecentStaysEqual(StateOf(a).failures, StateOf(b).failures, clock - cfg.window, op.now - cfg.window);
    }
  }

  lemma {:induction false} AlikeForever(a: Option<State>, b: Option<State>, clock: Time, ops: seq<Op>, cfg: Config)
    requires cfg.banDurs != [] && Alike(a, b, clock, cfg) && InOrder(clock, ops)
    ensures Outputs(a, ops, cfg) == Outputs(b, ops, cfg)
    decreases |ops|
  {
    if ops == [] {
    } else {
      AlikeStep(a, b, clock, ops[0], cfg);
      var next := if Timed(ops[0]) then ops[0].now else clock;
      AlikeForever(After(a, ops[0], cfg), After(b, ops[0], cfg), next, ops[1..], cfg);
    }
  }

  /** Cleanup is invisible: every later sequence of calls answers the same with or
      without it. */
  lemma CleanupIsInvisible(entry: Option<State>, now: Time, ops: seq<Op>, cfg: Config)
    requires cfg.banDurs != [] && Sane(entry) && InOrder(now, ops)
    ensures Outputs(AfterSweep(entry, now, cfg), ops, cfg) == Outputs(entry, ops, cfg)
  {
    AlikeForever(AfterSweep(entry, now, cfg), entry, now, ops, cfg);
  }

  function Final(entry: Option<State>, ops: seq<Op>, cfg: Config): Option<State>
    requires cfg.banDurs != []
    decreases |ops|
  {
    if ops == [] then entry else Final(After(entry, ops[0], cfg), ops[1..], cfg)
  }

  /** Permanent means until lifted: whatever else happens, every check says banned. */
  lemma {:induction false} PermanentUntilLifted(entry: Option<State>, ops: seq<Op>, cfg: Config, now: Time)
    requires cfg.banDurs != [] && StateOf(entry).expiry.Forever?
    requires forall op <- ops :: !op.Lift?
    ensures Output(Final(entry, ops, cfg), Check(now), cfg) == Checked(true, -1)
    decreases |ops|
  {
    if ops == [] {
    } else {
      assert ops[0] in ops;
      PermanentUntilLifted(After(entry, ops[0], cfg), ops[1..], cfg, now);
    }
  }
}
