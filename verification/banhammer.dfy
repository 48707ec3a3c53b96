/**
 The Banhammer (internal/ratelimit/banhammer.go) and its mirror in the table ip_bans
 (internal/store/ip_bans.go).  Every method is one critical section.  `notes` is the
 ghost history of each key; Valid ties states and stored rows to it, so what a method
 answers is stated by the history alone.
 */
module BanHammers {
  import opened Wrappers
  import opened BanLife

  ghost function Noting(notes: string -> seq<Note>, key: string, more: seq<Note>): string -> seq<Note> {
    k => if k == key then notes(k) + more else notes(k)
  }

  class Banhammer {
    const cfg: Config
    const isTrusted: string -> bool  // inside a trusted network and not a proxy
    const banKey: string -> string   // BanKey: the /64 of an IPv6 address, else the address

    var states: map<string, State>
    var stored: map<string, StoredBan>
    ghost var notes: string -> seq<Note>
    ghost var clock: Time

    function Entry(key: string): Option<State>
      reads this
    {
      if key in states then Some(states[key]) else None
    }

    function Stored(key: string): Option<StoredBan>
      reads this
    {
      if key in stored then Some(stored[key]) else None
    }

    ghost function NotesOf(key: string): seq<Note>
      reads this
    {
      notes(key)
    }

    ghost predicate KeyValid(key: string)
      reads this
    {
      Faithful(Entry(key), NotesOf(key), clock, cfg) && Coupled(Stored(key), NotesOf(key), clock)
    }

    ghost predicate Valid()
      reads this
    {
      cfg.banDurs != [] && forall key :: KeyValid(key)
    }

    // State, row and history of a key.
    ghost function Look(key: string): (Option<State>, Option<StoredBan>, seq<Note>)
      reads this
    {
      (Entry(key), Stored(key), NotesOf(key))
    }

    constructor (maxFails: int, window: int, banDurs: seq<int>, isTrusted: string -> bool, banKey: string -> string,
        ghost now: Time)
      ensures Valid() && clock == now
      ensures cfg == Config(maxFails, window, if banDurs == [] then [24 * 3600 * 1_000_000_000] else banDurs)
      ensures forall key :: Entry(key).None? && Stored(key).None? && NotesOf(key) == []
    {
      cfg := Config(maxFails, window, if banDurs == [] then [24 * 3600 * SECOND] else banDurs);
      this.isTrusted, this.banKey := isTrusted, banKey;
      states, stored, notes, clock := map[], map[], _ => [], now;
    }

    twostate lemma OthersStayValid(key: string)
      requires old(Valid()) && old(clock) <= clock
      requires forall k :: k != key ==> Look(k) == old(Look(k))
      requires KeyValid(key)
      ensures Valid()
    {
      forall k ensures KeyValid(k) {
        if k != key {
          assert Look(k) == old(Look(k)) && old(KeyValid(k));
          LaterRefines(Entry(k), NotesOf(k), old(clock), clock, cfg);
        }
      }
    }

    /** A trusted address is never counted.  Any other is banned by this failure exactly
        when its window is full, for the duration its number of bans calls for. */
    method RecordFailure(ip: string, now: Time) returns (justBanned: bool)
      requires Valid() && clock <= now
      modifies this
      ensures Valid() && clock == now
      ensures forall k :: k != banKey(ip) || isTrusted(ip) ==> Look(k) == old(Look(k))
      ensures isTrusted(ip) ==> !justBanned
      ensures !isTrusted(ip) ==>
                var n := old(NotesOf(banKey(ip)));
                && (justBanned <==> BansNow(n, now, cfg))
                && NotesOf(banKey(ip)) == n + FailureNote(n, now, cfg)
                && (!justBanned ==> stored == old(stored))
      ensures !isTrusted(ip) ==>
                var n := old(NotesOf(banKey(ip)));
                var k := BansSinceLift(n);
                var d := cfg.banDurs[if k < |cfg.banDurs| then k else |cfg.banDurs| - 1];
                var recent := LaterThan(FailuresSince(n), now - cfg.window);
                && (justBanned <==> Free(BanInForce(n), now) && recent + 1 >= cfg.maxFails)
                && (justBanned ==> BanInForce(NotesOf(banKey(ip))) == if d == 0 then Forever else Until(now + d))
                && (justBanned ==> BansSinceLift(NotesOf(banKey(ip))) == k + 1)
                && (!justBanned && Free(BanInForce(n), now) ==> NotesOf(banKey(ip)) == n + [Failure(now)])
                && (!Free(BanInForce(n), now) ==> NotesOf(banKey(ip)) == n)
      ensures justBanned ==> OnRecord(Stored(banKey(ip)), NotesOf(banKey(ip)))
    {
      if isTrusted(ip) {
        clock := now;
        StayValid();
        return false;
      }
      ghost var n := NotesOf(banKey(ip));
      FailureTells(n, now, cfg);
      justBanned := RecordForKey(banKey(ip), now);
    }

    method RecordForKey(key: string, now: Time) returns (justBanned: bool)
      requires Valid() && clock <= now
      modifies this
      ensures Valid() && clock == now
      ensures forall k :: k != key ==> Look(k) == old(Look(k))
      ensures var n := old(NotesOf(key));
              && (justBanned <==> BansNow(n, now, cfg))
              && NotesOf(key) == n + FailureNote(n, now, cfg)
              && (!justBanned ==> stored == old(stored))
      ensures justBanned ==> OnRecord(Stored(key), NotesOf(key))
    {
      var s := if key in states then states[key] else FRESH;
      var next;
      next, justBanned := Count(s, now);
      assert KeyValid(key);
      FailureKey(Entry(key), Stored(key), NotesOf(key), clock, now, cfg);
      assert AfterFailure(Entry(key), now, cfg) == (next, justBanned);
      if justBanned {
        BanGoesOnRecord(NotesOf(key), next, now, cfg);
      }
      SetKey(key, next, justBanned, now);
    }

    // Stores what a failure made of the key, in memory and, after a ban, in the table.
    method SetKey(key: string, next: State, justBanned: bool, now: Time)
      requires Valid() && clock <= now
      requires Faithful(Some(next), NotesOf(key) + FailureNote(NotesOf(key), now, cfg), now, cfg)
      requires Coupled(if justBanned then Some(StoredBan(next.banCount, Truncated(next.expiry), WholeSeconds(now)))
                       else Stored(key), NotesOf(key) + FailureNote(NotesOf(key), now, cfg), now)
      modifies this
      ensures Valid() && clock == now
      ensures forall k :: k != key ==> Look(k) == old(Look(k))
      ensures NotesOf(key) == old(NotesOf(key)) + FailureNote(old(NotesOf(key)), now, cfg)
      ensures justBanned ==>
                Stored(key) == Some(StoredBan(next.banCount, Truncated(next.expiry), WholeSeconds(now)))
      ensures !justBanned ==> stored == old(stored)
    {
      clock := now;
      notes := Noting(notes, key, FailureNote(NotesOf(key), now, cfg));
      states := states[key := next];
      if justBanned {
        stored := stored[key := StoredBan(next.banCount, Truncated(next.expiry), WholeSeconds(now))];
      }
      OthersStayValid(key);
    }

    // The part of RecordFailure that changes the state in place.
    method Count(s: State, now: Time) returns (next: State, justBanned: bool)
      requires cfg.banDurs != []
      ensures (next, justBanned) == AfterFailure(Some(s), now, cfg)
    {
      if Active(s.expiry, now) {
        return s, false;
      }
      var valid := Prune(s.failures, now - cfg.window);
      valid := valid + [now];
      if |valid| < cfg.maxFails {
        return s.(failures := valid), false;
      }
      var dur := BanDur(cfg, s.banCount);
      next := State([], if dur == 0 then Forever else Until(now + dur), s.banCount + 1, now);
      justBanned := true;
    }

    // Only time passed.
    twostate lemma StayValid()
      requires old(Valid()) && old(clock) <= clock
      requires forall k :: Look(k) == old(Look(k))
      ensures Valid()
    {
      forall k ensures KeyValid(k) {
        assert Look(k) == old(Look(k)) && old(KeyValid(k));
        LaterRefines(Entry(k), NotesOf(k), old(clock), clock, cfg);
      }
    }

    // The loop over the recorded failures.
    method Prune(failures: seq<Time>, cutoff: Time) returns (valid: seq<Time>)
      ensures valid == Recent(failures, cutoff)
    {
      valid := [];
      for i := 0 to |failures|
        invariant valid == Recent(failures[..i], cutoff)
      {
        assert failures[..i + 1] == failures[..i] + [failures[i]];
        RecentAppend(failures[..i], failures[i], cutoff);
        if failures[i] > cutoff {
          valid := valid + [failures[i]];
        }
      }
      assert failures[..|failures|] == failures;
    }

    /** Banned exactly while the ban in force runs.  Noticing an expired one resets the
        failures counted since. */
    method IsBanned(ip: string, now: Time) returns (banned: bool, remaining: int)
      requires Valid() && clock <= now
      modifies this
      ensures Valid() && clock == now
      ensures forall k :: k != banKey(ip) || isTrusted(ip) ==> Look(k) == old(Look(k))
      ensures stored == old(stored)
      ensures isTrusted(ip) ==> !banned && remaining == 0
      ensures !isTrusted(ip) ==>
                var n := old(NotesOf(banKey(ip)));
                var e := BanInForce(n);
                && (banned <==> e.Forever? || (e.Until? && now < e.at))
                && remaining == (if e.Forever? then -1 else if banned then e.at - now else 0)
                && NotesOf(banKey(ip)) == if !BanInForce(n).NotBanned? && !banned then n + [Lapsed] else n
    {
      clock := now;
      if isTrusted(ip) {
        StayValid();
        return false, 0;
      }
      var key := banKey(ip);
      assert old(KeyValid(key));
      if key !in states || states[key].expiry.NotBanned? {
        StayValid();
        return false, 0;
      }
      var s := states[key];
      if s.expiry.Forever? {
        StayValid();
        return true, -1;
      }
      remaining := s.expiry.at - now;
      if remaining <= 0 {
        CheckRefines(old(Entry(key)), old(NotesOf(key)), old(clock), now, cfg);
        QuietNoteCoupled(old(Stored(key)), old(NotesOf(key)), Lapsed, old(clock), now);
        states := states[key := s.(expiry := NotBanned, failures := [])];
        notes := Noting(notes, key, [Lapsed]);
        OthersStayValid(key);
        return false, 0;
      }
      StayValid();
      return true, remaining;
    }

    /** After a successful login the failures no longer count; the escalation stays. */
    method ClearFailures(ip: string)
      requires Valid()
      modifies this
      ensures Valid() && clock == old(clock) && stored == old(stored)
      ensures forall k :: k != banKey(ip) ==> Look(k) == old(Look(k))
      ensures NotesOf(banKey(ip)) == old(NotesOf(banKey(ip))) + [Cleared]
    {
      var key := banKey(ip);
      assert old(KeyValid(key));
      ClearRefines(Entry(key), NotesOf(key), clock, cfg);
      QuietNoteCoupled(Stored(key), NotesOf(key), Cleared, clock, clock);
      if key in states {
        states := states[key := states[key].(failures := [])];
      }
      notes := Noting(notes, key, [Cleared]);
      OthersStayValid(key);
    }

    /** Lifts the ban of the address as given and of its key, in memory and in the store. */
    method UnbanIP(ip: string)
      requires Valid()
      modifies this
      ensures Valid() && clock == old(clock)
      ensures forall k :: k != ip && k != banKey(ip) ==> Look(k) == old(Look(k))
      ensures forall k :: k == ip || k == banKey(ip) ==> Look(k) == (None, None, old(NotesOf(k)) + [Lifted])
    {
      var keys := if banKey(ip) != ip then [ip, banKey(ip)] else [ip];
      for i := 0 to |keys|
        invariant Valid() && clock == old(clock)
        invariant forall k :: k !in keys[..i] ==> Look(k) == old(Look(k))
        invariant forall k :: k in keys[..i] ==> Look(k) == (None, None, old(NotesOf(k)) + [Lifted])
      {
        assert keys[i] !in keys[..i] && keys[..i + 1] == keys[..i] + [keys[i]];
        assert Look(keys[i]) == old(Look(keys[i]));
        UnbanKey(keys[i]);
      }
      assert keys[..|keys|] == keys && keys[0] == ip && banKey(ip) in keys;
    }

    method UnbanKey(key: string)
      requires Valid()
      modifies this
      ensures Valid() && clock == old(clock)
      ensures forall k :: k != key ==> Look(k) == old(Look(k))
      ensures Look(key) == (None, None, old(NotesOf(key)) + [Lifted])
    {
      LiftRefines(NotesOf(key), clock, cfg);
      states := states - {key};
      stored := stored - {key};
      notes := Noting(notes, key, [Lifted]);
      OthersStayValid(key);
    }

    /** The hourly cleanup: no history changes, so nothing any method answers does. */
    method CleanupAt(now: Time)
      requires Valid() && clock <= now
      modifies this
      ensures Valid() && clock == now
      ensures forall k :: NotesOf(k) == old(NotesOf(k)) && Stored(k) == old(Stored(k))
      ensures forall k :: Entry(k) == AfterSweep(old(Entry(k)), now, cfg)
      ensures forall k :: k in states <==> k in old(states) && InUse(old(states)[k], now, cfg.window)
    {
      var todo := states.Keys;
      while todo != {}
        invariant todo <= old(states.Keys)
        invariant stored == old(stored) && notes == old(notes) && clock == old(clock)
        invariant forall k :: Entry(k) == if k in todo then old(Entry(k)) else AfterSweep(old(Entry(k)), now, cfg)
        decreases todo
      {
        var ip :| ip in todo;
        assert Entry(ip) == old(Entry(ip));
        var s := states[ip];
        if !Active(s.expiry, now) {
          var hasRecent := AnyAfter(s.failures, now - cfg.window);
          if !hasRecent && s.banCount == 0 {
            states := states - {ip};
          } else if !hasRecent {
            states := states[ip := s.(failures := [])];
          }
        }
        todo := todo - {ip};
      }
      clock := now;
      forall k ensures k in states <==> k in old(states) && InUse(old(states)[k], now, cfg.window) {
        assert Entry(k) == AfterSweep(old(Entry(k)), now, cfg);
        if k in old(states) { RecentCounts(old(states)[k].failures, now - cfg.window); }
      }
      forall k ensures KeyValid(k) {
        assert old(KeyValid(k));
        SweepRefines(old(Entry(k)), NotesOf(k), old(clock), now, cfg);
      }
    }

    method AnyAfter(failures: seq<Time>, cutoff: Time) returns (found: bool)
      ensures found <==> Recent(failures, cutoff) != []
    {
      for i := 0 to |failures|
        invariant Recent(failures[..i], cutoff) == []
      {
        assert failures[..i + 1] == failures[..i] + [failures[i]];
        RecentAppend(failures[..i], failures[i], cutoff);
        if failures[i] > cutoff {
          RecentSome(failures, i, cutoff);
          return true;
        }
      }
      assert failures[..|failures|] == failures;
      found := false;
    }

    /** Exactly the keys whose ban in force has not passed, with count and expiry. */
    method ListBanned(now: Time) returns (out: map<string, State>)
      requires Valid() && clock <= now
      ensures forall k :: k in out <==> var e := BanInForce(NotesOf(k)); e.Forever? || (e.Until? && now <= e.at)
      ensures forall k <- out :: out[k].banCount == BansSinceLift(NotesOf(k)) && out[k].expiry == BanInForce(NotesOf(k))
      ensures forall k <- out :: out[k].bannedAt == BanStart(NotesOf(k))
    {
      assert forall k :: KeyValid(k);
      out := map[];
      var todo := states.Keys;
      while todo != {}
        invariant todo <= states.Keys
        invariant forall k :: k in out <==> k in states && k !in todo && Listed(states[k].expiry, now)
        invariant forall k <- out :: k in states && out[k] == states[k].(failures := [])
        decreases todo
      {
        var ip :| ip in todo;
        var s := states[ip];
        if !s.expiry.NotBanned? && (s.expiry.Forever? || now <= s.expiry.at) {
          out := out[ip := s.(failures := [])];
        }
        todo := todo - {ip};
      }
      forall k ensures Listed(BanInForce(NotesOf(k)), now) <==> k in states && Listed(states[k].expiry, now) {
        assert KeyValid(k);
      }
      forall k | k in out
        ensures out[k].banCount == BansSinceLift(NotesOf(k)) && out[k].expiry == BanInForce(NotesOf(k))
        ensures out[k].bannedAt == BanStart(NotesOf(k))
      {
        assert KeyValid(k);
      }
    }

    /** The process ends, and a new Banhammer loads what the store holds. */
    method Restart(now: Time)
      requires Valid() && clock <= now
      modifies this
      ensures Valid() && clock == now && stored == old(stored)
      ensures forall k :: NotesOf(k) == old(NotesOf(k)) + [Restarted(now)]
      ensures forall k :: BansSinceLift(NotesOf(k)) == BansSinceLift(old(NotesOf(k)))
    {
      states := map[];
      var rows := stored.Keys;
      while rows != {}
        invariant rows <= stored.Keys
        invariant stored == old(stored) && notes == old(notes) && clock == old(clock)
        invariant forall k :: Entry(k) == if k in stored && k !in rows then Some(Reloaded(stored[k], now)) else None
        decreases rows
      {
        var ip :| ip in rows;
        var ban := stored[ip];
        var expiry := if Active(ban.expiry, now) then ban.expiry else NotBanned;
        states := states[ip := State([], expiry, ban.banCount, ban.bannedAt)];
        rows := rows - {ip};
      }
      clock := now;
      ghost var before := notes;
      notes := k => before(k) + [Restarted(now)];
      forall k
        ensures KeyValid(k)
        ensures BansSinceLift(NotesOf(k)) == BansSinceLift(before(k))
      {
        assert old(KeyValid(k)) && old(NotesOf(k)) == before(k);
        Noted(before(k), Restarted(now));
        RestartRefines(Stored(k), before(k), old(clock), now, cfg);
        QuietNoteCoupled(Stored(k), before(k), Restarted(now), old(clock), now);
      }
    }
  }
}
