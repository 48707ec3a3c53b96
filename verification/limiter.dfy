/**
 The fixed-window limiter (internal/ratelimit/ratelimit.go) against the ghost record of
 what it admitted: at most max per window, at most twice that in any interval as long
 as a window, whenever the cleanup runs.
 */
module RateLimiter {
  import opened Wrappers

  type Time = int

  datatype Bucket = Bucket(count: nat, reset: Time)

  // allow: the bucket afterwards and the answer.
  function AfterAllow(b: Option<Bucket>, now: Time, max: int, window: int): (Bucket, bool) {
    if b.None? || now > b.value.reset then (Bucket(1, now + window), true)
    else (Bucket(b.value.count + 1, b.value.reset), b.value.count + 1 <= max)
  }

  predicate BlockedAt(b: Option<Bucket>, now: Time, max: int) {
    b.Some? && now < b.value.reset && b.value.count >= max
  }

  /** For a positive limit Blocked predicts the refusal of allow at the same instant,
      and they differ only at the instant a full window ends. */
  lemma BlockedPredictsAllow(b: Option<Bucket>, now: Time, max: int, window: int)
    requires max >= 1
    ensures BlockedAt(b, now, max) ==> !AfterAllow(b, now, max, window).1
    ensures (BlockedAt(b, now, max) <==> !AfterAllow(b, now, max, window).1) <==>
            !(b.Some? && now == b.value.reset && b.value.count >= max)
  {
  }

  // ---------------------------------------------------------------- the record

  // How many of the times lie in the closed interval.
  function CountIn(log: seq<Time>, lo: Time, hi: Time): nat {
    if log == [] then 0
    else
      var t := log[|log| - 1];
      CountIn(log[..|log| - 1], lo, hi) + if lo <= t <= hi then 1 else 0
  }

  // A window is open from its start for `window`, both ends included.
  predicate InWindow(starts: seq<Time>, i: int, window: int, t: Time)
  {
    0 <= i < |starts| && starts[i] <= t <= starts[i] + window
  }

  ghost predicate Covered(starts: seq<Time>, window: int, t: Time) {
    exists i :: InWindow(starts, i, window, t)
  }

  // The window that starts at s holds no more than max.
  predicate Fits(log: seq<Time>, s: Time, max: int, window: int) { CountIn(log, s, s + window) <= max }

  // The windows never touch, everything admitted lies in one of them, and none holds
  // more than max.
  ghost predicate Paced(log: seq<Time>, starts: seq<Time>, max: int, window: int) {
    && Separated(starts, window)
    && (forall k :: 0 <= k < |log| ==> Covered(starts, window, log[k]))
    && (forall i :: 0 <= i < |starts| ==> Fits(log, starts[i], max, window))
  }

  // The bucket is the last window of the record, or that window is over.
  ghost predicate Current(b: Option<Bucket>, log: seq<Time>, starts: seq<Time>, max: int, window: int, clock: Time) {
    && (forall k :: 0 <= k < |log| ==> log[k] <= clock)
    && (forall k :: 0 <= k < |starts| ==> starts[k] <= clock)
    && match b
       case None => starts == [] || starts[|starts| - 1] + window < clock
       case Some(bucket) =>
         && starts != [] && starts[|starts| - 1] + window == bucket.reset
         && CountIn(log, bucket.reset - window, bucket.reset) == if bucket.count <= max then bucket.count else max
  }

  // The last window is still open and full.
  predicate FullWindow(log: seq<Time>, starts: seq<Time>, max: int, window: int, now: Time) {
    starts != [] && var last := starts[|starts| - 1]; now < last + window && CountIn(log, last, last + window) >= max
  }

  lemma CountNext(log: seq<Time>, t: Time, lo: Time, hi: Time)
    ensures CountIn(log + [t], lo, hi) == CountIn(log, lo, hi) + if lo <= t <= hi then 1 else 0
  {
    assert (log + [t])[..|log|] == log;
  }

  lemma {:induction false} CountNone(log: seq<Time>, lo: Time, hi: Time)
    requires forall k :: 0 <= k < |log| ==> !(lo <= log[k] <= hi)
    ensures CountIn(log, lo, hi) == 0
  {
    if log == [] {
    } else {
      CountNone(log[..|log| - 1], lo, hi);
    }
  }

  lemma {:induction false} CountCover(log: seq<Time>, lo: Time, hi: Time, a: Time, b: Time, c: Time, d: Time)
    requires forall k :: 0 <= k < |log| && lo <= log[k] <= hi ==> a <= log[k] <= b || c <= log[k] <= d
    ensures CountIn(log, lo, hi) <= CountIn(log, a, b) + CountIn(log, c, d)
  {
    if log == [] {
    } else {
      CountCover(log[..|log| - 1], lo, hi, a, b, c, d);
    }
  }

  // An admission of window i lies in the interval.
  predicate Meets(log: seq<Time>, starts: seq<Time>, window: int, lo: Time, hi: Time, i: int, k: int) {
    0 <= k < |log| && lo <= log[k] <= hi && InWindow(starts, i, window, log[k])
  }

  // The earliest window with an admission in the interval.
  lemma {:induction false} EarliestWindow(log: seq<Time>, starts: seq<Time>, window: int, lo: Time, hi: Time, j: nat,
      m: nat)
    returns (i: nat, k: nat)
    requires Meets(log, starts, window, lo, hi, j, m)
    ensures Meets(log, starts, window, lo, hi, i, k)
    ensures forall i', k' :: Meets(log, starts, window, lo, hi, i', k') ==> i <= i'
    decreases j
  {
    if i', k' :| Meets(log, starts, window, lo, hi, i', k') && i' < j {
      i, k := EarliestWindow(log, starts, window, lo, hi, i', k');
    } else {
      i, k := j, m;
    }
  }

  ghost predicate Separated(starts: seq<Time>, window: int) {
    forall i, j :: 0 <= i < j < |starts| ==> starts[i] + window < starts[j]
  }

  // Two admissions at most a window apart lie in the same or in neighbouring windows.
  lemma Neighbours(starts: seq<Time>, window: int, i: int, t: Time, k: int, u: Time)
    requires Separated(starts, window)
    requires window >= 0 && InWindow(starts, i, window, t) && InWindow(starts, k, window, u)
    requires i <= k && u <= t + window
    ensures k <= i + 1
  {
    if i + 1 < |starts| {
      assert starts[i] + window < starts[i + 1];
    }
  }

  // Every admission in the interval lies in the earliest window that has one, or in the next.
  lemma TwoWindows(log: seq<Time>, starts: seq<Time>, window: int, lo: Time, hi: Time, i: int, k: int, next: int,
      n: int)
    requires window >= 0 && hi == lo + window && Separated(starts, window)
    requires Meets(log, starts, window, lo, hi, i, k)
    requires forall i', k' :: Meets(log, starts, window, lo, hi, i', k') ==> i <= i'
    requires next == if i + 1 < |starts| then i + 1 else i
    requires 0 <= n < |log| && lo <= log[n] <= hi && Covered(starts, window, log[n])
    ensures starts[i] <= log[n] <= starts[i] + window || starts[next] <= log[n] <= starts[next] + window
  {
    var w :| InWindow(starts, w, window, log[n]);
    assert Meets(log, starts, window, lo, hi, w, n);
    Neighbours(starts, window, i, log[k], w, log[n]);
  }

  /** No interval as long as a window sees more than twice the limit. */
  lemma AtMostTwiceTheLimit(log: seq<Time>, starts: seq<Time>, max: int, window: int, lo: Time)
    requires max >= 1 && window >= 0 && Paced(log, starts, max, window)
    ensures CountIn(log, lo, lo + window) <= 2 * max
  {
    var hi := lo + window;
    if m :| 0 <= m < |log| && lo <= log[m] <= hi {
      assert Covered(starts, window, log[m]);
      var j :| InWindow(starts, j, window, log[m]);
      var i, k := EarliestWindow(log, starts, window, lo, hi, j, m);
      var next := if i + 1 < |starts| then i + 1 else i;
      forall n | 0 <= n < |log| && lo <= log[n] <= hi
        ensures starts[i] <= log[n] <= starts[i] + window || starts[next] <= log[n] <= starts[next] + window
      {
        TwoWindows(log, starts, window, lo, hi, i, k, next, n);
      }
      assert Fits(log, starts[i], max, window) && Fits(log, starts[next], max, window);
      CountCover(log, lo, hi, starts[i], starts[i] + window, starts[next], starts[next] + window);
    } else {
      CountNone(log, lo, hi);
    }
  }

  // Nothing was admitted yet in a window that starts after all the others ended.
  lemma NothingYet(log: seq<Time>, starts: seq<Time>, window: int, now: Time)
    requires forall k :: 0 <= k < |log| ==> Covered(starts, window, log[k])
    requires forall i :: 0 <= i < |starts| ==> starts[i] + window < now
    ensures CountIn(log, now, now + window) == 0
  {
    forall k | 0 <= k < |log| ensures log[k] < now {
      assert Covered(starts, window, log[k]);
      var i :| InWindow(starts, i, window, log[k]);
    }
    CountNone(log, now, now + window);
  }

  // The windows stay covered when one more time and one more start are recorded.
  lemma StillCovered(log: seq<Time>, starts: seq<Time>, starts': seq<Time>, window: int, now: Time)
    requires forall k :: 0 <= k < |log| ==> Covered(starts, window, log[k])
    requires starts <= starts' && Covered(starts', window, now)
    ensures forall k :: 0 <= k < |log + [now]| ==> Covered(starts', window, (log + [now])[k])
  {
    forall k | 0 <= k < |log + [now]| ensures Covered(starts', window, (log + [now])[k]) {
      if k < |log| {
        assert Covered(starts, window, log[k]);
        var i :| InWindow(starts, i, window, log[k]);
        assert InWindow(starts', i, window, log[k]);
      }
    }
  }

  lemma StillSeparated(starts: seq<Time>, window: int, now: Time)
    requires Separated(starts, window) && window >= 0
    requires starts != [] ==> starts[|starts| - 1] + window < now
    ensures forall i :: 0 <= i < |starts| ==> starts[i] + window < now
    ensures Separated(starts + [now], window)
  {
    forall i | 0 <= i < |starts| ensures starts[i] + window < now {
      assert i < |starts| - 1 ==> starts[i] + window < starts[|starts| - 1];
    }
  }

  // allow opens a new window.
  lemma OpenKeepsPace(log: seq<Time>, starts: seq<Time>, max: int, window: int, now: Time)
    requires max >= 1 && window >= 0 && Paced(log, starts, max, window)
    requires starts != [] ==> starts[|starts| - 1] + window < now
    ensures Paced(log + [now], starts + [now], max, window)
    ensures CountIn(log + [now], now, now + window) == 1
  {
    var log', starts' := log + [now], starts + [now];
    StillSeparated(starts, window, now);
    NothingYet(log, starts, window, now);
    CountNext(log, now, now, now + window);
    assert InWindow(starts', |starts|, window, now);
    StillCovered(log, starts, starts', window, now);
    OthersCount(log, starts, max, window, now);
    assert CountIn(log', now, now + window) == 1;
    OpenedFits(log', starts, max, window, now);
  }

  lemma OpenedFits(log': seq<Time>, starts: seq<Time>, max: int, window: int, now: Time)
    requires max >= 1 && CountIn(log', now, now + window) == 1
    requires forall i :: 0 <= i < |starts| ==> Fits(log', starts[i], max, window)
    ensures forall i :: 0 <= i < |starts + [now]| ==> Fits(log', (starts + [now])[i], max, window)
  {
    assert Fits(log', now, max, window);
  }

  // A time outside a window does not count in it.
  lemma OthersCount(log: seq<Time>, starts: seq<Time>, max: int, window: int, now: Time)
    requires forall i :: 0 <= i < |starts| ==> Fits(log, starts[i], max, window)
    requires forall i :: 0 <= i < |starts| ==> starts[i] + window < now
    ensures forall i :: 0 <= i < |starts| ==> Fits(log + [now], starts[i], max, window)
  {
    forall i | 0 <= i < |starts| ensures Fits(log + [now], starts[i], max, window) {
      assert Fits(log, starts[i], max, window);
      CountNext(log, now, starts[i], starts[i] + window);
    }
  }

  // allow counts in the window that is open.
  lemma CountKeepsPace(log: seq<Time>, starts: seq<Time>, max: int, window: int, now: Time)
    requires window >= 0 && Paced(log, starts, max, window) && starts != []
    requires InWindow(starts, |starts| - 1, window, now)
    requires CountIn(log, starts[|starts| - 1], starts[|starts| - 1] + window) < max
    ensures Paced(log + [now], starts, max, window)
    ensures CountIn(log + [now], starts[|starts| - 1], starts[|starts| - 1] + window) ==
            CountIn(log, starts[|starts| - 1], starts[|starts| - 1] + window) + 1
  {
    CountNext(log, now, starts[|starts| - 1], starts[|starts| - 1] + window);
    forall i | 0 <= i < |starts| ensures Fits(log + [now], starts[i], max, window) {
      assert Fits(log, starts[i], max, window);
      CountNext(log, now, starts[i], starts[i] + window);
      assert i < |starts| - 1 ==> starts[i] + window < starts[|starts| - 1];
    }
    assert Covered(starts, window, now);
    StillCovered(log, starts, starts, window, now);
  }

  // The windows after one call of allow.
  function StartsAfter(b: Option<Bucket>, starts: seq<Time>, now: Time): seq<Time> {
    if b.None? || now > b.value.reset then starts + [now] else starts
  }

  function LogAfter(b: Option<Bucket>, log: seq<Time>, now: Time, max: int, window: int): seq<Time> {
    if AfterAllow(b, now, max, window).1 then log + [now] else log
  }

  lemma CountingKeepsPace(bucket: Bucket, log: seq<Time>, starts: seq<Time>, max: int, window: int, clock: Time,
      now: Time)
    requires window >= 0 && clock <= now <= bucket.reset && bucket.count < max
    requires Paced(log, starts, max, window) && Current(Some(bucket), log, starts, max, window, clock)
    ensures Paced(log + [now], starts, max, window)
    ensures Current(Some(Bucket(bucket.count + 1, bucket.reset)), log + [now], starts, max, window, now)
  {
    assert starts[|starts| - 1] <= clock;
    CountKeepsPace(log, starts, max, window, now);
    CountedIsCurrent(log, starts, max, window, bucket, now);
  }

  lemma RefusalIsCurrent(bucket: Bucket, log: seq<Time>, starts: seq<Time>, max: int, window: int, clock: Time,
      now: Time)
    requires clock <= now && bucket.count >= max && Current(Some(bucket), log, starts, max, window, clock)
    ensures Current(Some(Bucket(bucket.count + 1, bucket.reset)), log, starts, max, window, now)
  {
  }

  /** One call of allow, on the record. */
  lemma AllowKeepsPace(b: Option<Bucket>, log: seq<Time>, starts: seq<Time>, max: int, window: int, clock: Time,
      now: Time)
    requires max >= 1 && window >= 0 && clock <= now
    requires Paced(log, starts, max, window) && Current(b, log, starts, max, window, clock)
    ensures Paced(LogAfter(b, log, now, max, window), StartsAfter(b, starts, now), max, window)
    ensures Current(Some(AfterAllow(b, now, max, window).0), LogAfter(b, log, now, max, window),
                    StartsAfter(b, starts, now), max, window, now)
  {
    if b.None? || now > b.value.reset {
      OpenKeepsPace(log, starts, max, window, now);
      OpenedIsCurrent(log, starts, max, window, now);
    } else if b.value.count < max {
      CountingKeepsPace(b.value, log, starts, max, window, clock, now);
    } else {
      RefusalIsCurrent(b.value, log, starts, max, window, clock, now);
    }
  }

  lemma OpenedIsCurrent(log: seq<Time>, starts: seq<Time>, max: int, window: int, now: Time)
    requires max >= 1 && CountIn(log + [now], now, now + window) == 1
    requires forall k :: 0 <= k < |log| ==> log[k] <= now
    requires forall k :: 0 <= k < |starts| ==> starts[k] <= now
    ensures Current(Some(Bucket(1, now + window)), log + [now], starts + [now], max, window, now)
  {
  }

  lemma CountedIsCurrent(log: seq<Time>, starts: seq<Time>, max: int, window: int, bucket: Bucket, now: Time)
    requires bucket.count < max && starts != [] && starts[|starts| - 1] + window == bucket.reset
    requires CountIn(log + [now], bucket.reset - window, bucket.reset) == bucket.count + 1
    requires forall k :: 0 <= k < |log| ==> log[k] <= now
    requires forall k :: 0 <= k < |starts| ==> starts[k] <= now
    ensures Current(Some(Bucket(bucket.count + 1, bucket.reset)), log + [now], starts, max, window, now)
  {
  }

  lemma LaterStillCurrent(b: Option<Bucket>, log: seq<Time>, starts: seq<Time>, max: int, window: int, clock: Time,
      now: Time)
    requires clock <= now && Current(b, log, starts, max, window, clock)
    ensures Current(b, log, starts, max, window, now)
  {
  }

  class Limiter {
    const max: int
    const window: int
    var buckets: map<string, Bucket>
    ghost var admitted: string -> seq<Time>
    ghost var starts: string -> seq<Time>
    ghost var clock: Time

    function BucketOf(key: string): Option<Bucket>
      reads this
    {
      if key in buckets then Some(buckets[key]) else None
    }

    ghost predicate KeyValid(key: string)
      reads this
    {
      && Paced(admitted(key), starts(key), max, window)
      && Current(BucketOf(key), admitted(key), starts(key), max, window, clock)
    }

    // The bound is promised for a positive limit.
    ghost predicate Valid()
      reads this
    {
      window >= 0 && (max >= 1 ==> forall key :: KeyValid(key))
    }

    constructor (max: int, window: int, ghost now: Time)
      requires window > 0 // time.NewTicker panics otherwise
      ensures Valid() && this.max == max && this.window == window && clock == now
      ensures forall key :: admitted(key) == []
    {
      this.max, this.window, buckets := max, window, map[];
      admitted, starts, clock := _ => [], _ => [], now;
    }

    /** Keeps the record of every key within the limit of each window (Valid).  A first attempt and
        one after the last window opens a new one and is admitted; within a window the first max
        are. */
    method Allow(key: string, now: Time) returns (ok: bool)
      requires Valid() && clock <= now
      modifies this
      ensures Valid() && clock == now
      ensures (BucketOf(key), ok) == (Some(AfterAllow(old(BucketOf(key)), now, max, window).0),
                                      AfterAllow(old(BucketOf(key)), now, max, window).1)
      ensures admitted(key) == LogAfter(old(BucketOf(key)), old(admitted(key)), now, max, window)
      ensures starts(key) == StartsAfter(old(BucketOf(key)), old(starts(key)), now)
      ensures key !in old(buckets) || now > old(buckets)[key].reset ==>
                ok && key in buckets && buckets[key] == Bucket(1, now + window)
      ensures key in old(buckets) && now <= old(buckets)[key].reset ==>
                (ok <==> old(buckets)[key].count < max) && key in buckets
                && buckets[key] == Bucket(old(buckets)[key].count + 1, old(buckets)[key].reset)
      ensures admitted(key) == if ok then old(admitted(key)) + [now] else old(admitted(key))
      ensures forall k :: k != key ==> admitted(k) == old(admitted(k)) && starts(k) == old(starts(k))
      ensures forall k :: k != key ==> BucketOf(k) == old(BucketOf(k))
    {
      ghost var b, wasAdmitted, wasStarts := BucketOf(key), admitted, starts;
      ghost var log', starts' := LogAfter(b, admitted(key), now, max, window), StartsAfter(b, starts(key), now);
      if max >= 1 {
        assert KeyValid(key);
        AllowKeepsPace(b, admitted(key), starts(key), max, window, clock, now);
      }
      ok := Count(key, now);
      admitted := k => if k == key then log' else wasAdmitted(k);
      starts := k => if k == key then starts' else wasStarts(k);
      clock := now;
      if max >= 1 {
        OthersStayValid(key);
      }
    }

    // The part of allow that changes the bucket in place.
    method Count(key: string, now: Time) returns (ok: bool)
      modifies `buckets
      ensures (BucketOf(key), ok) == (Some(AfterAllow(old(BucketOf(key)), now, max, window).0),
                                      AfterAllow(old(BucketOf(key)), now, max, window).1)
      ensures forall k :: k != key ==> BucketOf(k) == old(BucketOf(k))
    {
      if key !in buckets || now > buckets[key].reset {
        buckets := buckets[key := Bucket(1, now + window)];
        return true;
      }
      var bucket := buckets[key];
      bucket := bucket.(count := bucket.count + 1);
      buckets := buckets[key := bucket];
      ok := bucket.count <= max;
    }

    /** Whatever was called before, in whatever order. */
    lemma Bounded(key: string, lo: Time)
      requires Valid() && max >= 1
      ensures CountIn(admitted(key), lo, lo + window) <= 2 * max
    {
      assert KeyValid(key);
      AtMostTwiceTheLimit(admitted(key), starts(key), max, window, lo);
    }

    twostate lemma OthersStayValid(key: string)
      requires old(Valid()) && max >= 1 && old(clock) <= clock
      requires forall k :: k != key ==> BucketOf(k) == old(BucketOf(k))
      requires forall k :: k != key ==> admitted(k) == old(admitted(k)) && starts(k) == old(starts(k))
      requires KeyValid(key)
      ensures forall k :: KeyValid(k)
    {
      forall k ensures KeyValid(k) {
        assert old(KeyValid(k));
        if k != key {
          LaterStillCurrent(BucketOf(k), admitted(k), starts(k), max, window, old(clock), clock);
        }
      }
    }

    /** For a positive limit: blocked exactly while the last window is open and the limit has
        been admitted in it, and then an attempt at this instant would be refused. */
    method Blocked(key: string, now: Time) returns (blocked: bool)
      requires Valid() && clock <= now
      ensures blocked <==> BlockedAt(BucketOf(key), now, max)
      ensures max >= 1 ==> (blocked <==> FullWindow(admitted(key), starts(key), max, window, now))
      ensures max >= 1 && blocked ==> !AfterAllow(BucketOf(key), now, max, window).1
    {
      assert max >= 1 ==> KeyValid(key);
      blocked := key in buckets && now < buckets[key].reset && buckets[key].count >= max;
    }

    /** Drops finished windows; no later call answers differently. */
    method Cleanup(now: Time)
      requires Valid() && clock <= now
      modifies this
      ensures Valid() && clock == now && admitted == old(admitted) && starts == old(starts)
      ensures forall k :: BucketOf(k) == if old(BucketOf(k)).Some? && now > old(BucketOf(k)).value.reset then None
                                         else old(BucketOf(k))
      ensures forall k, later :: now <= later ==>
                                   && AfterAllow(BucketOf(k), later, max, window) ==
                                      AfterAllow(old(BucketOf(k)), later, max, window)
                                   && BlockedAt(BucketOf(k), later, max) == BlockedAt(old(BucketOf(k)), later, max)
    {
      var todo := buckets.Keys;
      while todo != {}
        invariant todo <= old(buckets.Keys)
        invariant admitted == old(admitted) && starts == old(starts) && clock == old(clock)
        invariant forall k :: BucketOf(k) ==
                              if k !in todo && old(BucketOf(k)).Some? && now > old(BucketOf(k)).value.reset
                              then None else old(BucketOf(k))
        decreases todo
      {
        var ip :| ip in todo;
        assert BucketOf(ip) == old(BucketOf(ip));
        if now > buckets[ip].reset {
          buckets := buckets - {ip};
        }
        todo := todo - {ip};
      }
      clock := now;
      if max >= 1 {
        forall k ensures KeyValid(k) {
          assert old(KeyValid(k));
        }
      }
    }
  }
}
