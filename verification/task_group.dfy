/**
 Tracked background work and its shutdown (internal/service/background.go), as interleaved
 steps: every lock region, every Done and every return of the wait is one step, and any
 number of trackers, running units and shutdown callers may be in flight.
 */
module TaskGroups {

  /** Where a caller of shutdown stands: it has closed the group and is waiting, its waiting
      goroutine has seen the counter at zero, or it has returned. */
  datatype Caller = Waiting | Ready | ReturnedNil | ReturnedError

  /** The closed flag, the wait-group counter and the callers of shutdown; the units tracked so
      far and those still running are history. */
  datatype Group = Group(closed: bool, counter: int, callers: map<nat, Caller>, tracked: set<nat>, running: set<nat>)

  datatype Step =
    | Track(unit: nat)     // track, and the first half of goTask
    | Done(unit: nat)
    | Close(caller: nat)   // the lock region of shutdown
    | Wake(caller: nat)    // wg.Wait returns in the caller's goroutine
    | ReturnNil(caller: nat)
    | Expire(caller: nat)  // the caller's context ends

  const EMPTY := Group(false, 0, map[], {}, {})

  function Apply(g: Group, s: Step): Group {
    match s
    case Track(u) =>
      if g.closed || u in g.tracked then g
      else g.(counter := g.counter + 1, tracked := g.tracked + {u}, running := g.running + {u})
    case Done(u) =>
      if u in g.running then g.(counter := g.counter - 1, running := g.running - {u}) else g
    case Close(c) =>
      if c in g.callers then g else g.(closed := true, callers := g.callers[c := Waiting])
    case Wake(c) =>
      if c in g.callers && g.callers[c] == Waiting && g.counter == 0 then g.(callers := g.callers[c := Ready]) else g
    case ReturnNil(c) =>
      if c in g.callers && g.callers[c] == Ready then g.(callers := g.callers[c := ReturnedNil]) else g
    case Expire(c) =>
      if c in g.callers && g.callers[c] in {Waiting, Ready} then g.(callers := g.callers[c := ReturnedError]) else g
  }

  function Run(g: Group, steps: seq<Step>): Group
    decreases |steps|
  {
    if steps == [] then g else Run(Apply(g, steps[0]), steps[1..])
  }

  /** The counter counts the running units, a caller finds the group closed, and one that has
      seen zero finds no unit running ever after. */
  ghost predicate Inv(g: Group) {
    && g.counter == |g.running| && g.running <= g.tracked
    && (g.callers != map[] ==> g.closed)
    && (forall c :: c in g.callers && g.callers[c] in {Ready, ReturnedNil} ==> g.running == {})
  }

  lemma StepKeepsInv(g: Group, s: Step)
    requires Inv(g)
    ensures Inv(Apply(g, s))
    ensures g.closed ==> Apply(g, s).closed && Apply(g, s).tracked == g.tracked && Apply(g, s).running <= g.running
  {
    match s
    case Wake(c) => if g.counter == 0 { assert g.running == {}; }
    case _ =>
  }

  lemma {:induction false} RunKeepsInv(g: Group, steps: seq<Step>)
    requires Inv(g)
    ensures Inv(Run(g, steps))
    ensures g.closed ==>
              Run(g, steps).closed && Run(g, steps).tracked == g.tracked && Run(g, steps).running <= g.running
    decreases |steps|
  {
    if steps == [] {
    } else {
      StepKeepsInv(g, steps[0]);
      RunKeepsInv(Apply(g, steps[0]), steps[1..]);
    }
  }

  /** Once one call of shutdown has returned nil, every unit ever tracked has finished, and
      whatever happens later no unit is tracked any more. */
  lemma NilMeansAllFinished(before: seq<Step>, c: nat, later: seq<Step>)
    requires var g := Run(EMPTY, before); c in g.callers && g.callers[c] == ReturnedNil
    ensures var g := Run(EMPTY, before);
            g.running == {} && Run(g, later).tracked == g.tracked && Run(g, later).running == {}
  {
    RunKeepsInv(EMPTY, before);
    RunKeepsInv(Run(EMPTY, before), later);
  }

  /** A unit is tracked only while nobody waits, so the counter never rises from zero during
      a wait, as sync.WaitGroup demands, and it never goes below zero. */
  lemma NoAddDuringWait(before: seq<Step>, u: nat)
    ensures var g := Run(EMPTY, before);
            g.counter >= 0 && (Apply(g, Track(u)).counter > g.counter ==> g.callers == map[])
  {
    RunKeepsInv(EMPTY, before);
  }

  /** A unit that is running is waited for: nil is never returned over it, and it takes
      exactly the running units' Done for the wait to end. */
  lemma WaitEndsIff(before: seq<Step>, c: nat)
    requires var g := Run(EMPTY, before); c in g.callers && g.callers[c] == Waiting
    ensures var g := Run(EMPTY, before); Apply(g, Wake(c)).callers[c] == Ready <==> g.running == {}
  {
    RunKeepsInv(EMPTY, before);
  }

  lemma {:induction false} RunAppends(g: Group, first: seq<Step>, second: seq<Step>)
    ensures Run(g, first + second) == Run(Run(g, first), second)
    decreases |first|
  {
    if first == [] {
      assert first + second == second;
    } else {
      assert (first + second)[1..] == first[1..] + second;
      RunAppends(Apply(g, first[0]), first[1..], second);
    }
  }

  lemma RunOne(g: Group, s: Step)
    ensures Run(g, [s]) == Apply(g, s)
  {
    assert Run(g, [s]) == Run(Apply(g, s), [s][1..]);
    assert [s][1..] == [];
  }

  // The units end one after the other.
  function Ends(units: seq<nat>): seq<Step> { seq(|units|, i requires 0 <= i < |units| => Done(units[i])) }

  lemma {:induction false} EndsFinish(g: Group, units: seq<nat>)
    requires Inv(g) && forall u :: u in g.running ==> u in units
    ensures Inv(Run(g, Ends(units))) && Run(g, Ends(units)).running == {}
    ensures Run(g, Ends(units)).callers == g.callers
    decreases |units|
  {
    if units == [] {
    } else {
      var next := Apply(g, Done(units[0]));
      StepKeepsInv(g, Done(units[0]));
      assert Ends(units)[1..] == Ends(units[1..]);
      forall u | u in next.running ensures u in units[1..] {
        assert u in units && u != units[0];
      }
      EndsFinish(next, units[1..]);
    }
  }

  lemma WakeReturns(g: Group, c: nat)
    requires c in g.callers && g.callers[c] == Waiting && g.counter == 0
    ensures Run(g, [Wake(c), ReturnNil(c)]) == g.(callers := g.callers[c := ReturnedNil])
  {
    var woken := Apply(g, Wake(c));
    assert [Wake(c), ReturnNil(c)][1..] == [ReturnNil(c)];
    RunOne(woken, ReturnNil(c));
    assert g.callers[c := Ready][c := ReturnedNil] == g.callers[c := ReturnedNil];
  }

  // A caller of a group whose units end.
  lemma CloseReturns(g: Group, c: nat, units: seq<nat>)
    requires Inv(g) && c !in g.callers && forall u :: u in g.running ==> u in units
    ensures var n := Run(Run(Apply(g, Close(c)), Ends(units)), [Wake(c), ReturnNil(c)]);
            c in n.callers && n.callers[c] == ReturnedNil && n.closed && n.running == {} && n.counter == 0
  {
    var closed := Apply(g, Close(c));
    StepKeepsInv(g, Close(c));
    EndsFinish(closed, units);
    RunKeepsInv(closed, Ends(units));
    WakeReturns(Run(closed, Ends(units)), c);
  }

  /** After any history a call of shutdown returns nil when the units that run then end, in
      whatever order, and its context does not end before. */
  lemma ShutdownReturnsNil(before: seq<Step>, c: nat, units: seq<nat>)
    requires c !in Run(EMPTY, before).callers && forall u :: u in Run(EMPTY, before).running ==> u in units
    ensures var n := Run(Run(EMPTY, before), [Close(c)] + Ends(units) + [Wake(c), ReturnNil(c)]);
            c in n.callers && n.callers[c] == ReturnedNil && n.closed && n.running == {} && n.counter == 0
  {
    var g := Run(EMPTY, before);
    RunKeepsInv(EMPTY, before);
    CloseReturns(g, c, units);
    RunOne(g, Close(c));
    RunAppends(g, [Close(c)], Ends(units));
    RunAppends(g, [Close(c)] + Ends(units), [Wake(c), ReturnNil(c)]);
  }

  class TaskGroup {
    var closed: bool
    var counter: int
    var cancelled: bool
    ghost var g: Group

    ghost predicate Valid()
      reads this
    {
      Inv(g) && g.closed == closed && g.counter == counter
    }

    constructor ()
      ensures Valid() && g == EMPTY && !cancelled
    {
      closed, counter, cancelled, g := false, 0, false, EMPTY;
    }

    /** track: false once shutdown started. */
    method Track(ghost unit: nat) returns (ok: bool)
      requires Valid() && unit !in g.tracked
      modifies this
      ensures Valid() && g == Apply(old(g), Step.Track(unit)) && cancelled == old(cancelled)
      ensures ok <==> unit in g.running
      ensures ok <==> !old(closed)
      ensures g.running == if ok then old(g).running + {unit} else old(g).running
    {
      StepKeepsInv(g, Step.Track(unit));
      g := Apply(g, Step.Track(unit));
      if closed {
        return false;
      }
      counter := counter + 1;
      ok := true;
    }

    /** The function that track hands out; it is called once. */
    method Done(ghost unit: nat)
      requires Valid() && unit in g.running
      modifies this
      ensures Valid() && g == Apply(old(g), Step.Done(unit)) && cancelled == old(cancelled)
      ensures g == old(g).(running := old(g).running - {unit}, counter := old(counter) - 1)
    {
      StepKeepsInv(g, Step.Done(unit));
      g := Apply(g, Step.Done(unit));
      counter := counter - 1;
    }

    /** shutdown up to its wait. */
    method Close(ghost caller: nat)
      requires Valid() && caller !in g.callers
      modifies this
      ensures Valid() && g == Apply(old(g), Step.Close(caller)) && closed && cancelled
      ensures g == old(g).(closed := true, callers := old(g).callers[caller := Waiting])
    {
      StepKeepsInv(g, Step.Close(caller));
      g := Apply(g, Step.Close(caller));
      closed := true;
      cancelled := true;
    }

    /** The select of shutdown, looked at once.  With the context ended and every unit finished
        it may take either branch (late), but it never returns nil over a running unit. */
    method Poll(ghost caller: nat, expired: bool, late: bool) returns (returned: bool, nilError: bool)
      requires Valid() && caller in g.callers && g.callers[caller] == Waiting
      modifies this
      ensures Valid() && closed == old(closed) && cancelled == old(cancelled)
      ensures var stands := if nilError then ReturnedNil else if returned then ReturnedError else Waiting;
              g == old(g).(callers := old(g).callers[caller := stands])
      ensures returned <==> g.running == {} || expired
      ensures nilError <==> g.running == {} && !(expired && late)
    {
      ghost var wake, back, expire := Wake(caller), ReturnNil(caller), Expire(caller);
      if counter == 0 && !(expired && late) {
        StepKeepsInv(g, wake);
        StepKeepsInv(Apply(g, wake), back);
        g := Apply(Apply(g, wake), back);
        return true, true;
      }
      if expired {
        StepKeepsInv(g, expire);
        g := Apply(g, expire);
      } else {
        assert g.callers[caller := Waiting] == g.callers;
      }
      return expired, false;
    }
  }
}
