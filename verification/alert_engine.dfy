/**
 Which sync an evaluation gets (RunAll and SyncAlertStatesFor in
 internal/service/alertengine.go, with the guard of their callers): the evaluators run one
 after the other, the failures of some do not silence the others, and only an evaluation in
 which all succeeded may resolve anything.
 */
module AlertEngine {
  import opened AlertLife
  import opened AlertTables

  // What one evaluator returned.
  datatype Outcome = Failed | Found(alerts: seq<Alert>)

  // LoadFailed: the shared data could not be read and no evaluator ran.
  datatype RunError = NoError | Partial(failures: nat) | LoadFailed

  predicate AllSucceed(outcomes: seq<Outcome>) { forall i :: 0 <= i < |outcomes| ==> outcomes[i].Found? }

  // Some evaluator that succeeded reports the alert.
  ghost predicate Reported(outcomes: seq<Outcome>, id: string) {
    exists i :: 0 <= i < |outcomes| && outcomes[i].Found? && Mentions(outcomes[i].alerts, id)
  }

  ghost predicate Mentions(alerts: seq<Alert>, id: string) { exists j :: 0 <= j < |alerts| && alerts[j].id == id }

  lemma MentionsBoth(a: seq<Alert>, b: seq<Alert>, id: string)
    ensures Mentions(a + b, id) <==> Mentions(a, id) || Mentions(b, id)
  {
    var all := a + b;
    if Mentions(a, id) {
      var j :| 0 <= j < |a| && a[j].id == id;
      assert all[j].id == id;
    }
    if Mentions(b, id) {
      var j :| 0 <= j < |b| && b[j].id == id;
      assert all[|a| + j].id == id;
    }
    if Mentions(all, id) {
      var j :| 0 <= j < |all| && all[j].id == id;
      assert if j < |a| then a[j].id == id else b[j - |a|].id == id;
    }
  }

  lemma {:induction false} MatchingMeansMentions(alerts: seq<Alert>, id: string)
    ensures Matching(alerts, id) != [] <==> Mentions(alerts, id)
  {
    if alerts == [] {
    } else {
      var front, a := alerts[..|alerts| - 1], alerts[|alerts| - 1];
      MatchingMeansMentions(front, id);
      assert alerts == front + [a];
      MentionsBoth(front, [a], id);
      assert Mentions([a], id) <==> a.id == id by { assert [a][0] == a; }
    }
  }

  // The alerts of the evaluators that succeeded, in order.
  function Collected(outcomes: seq<Outcome>): seq<Alert> {
    if outcomes == [] then []
    else
      var earlier, last := Collected(outcomes[..|outcomes| - 1]), outcomes[|outcomes| - 1];
      if last.Found? then earlier + last.alerts else earlier
  }

  lemma {:induction false} CollectedMeansReported(outcomes: seq<Outcome>, id: string)
    ensures Mentions(Collected(outcomes), id) <==> Reported(outcomes, id)
  {
    if outcomes == [] {
    } else {
      var n := |outcomes| - 1;
      var front := outcomes[..n];
      CollectedMeansReported(front, id);
      if outcomes[n].Found? { MentionsBoth(Collected(front), outcomes[n].alerts, id); }
      if Reported(front, id) {
        var i :| 0 <= i < n && front[i].Found? && Mentions(front[i].alerts, id);
        assert outcomes[i].Found? && Mentions(outcomes[i].alerts, id);
      }
    }
  }

  lemma CollectedNext(outcomes: seq<Outcome>, i: nat)
    requires i < |outcomes|
    ensures Collected(outcomes[..i + 1]) ==
            if outcomes[i].Found? then Collected(outcomes[..i]) + outcomes[i].alerts else Collected(outcomes[..i])
    ensures AllSucceed(outcomes[..i + 1]) <==> AllSucceed(outcomes[..i]) && outcomes[i].Found?
  {
    var more := outcomes[..i + 1];
    assert more[..i] == outcomes[..i] && more[i] == outcomes[i];
    assert forall j :: 0 <= j < i ==> more[j] == outcomes[..i][j];
  }

  /** RunAll: no error exactly when everything succeeded; otherwise whatever the others found
      still comes with it. */
  method RunAll(loaded: bool, outcomes: seq<Outcome>) returns (all: seq<Alert>, error: RunError)
    ensures error.LoadFailed? <==> !loaded
    ensures error.NoError? <==> loaded && AllSucceed(outcomes)
    ensures all == if loaded then Collected(outcomes) else []
  {
    all := [];
    if !loaded {
      return all, LoadFailed;
    }
    var failures := 0;
    for i := 0 to |outcomes|
      invariant all == Collected(outcomes[..i])
      invariant failures == 0 <==> AllSucceed(outcomes[..i])
    {
      CollectedNext(outcomes, i);
      if outcomes[i].Failed? {
        failures := failures + 1;
        continue;
      }
      all := all + outcomes[i].alerts;
    }
    assert outcomes[..|outcomes|] == outcomes;
    error := if failures > 0 then Partial(failures) else NoError;
  }

  /** One evaluation as the dispatcher and the alert pages run it.  When the sync commits, an
      alert that was present is resolved if and only if every evaluator succeeded and none
      reported it, and one that was absent is present if and only if it was reported: what a
      failed evaluator would have said is neither invented nor taken back. */
  method Evaluate(st: AlertStore, loaded: bool, outcomes: seq<Outcome>, now: Time) returns (synced: bool)
    modifies st
    ensures synced <==> loaded && NoConflict(old(st.rows), Collected(outcomes))
    ensures forall id :: synced && old(Present(st.CellOf(id))) ==>
                           (!Present(st.CellOf(id)) <==> AllSucceed(outcomes) && !Reported(outcomes, id))
    ensures forall id :: synced && !old(Present(st.CellOf(id))) ==> (Present(st.CellOf(id)) <==> Reported(outcomes, id))
    ensures !synced ==> forall id :: st.CellOf(id) == old(st.CellOf(id))
  {
    var all, error := RunAll(loaded, outcomes);
    if error.LoadFailed? {
      return false;
    }
    // SyncAlertStatesFor
    synced := st.SyncAlertStates(all, !error.Partial?, now);
    forall id ensures Matching(all, id) != [] <==> Reported(outcomes, id) {
      MatchingMeansMentions(all, id);
      CollectedMeansReported(outcomes, id);
    }
    if synced {
      forall id
        ensures old(Present(st.CellOf(id))) ==> (!Present(st.CellOf(id)) <==> error.NoError? && Matching(all, id) == [])
        ensures !old(Present(st.CellOf(id))) ==> (Present(st.CellOf(id)) <==> Matching(all, id) != [])
      {
        SyncedPresence(old(st.CellOf(id)), st.CellOf(id), Matching(all, id), !error.Partial?, now);
      }
    }
  }

  lemma SyncedPresence(c: Cell, c': Cell, found: seq<Alert>, complete: bool, now: Time)
    requires c' == Apply(c, Sync(found, complete, now)) && !InsertConflict(c, found)
    ensures Present(c) ==> (!Present(c') <==> complete && found == [])
    ensures !Present(c) ==> (Present(c') <==> found != [])
  {
  }
}
