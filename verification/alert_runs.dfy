/**
 Runs of table operations, and what retention changes in them.

 The tables are the cells of all alerts.  An operation is one committed or rolled-back
 transaction over a list of alerts; whether it commits depends on all of them, so a row that
 retention took can matter to other alerts.  `Perform` says that the methods of
 AlertTables.AlertStore are these operations.
 */
module AlertRuns {
  import opened Wrappers
  import opened AlertLife
  import opened AlertLifeLaws
  import opened AlertTables

  type Cells = string -> Cell

  datatype Op =
    | SyncAll(alerts: seq<Alert>, complete: bool, now: Time)
    | MarkBatch(channel: Channel, ids: seq<string>, at: Time)
    | AnswerBatch(channel: Channel, ids: seq<string>, at: Time)
    | Prune(cutoff: Time)

  // A sync is rolled back when it names a new alert twice, a batch of Telegram deliveries when
  // one of its alerts has no row.
  ghost predicate Commits(t: Cells, op: Op) {
    match op
    case SyncAll(alerts, _, _) => forall id :: t(id).row.None? ==> |Matching(alerts, id)| <= 1
    case MarkBatch(ch, ids, _) => ch.Telegram? ==> forall id <- ids :: t(id).row.Some?
    case _ => true
  }

  // What a committed operation is for one alert.
  function StepFor(op: Op, id: string): Step {
    match op
    case SyncAll(alerts, complete, now) => Sync(Matching(alerts, id), complete, now)
    case MarkBatch(ch, ids, at) => StepOn(ids, id, MarkSent(ch, at))
    case AnswerBatch(ch, ids, at) => StepOn(ids, id, MarkResolutionSent(ch, at))
    case Prune(cutoff) => Retain(cutoff)
  }

  ghost function TablesAfter(t: Cells, op: Op): Cells {
    var ok := Commits(t, op);
    id => Apply(t(id), if ok then StepFor(op, id) else Idle)
  }

  ghost function TablesRun(t: Cells, ops: seq<Op>): Cells {
    if ops == [] then t else TablesAfter(TablesRun(t, ops[..|ops| - 1]), ops[|ops| - 1])
  }

  /** The operation, carried out on the tables. */
  method Perform(st: AlertStore, op: Op, ghost t: Cells)
    requires forall id :: st.CellOf(id) == t(id)
    modifies st
    ensures forall id :: st.CellOf(id) == TablesAfter(t, op)(id)
  {
    match op {
      case SyncAll(alerts, complete, now) =>
        assert forall id :: t(id).row.None? <==> id !in st.rows by {
          assert forall id :: t(id) == st.CellOf(id);
        }
        var ok := st.SyncAlertStates(alerts, complete, now);
      case MarkBatch(ch, ids, at) =>
        match ch {
          case Email => st.MarkAlertCriticalEmailsSent(ids, at);
          case Push => st.MarkAlertCriticalPushesSent(ids, at);
          case Telegram(d) =>
            assert forall id :: t(id).row.Some? <==> id in st.rows by {
              assert forall id :: t(id) == st.CellOf(id);
            }
            var ok := st.MarkAlertCriticalTelegramsSent(d, ids, at);
        }
      case AnswerBatch(ch, ids, at) =>
        match ch {
          case Email => st.MarkAlertResolutionEmailsSent(ids, at);
          case Push => st.MarkAlertResolutionPushesSent(ids, at);
          case Telegram(d) => st.MarkAlertResolutionTelegramsSent(d, ids, at);
        }
      case Prune(cutoff) => st.DeleteOldAlertHistory(cutoff);
    }
  }

  lemma TablesRunNext(t: Cells, ops: seq<Op>, n: nat)
    requires n < |ops|
    ensures TablesRun(t, ops[..n + 1]) == TablesAfter(TablesRun(t, ops[..n]), ops[n])
  {
    assert ops[..n + 1][..n] == ops[..n];
  }

  // ---------------------------------------------------------------- twins

  // Every alert is indistinguishable from its twin.
  ghost predicate TablesTwins(kept: Cells, pruned: Cells) { forall id :: Twins(kept(id), pruned(id)) }

  // Equal but for first_seen_at.
  predicate SameButFirstSeen(a: Cell, b: Cell) {
    && a.row.Some? && b.row.Some? && a.deliveries == b.deliveries && a.notes == b.notes
    && a.row.value == b.row.value.(firstSeen := a.row.value.firstSeen)
  }

  lemma {:induction false} UpsertsKeepSame(a: Cell, b: Cell, found: seq<Alert>, now: Time)
    requires SameButFirstSeen(a, b)
    ensures SameButFirstSeen(AfterUpserts(a, found, now), AfterUpserts(b, found, now))
  {
    if found == [] {
    } else {
      UpsertsKeepSame(a, b, found[..|found| - 1], now);
    }
  }

  // One alert through a transaction that commits with and without retention.
  lemma CellTwinsStep(kept: Cell, pruned: Cell, step: Step)
    requires Twins(kept, pruned) && (step.Sync? && pruned.row.None? ==> |step.found| <= 1)
    ensures Twins(Apply(kept, step), Apply(pruned, step)) <==> !StrayMark(kept, pruned, step)
  {
    if Single(step) {
      TwinsStep(kept, pruned, step);
    } else {
      UpsertsKeepSame(kept, pruned, step.found, step.now);
    }
  }

  // What commits without the rows that retention took commits with them.
  lemma CommitsWithMoreRows(kept: Cells, pruned: Cells, op: Op)
    requires TablesTwins(kept, pruned) && Commits(pruned, op)
    ensures Commits(kept, op)
  {
    assert forall id :: Twins(kept(id), pruned(id));
  }

  // An email mark of the batch is for a row that retention took.
  ghost predicate StrayEmail(kept: Cells, pruned: Cells, op: Op) {
    op.MarkBatch? && op.channel.Email? && exists id :: id in op.ids && kept(id).row.Some? && pruned(id).row.None?
  }

  /** The operation commits only thanks to a row that retention took, or marks such a row. */
  ghost predicate Harmed(kept: Cells, pruned: Cells, op: Op) {
    (Commits(kept, op) && !Commits(pruned, op)) || StrayEmail(kept, pruned, op)
  }

  lemma BothCommit(kept: Cells, pruned: Cells, op: Op)
    requires TablesTwins(kept, pruned) && Commits(kept, op) && Commits(pruned, op)
    ensures TablesTwins(TablesAfter(kept, op), TablesAfter(pruned, op)) <==> !StrayEmail(kept, pruned, op)
  {
    var k, p := TablesAfter(kept, op), TablesAfter(pruned, op);
    forall id
      ensures Twins(k(id), p(id)) <==> !StrayMark(kept(id), pruned(id), StepFor(op, id))
      ensures StrayMark(kept(id), pruned(id), StepFor(op, id)) ==> StrayEmail(kept, pruned, op)
    {
      assert Twins(kept(id), pruned(id));
      CellTwinsStep(kept(id), pruned(id), StepFor(op, id));
    }
    if StrayEmail(kept, pruned, op) {
      var id :| id in op.ids && kept(id).row.Some? && pruned(id).row.None?;
      assert StrayMark(kept(id), pruned(id), StepFor(op, id));
      assert !Twins(k(id), p(id));
    }
  }

  // A transaction that is rolled back in one of the tables only leaves a note in the other.
  lemma OneCommits(kept: Cells, pruned: Cells, op: Op)
    requires TablesTwins(kept, pruned) && Commits(kept, op) && !Commits(pruned, op)
    ensures !TablesTwins(TablesAfter(kept, op), TablesAfter(pruned, op))
  {
    var k, p := TablesAfter(kept, op), TablesAfter(pruned, op);
    var id := Blocker(kept, pruned, op);
    assert Twins(kept(id), pruned(id));
    assert p(id) == pruned(id);
    if op.SyncAll? {
      UpsertNotes(kept(id), Matching(op.alerts, id), op.now);
      assert |Appearances(|Matching(op.alerts, id)|)| > 0;
      assert |k(id).notes| > |kept(id).notes|;
    } else {
      assert |k(id).notes| == |kept(id).notes| + 1;
    }
    assert !Twins(k(id), p(id));
  }

  lemma Blocker(kept: Cells, pruned: Cells, op: Op) returns (id: string)
    requires Commits(kept, op) && !Commits(pruned, op)
    ensures kept(id).row.Some? && pruned(id).row.None?
    ensures (op.SyncAll? && |Matching(op.alerts, id)| >= 2) || (op.MarkBatch? && op.channel.Telegram? && id in op.ids)
  {
    match op
    case SyncAll(alerts, _, _) => id :| pruned(id).row.None? && |Matching(alerts, id)| > 1;
    case MarkBatch(_, ids, _) => id :| id in ids && pruned(id).row.None?;
  }

  /** Tables with and without retention stay indistinguishable through an operation, for every
      alert, if and only if the operation does not depend on a row that retention took. */
  lemma TablesTwinsStep(kept: Cells, pruned: Cells, op: Op)
    requires TablesTwins(kept, pruned)
    ensures TablesTwins(TablesAfter(kept, op), TablesAfter(pruned, op)) <==> !Harmed(kept, pruned, op)
  {
    if Commits(pruned, op) {
      CommitsWithMoreRows(kept, pruned, op);
      BothCommit(kept, pruned, op);
    } else if Commits(kept, op) {
      OneCommits(kept, pruned, op);
    } else {
      var k, p := TablesAfter(kept, op), TablesAfter(pruned, op);
      forall id ensures Twins(k(id), p(id)) { assert Twins(kept(id), pruned(id)); }
      assert !StrayEmail(kept, pruned, op);
    }
  }

  // ---------------------------------------------------------------- retention in a run

  ghost predicate Sound(t: Cells) { forall id :: Ledger(t(id)) && ChannelLedger(t(id), Push) }

  // Retention takes no row that carries an email mark.
  ghost predicate TakesNoMark(t: Cells, cutoff: Time) {
    forall id :: !(Prunable(t(id), cutoff) && Marked(t(id), Email))
  }

  // The tables after the first n operations, with and without the retention before them.
  ghost predicate TwinsAt(t: Cells, cutoff: Time, ops: seq<Op>, n: nat)
    requires n <= |ops|
  {
    TablesTwins(TablesRun(t, ops[..n]), TablesRun(TablesAfter(t, Prune(cutoff)), ops[..n]))
  }

  ghost predicate HarmedAt(t: Cells, cutoff: Time, ops: seq<Op>, n: nat)
    requires n < |ops|
  {
    Harmed(TablesRun(t, ops[..n]), TablesRun(TablesAfter(t, Prune(cutoff)), ops[..n]), ops[n])
  }

  lemma TwinsAtStart(t: Cells, cutoff: Time, ops: seq<Op>)
    requires Sound(t)
    ensures TwinsAt(t, cutoff, ops, 0) <==> TakesNoMark(t, cutoff)
  {
    var pruned := TablesAfter(t, Prune(cutoff));
    assert ops[..0] == [];
    forall id ensures Twins(t(id), pruned(id)) <==> !(Prunable(t(id), cutoff) && Marked(t(id), Email)) {
      RetentionTwins(t(id), cutoff);
    }
  }

  lemma TwinsAtNext(t: Cells, cutoff: Time, ops: seq<Op>, n: nat)
    requires n < |ops| && TwinsAt(t, cutoff, ops, n)
    ensures TwinsAt(t, cutoff, ops, n + 1) <==> !HarmedAt(t, cutoff, ops, n)
  {
    var pruned := TablesAfter(t, Prune(cutoff));
    TablesRunNext(t, ops, n);
    TablesRunNext(pruned, ops, n);
    TablesTwinsStep(TablesRun(t, ops[..n]), TablesRun(pruned, ops[..n]), ops[n]);
  }

  lemma {:induction false} TwinsUpTo(t: Cells, cutoff: Time, ops: seq<Op>, n: nat)
    requires Sound(t) && TakesNoMark(t, cutoff) && n <= |ops|
    requires forall m :: 0 <= m < n ==> !HarmedAt(t, cutoff, ops, m)
    ensures TwinsAt(t, cutoff, ops, n)
  {
    if n == 0 {
      TwinsAtStart(t, cutoff, ops);
    } else {
      TwinsUpTo(t, cutoff, ops, n - 1);
      TwinsAtNext(t, cutoff, ops, n - 1);
    }
  }

  /** DeleteOldAlertHistory leaves all alerts indistinguishable all along a run of table
      operations, a deleted one that reappears included, if and only if it takes no row that
      carries an email mark and no operation of the run depends on a row that it took. */
  lemma RetentionIsInvisibleIff(t: Cells, cutoff: Time, ops: seq<Op>)
    requires Sound(t)
    ensures (forall n :: 0 <= n <= |ops| ==> TwinsAt(t, cutoff, ops, n)) <==>
            TakesNoMark(t, cutoff) && forall n :: 0 <= n < |ops| ==> !HarmedAt(t, cutoff, ops, n)
  {
    TwinsAtStart(t, cutoff, ops);
    if TakesNoMark(t, cutoff) {
      if n :| 0 <= n < |ops| && HarmedAt(t, cutoff, ops, n) {
        if TwinsAt(t, cutoff, ops, n) {
          TwinsAtNext(t, cutoff, ops, n);
          assert !TwinsAt(t, cutoff, ops, n + 1);
        }
      } else {
        forall n | 0 <= n <= |ops| ensures TwinsAt(t, cutoff, ops, n) { TwinsUpTo(t, cutoff, ops, n); }
      }
    } else {
      assert !TwinsAt(t, cutoff, ops, 0);
    }
  }

  /** Then the readers of Observe see of every alert what they would have seen without it. */
  lemma RetentionIsInvisible(t: Cells, cutoff: Time, ops: seq<Op>, id: string)
    requires Sound(t) && TakesNoMark(t, cutoff)
    requires forall n :: 0 <= n < |ops| ==> !HarmedAt(t, cutoff, ops, n)
    ensures Observe(TablesRun(t, ops)(id)) == Observe(TablesRun(TablesAfter(t, Prune(cutoff)), ops)(id))
  {
    TwinsUpTo(t, cutoff, ops, |ops|);
    assert ops[..|ops|] == ops;
    TwinsLookAlike(TablesRun(t, ops)(id), TablesRun(TablesAfter(t, Prune(cutoff)), ops)(id));
  }

  /** The harm spreads: when a batch of deliveries is recorded only thanks to a row that
      retention took, it goes unrecorded for every other alert of the batch as well. */
  lemma BatchIsLostForOthers(kept: Cells, pruned: Cells, d: int, ids: seq<string>, at: Time, other: string)
    requires TablesTwins(kept, pruned) && Harmed(kept, pruned, MarkBatch(Telegram(d), ids, at))
    requires other in ids && Present(kept(other)) && d !in kept(other).deliveries
    ensures d in Observe(TablesAfter(kept, MarkBatch(Telegram(d), ids, at))(other)).telegramSent
    ensures d !in Observe(TablesAfter(pruned, MarkBatch(Telegram(d), ids, at))(other)).telegramSent
  {
    assert Twins(kept(other), pruned(other));
  }

  // ---------------------------------------------------------------- the dispatcher's runs

  // The operation does not run before `now`, and deletes nothing as recent as that.
  predicate Since(op: Op, now: Time) {
    match op
    case SyncAll(_, _, t) => t >= now
    case MarkBatch(_, _, at) => at >= now
    case AnswerBatch(_, _, at) => at >= now
    case Prune(cutoff) => cutoff <= now
  }

  // Operation m is a sync that found the alerts, and nothing since deletes as recent rows.
  ghost predicate FoundAt(ops: seq<Op>, m: int, n: int, ids: seq<string>) {
    && 0 <= m < n <= |ops| && ops[m].SyncAll?
    && (forall id <- ids :: Matching(ops[m].alerts, id) != [])
    && (forall j :: m < j < n ==> Since(ops[j], ops[m].now))
  }

  // Syncs name an alert once, and an email or Telegram batch is of alerts that a sync found.
  ghost predicate Orderly(ops: seq<Op>, n: nat)
    requires n < |ops|
  {
    match ops[n]
    case SyncAll(alerts, _, _) => forall id :: |Matching(alerts, id)| <= 1
    case MarkBatch(ch, ids, _) => ch.Push? || exists m :: FoundAt(ops, m, n, ids)
    case _ => true
  }

  predicate RowSince(c: Cell, now: Time) { c.row.Some? && c.row.value.updatedAt >= now }

  // A row touched at or after the cutoff is not taken.
  lemma RowStays(c: Cell, op: Op, id: string, now: Time)
    requires RowSince(c, now) && Since(op, now)
    ensures RowSince(Apply(c, StepFor(op, id)), now)
  {
  }

  lemma {:induction false} FoundRowStays(t: Cells, ops: seq<Op>, m: nat, n: nat, id: string)
    requires m < n <= |ops| && ops[m].SyncAll? && Matching(ops[m].alerts, id) != []
    requires forall j :: m < j < n ==> Since(ops[j], ops[m].now)
    requires Commits(TablesRun(t, ops[..m]), ops[m])
    ensures RowSince(TablesRun(t, ops[..n])(id), ops[m].now)
  {
    TablesRunNext(t, ops, n - 1);
    if n == m + 1 {
    } else {
      FoundRowStays(t, ops, m, n - 1, id);
      RowStays(TablesRun(t, ops[..n - 1])(id), ops[n - 1], id, ops[m].now);
    }
  }

  lemma OrderlyIsUnharmed(t: Cells, cutoff: Time, ops: seq<Op>, n: nat)
    requires n < |ops| && forall j :: 0 <= j <= n ==> Orderly(ops, j)
    ensures !HarmedAt(t, cutoff, ops, n)
  {
    var pruned := TablesAfter(t, Prune(cutoff));
    assert Orderly(ops, n);
    if ops[n].MarkBatch? && !ops[n].channel.Push? {
      var m :| FoundAt(ops, m, n, ops[n].ids);
      assert Orderly(ops, m);
      forall id | id in ops[n].ids ensures TablesRun(t, ops[..n])(id).row.Some?
          && TablesRun(pruned, ops[..n])(id).row.Some? {
        FoundRowStays(t, ops, m, n, id);
        FoundRowStays(pruned, ops, m, n, id);
      }
    }
  }

  /** The dispatcher marks only what a sync has found, and retention deletes nothing as recent
      as that: in such runs only a row that is deleted with an email mark on it can make
      retention visible. */
  lemma OnlyMarkedRowsShow(t: Cells, cutoff: Time, ops: seq<Op>)
    requires Sound(t) && forall n :: 0 <= n < |ops| ==> Orderly(ops, n)
    ensures (forall n :: 0 <= n <= |ops| ==> TwinsAt(t, cutoff, ops, n)) <==> TakesNoMark(t, cutoff)
  {
    forall n | 0 <= n < |ops| ensures !HarmedAt(t, cutoff, ops, n) { OrderlyIsUnharmed(t, cutoff, ops, n); }
    RetentionIsInvisibleIff(t, cutoff, ops);
  }
}
