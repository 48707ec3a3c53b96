/**
 One round of the notification dispatcher (internal/service/immediate_notifications.go)
 on the alert tables: select what is due, send it, record it.  What a send returned
 is a parameter.  These methods run without interference; AlertLifeLaws says what
 page syncs between the steps can do to them.
 */
module Dispatch {
  import opened Wrappers
  import opened AlertLife
  import opened AlertLifeLaws
  import opened AlertTables

  const PBS_REPORT_STALE := "pbs_report_stale"
  const PBS_STALE := "pbs_stale"

  // shouldSendImmediateCriticalEmail
  predicate Notifiable(a: Alert) {
    a.facts.severity == CRITICAL && a.kind != PBS_REPORT_STALE && a.kind != PBS_STALE
  }

  predicate Candidate(a: Alert, suppressed: set<string>) { Notifiable(a) && a.id !in suppressed }

  // What the dispatcher is for: critical alerts but for the two kinds that only the daily
  // report mentions.
  predicate Critical(a: Alert) {
    a.facts.severity == "critical" && a.kind != "pbs_report_stale" && a.kind != "pbs_stale"
  }

  // The evaluation asks for a notice of this alert.
  ghost predicate CalledFor(alerts: seq<Alert>, suppressed: set<string>, id: string) {
    exists i :: 0 <= i < |alerts| && alerts[i].id == id && Critical(alerts[i]) && id !in suppressed
  }

  // alertIDs
  method AlertIds(alerts: seq<Alert>) returns (ids: seq<string>)
    ensures forall id :: id in ids <==> exists a :: a in alerts && a.id == id
  {
    ids := [];
    for i := 0 to |alerts|
      invariant forall id :: id in ids <==> exists a :: a in alerts[..i] && a.id == id
    {
      ids := ids + [alerts[i].id];
      forall id ensures id in ids <==> exists a :: a in alerts[..i + 1] && a.id == id {
        if id == alerts[i].id { assert alerts[i] in alerts[..i + 1]; }
        if a :| a in alerts[..i] && a.id == id { assert a in alerts[..i + 1]; }
      }
    }
    assert alerts[..|alerts|] == alerts;
  }

  /** criticalAlertsPending, first half: the candidates in evaluation order. */
  method Candidates(alerts: seq<Alert>, suppressed: set<string>) returns (candidates: seq<Alert>)
    ensures forall a :: a in candidates <==> a in alerts && Candidate(a, suppressed)
  {
    candidates := [];
    for i := 0 to |alerts|
      invariant forall a :: a in candidates <==> a in alerts[..i] && Candidate(a, suppressed)
    {
      if Notifiable(alerts[i]) && alerts[i].id !in suppressed {
        candidates := candidates + [alerts[i]];
      }
    }
    assert alerts[..|alerts|] == alerts;
  }

  /** criticalAlertsPending, second half: those whose notice is not recorded yet. */
  method Unsent(candidates: seq<Alert>, sent: set<string>) returns (selected: seq<Alert>)
    ensures forall a :: a in selected <==> a in candidates && a.id !in sent
  {
    selected := [];
    for i := 0 to |candidates|
      invariant forall a :: a in selected <==> a in candidates[..i] && a.id !in sent
    {
      if candidates[i].id !in sent {
        selected := selected + [candidates[i]];
      }
    }
    assert candidates[..|candidates|] == candidates;
  }

  // The IDs of a query result, in some order.
  method Listed(ids: set<string>) returns (list: seq<string>)
    ensures forall id :: id in list <==> id in ids
  {
    list := [];
    var todo := ids;
    while todo != {}
      invariant todo <= ids
      invariant forall id :: id in list <==> id in ids - todo
      decreases todo
    {
      var id :| id in todo;
      list := list + [id];
      todo := todo - {id};
    }
  }

  // ---------------------------------------------------------------- what a round does to one alert

  // The channel's sent lookup, as its query answers it.
  predicate SentLookup(c: Cell, ch: Channel) {
    match ch
    case Telegram(d) => d in c.deliveries
    case _ => Present(c) && Marked(c, ch)
  }

  // The channel's pending-resolution query.
  predicate Owes(c: Cell, ch: Channel) {
    match ch
    case Telegram(d) => d in Observe(c).telegramOwed
    case _ => !Present(c) && Pending(c, ch)
  }

  function AfterActive(c: Cell, ch: Channel, wanted: bool, delivered: bool, now: Time): Cell {
    Apply(c, if wanted && delivered && !SentLookup(c, ch) then MarkSent(ch, now) else Idle)
  }

  function AfterResolutions(c: Cell, ch: Channel, told: bool, now: Time): Cell {
    Apply(c, if told && Owes(c, ch) then MarkResolutionSent(ch, now) else Idle)
  }

  // One undisturbed round of a channel: `delivered` and `told` say whether the
  // messages about active and about resolved alerts went out.
  function AfterRound(c: Cell, ch: Channel, wanted: bool, delivered: bool, told: bool, now: Time): Cell {
    AfterResolutions(AfterActive(c, ch, wanted, delivered, now), ch, told, now)
  }

  /** A delivered round drains its channel and disturbs no other: nothing present and
      wanted stays unrecorded, no resolution stays owed, presence and every other
      channel are as before; a round in which nothing went out changes nothing. */
  lemma RoundDrains(c: Cell, ch: Channel, wanted: bool, delivered: bool, told: bool, now: Time)
    requires Ledger(c)
    ensures var after := AfterRound(c, ch, wanted, delivered, told, now);
            && (wanted && delivered && Present(c) ==> SentLookup(after, ch))
            && (told ==> !Owes(after, ch))
            && (Present(after) <==> Present(c))
            && (!delivered && !told ==> after == c)
            && (!wanted || !delivered ==> (SentLookup(after, ch) <==> SentLookup(c, ch)))
            && (Owes(after, ch) && !Owes(c, ch) ==> wanted && delivered && !Present(c))
            && (!told && Present(c) ==> (Owes(after, ch) <==> Owes(c, ch)))
            && (forall other :: other != ch ==> (SentLookup(after, other) <==> SentLookup(c, other)))
            && (forall other :: other != ch ==> (Owes(after, other) <==> Owes(c, other)))
  {
  }

  /** A round keeps every ledger; the email one too when what it announces is present. */
  lemma RoundKeepsLedgers(c: Cell, ch: Channel, wanted: bool, delivered: bool, told: bool, now: Time)
    requires Ledger(c) && ChannelLedger(c, Push)
    ensures var after := AfterRound(c, ch, wanted, delivered, told, now);
            && Ledger(after) && ChannelLedger(after, Push)
            && (ChannelLedger(c, Email) && (wanted ==> Present(c)) ==> ChannelLedger(after, Email))
  {
    var mark := if wanted && delivered && !SentLookup(c, ch) then MarkSent(ch, now) else Idle;
    var mid := Apply(c, mark);
    var answer := if told && Owes(mid, ch) then MarkResolutionSent(ch, now) else Idle;
    StepKeepsLedger(c, mark);
    StepKeepsPush(c, mark);
    StepKeepsLedger(mid, answer);
    StepKeepsPush(mid, answer);
    if ChannelLedger(c, Email) && (wanted ==> Present(c)) {
      StepKeepsEmail(c, mark);
      StepKeepsEmail(mid, answer);
    }
  }

  // ---------------------------------------------------------------- the rounds

  lemma DueMeans(alerts: seq<Alert>, suppressed: set<string>, candidates: seq<Alert>, sent: set<string>,
                 selected: seq<Alert>, id: string)
    requires forall a :: a in candidates <==> a in alerts && Candidate(a, suppressed)
    requires forall a :: a in selected <==> a in candidates && a.id !in sent
    ensures (exists a :: a in candidates && a.id == id) <==> CalledFor(alerts, suppressed, id)
    ensures (exists a :: a in selected && a.id == id) <==> CalledFor(alerts, suppressed, id) && id !in sent
  {
    if CalledFor(alerts, suppressed, id) {
      var i :| 0 <= i < |alerts| && alerts[i].id == id && Critical(alerts[i]) && id !in suppressed;
      assert alerts[i] in alerts && alerts[i] in candidates;
      assert id !in sent ==> alerts[i] in selected;
    }
    if a :| a in candidates && a.id == id {
      var i :| 0 <= i < |alerts| && alerts[i] == a;
      assert Critical(alerts[i]);
    }
  }

  // The channel has the notice on record: for email and push on a present alert, for Telegram
  // on any.
  predicate Recorded(r: map<string, Row>, d: map<string, map<int, Delivery>>, ch: Channel, id: string) {
    match ch
    case Email => id in r && r[id].present && r[id].emailAt != None
    case Push => id in r && r[id].present && r[id].pushAt != None
    case Telegram(to) => id in d && to in d[id]
  }

  /** criticalAlertsPending with the channel's own sent lookup: due are exactly the
      wanted alerts whose notice the channel has not recorded. */
  method CriticalAlertsPending(st: AlertStore, ch: Channel, alerts: seq<Alert>, suppressed: set<string>)
    returns (due: seq<string>)
    ensures forall id :: id in due <==> CalledFor(alerts, suppressed, id) && !SentLookup(st.CellOf(id), ch)
    ensures forall id :: id in due <==> CalledFor(alerts, suppressed, id) && !Recorded(st.rows, st.deliveries, ch, id)
  {
    var candidates := Candidates(alerts, suppressed);
    var ids := AlertIds(candidates);
    var sent;
    match ch {
      case Email => sent := st.ListCriticalEmailSentAlertIDs(ids);
      case Push => sent := st.ListCriticalPushSentAlertIDs(ids);
      case Telegram(d) => sent := st.ListCriticalTelegramSentAlertIDs(d, ids);
    }
    assert forall id :: id in sent <==> id in ids && SentLookup(st.CellOf(id), ch);
    var selected := Unsent(candidates, sent);
    due := AlertIds(selected);
    forall id ensures id in due <==> CalledFor(alerts, suppressed, id) && !SentLookup(st.CellOf(id), ch) {
      DueMeans(alerts, suppressed, candidates, sent, selected, id);
    }
  }

  /** The push part of sendImmediateCriticalAlerts.  A message nobody received
      (delivered or told false) is not recorded, so it is due again next time. */
  method PushRound(st: AlertStore, alerts: seq<Alert>, suppressed: set<string>, delivered: bool, told: bool, now: Time)
    modifies st
    ensures forall id :: st.CellOf(id) ==
                         AfterRound(old(st.CellOf(id)), Push, CalledFor(alerts, suppressed, id), delivered, told, now)
  {
    var due := CriticalAlertsPending(st, Push, alerts, suppressed);
    if |due| > 0 && delivered {
      st.MarkAlertCriticalPushesSent(due, now);
    }
    assert forall id :: st.CellOf(id) ==
                        AfterActive(old(st.CellOf(id)), Push, CalledFor(alerts, suppressed, id), delivered, now);
    label active:
    var resolved := st.ListPendingAlertResolutionPushes();
    var batch := Listed(resolved);
    assert forall id :: id in batch <==> Owes(st.CellOf(id), Push);
    if |batch| > 0 && told {
      st.MarkAlertResolutionPushesSent(batch, now);
    }
    assert forall id :: st.CellOf(id) == AfterResolutions(old@active(st.CellOf(id)), Push, told, now);
  }

  // Some alert that is called for has no mail on record.
  ghost predicate SomethingDue(r: map<string, Row>, alerts: seq<Alert>, suppressed: set<string>) {
    exists id :: CalledFor(alerts, suppressed, id) && !(id in r && r[id].present && r[id].emailAt != None)
  }

  // Some resolution waits for its mail.
  ghost predicate SomethingOwed(r: map<string, Row>) {
    exists id :: id in r && !r[id].present && r[id].emailPending
  }

  lemma NothingSelected(r: map<string, Row>, d: map<string, map<int, Delivery>>, alerts: seq<Alert>,
                        suppressed: set<string>, due: seq<string>, batch: seq<string>)
    requires forall id :: id in due <==> CalledFor(alerts, suppressed, id) && !Recorded(r, d, Email, id)
    requires forall id :: id in batch <==> Owes(CellIn(r, d, map[], id), Email)
    ensures due == [] <==> !SomethingDue(r, alerts, suppressed)
    ensures batch == [] <==> !SomethingOwed(r)
  {
    forall id ensures id in batch <==> id in r && !r[id].present && r[id].emailPending {
      assert CellIn(r, d, map[], id).row == if id in r then Some(r[id]) else None;
    }
    if due != [] { assert due[0] in due; }
    if batch != [] { assert batch[0] in batch; }
  }

  /** dispatchImmediateEmail.  Unless the batch is due and no backoff is active nothing is sent
      and nothing changes, so all of it stays due.  A digest carries both lists in one
      message; separate messages stop at the first failure, one without alerts is not sent, and
      what failed is not recorded. */
  method EmailRound(st: AlertStore, alerts: seq<Alert>, suppressed: set<string>,
                    batchDue: bool, backoff: bool, digest: bool, activeOk: bool, resolvedOk: bool, now: Time)
    returns (ok: bool, ghost delivered: bool, ghost told: bool)
    modifies st
    ensures !batchDue || backoff ==> ok && !delivered && !told
    ensures batchDue && !backoff ==> delivered == activeOk
    ensures batchDue && !backoff ==>
              told == ok == if digest then activeOk
                            else (activeOk || !SomethingDue(old(st.rows), alerts, suppressed))
                                 && (resolvedOk || !SomethingOwed(old(st.rows)))
    ensures forall id :: st.CellOf(id) ==
                         AfterRound(old(st.CellOf(id)), Email, CalledFor(alerts, suppressed, id), delivered, told, now)
  {
    var due := CriticalAlertsPending(st, Email, alerts, suppressed);
    var resolved := st.ListPendingAlertResolutionEmails();
    var batch := Listed(resolved);
    assert forall id :: id in batch <==> Owes(st.CellOf(id), Email);
    if !batchDue || backoff {
      return true, false, false;
    }
    NothingSelected(st.rows, st.deliveries, alerts, suppressed, due, batch);
    ok, delivered, told := Deliver(st, due, batch, digest, activeOk, resolvedOk, now);
  }

  // The part of dispatchImmediateEmail after its gate.
  method Deliver(st: AlertStore, due: seq<string>, batch: seq<string>, digest: bool, activeOk: bool, resolvedOk: bool,
                 now: Time)
    returns (ok: bool, ghost delivered: bool, ghost told: bool)
    requires forall id :: id in batch <==> Owes(st.CellOf(id), Email)
    modifies st
    ensures delivered == activeOk
    ensures told == ok == if digest then activeOk else (activeOk || due == []) && (resolvedOk || batch == [])
    ensures forall id :: st.CellOf(id) ==
                         AfterResolutions(AfterSent(old(st.CellOf(id)), delivered && id in due, now), Email, told, now)
  {
    ok, delivered, told := true, activeOk, false;
    if digest || |due| > 0 {
      if !activeOk {
        ok := false;
        return;
      }
      st.MarkAlertCriticalEmailsSent(due, now);
    }
    assert forall id :: st.CellOf(id) == AfterSent(old(st.CellOf(id)), delivered && id in due, now);
    label active:
    assert forall id :: id in batch <==> Owes(st.CellOf(id), Email);
    if !digest && |batch| > 0 && !resolvedOk {
      ok := false;
      return;
    }
    told := true;
    if digest || |batch| > 0 {
      st.MarkAlertResolutionEmailsSent(batch, now);
    }
    assert forall id :: st.CellOf(id) == AfterResolutions(old@active(st.CellOf(id)), Email, told, now);
  }

  function AfterSent(c: Cell, sent: bool, now: Time): Cell { Apply(c, if sent then MarkSent(Email, now) else Idle) }

  /** One destination of dispatchTelegram.  recorded is false when an alert of the
      evaluation has lost its row meanwhile and the foreign key refuses the batch. */
  method TelegramRound(st: AlertStore, destination: int, alerts: seq<Alert>, suppressed: set<string>,
                       delivered: bool, told: bool, now: Time) returns (recorded: bool)
    modifies st
    ensures (forall a <- alerts :: a.id in old(st.rows)) && delivered ==> recorded
    ensures forall id :: st.CellOf(id) ==
                         AfterRound(old(st.CellOf(id)), Telegram(destination), CalledFor(alerts, suppressed, id),
                                    recorded, told, now)
  {
    var due := CriticalAlertsPending(st, Telegram(destination), alerts, suppressed);
    recorded := delivered;
    if |due| > 0 && delivered {
      recorded := st.MarkAlertCriticalTelegramsSent(destination, due, now);
    }
    assert forall id :: st.CellOf(id) ==
                        AfterActive(old(st.CellOf(id)), Telegram(destination), CalledFor(alerts, suppressed, id),
                                    recorded, now);
    label active:
    var resolved := st.ListPendingAlertResolutionTelegrams(destination);
    var batch := Listed(resolved);
    assert forall id :: id in batch <==> Owes(st.CellOf(id), Telegram(destination));
    if |batch| > 0 && told {
      st.MarkAlertResolutionTelegramsSent(destination, batch, now);
    }
    assert forall id :: st.CellOf(id) == AfterResolutions(old@active(st.CellOf(id)), Telegram(destination), told, now);
  }
}
