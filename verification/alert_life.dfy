/**
 The life of one alert, as the tables alert_states and telegram_alert_deliveries
 record it.

 Every statement of internal/store/alert_state.go and of the delivery part of
 internal/store/telegram.go acts on the rows of each alert by themselves, so the state of
 one alert is a `Cell`: its alert_states row (if any), its delivery rows by destination,
 and `notes`, the complete history of what was recorded for it.  `Apply` is what one
 committed statement or transaction does to the cell.  Alerts meet only where a
 transaction over several of them is rolled back: for each of them that step is `Idle`.
 The class AlertTables.AlertStore runs the operations on whole tables and says when they
 are rolled back, and AlertRuns is about runs of table operations.

 The notes are the reference: `Turns`, `SentInEpisode`, `Owed`, `TelegramSent` and
 `TelegramUnanswered` read the history alone and say what the stored flags ought to be.
 */
module AlertLife {
  import opened Wrappers

  type Time = int

  const CRITICAL := "critical"

  // ---------------------------------------------------------------- data

  datatype Facts = Facts(severity: string, title: string, message: string,
                         serverName: string, serverType: string, serverID: int,
                         storeName: string, vmid: int, vmName: string)

  // One alert of an evaluation.
  datatype Alert = Alert(id: string, kind: string, facts: Facts)

  // A row of alert_states.
  datatype Row = Row(present: bool, facts: Facts,
                     emailAt: Option<Time>, pushAt: Option<Time>,
                     emailPending: bool, pushPending: bool,
                     firstSeen: Time, lastSeen: Time, updatedAt: Time)

  // A row of telegram_alert_deliveries; active_sent_at is written by the only insert.
  datatype Delivery = Delivery(activeAt: Time, resolvedAt: Option<Time>)

  datatype Channel = Email | Push | Telegram(destination: int)

  // What is recorded about the alert: the two event types of
  // alert_state_events, and every delivery mark attempted for it.
  datatype Note =
    | Appeared
    | Resolved(severity: string)
    | Sent(channel: Channel)
    | ResolutionSent(channel: Channel)

  datatype Cell = Cell(row: Option<Row>, deliveries: map<int, Delivery>, notes: seq<Note>)

  // One atomic step, as this alert sees it.
  datatype Step =
    | Sync(found: seq<Alert>, complete: bool, now: Time) // found: the evaluation's alerts with this ID
    | MarkSent(channel: Channel, at: Time)
    | MarkResolutionSent(channel: Channel, at: Time)
    | Retain(cutoff: Time)
    | Idle // the statement does not name this alert, or its transaction was rolled back

  const UNBORN := Cell(None, map[], [])

  // ---------------------------------------------------------------- operations

  predicate Present(c: Cell) { c.row.Some? && c.row.value.present }

  function NewRow(a: Alert, now: Time): Row {
    Row(true, a.facts, None, None, false, false, now, now, now)
  }

  // updateAlertState
  function Touch(r: Row, a: Alert, now: Time): Row {
    r.(present := true, facts := a.facts, emailPending := false, pushPending := false,
    lastSeen := now, updatedAt := now)
  }

  // One pass of the upsert loop of syncAlertStates.  `start` is the alert as the rows
  // read before the loop (`existing`) show it; `c` is what the loop has made of it.
  function Upsert(start: Cell, c: Cell, a: Alert, now: Time): (r: Cell)
    requires start.row.Some? ==> c.row.Some?
    ensures Present(r)
  {
    if start.row.None? then
      Cell(Some(NewRow(a, now)), c.deliveries, c.notes + [Appeared])
    else if start.row.value.present then
      Cell(Some(Touch(c.row.value, a, now)), c.deliveries, c.notes)
    else
      Cell(Some(Touch(c.row.value, a, now)), map[], c.notes + [Appeared])
  }

  // The whole loop over the evaluation's alerts with this ID.
  function AfterUpserts(c: Cell, found: seq<Alert>, now: Time): (r: Cell)
    ensures found != [] ==> Present(r)
    ensures found == [] ==> r == c
  {
    if found == [] then c
    else Upsert(c, AfterUpserts(c, found[..|found| - 1], now), found[|found| - 1], now)
  }

  // The UPDATE of the resolve loop of syncAlertStates.
  function Resolve(c: Cell, now: Time): Cell
    requires c.row.Some?
  {
    var r := c.row.value;
    var critical := r.facts.severity == CRITICAL;
    Cell(Some(r.(present := false,
              emailPending := if r.emailAt.Some? && critical then true else r.emailPending,
              pushPending := if r.pushAt.Some? && critical then true else r.pushPending,
              emailAt := None, pushAt := None, updatedAt := now)),
         c.deliveries, c.notes + [Resolved(r.facts.severity)])
  }

  // A second INSERT of the same primary key fails and rolls the sync back.
  predicate InsertConflict(c: Cell, found: seq<Alert>) { c.row.None? && |found| >= 2 }

  function AfterSync(c: Cell, found: seq<Alert>, complete: bool, now: Time): Cell
    requires !InsertConflict(c, found)
  {
    if complete && found == [] && Present(c) then Resolve(c, now) else AfterUpserts(c, found, now)
  }

  function AfterMarkSent(c: Cell, ch: Channel, at: Time): Cell {
    match ch
    case Email =>
      Cell(if c.row.Some? then Some(c.row.value.(emailAt := Some(at), updatedAt := at)) else None,
           c.deliveries, c.notes + [Sent(Email)])
    case Push =>
      Cell(if Present(c) then Some(c.row.value.(pushAt := Some(at), updatedAt := at)) else c.row,
           c.deliveries, c.notes + [Sent(Push)])
    case Telegram(d) =>
      // The foreign key on alert_id refuses a delivery for a missing row.
      if c.row.None? then c
      else Cell(c.row, c.deliveries[d := Delivery(at, None)], c.notes + [Sent(ch)])
  }

  function AfterMarkResolutionSent(c: Cell, ch: Channel, at: Time): Cell {
    var notes := c.notes + [ResolutionSent(ch)];
    match ch
    case Email =>
      Cell(if c.row.Some? then Some(c.row.value.(emailPending := false, updatedAt := at)) else None,
           c.deliveries, notes)
    case Push =>
      Cell(if c.row.Some? && !Present(c) then Some(c.row.value.(pushPending := false, updatedAt := at)) else c.row,
           c.deliveries, notes)
    case Telegram(d) =>
      Cell(c.row,
           if d in c.deliveries then c.deliveries[d := c.deliveries[d].(resolvedAt := Some(at))] else c.deliveries,
           notes)
  }

  // The WHERE clause of the state deletion in DeleteOldAlertHistory.
  predicate Prunable(c: Cell, cutoff: Time) {
    && c.row.Some?
    && !c.row.value.present && !c.row.value.emailPending && !c.row.value.pushPending
    && c.row.value.updatedAt < cutoff
    && forall d <- c.deliveries :: c.deliveries[d].resolvedAt.Some?
  }

  // Deleting the row cascades to its deliveries (migration 044).
  function AfterRetain(c: Cell, cutoff: Time): Cell {
    if Prunable(c, cutoff) then Cell(None, map[], c.notes) else c
  }

  function Apply(c: Cell, step: Step): Cell {
    match step
    case Sync(found, complete, now) =>
      if InsertConflict(c, found) then c else AfterSync(c, found, complete, now)
    case MarkSent(ch, at) => AfterMarkSent(c, ch, at)
    case MarkResolutionSent(ch, at) => AfterMarkResolutionSent(c, ch, at)
    case Retain(cutoff) => AfterRetain(c, cutoff)
    case Idle => c
  }

  function Run(c: Cell, steps: seq<Step>): Cell {
    if steps == [] then c else Apply(Run(c, steps[..|steps| - 1]), steps[|steps| - 1])
  }

  // ---------------------------------------------------------------- what the history says

  predicate IsTurn(n: Note) { n.Appeared? || n.Resolved? }

  // The appeared (true) and resolved (false) events, oldest first.
  function Turns(notes: seq<Note>): seq<bool> {
    if notes == [] then []
    else
      var earlier := Turns(notes[..|notes| - 1]);
      var n := notes[|notes| - 1];
      if IsTurn(n) then earlier + [n.Appeared?] else earlier
  }

  // appeared, resolved, appeared, ...
  ghost predicate Alternates(turns: seq<bool>) {
    forall i :: 0 <= i < |turns| ==> (turns[i] <==> i % 2 == 0)
  }

  // An episode is open when the last event is appeared.
  predicate Open(notes: seq<Note>) {
    var t := Turns(notes);
    t != [] && t[|t| - 1]
  }

  // A notice was recorded as sent during the episode that is still open.
  ghost predicate SentInEpisode(notes: seq<Note>, ch: Channel) { exists i :: SentAt(notes, ch, i) }

  ghost predicate SentAt(notes: seq<Note>, ch: Channel, i: int) {
    && 0 <= i < |notes| && notes[i] == Sent(ch) && Open(notes[..i])
    && forall k :: i < k < |notes| ==> !IsTurn(notes[k])
  }

  // The last episode ended critical after a notice of it was recorded as sent, and
  // no resolution notice was recorded since.
  ghost predicate Owed(notes: seq<Note>, ch: Channel) { exists i :: OwedSince(notes, ch, i) }

  ghost predicate OwedSince(notes: seq<Note>, ch: Channel, i: int) {
    && 0 <= i < |notes| && notes[i] == Resolved(CRITICAL) && SentInEpisode(notes[..i], ch)
    && forall k :: i < k < |notes| ==> !IsTurn(notes[k]) && notes[k] != ResolutionSent(ch)
  }

  // A Telegram notice for d was recorded since the alert last appeared ...
  ghost predicate TelegramSent(notes: seq<Note>, d: int) {
    exists i :: 0 <= i < |notes| && notes[i] == Sent(Telegram(d))
                && forall k :: i < k < |notes| ==> !notes[k].Appeared?
  }

  // ... and no resolution notice for d after it.
  ghost predicate TelegramUnanswered(notes: seq<Note>, d: int) {
    exists i :: 0 <= i < |notes| && notes[i] == Sent(Telegram(d))
                && forall k :: i < k < |notes| ==> !notes[k].Appeared? && notes[k] != ResolutionSent(Telegram(d))
  }

  predicate Marked(c: Cell, ch: Channel)
    requires !ch.Telegram?
  {
    c.row.Some? && (if ch.Email? then c.row.value.emailAt.Some? else c.row.value.pushAt.Some?)
  }

  predicate Pending(c: Cell, ch: Channel)
    requires !ch.Telegram?
  {
    c.row.Some? && (if ch.Email? then c.row.value.emailPending else c.row.value.pushPending)
  }

  // The stored row and deliveries agree with the history.
  ghost predicate Ledger(c: Cell) {
    && Alternates(Turns(c.notes))
    && (Present(c) <==> Open(c.notes))
    && (c.row.None? ==> c.deliveries == map[])
    && (forall d :: (d in c.deliveries && c.deliveries[d].resolvedAt.None?) <==> TelegramUnanswered(c.notes, d))
    && (c.row.Some? ==> forall d :: d in c.deliveries <==> TelegramSent(c.notes, d))
  }

  // The email (or push) marker and pending flag agree with the history.
  ghost predicate ChannelLedger(c: Cell, ch: Channel)
    requires !ch.Telegram?
  {
    && (Marked(c, ch) <==> SentInEpisode(c.notes, ch))
    && (Pending(c, ch) <==> Owed(c.notes, ch))
  }

  // ---------------------------------------------------------------- appending one note

  lemma Appended(notes: seq<Note>, n: Note)
    ensures Turns(notes + [n]) == if IsTurn(n) then Turns(notes) + [n.Appeared?] else Turns(notes)
    ensures Open(notes + [n]) <==> if IsTurn(n) then n.Appeared? else Open(notes)
    ensures Alternates(Turns(notes + [n])) <==>
            Alternates(Turns(notes)) && (n.Appeared? ==> |Turns(notes)| % 2 == 0)
                && (n.Resolved? ==> |Turns(notes)| % 2 == 1)
  {
    var after, t := notes + [n], Turns(notes);
    assert after[..|after| - 1] == notes && after[|after| - 1] == n;
    assert Turns(after) == if IsTurn(n) then t + [n.Appeared?] else t;
    if IsTurn(n) {
      OneMoreTurn(t, n.Appeared?);
    }
  }

  lemma OneMoreTurn(t: seq<bool>, appeared: bool)
    ensures Alternates(t + [appeared]) <==> Alternates(t) && (appeared <==> |t| % 2 == 0)
  {
    var t' := t + [appeared];
    assert t'[|t|] == appeared;
    if Alternates(t') {
      forall i | 0 <= i < |t| ensures t[i] <==> i % 2 == 0 { assert t'[i] == t[i]; }
    }
  }

  lemma OpenMeansOdd(notes: seq<Note>)
    requires Alternates(Turns(notes))
    ensures Open(notes) <==> |Turns(notes)| % 2 == 1
  {
  }

  lemma SentAtAppended(notes: seq<Note>, n: Note, ch: Channel, i: int)
    ensures SentAt(notes + [n], ch, i) <==>
            if i == |notes| then n == Sent(ch) && Open(notes) else SentAt(notes, ch, i) && !IsTurn(n)
  {
    var after := notes + [n];
    assert after[|notes|] == n && forall k :: 0 <= k < |notes| ==> after[k] == notes[k];
    if 0 <= i <= |notes| {
      assert after[..i] == if i == |notes| then notes else notes[..i];
    }
  }

  lemma SentAppended(notes: seq<Note>, n: Note, ch: Channel)
    ensures SentInEpisode(notes + [n], ch) <==>
            !IsTurn(n) && (SentInEpisode(notes, ch) || (n == Sent(ch) && Open(notes)))
  {
    var after := notes + [n];
    if SentInEpisode(after, ch) {
      var i :| SentAt(after, ch, i);
      SentAtAppended(notes, n, ch, i);
    }
    if SentInEpisode(notes, ch) {
      var i :| SentAt(notes, ch, i);
      SentAtAppended(notes, n, ch, i);
    }
    SentAtAppended(notes, n, ch, |notes|);
  }

  lemma OwedSinceAppended(notes: seq<Note>, n: Note, ch: Channel, i: int)
    ensures OwedSince(notes + [n], ch, i) <==>
            if i == |notes| then n == Resolved(CRITICAL) && SentInEpisode(notes, ch)
            else OwedSince(notes, ch, i) && !IsTurn(n) && n != ResolutionSent(ch)
  {
    var after := notes + [n];
    assert after[|notes|] == n && forall k :: 0 <= k < |notes| ==> after[k] == notes[k];
    if 0 <= i <= |notes| {
      assert after[..i] == if i == |notes| then notes else notes[..i];
    }
  }

  lemma OwedAppended(notes: seq<Note>, n: Note, ch: Channel)
    ensures Owed(notes + [n], ch) <==>
            if IsTurn(n) then n == Resolved(CRITICAL) && SentInEpisode(notes, ch)
            else Owed(notes, ch) && n != ResolutionSent(ch)
  {
    var after := notes + [n];
    if Owed(after, ch) {
      var i :| OwedSince(after, ch, i);
      OwedSinceAppended(notes, n, ch, i);
    }
    if Owed(notes, ch) {
      var i :| OwedSince(notes, ch, i);
      OwedSinceAppended(notes, n, ch, i);
    }
    OwedSinceAppended(notes, n, ch, |notes|);
  }

  lemma TelegramAppended(notes: seq<Note>, n: Note, d: int)
    ensures TelegramSent(notes + [n], d) <==>
            n == Sent(Telegram(d)) || (TelegramSent(notes, d) && !n.Appeared?)
    ensures TelegramUnanswered(notes + [n], d) <==>
            n == Sent(Telegram(d)) || (TelegramUnanswered(notes, d) && !n.Appeared? && n != ResolutionSent(Telegram(d)))
  {
    var after := notes + [n];
    assert after[|notes|] == n;
    assert forall k :: 0 <= k < |notes| ==> after[k] == notes[k];
    if TelegramSent(notes, d) && !n.Appeared? {
      var i :| 0 <= i < |notes| && notes[i] == Sent(Telegram(d))
               && forall k :: i < k < |notes| ==> !notes[k].Appeared?;
      assert after[i] == Sent(Telegram(d));
    }
    if TelegramUnanswered(notes, d) && !n.Appeared? && n != ResolutionSent(Telegram(d)) {
      var i :| 0 <= i < |notes| && notes[i] == Sent(Telegram(d))
               && forall k :: i < k < |notes| ==> !notes[k].Appeared? && notes[k] != ResolutionSent(Telegram(d));
      assert after[i] == Sent(Telegram(d));
    }
  }

  lemma SentMeansOpen(notes: seq<Note>, ch: Channel)
    ensures SentInEpisode(notes, ch) ==> Open(notes)
    ensures Owed(notes, ch) ==> !Open(notes)
    decreases |notes|
  {
    if notes != [] {
      var front, n := notes[..|notes| - 1], notes[|notes| - 1];
      assert notes == front + [n];
      SentMeansOpen(front, ch);
      Appended(front, n);
      SentAppended(front, n, ch);
      OwedAppended(front, n, ch);
    }
  }

}
