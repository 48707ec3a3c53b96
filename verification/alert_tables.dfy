/**
 The tables alert_states and telegram_alert_deliveries and the operations of
 internal/store/alert_state.go and internal/store/telegram.go on them.  Each
 method is one committed statement or transaction; its contract says what it does
 to the cell of every alert at once, in terms of AlertLife.Apply.
 */
module AlertTables {
  import opened Wrappers
  import opened AlertLife
  import opened AlertLifeLaws

  // The alerts of an evaluation that carry this ID, in order.
  function Matching(alerts: seq<Alert>, id: string): (found: seq<Alert>)
    ensures forall a <- found :: a.id == id && a in alerts
  {
    if alerts == [] then []
    else
      var earlier := Matching(alerts[..|alerts| - 1], id);
      var a := alerts[|alerts| - 1];
      if a.id == id then earlier + [a] else earlier
  }

  lemma MatchingNext(alerts: seq<Alert>, i: nat, id: string)
    requires i < |alerts|
    ensures Matching(alerts[..i + 1], id) ==
            if alerts[i].id == id then Matching(alerts[..i], id) + [alerts[i]] else Matching(alerts[..i], id)
  {
    assert alerts[..i + 1][..i] == alerts[..i];
  }

  lemma {:induction false} MatchingGrows(alerts: seq<Alert>, i: nat, id: string)
    requires i <= |alerts|
    ensures |Matching(alerts[..i], id)| <= |Matching(alerts, id)|
    decreases |alerts| - i
  {
    if i == |alerts| {
      assert alerts[..i] == alerts;
    } else {
      MatchingNext(alerts, i, id);
      MatchingGrows(alerts, i + 1, id);
    }
  }

  // A transaction that sees the tables r, d and the notes n leaves this cell.
  function CellIn(r: map<string, Row>, d: map<string, map<int, Delivery>>, n: map<string, seq<Note>>, id: string)
    : Cell
  {
    Cell(if id in r then Some(r[id]) else None, if id in d then d[id] else map[], if id in n then n[id] else [])
  }

  function Noted(n: map<string, seq<Note>>, ids: seq<string>, note: Note): map<string, seq<Note>> {
    map id | id in n.Keys + (set x <- ids) ::
      if id in ids then (if id in n then n[id] else []) + [note] else n[id]
  }

  // History, presence, Telegram and push agree for every alert ...
  ghost predicate Faithful(r: map<string, Row>, d: map<string, map<int, Delivery>>, n: map<string, seq<Note>>) {
    forall id :: Ledger(CellIn(r, d, n, id)) && ChannelLedger(CellIn(r, d, n, id), Push)
  }

  // ... and email does.
  ghost predicate EmailFaithful(r: map<string, Row>, d: map<string, map<int, Delivery>>, n: map<string, seq<Note>>) {
    forall id :: ChannelLedger(CellIn(r, d, n, id), Email)
  }

  // ---------------------------------------------------------------- tables before and after

  // A statement names the alerts of a list.
  function StepOn(ids: seq<string>, id: string, step: Step): Step { if id in ids then step else Idle }

  // Every alert took its step: `step` if it is named, none otherwise.
  ghost predicate Stepped(r: map<string, Row>, d: map<string, map<int, Delivery>>, n: map<string, seq<Note>>,
                          r': map<string, Row>, d': map<string, map<int, Delivery>>, n': map<string, seq<Note>>,
                          ids: seq<string>, step: Step)
  {
    forall id :: CellIn(r', d', n', id) == Apply(CellIn(r, d, n, id), StepOn(ids, id, step))
  }

  lemma MarksKeepFaith(r: map<string, Row>, d: map<string, map<int, Delivery>>, n: map<string, seq<Note>>,
                       r': map<string, Row>, d': map<string, map<int, Delivery>>, n': map<string, seq<Note>>,
                       ids: seq<string>, step: Step)
    requires Single(step) && Stepped(r, d, n, r', d', n', ids, step)
    requires Faithful(r, d, n)
    ensures Faithful(r', d', n')
    ensures EmailFaithful(r, d, n) ==>
              (EmailFaithful(r', d', n') <==> forall id <- ids :: !LateMark(CellIn(r, d, n, id), step))
  {
    forall id
      ensures Ledger(CellIn(r', d', n', id)) && ChannelLedger(CellIn(r', d', n', id), Push)
    {
      var c, s := CellIn(r, d, n, id), StepOn(ids, id, step);
      assert CellIn(r', d', n', id) == Apply(c, s);
      StepKeepsLedger(c, s);
      StepKeepsPush(c, s);
    }
    if EmailFaithful(r, d, n) {
      forall id
        ensures ChannelLedger(CellIn(r', d', n', id), Email) <==> !(id in ids && LateMark(CellIn(r, d, n, id), step))
      {
        var c, s := CellIn(r, d, n, id), StepOn(ids, id, step);
        assert CellIn(r', d', n', id) == Apply(c, s);
        StepKeepsEmail(c, s);
      }
    }
  }

  lemma EmailMarks(r: map<string, Row>, d: map<string, map<int, Delivery>>, n: map<string, seq<Note>>,
                   r': map<string, Row>, n': map<string, seq<Note>>, ids: seq<string>, at: Time)
    requires r' == map id | id in r :: if id in ids then r[id].(emailAt := Some(at), updatedAt := at) else r[id]
    requires n' == Noted(n, ids, Sent(Email))
    ensures Stepped(r, d, n, r', d, n', ids, MarkSent(Email, at))
    ensures (forall id <- ids :: !LateMark(CellIn(r, d, n, id), MarkSent(Email, at))) <==>
            (forall id <- ids :: id in r ==> r[id].present)
  {
    forall id ensures CellIn(r', d, n', id) == Apply(CellIn(r, d, n, id), StepOn(ids, id, MarkSent(Email, at))) {
    }
    forall id <- ids ensures LateMark(CellIn(r, d, n, id), MarkSent(Email, at)) <==> id in r && !r[id].present {
    }
  }

  function DeliveriesOf(d: map<string, map<int, Delivery>>, id: string): map<int, Delivery> {
    if id in d then d[id] else map[]
  }

  // The deliveries of the listed alerts are recorded.
  ghost predicate Delivered(d: map<string, map<int, Delivery>>, d': map<string, map<int, Delivery>>,
                            destination: int, ids: seq<string>, at: Time)
  {
    forall id :: DeliveriesOf(d', id) ==
                 if id in ids then DeliveriesOf(d, id)[destination := Delivery(at, None)] else DeliveriesOf(d, id)
  }

  lemma DeliveredNext(d: map<string, map<int, Delivery>>, d': map<string, map<int, Delivery>>,
                      destination: int, ids: seq<string>, id: string, at: Time)
    requires Delivered(d, d', destination, ids, at)
    ensures Delivered(d, d'[id := DeliveriesOf(d', id)[destination := Delivery(at, None)]], destination, ids + [id], at)
  {
    var after := d'[id := DeliveriesOf(d', id)[destination := Delivery(at, None)]];
    forall x
      ensures DeliveriesOf(after, x) ==
              if x in ids + [id] then DeliveriesOf(d, x)[destination := Delivery(at, None)] else DeliveriesOf(d, x)
    {
      assert DeliveriesOf(d', x) ==
             if x in ids then DeliveriesOf(d, x)[destination := Delivery(at, None)] else DeliveriesOf(d, x);
    }
  }

  lemma TelegramMarks(r: map<string, Row>, d: map<string, map<int, Delivery>>, n: map<string, seq<Note>>,
                      d': map<string, map<int, Delivery>>, n': map<string, seq<Note>>,
                      destination: int, ids: seq<string>, at: Time)
    requires Delivered(d, d', destination, ids, at) && n' == Noted(n, ids, Sent(Telegram(destination)))
    requires forall id <- ids :: id in r
    ensures Stepped(r, d, n, r, d', n', ids, MarkSent(Telegram(destination), at))
  {
    forall id
      ensures CellIn(r, d', n', id) == Apply(CellIn(r, d, n, id), StepOn(ids, id, MarkSent(Telegram(destination), at)))
    {
      assert DeliveriesOf(d', id) ==
             if id in ids then DeliveriesOf(d, id)[destination := Delivery(at, None)] else DeliveriesOf(d, id);
    }
  }

  ghost predicate Synced(r: map<string, Row>, d: map<string, map<int, Delivery>>, n: map<string, seq<Note>>,
                         r': map<string, Row>, d': map<string, map<int, Delivery>>, n': map<string, seq<Note>>,
                         alerts: seq<Alert>, complete: bool, now: Time)
  {
    forall id :: CellIn(r', d', n', id) == Apply(CellIn(r, d, n, id), Sync(Matching(alerts, id), complete, now))
  }

  lemma SyncKeepsFaith(r: map<string, Row>, d: map<string, map<int, Delivery>>, n: map<string, seq<Note>>,
                       r': map<string, Row>, d': map<string, map<int, Delivery>>, n': map<string, seq<Note>>,
                       alerts: seq<Alert>, complete: bool, now: Time)
    requires Synced(r, d, n, r', d', n', alerts, complete, now)
    requires Faithful(r, d, n)
    ensures Faithful(r', d', n') <==> forall id :: id in r && !r[id].present ==> |Matching(alerts, id)| <= 1
    ensures EmailFaithful(r, d, n) && Faithful(r', d', n') ==> EmailFaithful(r', d', n')
  {
    forall id
      ensures Ledger(CellIn(r', d', n', id)) <==> (id in r && !r[id].present ==> |Matching(alerts, id)| <= 1)
      ensures Ledger(CellIn(r', d', n', id)) ==> ChannelLedger(CellIn(r', d', n', id), Push)
      ensures Ledger(CellIn(r', d', n', id)) && ChannelLedger(CellIn(r, d, n, id), Email) ==>
                ChannelLedger(CellIn(r', d', n', id), Email)
    {
      assert Ledger(CellIn(r, d, n, id)) && ChannelLedger(CellIn(r, d, n, id), Push);
      SyncKeepsCell(CellIn(r, d, n, id), CellIn(r', d', n', id), Matching(alerts, id), complete, now);
    }
  }

  lemma SyncKeepsCell(c: Cell, c': Cell, found: seq<Alert>, complete: bool, now: Time)
    requires c' == Apply(c, Sync(found, complete, now))
    requires Ledger(c) && ChannelLedger(c, Push)
    ensures Ledger(c') <==> (c.row.Some? && !c.row.value.present ==> |found| <= 1)
    ensures Ledger(c') ==> ChannelLedger(c', Push)
    ensures Ledger(c') && ChannelLedger(c, Email) ==> ChannelLedger(c', Email)
  {
    SyncKeepsLedgerIff(c, found, complete, now);
    if Ledger(c') {
      SyncKeepsFlags(c, found, complete, now, Push);
      if ChannelLedger(c, Email) {
        SyncKeepsFlags(c, found, complete, now, Email);
      }
    }
  }

  lemma Pruned(r: map<string, Row>, d: map<string, map<int, Delivery>>, n: map<string, seq<Note>>,
      prunable: set<string>, cutoff: Time)
    requires forall id :: id in prunable <==> id in r && Prunable(CellIn(r, d, map[], id), cutoff)
    ensures forall id :: CellIn(r - prunable, d - prunable, n, id) == Apply(CellIn(r, d, n, id), Retain(cutoff))
  {
    forall id ensures CellIn(r - prunable, d - prunable, n, id) == Apply(CellIn(r, d, n, id), Retain(cutoff)) {
      assert Prunable(CellIn(r, d, n, id), cutoff) <==> Prunable(CellIn(r, d, map[], id), cutoff);
    }
  }

  // A resolved alert that nothing touched since the cutoff and that waits for no resolution.
  ghost predicate Expendable(r: map<string, Row>, d: map<string, map<int, Delivery>>, id: string, cutoff: Time) {
    && id in r && !r[id].present && !r[id].emailPending && !r[id].pushPending && r[id].updatedAt < cutoff
    && forall to :: to in DeliveriesOf(d, id) ==> DeliveriesOf(d, id)[to].resolvedAt != None
  }

  lemma PrunedAre(r: map<string, Row>, d: map<string, map<int, Delivery>>, prunable: set<string>, cutoff: Time)
    requires forall id :: id in prunable <==> id in r && Prunable(CellIn(r, d, map[], id), cutoff)
    ensures forall id :: id in prunable <==> Expendable(r, d, id, cutoff)
  {
    forall id ensures id in prunable <==> Expendable(r, d, id, cutoff) {
      assert CellIn(r, d, map[], id).deliveries == DeliveriesOf(d, id);
    }
  }

  lemma RetentionKeepsFaith(r: map<string, Row>, d: map<string, map<int, Delivery>>, n: map<string, seq<Note>>,
                            r': map<string, Row>, d': map<string, map<int, Delivery>>, cutoff: Time)
    requires forall id :: CellIn(r', d', n, id) == Apply(CellIn(r, d, n, id), Retain(cutoff))
    requires Faithful(r, d, n)
    ensures Faithful(r', d', n)
    ensures EmailFaithful(r, d, n) ==> EmailFaithful(r', d', n)
  {
    forall id
      ensures Ledger(CellIn(r', d', n, id)) && ChannelLedger(CellIn(r', d', n, id), Push)
      ensures EmailFaithful(r, d, n) ==> ChannelLedger(CellIn(r', d', n, id), Email)
    {
      var c := CellIn(r, d, n, id);
      assert CellIn(r', d', n, id) == Apply(c, Retain(cutoff));
      StepKeepsLedger(c, Retain(cutoff));
      StepKeepsPush(c, Retain(cutoff));
      if EmailFaithful(r, d, n) {
        StepKeepsEmail(c, Retain(cutoff));
      }
    }
  }

  // ---------------------------------------------------------------- inside the sync transaction

  // The upsert loop has gone through `alerts`.
  ghost predicate Upserted(r: map<string, Row>, d: map<string, map<int, Delivery>>, n: map<string, seq<Note>>,
                           r': map<string, Row>, d': map<string, map<int, Delivery>>, n': map<string, seq<Note>>,
                           alerts: seq<Alert>, now: Time)
  {
    forall id :: CellIn(r', d', n', id) == AfterUpserts(CellIn(r, d, n, id), Matching(alerts, id), now)
  }

  ghost predicate NoConflict(r: map<string, Row>, alerts: seq<Alert>) {
    forall id :: id !in r ==> |Matching(alerts, id)| <= 1
  }

  // The resolve loop has dealt with every existing row outside `todo`.
  ghost predicate Swept(r: map<string, Row>, d: map<string, map<int, Delivery>>, n: map<string, seq<Note>>,
                        r': map<string, Row>, d': map<string, map<int, Delivery>>, n': map<string, seq<Note>>,
                        todo: set<string>, alerts: seq<Alert>, complete: bool, now: Time)
    requires NoConflict(r, alerts)
  {
    forall id :: CellIn(r', d', n', id) ==
                 if id in todo then AfterUpserts(CellIn(r, d, n, id), Matching(alerts, id), now)
                 else AfterSync(CellIn(r, d, n, id), Matching(alerts, id), complete, now)
  }

  lemma SecondInsert(r: map<string, Row>, d: map<string, map<int, Delivery>>, n: map<string, seq<Note>>,
                     r': map<string, Row>, d': map<string, map<int, Delivery>>, n': map<string, seq<Note>>,
                     alerts: seq<Alert>, i: nat, now: Time)
    requires i < |alerts| && Upserted(r, d, n, r', d', n', alerts[..i], now)
    requires alerts[i].id !in r && alerts[i].id in r'
    ensures !NoConflict(r, alerts)
  {
    var id := alerts[i].id;
    assert CellIn(r', d', n', id) == AfterUpserts(CellIn(r, d, n, id), Matching(alerts[..i], id), now);
    MatchingNext(alerts, i, id);
    MatchingGrows(alerts, i + 1, id);
  }

  lemma UpsertedRow(r: map<string, Row>, d: map<string, map<int, Delivery>>, n: map<string, seq<Note>>,
                    r': map<string, Row>, d': map<string, map<int, Delivery>>, n': map<string, seq<Note>>,
                    alerts: seq<Alert>, now: Time, id: string)
    requires Upserted(r, d, n, r', d', n', alerts, now)
    requires id in r
    ensures id in r'
  {
    assert CellIn(r', d', n', id) == AfterUpserts(CellIn(r, d, n, id), Matching(alerts, id), now);
  }

  // One pass of the upsert loop on the three tables.
  function UpsertedRows(r: map<string, Row>, r1: map<string, Row>, a: Alert, now: Time): map<string, Row> {
    if a.id !in r then r1[a.id := NewRow(a, now)]
    else if a.id in r1 then r1[a.id := Touch(r1[a.id], a, now)] else r1
  }

  function UpsertedDeliveries(r: map<string, Row>, d1: map<string, map<int, Delivery>>, a: Alert)
    : map<string, map<int, Delivery>>
  {
    if a.id in r && !r[a.id].present then d1 - {a.id} else d1
  }

  function UpsertedNotes(r: map<string, Row>, n1: map<string, seq<Note>>, a: Alert): map<string, seq<Note>> {
    if a.id !in r || !r[a.id].present then n1[a.id := (if a.id in n1 then n1[a.id] else []) + [Appeared]] else n1
  }

  lemma UpsertedCell(r: map<string, Row>, d: map<string, map<int, Delivery>>, n: map<string, seq<Note>>,
                     r1: map<string, Row>, d1: map<string, map<int, Delivery>>, n1: map<string, seq<Note>>,
                     a: Alert, now: Time, id: string)
    requires a.id in r ==> a.id in r1
    ensures CellIn(UpsertedRows(r, r1, a, now), UpsertedDeliveries(r, d1, a), UpsertedNotes(r, n1, a), id) ==
            if id == a.id then Upsert(CellIn(r, d, n, id), CellIn(r1, d1, n1, id), a, now) else CellIn(r1, d1, n1, id)
  {
  }

  lemma OneMoreUpsert(c: Cell, before: seq<Alert>, a: Alert, now: Time)
    ensures AfterUpserts(c, before + [a], now) == Upsert(c, AfterUpserts(c, before, now), a, now)
  {
    var found := before + [a];
    assert found[..|found| - 1] == before && found[|found| - 1] == a;
  }

  lemma UpsertedNextCell(r: map<string, Row>, d: map<string, map<int, Delivery>>, n: map<string, seq<Note>>,
                         r1: map<string, Row>, d1: map<string, map<int, Delivery>>, n1: map<string, seq<Note>>,
                         alerts: seq<Alert>, i: nat, now: Time, id: string)
    requires i < |alerts| && (alerts[i].id in r ==> alerts[i].id in r1)
    requires CellIn(r1, d1, n1, id) == AfterUpserts(CellIn(r, d, n, id), Matching(alerts[..i], id), now)
    ensures CellIn(UpsertedRows(r, r1, alerts[i], now), UpsertedDeliveries(r, d1, alerts[i]),
                   UpsertedNotes(r, n1, alerts[i]), id) ==
            AfterUpserts(CellIn(r, d, n, id), Matching(alerts[..i + 1], id), now)
  {
    UpsertedCell(r, d, n, r1, d1, n1, alerts[i], now, id);
    MatchingNext(alerts, i, id);
    if id == alerts[i].id {
      OneMoreUpsert(CellIn(r, d, n, id), Matching(alerts[..i], id), alerts[i], now);
    }
  }

  // A new ID is met for the first time.
  lemma NoConflictNext(r: map<string, Row>, d: map<string, map<int, Delivery>>, n: map<string, seq<Note>>,
                       r1: map<string, Row>, d1: map<string, map<int, Delivery>>, n1: map<string, seq<Note>>,
                       alerts: seq<Alert>, i: nat, now: Time)
    requires i < |alerts| && Upserted(r, d, n, r1, d1, n1, alerts[..i], now)
    requires NoConflict(r, alerts[..i]) && (alerts[i].id !in r ==> alerts[i].id !in r1)
    ensures NoConflict(r, alerts[..i + 1])
  {
    var a := alerts[i].id;
    if a !in r {
      assert CellIn(r1, d1, n1, a) == AfterUpserts(CellIn(r, d, n, a), Matching(alerts[..i], a), now);
      assert Matching(alerts[..i], a) == [];
    }
    forall id | id !in r ensures |Matching(alerts[..i + 1], id)| <= 1 {
      MatchingNext(alerts, i, id);
    }
  }

  lemma UpsertedNext(r: map<string, Row>, d: map<string, map<int, Delivery>>, n: map<string, seq<Note>>,
                     r1: map<string, Row>, d1: map<string, map<int, Delivery>>, n1: map<string, seq<Note>>,
                     alerts: seq<Alert>, i: nat, now: Time)
    requires i < |alerts| && Upserted(r, d, n, r1, d1, n1, alerts[..i], now)
    requires NoConflict(r, alerts[..i]) && (alerts[i].id !in r ==> alerts[i].id !in r1)
    ensures Upserted(r, d, n, UpsertedRows(r, r1, alerts[i], now), UpsertedDeliveries(r, d1, alerts[i]),
                     UpsertedNotes(r, n1, alerts[i]), alerts[..i + 1], now)
    ensures NoConflict(r, alerts[..i + 1])
  {
    var a := alerts[i];
    if a.id in r { UpsertedRow(r, d, n, r1, d1, n1, alerts[..i], now, a.id); }
    NoConflictNext(r, d, n, r1, d1, n1, alerts, i, now);
    forall id
      ensures CellIn(UpsertedRows(r, r1, a, now), UpsertedDeliveries(r, d1, a), UpsertedNotes(r, n1, a), id) ==
              AfterUpserts(CellIn(r, d, n, id), Matching(alerts[..i + 1], id), now)
    {
      assert CellIn(r1, d1, n1, id) == AfterUpserts(CellIn(r, d, n, id), Matching(alerts[..i], id), now);
      UpsertedNextCell(r, d, n, r1, d1, n1, alerts, i, now, id);
    }
  }

  // The IDs of the evaluation.
  ghost predicate Current(current: set<string>, alerts: seq<Alert>) {
    forall id :: id in current <==> Matching(alerts, id) != []
  }

  lemma CurrentNext(current: set<string>, alerts: seq<Alert>, i: nat)
    requires i < |alerts| && Current(current, alerts[..i])
    ensures Current(current + {alerts[i].id}, alerts[..i + 1])
  {
    forall id ensures id in current + {alerts[i].id} <==> Matching(alerts[..i + 1], id) != [] {
      MatchingNext(alerts, i, id);
    }
  }

  // One UPDATE and its event in the resolve loop.
  function ResolvedRows(r1: map<string, Row>, id: string, now: Time): map<string, Row>
    requires id in r1
  {
    r1[id := Resolve(Cell(Some(r1[id]), map[], []), now).row.value]
  }

  function ResolvedNotes(n1: map<string, seq<Note>>, id: string, severity: string): map<string, seq<Note>> {
    n1[id := (if id in n1 then n1[id] else []) + [Resolved(severity)]]
  }

  lemma ResolvedCell(r1: map<string, Row>, d1: map<string, map<int, Delivery>>, n1: map<string, seq<Note>>,
                     id: string, now: Time, x: string)
    requires id in r1
    ensures CellIn(ResolvedRows(r1, id, now), d1, ResolvedNotes(n1, id, r1[id].facts.severity), x) ==
            if x == id then Resolve(CellIn(r1, d1, n1, id), now) else CellIn(r1, d1, n1, x)
  {
  }

  lemma SweptNext(r: map<string, Row>, d: map<string, map<int, Delivery>>, n: map<string, seq<Note>>,
                  r1: map<string, Row>, d1: map<string, map<int, Delivery>>, n1: map<string, seq<Note>>,
                  todo: set<string>, id: string, alerts: seq<Alert>, complete: bool, now: Time)
    requires NoConflict(r, alerts) && Swept(r, d, n, r1, d1, n1, todo, alerts, complete, now)
    requires id in todo && id in r
    ensures complete && r[id].present && Matching(alerts, id) == [] ==>
              && id in r1 && r1[id] == r[id]
              && Swept(r, d, n, ResolvedRows(r1, id, now), d1, ResolvedNotes(n1, id, r[id].facts.severity),
                       todo - {id}, alerts, complete, now)
    ensures !(complete && r[id].present && Matching(alerts, id) == []) ==>
              Swept(r, d, n, r1, d1, n1, todo - {id}, alerts, complete, now)
  {
    var gone := complete && r[id].present && Matching(alerts, id) == [];
    if gone { SweptTodo(r, d, n, r1, d1, n1, todo, id, alerts, complete, now); }
    var r2 := if gone then ResolvedRows(r1, id, now) else r1;
    var n2 := if gone then ResolvedNotes(n1, id, r[id].facts.severity) else n1;
    forall x
      ensures CellIn(r2, d1, n2, x) ==
              if x in todo - {id} then AfterUpserts(CellIn(r, d, n, x), Matching(alerts, x), now)
              else AfterSync(CellIn(r, d, n, x), Matching(alerts, x), complete, now)
    {
      assert CellIn(r1, d1, n1, x) ==
             if x in todo then AfterUpserts(CellIn(r, d, n, x), Matching(alerts, x), now)
             else AfterSync(CellIn(r, d, n, x), Matching(alerts, x), complete, now);
      if gone { ResolvedCell(r1, d1, n1, id, now, x); }
    }
  }

  // An alert that is still to be swept and was not found is as it was at the start.
  lemma SweptTodo(r: map<string, Row>, d: map<string, map<int, Delivery>>, n: map<string, seq<Note>>,
                  r': map<string, Row>, d': map<string, map<int, Delivery>>, n': map<string, seq<Note>>,
                  todo: set<string>, id: string, alerts: seq<Alert>, complete: bool, now: Time)
    requires NoConflict(r, alerts) && Swept(r, d, n, r', d', n', todo, alerts, complete, now)
    requires id in todo
    ensures Matching(alerts, id) == [] ==> CellIn(r', d', n', id) == CellIn(r, d, n, id)
    ensures Matching(alerts, id) == [] && id in r ==> id in r' && r'[id] == r[id]
  {
    assert CellIn(r', d', n', id) == AfterUpserts(CellIn(r, d, n, id), Matching(alerts, id), now);
  }

  // Before the resolve loop everything is to do; alerts without a row count as swept.
  lemma SweptStart(r: map<string, Row>, d: map<string, map<int, Delivery>>, n: map<string, seq<Note>>,
                   r': map<string, Row>, d': map<string, map<int, Delivery>>, n': map<string, seq<Note>>,
                   alerts: seq<Alert>, complete: bool, now: Time)
    requires NoConflict(r, alerts) && Upserted(r, d, n, r', d', n', alerts, now)
    ensures Swept(r, d, n, r', d', n', r.Keys, alerts, complete, now)
  {
    forall id
      ensures CellIn(r', d', n', id) ==
              if id in r.Keys then AfterUpserts(CellIn(r, d, n, id), Matching(alerts, id), now)
              else AfterSync(CellIn(r, d, n, id), Matching(alerts, id), complete, now)
    {
      assert CellIn(r', d', n', id) == AfterUpserts(CellIn(r, d, n, id), Matching(alerts, id), now);
    }
  }

  lemma SweptEnd(r: map<string, Row>, d: map<string, map<int, Delivery>>, n: map<string, seq<Note>>,
                 r': map<string, Row>, d': map<string, map<int, Delivery>>, n': map<string, seq<Note>>,
                 alerts: seq<Alert>, complete: bool, now: Time)
    requires NoConflict(r, alerts) && Swept(r, d, n, r', d', n', {}, alerts, complete, now)
    ensures Synced(r, d, n, r', d', n', alerts, complete, now)
  {
    forall id ensures CellIn(r', d', n', id) == Apply(CellIn(r, d, n, id), Sync(Matching(alerts, id), complete, now)) {
      assert CellIn(r', d', n', id) == AfterSync(CellIn(r, d, n, id), Matching(alerts, id), complete, now);
    }
  }

  // ---------------------------------------------------------------- what the tables then hold

  // The row of an alert that was found says what the evaluation said last; the marks of an
  // alert that was there before stay, and the deliveries of an earlier episode go.
  ghost predicate StoredAsFound(r: map<string, Row>, d: map<string, map<int, Delivery>>,
                                r': map<string, Row>, d': map<string, map<int, Delivery>>,
                                id: string, last: Alert, now: Time)
  {
    && id in r' && r'[id].present && r'[id].facts == last.facts
    && !r'[id].emailPending && !r'[id].pushPending && r'[id].lastSeen == now && r'[id].updatedAt == now
    && (id in r ==>
          r'[id].firstSeen == r[id].firstSeen && r'[id].emailAt == r[id].emailAt && r'[id].pushAt == r[id].pushAt)
    && (id !in r ==> r'[id].firstSeen == now && r'[id].emailAt == None && r'[id].pushAt == None)
    && (DeliveriesOf(d', id) == if id in r && !r[id].present then map[] else DeliveriesOf(d, id))
  }

  // The row of a resolved alert keeps what was last seen; a resolution is pending on a channel
  // whose notice was sent, if that was critical.
  ghost predicate StoredAsResolved(r: map<string, Row>, d: map<string, map<int, Delivery>>,
                                   r': map<string, Row>, d': map<string, map<int, Delivery>>, id: string, now: Time)
  {
    && id in r && id in r' && !r'[id].present && r'[id].facts == r[id].facts
    && r'[id].emailAt == None && r'[id].pushAt == None && r'[id].updatedAt == now
    && r'[id].firstSeen == r[id].firstSeen && r'[id].lastSeen == r[id].lastSeen
    && (r'[id].emailPending <==> r[id].emailPending || (r[id].emailAt != None && r[id].facts.severity == "critical"))
    && (r'[id].pushPending <==> r[id].pushPending || (r[id].pushAt != None && r[id].facts.severity == "critical"))
    && DeliveriesOf(d', id) == DeliveriesOf(d, id)
  }

  ghost predicate Untouched(r: map<string, Row>, d: map<string, map<int, Delivery>>,
                            r': map<string, Row>, d': map<string, map<int, Delivery>>, id: string)
  {
    (id in r' <==> id in r) && (id in r ==> r'[id] == r[id]) && DeliveriesOf(d', id) == DeliveriesOf(d, id)
  }

  // A committed sync, for one alert of the tables.
  ghost predicate Stored(r: map<string, Row>, d: map<string, map<int, Delivery>>,
                         r': map<string, Row>, d': map<string, map<int, Delivery>>,
                         id: string, found: seq<Alert>, complete: bool, now: Time)
  {
    if found != [] then StoredAsFound(r, d, r', d', id, found[|found| - 1], now)
    else if complete && id in r && r[id].present then StoredAsResolved(r, d, r', d', id, now)
    else Untouched(r, d, r', d', id)
  }

  lemma {:induction false} UpsertsStore(c: Cell, found: seq<Alert>, now: Time)
    requires found != [] && (c.row.None? ==> |found| == 1)
    ensures var after := AfterUpserts(c, found, now);
            && after.row.Some? && after.row.value.facts == found[|found| - 1].facts && after.row.value.present
            && !after.row.value.emailPending && !after.row.value.pushPending
            && after.row.value.lastSeen == now && after.row.value.updatedAt == now
            && (c.row.Some? ==> after.row.value.firstSeen == c.row.value.firstSeen
                                && after.row.value.emailAt == c.row.value.emailAt
                                && after.row.value.pushAt == c.row.value.pushAt)
            && (c.row.None? ==> after.row.value.firstSeen == now && after.row.value.emailAt == None
                                && after.row.value.pushAt == None)
            && after.deliveries == if c.row.Some? && !c.row.value.present then map[] else c.deliveries
  {
    var front := found[..|found| - 1];
    if front == [] {
      assert AfterUpserts(c, front, now) == c;
    } else {
      UpsertsStore(c, front, now);
    }
  }

  lemma SyncStores(r: map<string, Row>, d: map<string, map<int, Delivery>>, n: map<string, seq<Note>>,
                   r': map<string, Row>, d': map<string, map<int, Delivery>>, n': map<string, seq<Note>>,
                   id: string, found: seq<Alert>, complete: bool, now: Time)
    requires CellIn(r', d', n', id) == Apply(CellIn(r, d, n, id), Sync(found, complete, now))
    requires id !in r ==> |found| <= 1
    ensures Stored(r, d, r', d', id, found, complete, now)
  {
    var c, c' := CellIn(r, d, n, id), CellIn(r', d', n', id);
    assert c.deliveries == DeliveriesOf(d, id) && c'.deliveries == DeliveriesOf(d', id);
    assert c'.row == if id in r' then Some(r'[id]) else None;
    if found != [] { UpsertsStore(c, found, now); }
  }

  lemma AllStored(r: map<string, Row>, d: map<string, map<int, Delivery>>, n: map<string, seq<Note>>,
                  r': map<string, Row>, d': map<string, map<int, Delivery>>, n': map<string, seq<Note>>,
                  alerts: seq<Alert>, complete: bool, now: Time)
    requires Synced(r, d, n, r', d', n', alerts, complete, now) && NoConflict(r, alerts)
    ensures forall id :: Stored(r, d, r', d', id, Matching(alerts, id), complete, now)
  {
    forall id ensures Stored(r, d, r', d', id, Matching(alerts, id), complete, now) {
      SyncStores(r, d, n, r', d', n', id, Matching(alerts, id), complete, now);
    }
  }

  /** A notified alert that is found and then missed by a complete sync is owed a resolution
      exactly when it was found critical the last time, whatever it was when notified. */
  lemma ResolutionFollowsLastSeverity(c: Cell, found: seq<Alert>, complete: bool, t1: Time, t2: Time, ch: Channel)
    requires !ch.Telegram? && Present(c) && Marked(c, ch) && found != []
    ensures var after := Apply(Apply(c, Sync(found, complete, t1)), Sync([], true, t2));
            Pending(after, ch) <==> found[|found| - 1].facts.severity == "critical"
  {
    UpsertsStore(c, found, t1);
  }

  class AlertStore {
    var rows: map<string, Row>                        // alert_states by alert_id
    var deliveries: map<string, map<int, Delivery>>   // telegram_alert_deliveries by alert_id and destination_id
    ghost var notes: map<string, seq<Note>>

    ghost function CellOf(id: string): Cell
      reads this
    {
      CellIn(rows, deliveries, notes, id)
    }

    ghost predicate Valid()
      reads this
    {
      Faithful(rows, deliveries, notes)
    }

    ghost predicate EmailValid()
      reads this
    {
      EmailFaithful(rows, deliveries, notes)
    }

    constructor ()
      ensures Valid() && EmailValid()
      ensures forall id :: CellOf(id) == UNBORN
    {
      rows, deliveries, notes := map[], map[], map[];
      new;
      UnbornLedger();
    }

    // ------------------------------------------------------------ syncAlertStates

    /** ok is false when the transaction is rolled back: a new alert is named twice. */
    method SyncAlertStates(alerts: seq<Alert>, resolveMissing: bool, now: Time) returns (ok: bool)
      modifies this
      ensures ok <==> forall id :: id !in old(rows) ==> |Matching(alerts, id)| <= 1
      ensures forall id :: CellOf(id) ==
                           Apply(old(CellOf(id)), if ok then Sync(Matching(alerts, id), resolveMissing, now) else Idle)
      ensures ok ==> forall id :: Stored(old(rows), old(deliveries), rows, deliveries, id, Matching(alerts, id),
                                         resolveMissing, now)
      ensures old(Valid()) && ok ==>
                (Valid() <==> forall id :: old(id in rows && !rows[id].present) ==> |Matching(alerts, id)| <= 1)
      ensures old(Valid() && EmailValid()) && ok && Valid() ==> EmailValid()
    {
      ghost var newNotes;
      var newRows, newDeliveries, current;
      ok, newRows, newDeliveries, newNotes, current := UpsertFound(alerts, now);
      if !ok {
        return;
      }
      newRows, newNotes := ResolveMissing(newRows, newDeliveries, newNotes, current, alerts, resolveMissing, now);
      rows, deliveries, notes := newRows, newDeliveries, newNotes;
      AllStored(old(rows), old(deliveries), old(notes), rows, deliveries, notes, alerts, resolveMissing, now);
      if old(Valid()) {
        SyncKeepsFaith(old(rows), old(deliveries), old(notes), rows, deliveries, notes, alerts, resolveMissing, now);
      }
    }

    // The upsert loop; what it returns is committed only by SyncAlertStates.
    method UpsertFound(alerts: seq<Alert>, now: Time)
      returns (ok: bool, newRows: map<string, Row>, newDeliveries: map<string, map<int, Delivery>>,
               ghost newNotes: map<string, seq<Note>>, current: set<string>)
      ensures ok <==> NoConflict(rows, alerts)
      ensures ok ==> Upserted(rows, deliveries, notes, newRows, newDeliveries, newNotes, alerts, now)
      ensures ok ==> Current(current, alerts)
    {
      var existing := rows;
      newRows, newDeliveries, newNotes, current := rows, deliveries, notes, {};
      for i := 0 to |alerts|
        invariant Current(current, alerts[..i])
        invariant Upserted(rows, deliveries, notes, newRows, newDeliveries, newNotes, alerts[..i], now)
        invariant NoConflict(rows, alerts[..i])
      {
        var alert := alerts[i];
        var id := alert.id;
        if id !in existing && id in newRows {
          SecondInsert(rows, deliveries, notes, newRows, newDeliveries, newNotes, alerts, i, now);
          ok := false;
          return;
        }
        if id in existing {
          UpsertedRow(rows, deliveries, notes, newRows, newDeliveries, newNotes, alerts[..i], now, id);
        }
        UpsertedNext(rows, deliveries, notes, newRows, newDeliveries, newNotes, alerts, i, now);
        CurrentNext(current, alerts, i);
        newNotes := UpsertedNotes(rows, newNotes, alert);
        if id !in existing {
          newRows := newRows[id := NewRow(alert, now)];
        } else {
          if !existing[id].present {
            newDeliveries := newDeliveries - {id};
          }
          newRows := newRows[id := Touch(newRows[id], alert, now)];
        }
        current := current + {id};
      }
      assert alerts[..|alerts|] == alerts;
      ok := true;
    }

    // The resolve loop over the rows read before the upserts.
    method ResolveMissing(upserted: map<string, Row>, newDeliveries: map<string, map<int, Delivery>>,
                          ghost upsertNotes: map<string, seq<Note>>, current: set<string>,
                          ghost alerts: seq<Alert>, resolveMissing: bool, now: Time)
      returns (newRows: map<string, Row>, ghost newNotes: map<string, seq<Note>>)
      requires NoConflict(rows, alerts)
      requires Upserted(rows, deliveries, notes, upserted, newDeliveries, upsertNotes, alerts, now)
      requires Current(current, alerts)
      ensures Synced(rows, deliveries, notes, newRows, newDeliveries, newNotes, alerts, resolveMissing, now)
    {
      var existing := rows;
      newRows, newNotes := upserted, upsertNotes;
      SweptStart(rows, deliveries, notes, newRows, newDeliveries, newNotes, alerts, resolveMissing, now);
      var todo := existing.Keys;
      while todo != {}
        invariant todo <= existing.Keys
        invariant Swept(rows, deliveries, notes, newRows, newDeliveries, newNotes, todo, alerts, resolveMissing, now)
        decreases todo
      {
        var id :| id in todo;
        var state := existing[id];
        SweptNext(rows, deliveries, notes, newRows, newDeliveries, newNotes, todo, id, alerts, resolveMissing, now);
        if resolveMissing && state.present && id !in current {
          var r := newRows[id];
          var critical := r.facts.severity == CRITICAL;
          newRows := newRows[id :=
          r.(present := false,
          emailPending := if r.emailAt.Some? && critical then true else r.emailPending,
          pushPending := if r.pushAt.Some? && critical then true else r.pushPending,
          emailAt := None, pushAt := None, updatedAt := now)];
          newNotes := ResolvedNotes(newNotes, id, state.facts.severity);
        }
        todo := todo - {id};
      }
      SweptEnd(rows, deliveries, notes, newRows, newDeliveries, newNotes, alerts, resolveMissing, now);
    }

    // ------------------------------------------------------------ marks

    method MarkAlertCriticalPushesSent(ids: seq<string>, at: Time)
      modifies this
      ensures forall id :: CellOf(id) == Apply(old(CellOf(id)), StepOn(ids, id, MarkSent(Push, at)))
      ensures old(Valid()) ==> Valid()
      ensures old(Valid() && EmailValid()) ==> EmailValid()
    {
      rows := map id | id in rows ::
        if id in ids && rows[id].present then rows[id].(pushAt := Some(at), updatedAt := at) else rows[id];
      notes := Noted(notes, ids, Sent(Push));
      assert Stepped(old(rows), old(deliveries), old(notes), rows, deliveries, notes, ids, MarkSent(Push, at)) by {
        forall id ensures CellOf(id) == Apply(old(CellOf(id)), StepOn(ids, id, MarkSent(Push, at))) {
        }
      }
      if old(Valid()) {
        MarksKeepFaith(old(rows), old(deliveries), old(notes), rows, deliveries, notes, ids, MarkSent(Push, at));
      }
    }

    /** Email agreement survives exactly when every row that was marked is present. */
    method MarkAlertCriticalEmailsSent(ids: seq<string>, at: Time)
      modifies this
      ensures forall id :: CellOf(id) == Apply(old(CellOf(id)), StepOn(ids, id, MarkSent(Email, at)))
      ensures old(Valid()) ==> Valid()
      ensures old(Valid() && EmailValid()) ==>
                (EmailValid() <==> forall id <- ids :: id in old(rows) ==> old(rows)[id].present)
    {
      rows := map id | id in rows ::
        if id in ids then rows[id].(emailAt := Some(at), updatedAt := at) else rows[id];
      notes := Noted(notes, ids, Sent(Email));
      EmailMarks(old(rows), deliveries, old(notes), rows, notes, ids, at);
      if old(Valid()) {
        MarksKeepFaith(old(rows), old(deliveries), old(notes), rows, deliveries, notes, ids, MarkSent(Email, at));
      }
    }

    /** ok is false when the foreign key refuses a delivery and nothing is recorded. */
    method MarkAlertCriticalTelegramsSent(destination: int, ids: seq<string>, at: Time) returns (ok: bool)
      modifies this
      ensures ok <==> forall id <- ids :: id in old(rows)
      ensures forall id :: CellOf(id) ==
                           Apply(old(CellOf(id)),
                                 if ok then StepOn(ids, id, MarkSent(Telegram(destination), at)) else Idle)
      ensures old(Valid()) ==> Valid()
      ensures old(Valid() && EmailValid()) ==> EmailValid()
    {
      var newDeliveries := deliveries;
      for i := 0 to |ids|
        invariant unchanged(this)
        invariant forall id <- ids[..i] :: id in rows
        invariant Delivered(deliveries, newDeliveries, destination, ids[..i], at)
      {
        var id := ids[i];
        if id !in rows {
          return false;
        }
        var mine := if id in newDeliveries then newDeliveries[id] else map[];
        assert ids[..i + 1] == ids[..i] + [id];
        DeliveredNext(deliveries, newDeliveries, destination, ids[..i], id, at);
        newDeliveries := newDeliveries[id := mine[destination := Delivery(at, None)]];
      }
      assert ids[..|ids|] == ids;
      deliveries := newDeliveries;
      notes := Noted(notes, ids, Sent(Telegram(destination)));
      ok := true;
      TelegramMarks(rows, old(deliveries), old(notes), deliveries, notes, destination, ids, at);
      if old(Valid()) {
        ghost var step := MarkSent(Telegram(destination), at);
        MarksKeepFaith(rows, old(deliveries), old(notes), rows, deliveries, notes, ids, step);
      }
    }

    method MarkAlertResolutionPushesSent(ids: seq<string>, at: Time)
      modifies this
      ensures forall id :: CellOf(id) == Apply(old(CellOf(id)), StepOn(ids, id, MarkResolutionSent(Push, at)))
      ensures old(Valid()) ==> Valid()
      ensures old(Valid() && EmailValid()) ==> EmailValid()
    {
      rows := map id | id in rows ::
        if id in ids && !rows[id].present then rows[id].(pushPending := false, updatedAt := at) else rows[id];
      notes := Noted(notes, ids, ResolutionSent(Push));
      ghost var step := MarkResolutionSent(Push, at);
      assert Stepped(old(rows), old(deliveries), old(notes), rows, deliveries, notes, ids, step) by {
        forall id ensures CellOf(id) == Apply(old(CellOf(id)), StepOn(ids, id, MarkResolutionSent(Push, at))) {
        }
      }
      if old(Valid()) {
        MarksKeepFaith(old(rows), old(deliveries), old(notes), rows, deliveries, notes, ids, step);
      }
    }

    method MarkAlertResolutionEmailsSent(ids: seq<string>, at: Time)
      modifies this
      ensures forall id :: CellOf(id) == Apply(old(CellOf(id)), StepOn(ids, id, MarkResolutionSent(Email, at)))
      ensures old(Valid()) ==> Valid()
      ensures old(Valid() && EmailValid()) ==> EmailValid()
    {
      rows := map id | id in rows ::
        if id in ids then rows[id].(emailPending := false, updatedAt := at) else rows[id];
      notes := Noted(notes, ids, ResolutionSent(Email));
      ghost var step := MarkResolutionSent(Email, at);
      assert Stepped(old(rows), old(deliveries), old(notes), rows, deliveries, notes, ids, step) by {
        forall id ensures CellOf(id) == Apply(old(CellOf(id)), StepOn(ids, id, MarkResolutionSent(Email, at))) {
        }
      }
      if old(Valid()) {
        MarksKeepFaith(old(rows), old(deliveries), old(notes), rows, deliveries, notes, ids, step);
      }
    }

    method MarkAlertResolutionTelegramsSent(destination: int, ids: seq<string>, at: Time)
      modifies this
      ensures forall id :: CellOf(id) ==
                           Apply(old(CellOf(id)), StepOn(ids, id, MarkResolutionSent(Telegram(destination), at)))
      ensures old(Valid()) ==> Valid()
      ensures old(Valid() && EmailValid()) ==> EmailValid()
    {
      deliveries := map id | id in deliveries ::
        if id in ids && destination in deliveries[id]
        then deliveries[id][destination := deliveries[id][destination].(resolvedAt := Some(at))]
        else deliveries[id];
      notes := Noted(notes, ids, ResolutionSent(Telegram(destination)));
      ghost var step := MarkResolutionSent(Telegram(destination), at);
      assert Stepped(old(rows), old(deliveries), old(notes), rows, deliveries, notes, ids, step) by {
        forall id ensures CellOf(id) == Apply(old(CellOf(id)), StepOn(ids, id, step)) {
        }
      }
      if old(Valid()) {
        MarksKeepFaith(old(rows), old(deliveries), old(notes), rows, deliveries, notes, ids, step);
      }
    }

    // ------------------------------------------------------------ retention

    method DeleteOldAlertHistory(cutoff: Time)
      modifies this
      ensures forall id :: CellOf(id) == Apply(old(CellOf(id)), Retain(cutoff))
      ensures forall id :: id in rows <==> id in old(rows) && !Expendable(old(rows), old(deliveries), id, cutoff)
      ensures forall id :: id in rows ==> Untouched(old(rows), old(deliveries), rows, deliveries, id)
      ensures forall id :: id in old(rows) && id !in rows ==> DeliveriesOf(deliveries, id) == map[]
      ensures old(Valid()) ==> Valid()
      ensures old(Valid() && EmailValid()) ==> EmailValid()
      ensures forall id :: Observe(CellOf(id)) == Observe(old(CellOf(id)))
    {
      var prunable := set id | id in rows && Prunable(CellIn(rows, deliveries, map[], id), cutoff);
      rows, deliveries := rows - prunable, deliveries - prunable;
      Pruned(old(rows), old(deliveries), notes, prunable, cutoff);
      PrunedAre(old(rows), old(deliveries), prunable, cutoff);
      forall id ensures Observe(CellOf(id)) == Observe(old(CellOf(id))) {
        RetentionAtOnce(old(CellOf(id)), cutoff);
      }
      if old(Valid()) {
        RetentionKeepsFaith(old(rows), old(deliveries), notes, rows, deliveries, cutoff);
      }
    }

    // ------------------------------------------------------------ readers

    method ListPresentAlerts() returns (ids: set<string>)
      ensures forall id :: id in ids <==> Observe(CellOf(id)).present
    {
      ids := set id | id in rows && rows[id].present;
    }

    method ListCriticalPushSentAlertIDs(ids: seq<string>) returns (sent: set<string>)
      ensures forall id :: id in sent <==> id in ids && Observe(CellOf(id)).pushSent
    {
      sent := set id | id in rows && id in ids && rows[id].present && rows[id].pushAt.Some?;
    }

    method ListCriticalEmailSentAlertIDs(ids: seq<string>) returns (sent: set<string>)
      ensures forall id :: id in sent <==> id in ids && Observe(CellOf(id)).emailSent
    {
      sent := set id | id in rows && id in ids && rows[id].present && rows[id].emailAt.Some?;
    }

    // This lookup has no presence guard; for a present alert it is what Observe shows.
    method ListCriticalTelegramSentAlertIDs(destination: int, ids: seq<string>) returns (sent: set<string>)
      ensures forall id :: id in sent <==> id in ids && destination in CellOf(id).deliveries
      ensures forall id <- ids :: Present(CellOf(id)) ==>
                                    (id in sent <==> destination in Observe(CellOf(id)).telegramSent)
    {
      sent := set id | id in deliveries && id in ids && destination in deliveries[id];
    }

    method ListPendingAlertResolutionPushes() returns (ids: set<string>)
      ensures forall id :: id in ids <==> Observe(CellOf(id)).pushOwed
      ensures Valid() ==> forall id :: id in ids <==> Owed(CellOf(id).notes, Push)
    {
      ids := set id | id in rows && rows[id].pushPending && !rows[id].present;
      if Valid() {
        forall id ensures id in ids <==> Owed(CellOf(id).notes, Push) {
          FlagsMeanPresence(CellOf(id), Push);
        }
      }
    }

    method ListPendingAlertResolutionEmails() returns (ids: set<string>)
      ensures forall id :: id in ids <==> Observe(CellOf(id)).emailOwed
      ensures Valid() && EmailValid() ==> forall id :: id in ids <==> Owed(CellOf(id).notes, Email)
    {
      ids := set id | id in rows && rows[id].emailPending && !rows[id].present;
      if Valid() && EmailValid() {
        forall id ensures id in ids <==> Owed(CellOf(id).notes, Email) {
          FlagsMeanPresence(CellOf(id), Email);
        }
      }
    }

    method ListPendingAlertResolutionTelegrams(destination: int) returns (ids: set<string>)
      ensures forall id :: id in ids <==> destination in Observe(CellOf(id)).telegramOwed
    {
      ids := set id | id in rows && !rows[id].present && id in deliveries
                      && destination in deliveries[id] && deliveries[id][destination].resolvedAt.None?;
    }
  }

  // A sync that kept the history alternating keeps the channel's flags too, however
  // often it names a present alert.
  lemma SyncKeepsFlags(c: Cell, found: seq<Alert>, complete: bool, now: Time, ch: Channel)
    requires !ch.Telegram?
    requires Ledger(c) && ChannelLedger(c, Push) && ChannelLedger(c, ch)
    requires Ledger(Apply(c, Sync(found, complete, now)))
    ensures ChannelLedger(Apply(c, Sync(found, complete, now)), ch)
  {
    SyncKeepsLedgerIff(c, found, complete, now);
    if |found| <= 1 {
      StepKeepsChannel(c, Sync(found, complete, now), ch);
    } else if Present(c) {
      PresentUpsertsKeepFlags(c, found, now, ch);
      UpsertsOfPresent(c, found, now);
      SentMeansOpen(c.notes, ch);
    }
  }

  lemma {:induction false} PresentUpsertsKeepFlags(c: Cell, found: seq<Alert>, now: Time, ch: Channel)
    requires !ch.Telegram? && Present(c)
    ensures Marked(AfterUpserts(c, found, now), ch) <==> Marked(c, ch)
    ensures found != [] ==> !Pending(AfterUpserts(c, found, now), ch)
  {
    if found == [] {
    } else {
      PresentUpsertsKeepFlags(c, found[..|found| - 1], now, ch);
      UpsertsOfPresent(c, found[..|found| - 1], now);
    }
  }
}
