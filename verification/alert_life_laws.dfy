/**
 What every step, and so every run, keeps of one alert: its history alternates,
 the flags of each channel are exactly what the history says, retention cannot be
 seen, and a partial evaluation never gets in the way of a complete one.
 */
module AlertLifeLaws {
  import opened Wrappers
  import opened AlertLife

  // An evaluation names the alert at most once.
  predicate Single(step: Step) { step.Sync? ==> |step.found| <= 1 }

  predicate AllSingle(steps: seq<Step>) { forall s <- steps :: Single(s) }

  // ---------------------------------------------------------------- one step

  lemma AfterOneUpsert(c: Cell, a: Alert, now: Time)
    ensures AfterUpserts(c, [a], now) ==
            if c.row.None? then Cell(Some(NewRow(a, now)), c.deliveries, c.notes + [Appeared])
            else if Present(c) then Cell(Some(Touch(c.row.value, a, now)), c.deliveries, c.notes)
            else Cell(Some(Touch(c.row.value, a, now)), map[], c.notes + [Appeared])
  {
    assert [a][..0] == [];
    assert AfterUpserts(c, [a][..0], now) == c;
  }

  // The note a step adds, if it adds one.
  function NoteOf(c: Cell, step: Step): seq<Note>
    requires Single(step)
  {
    match step
    case Sync(found, complete, _) =>
      if found != [] then (if Present(c) then [] else [Appeared])
      else if complete && Present(c) then [Resolved(c.row.value.facts.severity)] else []
    case MarkSent(ch, _) => if ch.Telegram? && c.row.None? then [] else [Sent(ch)]
    case MarkResolutionSent(ch, _) => [ResolutionSent(ch)]
    case _ => []
  }

  lemma StepAddsNote(c: Cell, step: Step)
    requires Single(step)
    ensures Apply(c, step).notes == c.notes + NoteOf(c, step)
  {
    if step.Sync? && |step.found| == 1 {
      assert step.found == [step.found[0]];
      AfterOneUpsert(c, step.found[0], step.now);
    }
    assert c.notes + [] == c.notes;
  }

  predicate Unanswered(c: Cell, d: int) { d in c.deliveries && c.deliveries[d].resolvedAt.None? }

  // A step changes the delivery of d exactly by the note it records.
  lemma StepDelivery(c: Cell, step: Step, d: int)
    requires Single(step) && (c.row.None? ==> c.deliveries == map[])
    ensures var after, n := Apply(c, step), NoteOf(c, step);
            && (Unanswered(after, d) <==>
                if n == [] then Unanswered(c, d)
                else
                  || n[0] == Sent(Telegram(d))
                  || (Unanswered(c, d) && !n[0].Appeared? && n[0] != ResolutionSent(Telegram(d))))
            && (after.row.Some? ==>
                  (d in after.deliveries <==>
                   if n == [] then d in c.deliveries
                   else n[0] == Sent(Telegram(d)) || (d in c.deliveries && !n[0].Appeared?)))
            && (c.row.None? && after.row.Some? ==> n == [Appeared])
  {
    if step.Sync? && |step.found| == 1 {
      assert step.found == [step.found[0]];
      AfterOneUpsert(c, step.found[0], step.now);
    }
  }

  lemma StepKeepsTelegram(c: Cell, step: Step, d: int)
    requires Ledger(c) && Single(step)
    ensures var after := Apply(c, step);
            && (Unanswered(after, d) <==> TelegramUnanswered(after.notes, d))
            && (after.row.Some? ==> (d in after.deliveries <==> TelegramSent(after.notes, d)))
  {
    assert Unanswered(c, d) <==> TelegramUnanswered(c.notes, d);
    StepAddsNote(c, step);
    StepDelivery(c, step, d);
    var notes := Apply(c, step).notes;
    if NoteOf(c, step) == [] {
      assert notes == c.notes;
    } else {
      var n := NoteOf(c, step)[0];
      assert notes == c.notes + [n];
      TelegramAppended(c.notes, n, d);
    }
  }

  // What one more note does to alternating events.
  lemma EventsAfter(notes: seq<Note>, n: Note)
    requires Alternates(Turns(notes)) && (n.Appeared? ==> !Open(notes)) && (n.Resolved? ==> Open(notes))
    ensures Alternates(Turns(notes + [n]))
    ensures Open(notes + [n]) <==> if IsTurn(n) then n.Appeared? else Open(notes)
  {
    Appended(notes, n);
    OpenMeansOdd(notes);
  }

  // A step changes presence exactly by the event it records.
  lemma StepPresence(c: Cell, step: Step)
    requires Single(step) && (c.row.None? ==> c.deliveries == map[])
    ensures var after, n := Apply(c, step), NoteOf(c, step);
            && (Present(after) <==> if n != [] && IsTurn(n[0]) then n[0].Appeared? else Present(c))
            && (n != [] && n[0].Appeared? ==> !Present(c))
            && (n != [] && n[0].Resolved? ==> Present(c))
            && (after.row.None? ==> after.deliveries == map[])
  {
    if step.Sync? && |step.found| == 1 {
      assert step.found == [step.found[0]];
      AfterOneUpsert(c, step.found[0], step.now);
    }
  }

  lemma StepKeepsEvents(c: Cell, step: Step)
    requires Alternates(Turns(c.notes)) && (Present(c) <==> Open(c.notes)) && (c.row.None? ==> c.deliveries == map[])
    requires Single(step)
    ensures var after := Apply(c, step);
            && Alternates(Turns(after.notes))
            && (Present(after) <==> Open(after.notes))
            && (after.row.None? ==> after.deliveries == map[])
  {
    StepAddsNote(c, step);
    StepPresence(c, step);
    var notes := Apply(c, step).notes;
    if NoteOf(c, step) == [] {
      assert notes == c.notes;
    } else {
      var n := NoteOf(c, step)[0];
      assert notes == c.notes + [n];
      EventsAfter(c.notes, n);
    }
  }

  /** Every statement keeps the ledger: the events alternate starting with appeared,
      the alert is present exactly when the last one is appeared, and the Telegram
      rows are what the history says. */
  lemma StepKeepsLedger(c: Cell, step: Step)
    requires Ledger(c) && Single(step)
    ensures Ledger(Apply(c, step))
  {
    var after := Apply(c, step);
    StepKeepsEvents(c, step);
    forall d
      ensures (d in after.deliveries && after.deliveries[d].resolvedAt.None?) <==> TelegramUnanswered(after.notes, d)
      ensures after.row.Some? ==> (d in after.deliveries <==> TelegramSent(after.notes, d))
    {
      StepKeepsTelegram(c, step, d);
    }
  }

  // An email mark for a row whose alert is no longer present (the statement has no
  // is_present guard).
  predicate LateMark(c: Cell, step: Step) {
    step.MarkSent? && step.channel.Email? && c.row.Some? && !c.row.value.present
  }

  /** Push: every statement keeps marker and pending flag equal to the history. */
  lemma StepKeepsPush(c: Cell, step: Step)
    requires Ledger(c) && ChannelLedger(c, Push) && Single(step)
    ensures ChannelLedger(Apply(c, step), Push)
  {
    StepKeepsChannel(c, step, Push);
  }

  /** Email: every statement keeps them, except exactly a mark that arrives late. */
  lemma StepKeepsEmail(c: Cell, step: Step)
    requires Ledger(c) && ChannelLedger(c, Email) && Single(step)
    ensures ChannelLedger(Apply(c, step), Email) <==> !LateMark(c, step)
  {
    if LateMark(c, step) {
      SentMeansOpen(c.notes, Email);
      SentAppended(c.notes, Sent(Email), Email);
    } else {
      StepKeepsChannel(c, step, Email);
    }
  }

  // A step changes marker and pending flag exactly by the note it records.
  lemma StepFlags(c: Cell, step: Step, ch: Channel)
    requires !ch.Telegram? && Single(step) && (ch.Email? ==> !LateMark(c, step))
    requires (Marked(c, ch) ==> Present(c)) && (Pending(c, ch) ==> !Present(c))
    ensures var after, n := Apply(c, step), NoteOf(c, step);
            && (Marked(after, ch) <==>
                if n == [] then Marked(c, ch) else !IsTurn(n[0]) && (Marked(c, ch) || (n[0] == Sent(ch) && Present(c))))
            && (Pending(after, ch) <==>
                if n == [] then Pending(c, ch)
                else if IsTurn(n[0]) then n[0] == Resolved(CRITICAL) && Marked(c, ch)
                else Pending(c, ch) && n[0] != ResolutionSent(ch))
  {
    if step.Sync? && |step.found| == 1 {
      assert step.found == [step.found[0]];
      AfterOneUpsert(c, step.found[0], step.now);
    }
  }

  lemma StepKeepsChannel(c: Cell, step: Step, ch: Channel)
    requires !ch.Telegram?
    requires Ledger(c) && ChannelLedger(c, ch) && Single(step)
    requires ch.Email? ==> !LateMark(c, step)
    ensures ChannelLedger(Apply(c, step), ch)
  {
    StepAddsNote(c, step);
    SentMeansOpen(c.notes, ch);
    StepFlags(c, step, ch);
    var notes := Apply(c, step).notes;
    if NoteOf(c, step) == [] {
      assert notes == c.notes;
    } else {
      var n := NoteOf(c, step)[0];
      assert notes == c.notes + [n];
      SentAppended(c.notes, n, ch);
      OwedAppended(c.notes, n, ch);
    }
  }

  /** What the push (and a disciplined email) ledger promises: a sent marker implies
      present, a pending resolution implies not present. */
  lemma FlagsMeanPresence(c: Cell, ch: Channel)
    requires !ch.Telegram? && Ledger(c) && ChannelLedger(c, ch)
    ensures Marked(c, ch) ==> Present(c)
    ensures Pending(c, ch) ==> !Present(c)
  {
    SentMeansOpen(c.notes, ch);
  }

  /** Marks and answers leave what an evaluation wrote.  Those that find their row (push asks for
      a present alert to mark it and for a resolved one to answer it) make it as recent as
      themselves, so that retention keeps it that long. */
  lemma MarksTouch(c: Cell, step: Step)
    requires (step.MarkSent? || step.MarkResolutionSent?) && c.row.Some?
    ensures var before := c.row.value;
            Apply(c, step).row.Some? && var after := Apply(c, step).row.value;
            && after.facts == before.facts && after.present == before.present
            && after.firstSeen == before.firstSeen && after.lastSeen == before.lastSeen
            && after.updatedAt == (if step.channel.Email? || (step.channel.Push? && before.present == step.MarkSent?)
                                   then step.at else before.updatedAt)
            && after.emailAt == (if step == MarkSent(Email, step.at) then Some(step.at) else before.emailAt)
            && after.pushAt == (if step == MarkSent(Push, step.at) && before.present then Some(step.at)
                                else before.pushAt)
            && after.emailPending == (before.emailPending && step != MarkResolutionSent(Email, step.at))
            && after.pushPending == (before.pushPending
                                     && (before.present || step != MarkResolutionSent(Push, step.at)))
  {
  }

  /** A Telegram mark records an unanswered delivery to its destination at its time, anew if there
      was one, and an answer records its time on a delivery that exists; the deliveries to other
      destinations stay, and marks of other channels change none. */
  lemma TelegramMarksTouch(c: Cell, step: Step, d: int)
    requires (step.MarkSent? || step.MarkResolutionSent?) && c.row.Some?
    ensures var after := Apply(c, step).deliveries;
            if step.channel != Telegram(d)
            then (d in after <==> d in c.deliveries) && (d in after ==> after[d] == c.deliveries[d])
            else if step.MarkSent?
            then d in after && after[d].activeAt == step.at && after[d].resolvedAt == None
            else (d in after <==> d in c.deliveries)
                 && (d in after ==> after[d].activeAt == c.deliveries[d].activeAt
                                    && after[d].resolvedAt == Some(step.at))
  {
  }

  // ---------------------------------------------------------------- repeated alerts in one evaluation

  function Appearances(k: nat): seq<Note> { if k == 0 then [] else Appearances(k - 1) + [Appeared] }

  lemma {:induction false} UpsertNotes(c: Cell, found: seq<Alert>, now: Time)
    requires c.row.Some? && !c.row.value.present
    ensures AfterUpserts(c, found, now).row.Some?
    ensures AfterUpserts(c, found, now).notes == c.notes + Appearances(|found|)
  {
    if found == [] {
    } else {
      UpsertNotes(c, found[..|found| - 1], now);
      assert c.notes + Appearances(|found|) == c.notes + Appearances(|found| - 1) + [Appeared];
    }
  }

  lemma {:induction false} RepeatedAppearances(notes: seq<Note>, k: nat)
    requires Alternates(Turns(notes)) && !Open(notes) && k >= 2
    ensures !Alternates(Turns(notes + Appearances(k)))
    decreases k
  {
    if k == 2 {
      AppearedIsOpen(notes);
    } else {
      RepeatedAppearances(notes, k - 1);
    }
    OutOfTurn(notes + Appearances(k - 1));
    assert notes + Appearances(k) == notes + Appearances(k - 1) + [Appeared];
  }

  // One appearance too many is never made good.
  lemma OutOfTurn(notes: seq<Note>)
    requires !Alternates(Turns(notes)) || |Turns(notes)| % 2 == 1
    ensures !Alternates(Turns(notes + [Appeared]))
  {
    Appended(notes, Appeared);
  }

  // After one appearance the number of events is odd.
  lemma AppearedIsOpen(notes: seq<Note>)
    requires Alternates(Turns(notes)) && !Open(notes)
    ensures Alternates(Turns(notes + Appearances(1))) && |Turns(notes + Appearances(1))| % 2 == 1
  {
    var after := notes + [Appeared];
    assert notes + Appearances(1) == after by {
      assert Appearances(0) == [] && Appearances(1) == Appearances(0) + [Appeared];
    }
    Appended(notes, Appeared);
    OpenMeansOdd(notes);
    assert |Turns(after)| == |Turns(notes)| + 1;
  }

  // An alert that is present already may be repeated: only its facts change.
  lemma {:induction false} UpsertsOfPresent(c: Cell, found: seq<Alert>, now: Time)
    requires Present(c)
    ensures AfterUpserts(c, found, now).notes == c.notes
    ensures AfterUpserts(c, found, now).deliveries == c.deliveries
    ensures Present(AfterUpserts(c, found, now))
  {
    if found == [] {
    } else {
      UpsertsOfPresent(c, found[..|found| - 1], now);
    }
  }

  /** Without the assumption that an evaluation names an alert once: a sync keeps the
      history alternating if and only if it does not name a resolved alert twice.
      (A new alert named twice rolls the whole sync back.) */
  lemma SyncKeepsLedgerIff(c: Cell, found: seq<Alert>, complete: bool, now: Time)
    requires Ledger(c)
    ensures Ledger(Apply(c, Sync(found, complete, now))) <==>
            !(c.row.Some? && !c.row.value.present && |found| >= 2)
  {
    var step := Sync(found, complete, now);
    if |found| <= 1 {
      StepKeepsLedger(c, step);
    } else if Present(c) {
      UpsertsOfPresent(c, found, now);
    } else if c.row.Some? {
      UpsertNotes(c, found, now);
      RepeatedAppearances(c.notes, |found|);
    }
  }

  // ---------------------------------------------------------------- every run

  lemma UnbornLedger()
    ensures Ledger(UNBORN) && ChannelLedger(UNBORN, Push) && ChannelLedger(UNBORN, Email)
  {
  }

  /** Over every run: history, presence, Telegram and push, under any interleaving of
      complete and partial syncs, marks of any channel and retention. */
  lemma {:induction false} RunKeepsLedger(c: Cell, steps: seq<Step>)
    requires Ledger(c) && ChannelLedger(c, Push) && AllSingle(steps)
    ensures Ledger(Run(c, steps)) && ChannelLedger(Run(c, steps), Push)
  {
    if steps == [] {
    } else {
      var front, s := steps[..|steps| - 1], steps[|steps| - 1];
      assert s in steps && AllSingle(front);
      RunKeepsLedger(c, front);
      StepKeepsLedger(Run(c, front), s);
      StepKeepsPush(Run(c, front), s);
    }
  }

  ghost predicate NoLateMark(c: Cell, steps: seq<Step>) {
    forall k :: 0 <= k < |steps| ==> !LateMark(Run(c, steps[..k]), steps[k])
  }

  lemma RunAppended(c: Cell, steps: seq<Step>, s: Step)
    ensures Run(c, steps + [s]) == Apply(Run(c, steps), s)
  {
    assert (steps + [s])[..|steps|] == steps;
  }

  lemma RunPrefix(c: Cell, steps: seq<Step>, k: nat)
    requires k < |steps|
    ensures Run(c, steps[..k + 1]) == Apply(Run(c, steps[..k]), steps[k])
  {
    assert steps[..k + 1][..k] == steps[..k];
  }

  /** Email agrees with the history all along a run if and only if no email mark of
      that run arrives after the alert was resolved. */
  lemma RunKeepsEmailIff(c: Cell, steps: seq<Step>)
    requires Ledger(c) && ChannelLedger(c, Push) && ChannelLedger(c, Email) && AllSingle(steps)
    ensures (forall k :: 0 <= k <= |steps| ==> ChannelLedger(Run(c, steps[..k]), Email)) <==> NoLateMark(c, steps)
  {
    if NoLateMark(c, steps) {
      forall k | 0 <= k <= |steps| ensures ChannelLedger(Run(c, steps[..k]), Email) {
        EmailUpTo(c, steps, k);
      }
    } else {
      var k :| 0 <= k < |steps| && LateMark(Run(c, steps[..k]), steps[k]);
      if ChannelLedger(Run(c, steps[..k]), Email) {
        RunKeepsLedger(c, steps[..k]);
        RunPrefix(c, steps, k);
        StepKeepsEmail(Run(c, steps[..k]), steps[k]);
        assert !ChannelLedger(Run(c, steps[..k + 1]), Email);
      }
    }
  }

  lemma {:induction false} EmailUpTo(c: Cell, steps: seq<Step>, k: nat)
    requires Ledger(c) && ChannelLedger(c, Push) && ChannelLedger(c, Email) && AllSingle(steps)
    requires NoLateMark(c, steps) && k <= |steps|
    ensures ChannelLedger(Run(c, steps[..k]), Email)
  {
    if k == 0 {
    } else {
      EmailUpTo(c, steps, k - 1);
      RunKeepsLedger(c, steps[..k - 1]);
      RunPrefix(c, steps, k - 1);
      StepKeepsEmail(Run(c, steps[..k - 1]), steps[k - 1]);
    }
  }

  // ---------------------------------------------------------------- dispatcher against page syncs

  // No turn was recorded between two histories of the same alert.
  predicate SameEpisode(before: Cell, after: Cell) { Turns(after.notes) == Turns(before.notes) }

  lemma {:induction false} TurnsOnlyGrow(c: Cell, steps: seq<Step>)
    requires AllSingle(steps)
    ensures Turns(c.notes) <= Turns(Run(c, steps).notes)
  {
    if steps == [] {
    } else {
      var front, s := steps[..|steps| - 1], steps[|steps| - 1];
      assert s in steps;
      TurnsOnlyGrow(c, front);
      var mid := Run(c, front);
      StepAddsNote(mid, s);
      if NoteOf(mid, s) != [] {
        assert Run(c, steps).notes == mid.notes + [NoteOf(mid, s)[0]];
        Appended(mid.notes, NoteOf(mid, s)[0]);
      } else {
        assert Run(c, steps).notes == mid.notes;
      }
    }
  }

  lemma SameEpisodeMeans(c: Cell, step: Step)
    requires Single(step)
    ensures SameEpisode(c, Apply(c, step)) <==> NoteOf(c, step) == [] || !IsTurn(NoteOf(c, step)[0])
  {
    StepAddsNote(c, step);
    var notes := Apply(c, step).notes;
    if NoteOf(c, step) == [] {
      assert notes == c.notes;
    } else {
      var n := NoteOf(c, step)[0];
      assert notes == c.notes + [n];
      Appended(c.notes, n);
    }
  }

  lemma NoTurnKeepsMark(c: Cell, step: Step, ch: Channel)
    requires !ch.Telegram? && Single(step) && Marked(c, ch) && Present(c)
    requires NoteOf(c, step) == [] || !IsTurn(NoteOf(c, step)[0])
    ensures Marked(Apply(c, step), ch) && Present(Apply(c, step))
  {
    if step.Sync? && |step.found| == 1 {
      assert step.found == [step.found[0]];
      AfterOneUpsert(c, step.found[0], step.now);
    }
  }

  lemma MarkedStep(c: Cell, step: Step, ch: Channel)
    requires !ch.Telegram? && Single(step)
    requires Marked(c, ch) && Present(c) && SameEpisode(c, Apply(c, step))
    ensures Marked(Apply(c, step), ch) && Present(Apply(c, step))
  {
    SameEpisodeMeans(c, step);
    NoTurnKeepsMark(c, step, ch);
  }

  /** A marked alert stays marked, so is not selected again, while no event of it is
      recorded: it has to resolve first.  (Push and email.) */
  lemma {:induction false} MarkedUntilResolved(c: Cell, steps: seq<Step>, ch: Channel)
    requires !ch.Telegram? && AllSingle(steps)
    requires Marked(c, ch) && Present(c) && SameEpisode(c, Run(c, steps))
    ensures Marked(Run(c, steps), ch) && Present(Run(c, steps))
  {
    if steps == [] {
    } else {
      var front, s := steps[..|steps| - 1], steps[|steps| - 1];
      assert s in steps && AllSingle(front);
      TurnsOnlyGrow(c, front);
      TurnsOnlyGrow(Run(c, front), [s]);
      RunAppended(Run(c, front), [], s);
      assert [] + [s] == [s];
      MarkedUntilResolved(c, front, ch);
      MarkedStep(Run(c, front), s, ch);
    }
  }

  /** A new episode starts unmarked on push and on every Telegram destination. */
  lemma NewEpisodeUnmarked(c: Cell, step: Step)
    requires Ledger(c) && ChannelLedger(c, Push) && Single(step)
    requires !Present(c) && Present(Apply(c, step))
    ensures !Marked(Apply(c, step), Push)
    ensures Apply(c, step).deliveries == map[]
    ensures ChannelLedger(c, Email) ==> !Marked(Apply(c, step), Email)
  {
    StepAddsNote(c, step);
    SentMeansOpen(c.notes, Push);
    SentMeansOpen(c.notes, Email);
    assert step.Sync? && |step.found| == 1;
    AfterOneUpsert(c, step.found[0], step.now);
    assert step.found == [step.found[0]];
  }

  // Nothing but an event or the deletion of its row takes the email mark off a resolved alert.
  lemma {:induction false} ResolvedMarkStays(c: Cell, steps: seq<Step>)
    requires AllSingle(steps) && c.row.Some? && !Present(c) && Marked(c, Email)
    requires SameEpisode(c, Run(c, steps)) && Run(c, steps).row.Some?
    ensures !Present(Run(c, steps)) && Marked(Run(c, steps), Email)
  {
    if steps == [] {
    } else {
      var front, s := steps[..|steps| - 1], steps[|steps| - 1];
      assert s in steps && AllSingle(front);
      var mid := Run(c, front);
      TurnsOnlyGrow(c, front);
      TurnsOnlyGrow(mid, [s]);
      RunAppended(mid, [], s);
      assert [] + [s] == [s];
      SameEpisodeMeans(mid, s);
      if mid.row.Some? { ResolvedMarkStays(c, front); }
      NoTurnKeepsResolved(mid, s);
    }
  }

  lemma NoTurnKeepsResolved(c: Cell, step: Step)
    requires Single(step) && !Present(c) && Apply(c, step).row.Some?
    requires NoteOf(c, step) == [] || !IsTurn(NoteOf(c, step)[0])
    ensures c.row.Some? && !Present(Apply(c, step))
    ensures Marked(c, Email) ==> Marked(Apply(c, step), Email)
  {
  }

  /** The harm of a late mark, on any resolved alert and through any run that records no event
      and does not delete the row: when the alert comes back, its new episode already counts
      as mailed, though nobody was told of it. */
  lemma LateEmailMarkHidesNextEpisode(c: Cell, at: Time, steps: seq<Step>, a: Alert, complete: bool, now: Time)
    requires LateMark(c, MarkSent(Email, at)) && AllSingle(steps)
    requires var mid := Apply(c, MarkSent(Email, at)); SameEpisode(mid, Run(mid, steps)) && Run(mid, steps).row.Some?
    ensures var after := Apply(Run(Apply(c, MarkSent(Email, at)), steps), Sync([a], complete, now));
            Present(after) && Marked(after, Email) && !SentInEpisode(after.notes, Email)
  {
    var mid := Apply(c, MarkSent(Email, at));
    ResolvedMarkStays(mid, steps);
    var before := Run(mid, steps);
    AfterOneUpsert(before, a, now);
    SentAppended(before.notes, Appeared, Email);
  }

  predicate NoPushMark(steps: seq<Step>) { forall s <- steps :: !(s.MarkSent? && s.channel.Push?) }

  // A present alert is on an episode that was not open at `c` exactly when some event was
  // recorded since; an episode that goes on is still present.
  lemma EpisodeMovedOn(c: Cell, steps: seq<Step>)
    requires Ledger(c) && ChannelLedger(c, Push) && AllSingle(steps)
    ensures var before := Run(c, steps);
            && (Present(before) ==>
                  (!(Present(c) && SameEpisode(c, before)) <==> |Turns(before.notes)| > |Turns(c.notes)|))
            && (Present(c) && SameEpisode(c, before) ==> Present(before))
  {
    TurnsOnlyGrow(c, steps);
    RunKeepsLedger(c, steps);
    var before := Run(c, steps);
    assert (Present(c) <==> Open(c.notes)) && (Present(before) <==> Open(before.notes));
  }

  // A mark is no event.
  lemma MarkKeepsEpisode(c: Cell, before: Cell, ch: Channel, at: Time)
    ensures var after := Apply(before, MarkSent(ch, at));
            && (SameEpisode(c, after) <==> SameEpisode(c, before))
            && (Present(after) <==> Present(before))
  {
    SameEpisodeMeans(before, MarkSent(ch, at));
  }

  /** Push: select (what is not recorded as sent, present or not), send, mark, with any page
      syncs and other statements in between.  The alert ends up marked exactly when it is
      present at the mark.  The mark is on an episode nobody was told of exactly when the
      alert is present and resolved or appeared since the selection. */
  lemma PushMarkLands(c: Cell, steps: seq<Step>, at: Time)
    requires Ledger(c) && ChannelLedger(c, Push) && AllSingle(steps) && NoPushMark(steps)
    requires !(Present(c) && Marked(c, Push))
    ensures var before := Run(c, steps);
            var after := Apply(before, MarkSent(Push, at));
            && !Marked(before, Push)
            && (Marked(after, Push) <==> Present(before))
            && (Present(c) && SameEpisode(c, after) ==> Marked(after, Push))
            && (Marked(after, Push) && !(Present(c) && SameEpisode(c, after)) <==>
                Present(before) && |Turns(before.notes)| > |Turns(c.notes)|)
  {
    FlagsMeanPresence(c, Push);
    UnmarkedUntilMarked(c, steps);
    EpisodeMovedOn(c, steps);
    MarkKeepsEpisode(c, Run(c, steps), Push, at);
  }

  // The mark is on the row (email) or there is a delivery (Telegram).
  predicate Landed(c: Cell, ch: Channel)
    requires !ch.Push?
  {
    match ch
    case Email => Marked(c, Email)
    case Telegram(d) => d in c.deliveries
  }

  /** Email and Telegram have no presence guard: the mark lands wherever the row still
      exists, so on a resolved alert whenever that is absent, and on an episode nobody was
      told of exactly when the alert is present and an event was recorded since. */
  lemma UnguardedMarkLands(c: Cell, steps: seq<Step>, ch: Channel, at: Time)
    requires !ch.Push? && Ledger(c) && ChannelLedger(c, Push) && AllSingle(steps)
    ensures var before := Run(c, steps);
            var after := Apply(before, MarkSent(ch, at));
            && (Landed(after, ch) <==> before.row.Some?)
            && (Landed(after, ch) && !Present(after) <==> before.row.Some? && !Present(before))
            && (Landed(after, ch) && Present(after) && !(Present(c) && SameEpisode(c, after)) <==>
                Present(before) && |Turns(before.notes)| > |Turns(c.notes)|)
  {
    var before := Run(c, steps);
    assert before.row.None? ==> before.deliveries == map[] by { RunKeepsLedger(c, steps); }
    EpisodeMovedOn(c, steps);
    MarkKeepsEpisode(c, before, ch, at);
  }

  /** That happens when a page sync resolves a selected alert and the next one sees it again ... */
  lemma PushMarkOnUnannouncedEpisode(c: Cell, a: Alert, at: Time)
    requires Ledger(c) && ChannelLedger(c, Push) && Present(c) && !Marked(c, Push)
    ensures var gone := Apply(c, Sync([], true, at));
            var back := Apply(gone, Sync([a], true, at));
            var after := Apply(back, MarkSent(Push, at));
            Marked(after, Push) && Turns(after.notes) == Turns(c.notes) + [false] + [true]
  {
    var gone := Apply(c, Sync([], true, at));
    Appended(c.notes, Resolved(c.row.value.facts.severity));
    AfterOneUpsert(gone, a, at);
    Appended(gone.notes, Appeared);
    Appended(gone.notes + [Appeared], Sent(Push));
  }

  /** ... and when an alert that was resolved before its selection comes back. */
  lemma PushMarkOnReturnedAlert(c: Cell, a: Alert, at: Time)
    requires Ledger(c) && ChannelLedger(c, Push) && !Present(c)
    ensures var back := Apply(c, Sync([a], true, at));
            var after := Apply(back, MarkSent(Push, at));
            Marked(after, Push) && Turns(after.notes) == Turns(c.notes) + [true]
  {
    AfterOneUpsert(c, a, at);
    Appended(c.notes, Appeared);
    Appended(c.notes + [Appeared], Sent(Push));
  }

  lemma {:induction false} UnmarkedUntilMarked(c: Cell, steps: seq<Step>)
    requires NoPushMark(steps) && AllSingle(steps) && !Marked(c, Push)
    ensures !Marked(Run(c, steps), Push)
  {
    if steps == [] {
    } else {
      var front, s := steps[..|steps| - 1], steps[|steps| - 1];
      assert s in steps && AllSingle(front) && NoPushMark(front);
      UnmarkedUntilMarked(c, front);
      if s.Sync? && |s.found| == 1 {
        assert s.found == [s.found[0]];
        AfterOneUpsert(Run(c, front), s.found[0], s.now);
      }
    }
  }

  // ---------------------------------------------------------------- partial and complete evaluations

  // Equal up to the three timestamps of the row.
  predicate SameButTimes(a: Cell, b: Cell) {
    && a.deliveries == b.deliveries && a.notes == b.notes
    && (a.row.Some? <==> b.row.Some?)
    && (a.row.Some? ==>
          a.row.value == b.row.value.(firstSeen := a.row.value.firstSeen, lastSeen := a.row.value.lastSeen,
          updatedAt := a.row.value.updatedAt))
  }

  /** A partial sync never resolves: the present set becomes old union new.  A complete
      one makes the alert present exactly when it was found. */
  lemma SyncPresence(c: Cell, found: seq<Alert>, now: Time)
    requires Ledger(c) && |found| <= 1
    ensures Present(Apply(c, Sync(found, false, now))) <==> Present(c) || found != []
    ensures Present(Apply(c, Sync(found, true, now))) <==> found != []
  {
    if |found| == 1 {
      assert found == [found[0]];
      AfterOneUpsert(c, found[0], now);
    }
  }

  /** A partial sync of a subset followed by the complete sync records the same row and
      the same events as the complete sync alone. */
  lemma PartialThenComplete(c: Cell, part: seq<Alert>, full: seq<Alert>, t1: Time, t2: Time)
    requires Ledger(c) && |part| <= 1 && |full| <= 1 && (part != [] ==> full != [])
    ensures SameButTimes(Apply(Apply(c, Sync(part, false, t1)), Sync(full, true, t2)), Apply(c, Sync(full, true, t2)))
  {
    var mid := Apply(c, Sync(part, false, t1));
    if |full| == 1 {
      assert full == [full[0]];
      AfterOneUpsert(c, full[0], t2);
      AfterOneUpsert(mid, full[0], t2);
    }
    if |part| == 1 {
      assert part == [part[0]];
      AfterOneUpsert(c, part[0], t1);
    }
  }

  /** Syncing the same evaluation again records no event. */
  lemma ResyncIsQuiet(c: Cell, found: seq<Alert>, complete: bool, t1: Time, t2: Time)
    requires Ledger(c) && |found| <= 1
    ensures var once := Apply(c, Sync(found, complete, t1));
            SameButTimes(Apply(once, Sync(found, complete, t2)), once)
  {
    var once := Apply(c, Sync(found, complete, t1));
    if |found| == 1 {
      assert found == [found[0]];
      AfterOneUpsert(c, found[0], t1);
      AfterOneUpsert(once, found[0], t2);
    }
  }

  // ---------------------------------------------------------------- retention cannot be seen

  // What the readers of the tables see of one alert: ListPresentAlerts, the sent
  // lookups of a present alert, and the three pending-resolution lists (ordered by
  // updated_at, hence `shown`).
  datatype Seen = Seen(present: bool, shown: Option<(Facts, Time)>,
                       emailSent: bool, pushSent: bool, telegramSent: set<int>,
                       emailOwed: bool, pushOwed: bool, telegramOwed: set<int>)

  function Observe(c: Cell): Seen {
    var present := Present(c);
    var emailOwed := !present && Pending(c, Email);
    var pushOwed := !present && Pending(c, Push);
    var telegramOwed := if c.row.Some? && !present then set d | d in c.deliveries && c.deliveries[d].resolvedAt.None?
        else {};
    Seen(present,
         if present || emailOwed || pushOwed || telegramOwed != {}
         then Some((c.row.value.facts, c.row.value.updatedAt)) else None,
         present && Marked(c, Email), present && Marked(c, Push),
         if present then c.deliveries.Keys else {},
         emailOwed, pushOwed, telegramOwed)
  }

  // An absent row that no reader of Observe shows and no channel waits for.
  predicate Quiet(c: Cell) {
    c.row.Some? && !Present(c)
    && !Marked(c, Email) && !Marked(c, Push) && !Pending(c, Email) && !Pending(c, Push)
    && forall d <- c.deliveries :: c.deliveries[d].resolvedAt.Some?
  }

  // `pruned` is `kept` after some retention: equal but for first_seen_at, or gone.
  predicate Twins(kept: Cell, pruned: Cell) {
    && kept.notes == pruned.notes
    && (|| (kept.row.Some? && pruned.row.Some? && kept.deliveries == pruned.deliveries
            && kept.row.value == pruned.row.value.(firstSeen := kept.row.value.firstSeen))
        || (pruned.row.None? && pruned.deliveries == map[]
            && (Quiet(kept) || (kept.row.None? && kept.deliveries == map[]))))
  }

  // An email or Telegram mark (they have no presence guard) for a row that retention took away.
  predicate StrayMark(kept: Cell, pruned: Cell, step: Step) {
    step.MarkSent? && !step.channel.Push? && kept.row.Some? && pruned.row.None?
  }

  lemma TwinsLookAlike(kept: Cell, pruned: Cell)
    requires Twins(kept, pruned)
    ensures Observe(kept) == Observe(pruned)
  {
    if pruned.row.None? && kept.row.Some? {
      var owed := set d | d in kept.deliveries && kept.deliveries[d].resolvedAt.None?;
      assert forall d :: d !in owed;
      assert owed == {};
    }
  }

  /** At the moment of the deletion the readers of Observe see no difference, whatever the
      marks ... */
  lemma RetentionAtOnce(c: Cell, cutoff: Time)
    ensures Observe(Apply(c, Retain(cutoff))) == Observe(c)
  {
    if Prunable(c, cutoff) {
      var owed := set d | d in c.deliveries && c.deliveries[d].resolvedAt.None?;
      assert forall d :: d !in owed;
      assert owed == {};
    }
  }

  // The two readers that look at resolved alerts as well: ListCriticalTelegramSentAlertIDs has
  // no presence guard, and GetAlertStateEventInfo reads any row.
  predicate SentTo(c: Cell, d: int) { d in c.deliveries }

  function Info(c: Cell): Option<Facts> { if c.row.Some? then Some(c.row.value.facts) else None }

  /** ... and the two other readers see it exactly when the row is taken (with a delivery to
      that destination, for the sent lookup). */
  lemma RetentionSeenIff(c: Cell, cutoff: Time, d: int)
    ensures (SentTo(Apply(c, Retain(cutoff)), d) <==> SentTo(c, d)) <==> !(Prunable(c, cutoff) && SentTo(c, d))
    ensures Info(Apply(c, Retain(cutoff))) == Info(c) <==> !Prunable(c, cutoff)
  {
  }

  /** Such rows are reached: an alert told on Telegram only, resolved and answered there. */
  lemma AnsweredAlertIsTaken(c: Cell, d: int, at: Time, cutoff: Time)
    requires Present(c) && c.deliveries == map[] && !Marked(c, Email) && !Marked(c, Push)
    requires !Pending(c, Email) && !Pending(c, Push) && at < cutoff
    ensures var told := Apply(Apply(Apply(c, MarkSent(Telegram(d), at)), Sync([], true, at)),
        MarkResolutionSent(Telegram(d), at));
            Prunable(told, cutoff) && SentTo(told, d) && !SentTo(Apply(told, Retain(cutoff)), d)
  {
  }

  /** A pruned alert stays indistinguishable from the kept one through a statement if and
      only if the statement is not a stray mark. */
  lemma TwinsStep(kept: Cell, pruned: Cell, step: Step)
    requires Twins(kept, pruned) && Single(step)
    ensures Twins(Apply(kept, step), Apply(pruned, step)) <==> !StrayMark(kept, pruned, step)
  {
    if step.Sync? && |step.found| == 1 {
      assert step.found == [step.found[0]];
      AfterOneUpsert(kept, step.found[0], step.now);
      AfterOneUpsert(pruned, step.found[0], step.now);
    }
  }

  lemma RetentionTwins(c: Cell, cutoff: Time)
    requires Ledger(c) && ChannelLedger(c, Push)
    ensures Twins(c, Apply(c, Retain(cutoff))) <==> !(Prunable(c, cutoff) && Marked(c, Email))
  {
    FlagsMeanPresence(c, Push);
  }

  /** What a stray mark shows.  A Telegram mark leaves a pending resolution at once if the row
      was kept and nothing if it was not; an email mark makes the alert count as mailed, when
      an evaluation finds it again, if the row was kept and not otherwise. */
  lemma StrayMarkShows(kept: Cell, pruned: Cell, step: Step, a: Alert, complete: bool, now: Time)
    requires Twins(kept, pruned) && StrayMark(kept, pruned, step)
    ensures var k, p := Apply(kept, step), Apply(pruned, step);
            && (step.channel.Telegram? ==>
                  step.channel.destination in Observe(k).telegramOwed && Observe(p).telegramOwed == {})
            && (step.channel.Email? ==> Observe(Apply(k, Sync([a], complete, now))).emailSent
                                        && !Observe(Apply(p, Sync([a], complete, now))).emailSent)
  {
    AfterOneUpsert(Apply(kept, step), a, now);
    AfterOneUpsert(Apply(pruned, step), a, now);
  }

  /** The same for a row that retention takes although it carries an email mark. */
  lemma MarkedRowShows(c: Cell, cutoff: Time, a: Alert, complete: bool, now: Time)
    requires Prunable(c, cutoff) && Marked(c, Email)
    ensures Observe(Apply(c, Sync([a], complete, now))).emailSent
    ensures !Observe(Apply(Apply(c, Retain(cutoff)), Sync([a], complete, now))).emailSent
  {
    AfterOneUpsert(c, a, now);
    AfterOneUpsert(Apply(c, Retain(cutoff)), a, now);
  }
}
