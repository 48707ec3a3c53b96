/**
 Two-factor logins: pending challenges (internal/session/challenge.go), time steps that
 work once (ClaimUserTOTPStep and the disable operations of internal/store/user.go) and
 ValidateStep (internal/totp/totp.go).

 Each critical section and each SQL statement is a function on values here; the classes
 carry them out in place.  What holds over any interleaving is proved in two_factor_runs.dfy.
 */
module TwoFactor {
  import opened Wrappers

  type Time = int // seconds since 1970

  const LIFETIME := 300
  const MAX_PENDING := 10000
  const MAX_ATTEMPTS := 5
  const PERIOD := 30
  const DIGITS := 6

  // ---------------------------------------------------------------- challenges

  datatype Challenge = Challenge(userID: int, version: int, expires: Time, attempts: nat)

  /** The pending challenges, and for every token ever issued how many code checks it was
      allowed and how many logins it completed. */
  datatype Book = Book(items: map<string, Challenge>, checks: map<string, nat>, done: map<string, nat>)

  function Live(items: map<string, Challenge>, now: Time): map<string, Challenge> {
    map t | t in items && items[t].expires > now :: items[t]
  }

  predicate HasRoom(b: Book, now: Time) { |Live(b.items, now)| < MAX_PENDING }

  function AfterIssue(b: Book, token: string, userID: int, version: int, now: Time): Book {
    var live := Live(b.items, now);
    if |live| >= MAX_PENDING then b.(items := live)
    else Book(live[token := Challenge(userID, version, now + LIFETIME, 0)], b.checks[token := 0], b.done[token := 0])
  }

  function AfterDiscard(b: Book, token: string): Book { b.(items := b.items - {token}) }

  // The challenge of the same browser is discarded once the new one is held, and a challenge
  // whose cookie could not be saved is taken back.
  function AfterSetPending(b: Book, token: string, previous: string, userID: int, version: int, now: Time, saved: bool)
    : Book
  {
    var c := AfterIssue(b, token, userID, version, now);
    if !HasRoom(b, now) then c
    else if saved then AfterDiscard(c, previous)
    else AfterDiscard(AfterDiscard(c, previous), token)
  }

  predicate Alive(b: Book, token: string, now: Time) { token in b.items && b.items[token].expires > now }

  predicate Allowed(b: Book, token: string, now: Time) {
    Alive(b, token, now) && b.items[token].attempts < MAX_ATTEMPTS
  }

  function Times(log: map<string, nat>, token: string): nat { if token in log then log[token] else 0 }

  function AfterAllow(b: Book, token: string, now: Time): Book {
    if Allowed(b, token, now)
    then var c := b.items[token];
         b.(items := b.items[token := c.(attempts := c.attempts + 1)],
         checks := b.checks[token := Times(b.checks, token) + 1])
    else AfterDiscard(b, token)
  }

  predicate Redeemable(b: Book, token: string, userID: int, version: int, now: Time) {
    Alive(b, token, now) && b.items[token].userID == userID && b.items[token].version == version
  }

  function AfterConsume(b: Book, token: string, userID: int, version: int, now: Time): Book {
    var left := AfterDiscard(b, token);
    if Redeemable(b, token, userID, version, now) then left.(done := b.done[token := Times(b.done, token) + 1])
    else left
  }

  /** What every operation keeps: at most 10000 challenges held, at most five checks and one
      completion per token, and none left for a token that was completed. */
  ghost predicate Safe(b: Book) {
    && |b.items| <= MAX_PENDING
    && b.items.Keys <= b.checks.Keys && b.checks.Keys == b.done.Keys
    && (forall t :: t in b.items ==> b.checks[t] == b.items[t].attempts && b.done[t] == 0)
    && (forall t :: t in b.checks ==> b.checks[t] <= MAX_ATTEMPTS && b.done[t] <= 1)
  }

  /** The rules with their numbers: a challenge lives for five minutes, ten thousand live ones
      leave no room, and five checks are allowed while it lives. */
  lemma ChallengeRules(b: Book, token: string, userID: int, version: int, now: Time, later: Time)
    requires now <= later
    ensures HasRoom(b, now) <==> |Live(b.items, now)| < 10000
    ensures forall t :: t in Live(b.items, now) <==> t in b.items && now < b.items[t].expires
    ensures HasRoom(b, now) ==> var after := AfterIssue(b, token, userID, version, now);
            && token in after.items && after.items[token].attempts == 0
            && after.items[token].userID == userID && after.items[token].version == version
            && (Alive(after, token, later) <==> later < now + 300)
    ensures Allowed(b, token, now) <==>
            token in b.items && now < b.items[token].expires && b.items[token].attempts < 5
    ensures Redeemable(b, token, userID, version, now) <==>
            && token in b.items && now < b.items[token].expires
            && b.items[token].userID == userID && b.items[token].version == version
    ensures Allowed(b, token, now) ==> AfterAllow(b, token, now).items[token].attempts == b.items[token].attempts + 1
    ensures !Allowed(b, token, now) ==> token !in AfterAllow(b, token, now).items
    ensures token !in AfterConsume(b, token, userID, version, now).items
  {
  }

  lemma KeyCount(m: map<string, Challenge>)
    ensures |m| == |m.Keys|
  {
  }

  lemma {:induction false} SubsetSize(a: set<string>, b: set<string>)
    requires a <= b
    ensures |a| <= |b|
  {
    if a == {} {
    } else {
      var x :| x in a;
      SubsetSize(a - {x}, b - {x});
    }
  }

  lemma FewerItems(small: map<string, Challenge>, big: map<string, Challenge>)
    requires small.Keys <= big.Keys
    ensures |small| <= |big|
  {
    KeyCount(small);
    KeyCount(big);
    SubsetSize(small.Keys, big.Keys);
  }

  lemma OneMore(items: map<string, Challenge>, token: string, c: Challenge)
    ensures |items[token := c]| <= |items| + 1
    ensures token in items ==> |items[token := c]| == |items|
  {
    KeyCount(items);
    KeyCount(items[token := c]);
    assert items[token := c].Keys == items.Keys + {token};
    if token in items {
      assert items.Keys + {token} == items.Keys;
    }
  }

  lemma DiscardKeepsSafe(b: Book, token: string)
    requires Safe(b)
    ensures Safe(AfterDiscard(b, token))
  {
    FewerItems(b.items - {token}, b.items);
  }

  lemma IssueKeepsSafe(b: Book, token: string, userID: int, version: int, now: Time)
    requires Safe(b) && token !in b.checks // 32 random bytes
    ensures Safe(AfterIssue(b, token, userID, version, now))
  {
    var live := Live(b.items, now);
    FewerItems(live, b.items);
    OneMore(live, token, Challenge(userID, version, now + LIFETIME, 0));
  }

  /** A login that passes the password leaves its own challenge alive with no check spent when
      there was room and the cookie was saved, ends the browser's previous one then, and never
      touches the others. */
  lemma SetPendingMeans(b: Book, token: string, previous: string, userID: int, version: int, now: Time, saved: bool,
      other: string)
    requires Safe(b) && token !in b.checks && previous != token && other != token
    ensures var c := AfterSetPending(b, token, previous, userID, version, now, saved);
            && (Alive(c, token, now) <==> HasRoom(b, now) && saved)
            && (Alive(c, token, now) ==> c.items[token] == Challenge(userID, version, now + LIFETIME, 0))
            && (Alive(c, other, now) <==> Alive(b, other, now) && (other == previous ==> !HasRoom(b, now)))
            && (Alive(c, other, now) ==> c.items[other] == b.items[other])
  {
    IssueMeans(b, token, userID, version, now, other);
    var issued := AfterIssue(b, token, userID, version, now);
    DiscardMeans(issued, previous, token, now);
    DiscardMeans(issued, previous, other, now);
    DiscardMeans(AfterDiscard(issued, previous), token, token, now);
    DiscardMeans(AfterDiscard(issued, previous), token, other, now);
  }

  lemma IssueMeans(b: Book, token: string, userID: int, version: int, now: Time, other: string)
    requires token !in b.items && other != token
    ensures var c := AfterIssue(b, token, userID, version, now);
            && (Alive(c, token, now) <==> HasRoom(b, now))
            && (Alive(c, token, now) ==> c.items[token] == Challenge(userID, version, now + LIFETIME, 0))
            && (Alive(c, other, now) <==> Alive(b, other, now))
            && (Alive(c, other, now) ==> c.items[other] == b.items[other])
  {
  }

  lemma DiscardMeans(b: Book, token: string, other: string, now: Time)
    ensures var c := AfterDiscard(b, token);
            && (Alive(c, other, now) <==> Alive(b, other, now) && other != token)
            && (Alive(c, other, now) ==> c.items[other] == b.items[other])
  {
  }

  lemma AllowKeepsSafe(b: Book, token: string, now: Time)
    requires Safe(b)
    ensures Safe(AfterAllow(b, token, now))
  {
    if Allowed(b, token, now) {
      var c := b.items[token];
      OneMore(b.items, token, c.(attempts := c.attempts + 1));
    } else {
      DiscardKeepsSafe(b, token);
    }
  }

  lemma ConsumeKeepsSafe(b: Book, token: string, userID: int, version: int, now: Time)
    requires Safe(b)
    ensures Safe(AfterConsume(b, token, userID, version, now))
    ensures !Redeemable(AfterConsume(b, token, userID, version, now), token, userID, version, now)
  {
    DiscardKeepsSafe(b, token);
  }

  class Challenges {
    var items: map<string, Challenge>
    ghost var book: Book

    ghost predicate Valid()
      reads this
    {
      Safe(book) && book.items == items
    }

    constructor ()
      ensures Valid() && book == Book(map[], map[], map[])
    {
      items, book := map[], Book(map[], map[], map[]);
    }

    /** The first critical section of SetPending2FA: expired challenges make room, and with
        10000 live ones the login is refused. */
    method Issue(token: string, userID: int, version: int, now: Time) returns (ok: bool)
      requires Valid() && token !in book.checks
      modifies this
      ensures Valid() && book == AfterIssue(old(book), token, userID, version, now)
      ensures ok <==> HasRoom(old(book), now)
    {
      IssueKeepsSafe(book, token, userID, version, now);
      book := AfterIssue(book, token, userID, version, now);
      DropExpired(now);
      ok := |items| < MAX_PENDING;
      if ok {
        items := items[token := Challenge(userID, version, now + LIFETIME, 0)];
      }
    }

    method DropExpired(now: Time)
      modifies `items
      ensures items == Live(old(items), now)
    {
      var todo := items.Keys;
      while todo != {}
        invariant todo <= old(items.Keys)
        invariant forall t :: t in items <==> t in old(items) && (t in todo || old(items)[t].expires > now)
        invariant forall t :: t in items ==> items[t] == old(items)[t]
        decreases |todo|
      {
        var id :| id in todo;
        if items[id].expires <= now {
          items := items - {id};
        }
        todo := todo - {id};
      }
    }

    /** discardChallenge */
    method Discard(token: string)
      requires Valid()
      modifies this
      ensures Valid() && book == AfterDiscard(old(book), token)
    {
      DiscardKeepsSafe(book, token);
      book := AfterDiscard(book, token);
      items := items - {token};
    }

    /** SetPending2FA */
    method SetPending(token: string, previous: string, userID: int, version: int, now: Time, saved: bool)
      returns (ok: bool)
      requires Valid() && token !in book.checks
      modifies this
      ensures Valid() && book == AfterSetPending(old(book), token, previous, userID, version, now, saved)
      ensures ok <==> HasRoom(old(book), now) && saved
    {
      ok := Issue(token, userID, version, now);
      if ok {
        Discard(previous);
        if !saved {
          Discard(token);
          ok := false;
        }
      }
    }

    /** GetPending2FA */
    method GetPending(token: string, now: Time) returns (c: Option<Challenge>)
      requires Valid()
      ensures c == if Alive(book, token, now) then Some(book.items[token]) else None
    {
      c := if token in items && items[token].expires > now then Some(items[token]) else None;
    }

    /** AllowPending2FAAttempt */
    method AllowAttempt(token: string, now: Time) returns (ok: bool)
      requires Valid()
      modifies this
      ensures Valid() && book == AfterAllow(old(book), token, now)
      ensures ok <==> Alive(old(book), token, now) && old(book).checks[token] < MAX_ATTEMPTS
    {
      AllowKeepsSafe(book, token, now);
      book := AfterAllow(book, token, now);
      if token !in items || items[token].expires <= now || items[token].attempts >= MAX_ATTEMPTS {
        items := items - {token};
        return false;
      }
      var c := items[token];
      items := items[token := c.(attempts := c.attempts + 1)];
      ok := true;
    }

    /** ConsumePending2FA */
    method Consume(token: string, userID: int, version: int, now: Time) returns (ok: bool)
      requires Valid()
      modifies this
      ensures Valid() && book == AfterConsume(old(book), token, userID, version, now)
      ensures ok <==> Redeemable(old(book), token, userID, version, now)
      ensures ok ==> Times(old(book).done, token) == 0 && book.done[token] == 1
    {
      ConsumeKeepsSafe(book, token, userID, version, now);
      book := AfterConsume(book, token, userID, version, now);
      ok := token in items && items[token].userID == userID && items[token].version == version
          && items[token].expires > now;
      items := items - {token};
    }
  }

  // ---------------------------------------------------------------- time steps

  datatype User = User(active: bool, totpEnabled: bool, version: int, lastStep: int)

  /** A step accepted by request req, whose code was checked at time at. */
  datatype Use = Use(step: int, at: Time, req: nat)

  /** The users, and the steps accepted for each since its last reset. */
  datatype Ledger = Ledger(rows: map<int, User>, uses: map<int, seq<Use>>)

  // now.Unix() / period truncates toward zero.
  function CurrentStep(now: Time): int { if now >= 0 then now / PERIOD else -(-now / PERIOD) }

  predicate Near(step: int, now: Time) { CurrentStep(now) - 1 <= step <= CurrentStep(now) + 1 }

  /** The three steps around a time, in seconds since 1970: the last one, the current one and the
      next one of half a minute each. */
  lemma NearMeans(step: int, now: Time)
    requires now >= 0
    ensures Near(step, now) <==> 30 * (step - 1) <= now < 30 * (step + 2)
  {
  }

  predicate Claimable(g: Ledger, id: int, step: int) { id in g.rows && g.rows[id].lastStep < step }

  function UsesOf(g: Ledger, id: int): seq<Use> { if id in g.uses then g.uses[id] else [] }

  function AfterClaim(g: Ledger, id: int, u: Use): Ledger {
    if Claimable(g, id, u.step)
    then Ledger(g.rows[id := g.rows[id].(lastStep := u.step)], g.uses[id := UsesOf(g, id) + [u]])
    else g
  }

  function AfterDisable(g: Ledger, id: int): Ledger {
    if id in g.rows
    then var u := g.rows[id];
         Ledger(g.rows[id := u.(totpEnabled := false, lastStep := 0, version := u.version + 1)], g.uses[id := []])
    else g
  }

  // EnableUserTOTP, SetUserActive and the other updates that only raise the version.
  function AfterUpdate(g: Ledger, id: int, active: bool, totpEnabled: bool): Ledger {
    if id in g.rows
    then var u := g.rows[id];
         g.(rows := g.rows[id := u.(active := active, totpEnabled := totpEnabled, version := u.version + 1)])
    else g
  }

  /** Accepted steps strictly increase, each within one of the current step when its code was
      checked, and the row remembers the last. */
  ghost predicate Ordered(s: seq<Use>, last: int) {
    && last >= 0
    && (forall i, j :: 0 <= i < j < |s| ==> s[i].step < s[j].step)
    && (forall i :: 0 <= i < |s| ==> s[i].step <= last && Near(s[i].step, s[i].at))
  }

  ghost predicate Sound(g: Ledger) { forall id :: id in g.rows ==> Ordered(UsesOf(g, id), g.rows[id].lastStep) }

  lemma OrderedGrows(s: seq<Use>, last: int, u: Use)
    requires Ordered(s, last) && last < u.step && Near(u.step, u.at)
    ensures Ordered(s + [u], u.step)
  {
    var t := s + [u];
    forall i, j | 0 <= i < j < |t| ensures t[i].step < t[j].step {
      assert t[i] == s[i];
    }
  }

  lemma ClaimKeepsSound(g: Ledger, id: int, u: Use)
    requires Sound(g) && Near(u.step, u.at)
    ensures Sound(AfterClaim(g, id, u))
  {
    if Claimable(g, id, u.step) {
      OrderedGrows(UsesOf(g, id), g.rows[id].lastStep, u);
    }
  }

  lemma DisableKeepsSound(g: Ledger, id: int)
    requires Sound(g)
    ensures Sound(AfterDisable(g, id))
  {
  }

  lemma UpdateKeepsSound(g: Ledger, id: int, active: bool, totpEnabled: bool)
    requires Sound(g)
    ensures Sound(AfterUpdate(g, id, active, totpEnabled))
  {
    var h := AfterUpdate(g, id, active, totpEnabled);
    assert forall k :: k in h.rows ==> k in g.rows && h.rows[k].lastStep == g.rows[k].lastStep;
    assert forall k :: UsesOf(h, k) == UsesOf(g, k);
  }

  /** A step that was accepted is never claimable again before a reset. */
  lemma UsedStepIsRefused(g: Ledger, id: int, i: nat)
    requires Sound(g) && i < |UsesOf(g, id)|
    ensures !Claimable(g, id, UsesOf(g, id)[i].step)
  {
  }

  /** Of the steps on record before a reset exactly the positive ones can be claimed after it:
      a reset makes used codes usable again. */
  lemma ResetFreesUsedSteps(g: Ledger, id: int, i: nat)
    requires Sound(g) && id in g.rows && i < |UsesOf(g, id)|
    ensures !Claimable(g, id, UsesOf(g, id)[i].step)
    ensures Claimable(AfterDisable(g, id), id, UsesOf(g, id)[i].step) <==> UsesOf(g, id)[i].step > 0
  {
    UsedStepIsRefused(g, id, i);
  }

  class Users {
    var rows: map<int, User>
    ghost var ledger: Ledger

    ghost predicate Valid()
      reads this
    {
      Sound(ledger) && ledger.rows == rows
    }

    /** ClaimUserTOTPStep */
    method ClaimStep(id: int, step: int, ghost at: Time, ghost req: nat) returns (ok: bool)
      requires Valid() && Near(step, at)
      modifies this
      ensures Valid() && ledger == AfterClaim(old(ledger), id, Use(step, at, req))
      ensures ok <==> Claimable(old(ledger), id, step)
      ensures ok <==> id in old(rows) && old(rows)[id].lastStep < step
      ensures ok ==> id in rows && rows[id].lastStep == step && rows[id].version == old(rows)[id].version
      ensures ok ==> UsesOf(ledger, id) == UsesOf(old(ledger), id) + [Use(step, at, req)]
      ensures !ok ==> rows == old(rows)
      ensures ok ==> forall i :: 0 <= i < |UsesOf(old(ledger), id)| ==> UsesOf(old(ledger), id)[i].step < step
    {
      ClaimKeepsSound(ledger, id, Use(step, at, req));
      ledger := AfterClaim(ledger, id, Use(step, at, req));
      ok := id in rows && rows[id].lastStep < step;
      if ok {
        rows := rows[id := rows[id].(lastStep := step)];
      }
    }

    /** DisableUserTOTP */
    method DisableTOTP(id: int)
      requires Valid()
      modifies this
      ensures Valid() && ledger == AfterDisable(old(ledger), id)
      ensures id in old(rows) ==> id in rows && !rows[id].totpEnabled && rows[id].lastStep == 0
                                  && rows[id].version == old(rows)[id].version + 1
                                  && rows[id].active == old(rows)[id].active
      ensures forall k :: k != id ==> (k in rows <==> k in old(rows)) && (k in rows ==> rows[k] == old(rows)[k])
    {
      DisableKeepsSound(ledger, id);
      ledger := AfterDisable(ledger, id);
      if id in rows {
        rows := rows[id := rows[id].(totpEnabled := false, lastStep := 0, version := rows[id].version + 1)];
      }
    }

    /** EnableUserTOTP keeps the last step. */
    method EnableTOTP(id: int)
      requires Valid()
      modifies this
      ensures Valid() && ledger == AfterUpdate(old(ledger), id, id in old(rows) && old(rows)[id].active, true)
      ensures id in old(rows) ==> id in rows && rows[id].totpEnabled && rows[id].lastStep == old(rows)[id].lastStep
                                  && rows[id].version == old(rows)[id].version + 1
                                  && rows[id].active == old(rows)[id].active
      ensures forall k :: k != id ==> (k in rows <==> k in old(rows)) && (k in rows ==> rows[k] == old(rows)[k])
    {
      UpdateKeepsSound(ledger, id, id in rows && rows[id].active, true);
      ledger := AfterUpdate(ledger, id, id in rows && rows[id].active, true);
      if id in rows {
        rows := rows[id := rows[id].(totpEnabled := true, version := rows[id].version + 1)];
      }
    }
  }

  /** The earliest of the three steps around now whose code this is is step; generateCode for
      the decoded secret is codes, None when the secret does not decode. */
  ghost predicate Accepts(code: string, codes: Option<int -> string>, now: Time, step: int) {
    && |code| == DIGITS && codes.Some? && Near(step, now) && codes.value(step) == code
    && (forall s :: Near(s, now) && s < step ==> codes.value(s) != code)
  }

  /** ValidateStep */
  method ValidateStep(code: string, codes: Option<int -> string>, now: Time) returns (step: int, ok: bool)
    ensures ok ==> Accepts(code, codes, now, step)
    ensures !ok ==> step == 0 && forall s :: !Accepts(code, codes, now, s)
    ensures ok ==> |code| == 6 && codes.Some? && codes.value(step) == code
    ensures ok && now >= 0 ==>
              && 30 * (step - 1) <= now < 30 * (step + 2)
              && forall s :: s < step && now < 30 * (s + 2) ==> codes.value(s) != code
    ensures !ok && now >= 0 && |code| == 6 && codes.Some? ==>
              forall s :: 30 * (s - 1) <= now < 30 * (s + 2) ==> codes.value(s) != code
  {
    if now >= 0 {
      forall s ensures Near(s, now) <==> 30 * (s - 1) <= now < 30 * (s + 2) { NearMeans(s, now); }
    }
    if |code| != DIGITS || codes.None? {
      return 0, false;
    }
    var current := CurrentStep(now);
    var drift := -1;
    while drift <= 1
      invariant -1 <= drift <= 2
      invariant forall s :: Near(s, now) && s < current + drift ==> codes.value(s) != code
    {
      if codes.value(current + drift) == code {
        return current + drift, true;
      }
      drift := drift + 1;
    }
    return 0, false;
  }

  /** The challenge may still be answered for a user who may still log in with it. */
  predicate Answerable(b: Book, g: Ledger, token: string, now: Time) {
    && Allowed(b, token, now)
    && var c := b.items[token];
       c.userID in g.rows && var u := g.rows[c.userID]; u.active && u.totpEnabled && u.version == c.version
  }

  lemma AnswerableMeans(b: Book, g: Ledger, token: string, now: Time)
    ensures Answerable(b, g, token, now) <==>
            && token in b.items && now < b.items[token].expires && b.items[token].attempts < 5
            && b.items[token].userID in g.rows && g.rows[b.items[token].userID].active
            && g.rows[b.items[token].userID].totpEnabled
            && g.rows[b.items[token].userID].version == b.items[token].version
  {
  }

  /** An update of a user raises the version, so that it ends every challenge issued before; one
      issued since then can be answered exactly when the update left the user active with 2FA
      on.  Nobody else is touched, and no step is forgotten. */
  lemma UpdateDecides(b: Book, g: Ledger, id: int, active: bool, totpEnabled: bool, token: string, now: Time)
    requires id in g.rows && token in b.items && b.items[token].userID == id
    ensures var n := AfterUpdate(g, id, active, totpEnabled);
            && (Answerable(b, n, token, now) <==>
                  && now < b.items[token].expires && b.items[token].attempts < 5
                  && active && totpEnabled && b.items[token].version == g.rows[id].version + 1)
            && n.rows.Keys == g.rows.Keys && n.rows[id].lastStep == g.rows[id].lastStep && n.uses == g.uses
            && forall other :: other in g.rows && other != id ==> n.rows[other] == g.rows[other]
  {
  }

  /** Login2FAPost, from the pending challenge to the session, with its store calls back to
      back.  A session is granted exactly to a live challenge with a check left, whose user
      is active, has 2FA on and still has the challenge's version, for a code of one of the
      three steps around now that is later than every step accepted before; it costs the
      challenge and the step, and nothing else costs a step. */
  method Login2FA(ch: Challenges, users: Users, token: string, code: string, codes: Option<int -> string>, now: Time,
      ghost req: nat)
    returns (granted: bool)
    requires ch.Valid() && users.Valid()
    modifies ch, users
    ensures ch.Valid() && users.Valid()
    ensures granted ==> Answerable(old(ch.book), old(users.ledger), token, now)
    ensures granted ==> token !in ch.items && Times(ch.book.done, token) == 1
    ensures granted ==> var id := old(ch.book).items[token].userID;
                        exists s :: Accepts(code, codes, now, s) && Claimable(old(users.ledger), id, s)
                                    && users.ledger == AfterClaim(old(users.ledger), id, Use(s, now, req))
    ensures !granted ==> ch.book.done == old(ch.book).done && users.ledger == old(users.ledger)
    ensures !granted && Answerable(old(ch.book), old(users.ledger), token, now) ==>
              var id := old(ch.book).items[token].userID;
              forall s :: Accepts(code, codes, now, s) ==> !Claimable(old(users.ledger), id, s)
  {
    var pending := ch.GetPending(token, now);
    if pending.None? {
      return false;
    }
    var c := pending.value;
    if c.userID !in users.rows || !users.rows[c.userID].active || !users.rows[c.userID].totpEnabled
       || users.rows[c.userID].version != c.version {
      ch.Discard(token);
      return false;
    }
    var allowed := ch.AllowAttempt(token, now);
    if !allowed {
      ch.Discard(token);
      return false;
    }
    var step, valid := ValidateStep(code, codes, now);
    if valid {
      valid := users.ClaimStep(c.userID, step, now, req);
    }
    if !valid {
      return false;
    }
    granted := ch.Consume(token, c.userID, c.version, now);
  }
}
