/**
 Any interleaving of two-factor logins (Login2FAPost in internal/web/handlers/auth.go),
 sensitive actions (RequireTOTPForSensitiveAction in internal/web/middleware.go), resets and
 restarts.  Every lock, statement and request step of the source is one step here, and other
 requests may do anything between two of them.
 */
module TwoFactorRuns {
  import opened TwoFactor

  /** How far a request has come.  Spent is a sensitive action that claimed its step. */
  datatype Login =
    | Peeked(token: string, id: int, version: int)
    | Admitted(token: string, id: int, version: int)
    | Trying(token: string, id: int, version: int)
    | Claimed(token: string, id: int, version: int, step: int)
    | Granted(token: string, id: int, version: int, step: int)
    | Spent

  datatype World = World(book: Book, ledger: Ledger, logins: map<nat, Login>)

  datatype Step =
    | Issue(token: string, id: int, version: int, now: Time)
    | Discard(token: string)
    | Peek(req: nat, token: string, now: Time)
    | Check(req: nat)
    | Try(req: nat, now: Time)
    | Claim(req: nat, step: int, at: Time)
    | Redeem(req: nat, now: Time)
    | Sensitive(req: nat, id: int, step: int, at: Time)
    | Disable(id: int)
    | Update(id: int, active: bool, totpEnabled: bool)
    | Restart

  predicate MayLogIn(g: Ledger, id: int, version: int) {
    id in g.rows && g.rows[id].active && g.rows[id].totpEnabled && g.rows[id].version == version
  }

  function Apply(w: World, s: Step): World {
    match s
    case Issue(token, id, version, now) =>
      if token in w.book.checks then w else w.(book := AfterIssue(w.book, token, id, version, now))
    case Discard(token) => w.(book := AfterDiscard(w.book, token))
    case Peek(r, token, now) =>
      if r !in w.logins && Alive(w.book, token, now)
      then w.(logins := w.logins[r := Peeked(token, w.book.items[token].userID, w.book.items[token].version)])
      else w
    case Check(r) =>
      if r in w.logins && w.logins[r].Peeked? && MayLogIn(w.ledger, w.logins[r].id, w.logins[r].version)
      then w.(logins := w.logins[r := Admitted(w.logins[r].token, w.logins[r].id, w.logins[r].version)])
      else w
    case Try(r, now) =>
      if r in w.logins && w.logins[r].Admitted? then
        var l := w.logins[r];
        var next := w.(book := AfterAllow(w.book, l.token, now));
        if Allowed(w.book, l.token, now) then next.(logins := w.logins[r := Trying(l.token, l.id, l.version)]) else next
      else w
    case Claim(r, step, at) =>
      if r in w.logins && w.logins[r].Trying? && Near(step, at) && Claimable(w.ledger, w.logins[r].id, step) then
        var l := w.logins[r];
        w.(ledger := AfterClaim(w.ledger, l.id, Use(step, at, r)),
        logins := w.logins[r := Claimed(l.token, l.id, l.version, step)])
      else w
    case Redeem(r, now) =>
      if r in w.logins && w.logins[r].Claimed? then
        var l := w.logins[r];
        var next := w.(book := AfterConsume(w.book, l.token, l.id, l.version, now));
        if Redeemable(w.book, l.token, l.id, l.version, now)
        then next.(logins := w.logins[r := Granted(l.token, l.id, l.version, l.step)]) else next
      else w
    case Sensitive(r, id, step, at) =>
      if r !in w.logins && Near(step, at) && Claimable(w.ledger, id, step)
      then w.(ledger := AfterClaim(w.ledger, id, Use(step, at, r)), logins := w.logins[r := Spent])
      else w
    case Disable(id) => w.(ledger := AfterDisable(w.ledger, id))
    case Update(id, active, totpEnabled) => w.(ledger := AfterUpdate(w.ledger, id, active, totpEnabled))
    case Restart => w.(book := w.book.(items := map[]))
  }

  function Run(w: World, steps: seq<Step>): World
    decreases |steps|
  {
    if steps == [] then w else Run(Apply(w, steps[0]), steps[1..])
  }

  /** Among the uses since a user's last reset, request r has one of the step. */
  ghost predicate Owns(uses: seq<Use>, step: int, r: nat) {
    exists i :: 0 <= i < |uses| && uses[i].step == step && uses[i].req == r
  }

  /** What a request past the user check can rely on: versions only grow, and a step it
      claimed is still on record unless the version has moved on. */
  ghost predicate Backed(g: Ledger, r: nat, l: Login) {
    match l
    case Peeked(_, _, _) => true
    case Admitted(_, id, v) => id in g.rows && v <= g.rows[id].version
    case Trying(_, id, v) => id in g.rows && v <= g.rows[id].version
    case Claimed(_, id, v, step) =>
      id in g.rows && v <= g.rows[id].version && (v == g.rows[id].version ==> Owns(UsesOf(g, id), step, r))
    case Granted(_, id, v, step) =>
      id in g.rows && v <= g.rows[id].version && (v == g.rows[id].version ==> Owns(UsesOf(g, id), step, r))
    case Spent => true
  }

  /** The token of a granted login is used up. */
  predicate Paid(b: Book, l: Login) { l.Granted? ==> l.token in b.done && b.done[l.token] == 1 }

  ghost predicate AllBacked(w: World) { forall r :: r in w.logins ==> Backed(w.ledger, r, w.logins[r]) }

  ghost predicate AllPaid(w: World) { forall r :: r in w.logins ==> Paid(w.book, w.logins[r]) }

  ghost predicate TokensDiffer(w: World) {
    forall p, q :: p in w.logins && q in w.logins && p != q && w.logins[p].Granted? && w.logins[q].Granted?
                   ==> w.logins[p].token != w.logins[q].token
  }

  ghost predicate Inv(w: World) {
    Safe(w.book) && Sound(w.ledger) && AllBacked(w) && AllPaid(w) && TokensDiffer(w)
  }

  // ---------------------------------------------------------------- one step

  lemma ClaimBacks(g: Ledger, id: int, u: Use, r: nat, l: Login)
    requires Backed(g, r, l) && Claimable(g, id, u.step)
    ensures Backed(AfterClaim(g, id, u), r, l)
    ensures Owns(UsesOf(AfterClaim(g, id, u), id), u.step, u.req)
  {
    var h := AfterClaim(g, id, u);
    var us := UsesOf(g, id);
    assert UsesOf(h, id)[|us|] == u;
    if (l.Claimed? || l.Granted?) && l.version == g.rows[l.id].version {
      var i :| 0 <= i < |UsesOf(g, l.id)| && UsesOf(g, l.id)[i].step == l.step && UsesOf(g, l.id)[i].req == r;
      assert UsesOf(h, l.id)[i] == UsesOf(g, l.id)[i];
    }
  }

  lemma ResetBacks(g: Ledger, id: int, r: nat, l: Login)
    requires Backed(g, r, l)
    ensures Backed(AfterDisable(g, id), r, l)
  {
  }

  lemma UpdateBacks(g: Ledger, id: int, active: bool, totpEnabled: bool, r: nat, l: Login)
    requires Backed(g, r, l)
    ensures Backed(AfterUpdate(g, id, active, totpEnabled), r, l)
  {
  }

  // The steps of a login that touch its challenge.
  lemma TryKeepsSafe(w: World, r: nat, now: Time)
    requires Safe(w.book)
    ensures Safe(Apply(w, Try(r, now)).book)
  {
    if r in w.logins && w.logins[r].Admitted? {
      var token := w.logins[r].token;
      AllowKeepsSafe(w.book, token, now);
      assert Apply(w, Try(r, now)).book == AfterAllow(w.book, token, now);
    }
  }

  lemma RedeemKeepsSafe(w: World, r: nat, now: Time)
    requires Safe(w.book)
    ensures Safe(Apply(w, Redeem(r, now)).book)
  {
    if r in w.logins && w.logins[r].Claimed? {
      var l := w.logins[r];
      ConsumeKeepsSafe(w.book, l.token, l.id, l.version, now);
      assert Apply(w, Redeem(r, now)).book == AfterConsume(w.book, l.token, l.id, l.version, now);
    }
  }

  lemma RestartKeepsSafe(b: Book)
    requires Safe(b)
    ensures Safe(b.(items := map[]))
  {
  }

  lemma StepKeepsSafe(w: World, s: Step)
    requires Safe(w.book)
    ensures Safe(Apply(w, s).book)
  {
    match s
    case Issue(token, id, version, now) =>
      if token !in w.book.checks { IssueKeepsSafe(w.book, token, id, version, now); }
    case Discard(token) => DiscardKeepsSafe(w.book, token);
    case Try(r, now) => TryKeepsSafe(w, r, now);
    case Redeem(r, now) => RedeemKeepsSafe(w, r, now);
    case Restart => RestartKeepsSafe(w.book);
    case _ => assert Apply(w, s).book == w.book;
  }

  lemma StepKeepsSound(w: World, s: Step)
    requires Sound(w.ledger)
    ensures Sound(Apply(w, s).ledger)
  {
    match s
    case Claim(r, step, at) =>
      if r in w.logins && w.logins[r].Trying? && Near(step, at) {
        ClaimKeepsSound(w.ledger, w.logins[r].id, Use(step, at, r));
      }
    case Sensitive(r, id, step, at) => if Near(step, at) { ClaimKeepsSound(w.ledger, id, Use(step, at, r)); }
    case Disable(id) => DisableKeepsSound(w.ledger, id);
    case Update(id, active, totpEnabled) => UpdateKeepsSound(w.ledger, id, active, totpEnabled);
    case _ =>
  }

  lemma StepKeepsBacked(w: World, s: Step)
    requires AllBacked(w)
    ensures AllBacked(Apply(w, s))
  {
    var n := Apply(w, s);
    forall r | r in n.logins ensures Backed(n.ledger, r, n.logins[r]) {
      StepKeepsOneBacked(w, s, r);
    }
  }

  lemma StepKeepsOneBacked(w: World, s: Step, r: nat)
    requires AllBacked(w) && r in Apply(w, s).logins
    ensures Backed(Apply(w, s).ledger, r, Apply(w, s).logins[r])
  {
    if r in w.logins { assert Backed(w.ledger, r, w.logins[r]); }
    match s
    case Claim(q, step, at) =>
      if q in w.logins && w.logins[q].Trying? && Claimable(w.ledger, w.logins[q].id, step) {
        ClaimBacks(w.ledger, w.logins[q].id, Use(step, at, q), r, w.logins[r]);
      }
    case Sensitive(q, id, step, at) =>
      if Claimable(w.ledger, id, step) && r in w.logins { ClaimBacks(w.ledger, id, Use(step, at, q), r, w.logins[r]); }
    case Disable(id) => ResetBacks(w.ledger, id, r, w.logins[r]);
    case Update(id, active, totpEnabled) => UpdateBacks(w.ledger, id, active, totpEnabled, r, w.logins[r]);
    case _ =>
  }

  /** The counts of completed logins only grow, and only Redeem raises one. */
  lemma StepKeepsPaid(w: World, s: Step)
    requires Safe(w.book) && AllPaid(w) && TokensDiffer(w)
    ensures AllPaid(Apply(w, s)) && TokensDiffer(Apply(w, s))
  {
    if s.Redeem? && s.req in w.logins && w.logins[s.req].Claimed?
       && Redeemable(w.book, w.logins[s.req].token, w.logins[s.req].id, w.logins[s.req].version, s.now) {
      RedeemPays(w, s.req, s.now);
    } else {
      OtherStepsGrantNothing(w, s);
      var n := Apply(w, s);
      forall r | r in n.logins ensures Paid(n.book, n.logins[r]) {
        if n.logins[r].Granted? { assert Paid(w.book, w.logins[r]); }
      }
    }
  }

  lemma OtherStepsGrantNothing(w: World, s: Step)
    requires Safe(w.book)
    requires s.Redeem? && s.req in w.logins && w.logins[s.req].Claimed? ==>
               !Redeemable(w.book, w.logins[s.req].token, w.logins[s.req].id, w.logins[s.req].version, s.now)
    ensures var n := Apply(w, s);
            && (forall r :: r in n.logins && n.logins[r].Granted? ==> r in w.logins && w.logins[r] == n.logins[r])
            && (forall t :: t in w.book.done ==> t in n.book.done && n.book.done[t] == w.book.done[t])
  {
  }

  lemma RedeemPays(w: World, r: nat, now: Time)
    requires Safe(w.book) && AllPaid(w) && TokensDiffer(w)
    requires r in w.logins && w.logins[r].Claimed?
    requires Redeemable(w.book, w.logins[r].token, w.logins[r].id, w.logins[r].version, now)
    ensures AllPaid(Apply(w, Redeem(r, now))) && TokensDiffer(Apply(w, Redeem(r, now)))
  {
    var n, token := Apply(w, Redeem(r, now)), w.logins[r].token;
    assert w.book.done[token] == 0;
    forall q | q in w.logins && w.logins[q].Granted? ensures w.logins[q].token != token {
      assert Paid(w.book, w.logins[q]);
    }
    forall q | q in n.logins ensures Paid(n.book, n.logins[q]) { assert Paid(w.book, w.logins[q]); }
  }

  lemma StepKeepsInv(w: World, s: Step)
    requires Inv(w)
    ensures Inv(Apply(w, s))
  {
    StepKeepsSafe(w, s);
    StepKeepsSound(w, s);
    StepKeepsBacked(w, s);
    StepKeepsPaid(w, s);
  }

  // ---------------------------------------------------------------- whole runs

  lemma {:induction false} RunKeepsInv(w: World, steps: seq<Step>)
    requires Inv(w)
    ensures Inv(Run(w, steps))
    decreases |steps|
  {
    if steps == [] {
    } else {
      StepKeepsInv(w, steps[0]);
      RunKeepsInv(Apply(w, steps[0]), steps[1..]);
    }
  }

  /** The process as it starts, with the steps used before it forgotten: no row remembers a
      negative step. */
  predicate Fresh(w: World) {
    && w.book == Book(map[], map[], map[])
    && w.ledger.uses == map[] && w.logins == map[]
    && (forall id :: id in w.ledger.rows ==> w.ledger.rows[id].lastStep >= 0)
  }

  lemma UsesAreNear(g: Ledger)
    requires Sound(g)
    ensures forall id, i :: id in g.rows && 0 <= i < |UsesOf(g, id)| && UsesOf(g, id)[i].at >= 0 ==>
                              var u := UsesOf(g, id)[i]; 30 * (u.step - 1) <= u.at < 30 * (u.step + 2)
  {
    forall id, i | id in g.rows && 0 <= i < |UsesOf(g, id)| && UsesOf(g, id)[i].at >= 0
      ensures var u := UsesOf(g, id)[i]; 30 * (u.step - 1) <= u.at < 30 * (u.step + 2)
    {
      assert Ordered(UsesOf(g, id), g.rows[id].lastStep);
      NearMeans(UsesOf(g, id)[i].step, UsesOf(g, id)[i].at);
    }
  }

  /** Over any interleaving: at most 10000 challenges are held, a challenge allows at most five
      checks and one login, the steps accepted for a user increase between resets and each was
      within one of the current step when its code was checked, and a granted session that is
      still of the user's version (all that the session check admits) used a step of its own,
      accepted since the last reset. */
  lemma RunIsSafe(w: World, steps: seq<Step>, r: nat)
    requires Fresh(w)
    ensures Safe(Run(w, steps).book) && Sound(Run(w, steps).ledger)
    ensures var b := Run(w, steps).book;
            && |b.items| <= 10000
            && forall t :: t in b.checks ==> t in b.done && b.checks[t] <= 5 && b.done[t] <= 1
    ensures var g := Run(w, steps).ledger;
            forall id, i :: id in g.rows && 0 <= i < |UsesOf(g, id)| && UsesOf(g, id)[i].at >= 0 ==>
                              var u := UsesOf(g, id)[i]; 30 * (u.step - 1) <= u.at < 30 * (u.step + 2)
    ensures var n := Run(w, steps);
            r in n.logins && n.logins[r].Granted? ==>
            n.logins[r].id in n.ledger.rows && (n.logins[r].version == n.ledger.rows[n.logins[r].id].version
            ==> Owns(UsesOf(n.ledger, n.logins[r].id), n.logins[r].step, r))
  {
    RunKeepsInv(w, steps);
    var n := Run(w, steps);
    UsesAreNear(n.ledger);
    if r in n.logins { assert Backed(n.ledger, r, n.logins[r]); }
  }

  /** No two logins share a challenge, and no two that are still of the user's version share a
      code: a code replayed after a reset gives a session of an old version at best. */
  lemma NoTwoLoginsShare(w: World, steps: seq<Step>, p: nat, q: nat)
    requires Fresh(w) && p != q
    requires var n := Run(w, steps); p in n.logins && q in n.logins && n.logins[p].Granted? && n.logins[q].Granted?
    ensures var n := Run(w, steps); n.logins[p].token != n.logins[q].token
    ensures var n := Run(w, steps); var id := n.logins[p].id;
            && id in n.ledger.rows
            && (n.logins[q].id == id && n.logins[p].version == n.logins[q].version == n.ledger.rows[id].version
                ==> n.logins[p].step != n.logins[q].step)
  {
    RunKeepsInv(w, steps);
    var n := Run(w, steps);
    assert Backed(n.ledger, p, n.logins[p]) && Backed(n.ledger, q, n.logins[q]);
    var id := n.logins[p].id;
    if n.logins[q].id == id && n.logins[p].version == n.logins[q].version == n.ledger.rows[id].version {
      OwnersDiffer(UsesOf(n.ledger, id), n.ledger.rows[id].lastStep, n.logins[p].step, p, n.logins[q].step, q);
    }
  }

  lemma OwnersDiffer(us: seq<Use>, last: int, x: int, p: nat, y: int, q: nat)
    requires Ordered(us, last) && p != q && Owns(us, x, p) && Owns(us, y, q)
    ensures x != y
  {
    var i :| 0 <= i < |us| && us[i].step == x && us[i].req == p;
    var j :| 0 <= j < |us| && us[j].step == y && us[j].req == q;
    assert i < j || j < i;
  }

  /** A sensitive action goes through with a code of one of the three steps around its time that
      is later than every step accepted before; it spends that step for every other request. */
  lemma SensitiveSpends(w: World, r: nat, id: int, step: int, at: Time)
    requires Sound(w.ledger) && r !in w.logins && id in w.ledger.rows && at >= 0
    ensures var n := Apply(w, Sensitive(r, id, step, at));
            if 30 * (step - 1) <= at < 30 * (step + 2) && w.ledger.rows[id].lastStep < step
            then && n.logins == w.logins[r := Spent] && n.book == w.book && n.ledger.rows[id].lastStep == step
                 && UsesOf(n.ledger, id) == UsesOf(w.ledger, id) + [Use(step, at, r)]
                 && !Claimable(n.ledger, id, step)
            else n == w
  {
    NearMeans(step, at);
  }

  // ---------------------------------------------------------------- a code used twice

  predicate TriesFor(w: World, r: nat, token: string, id: int, version: int) {
    r in w.logins && w.logins[r] == Trying(token, id, version)
  }

  /** From any state in which two requests of a user try a code with challenges of their own,
      a reset between their claims lets both claim one step, and both are granted; the
      version of both sessions is an old one. */
  lemma CodeUsedTwice(w: World, p: nat, q: nat, tp: string, tq: string, id: int, version: int, step: int, at: Time,
      now: Time)
    requires Safe(w.book) && p != q && tp != tq && TriesFor(w, p, tp, id, version) && TriesFor(w, q, tq, id, version)
    requires Redeemable(w.book, tp, id, version, now) && Redeemable(w.book, tq, id, version, now)
    requires step > 0 && Near(step, at) && Claimable(w.ledger, id, step) && w.ledger.rows[id].version >= version
    ensures var n := Run(w, [Claim(p, step, at), Disable(id), Claim(q, step, at), Redeem(p, now), Redeem(q, now)]);
            && p in n.logins && n.logins[p] == Granted(tp, id, version, step)
            && q in n.logins && n.logins[q] == Granted(tq, id, version, step)
            && id in n.ledger.rows && n.ledger.rows[id].version > version
  {
    var s1, s2, s3, s4, s5 := Claim(p, step, at), Disable(id), Claim(q, step, at), Redeem(p, now), Redeem(q, now);
    var w1 := Apply(w, s1);
    var w2 := Apply(w1, s2);
    var w3 := Apply(w2, s3);
    assert w3.logins == w.logins[p := Claimed(tp, id, version, step)][q := Claimed(tq, id, version, step)];
    assert w3.book == w.book && w3.ledger.rows[id].version == w.ledger.rows[id].version + 1;
    TwoRedeems(w3, p, q, tp, tq, id, version, step, now);
    RunFive(w, s1, s2, s3, s4, s5);
  }

  lemma TwoRedeems(w: World, p: nat, q: nat, tp: string, tq: string, id: int, version: int, step: int, now: Time)
    requires p != q && tp != tq && p in w.logins && w.logins[p] == Claimed(tp, id, version, step)
    requires q in w.logins && w.logins[q] == Claimed(tq, id, version, step)
    requires Redeemable(w.book, tp, id, version, now) && Redeemable(w.book, tq, id, version, now)
    ensures var n := Apply(Apply(w, Redeem(p, now)), Redeem(q, now));
            && n.ledger == w.ledger && p in n.logins && q in n.logins
            && n.logins[p] == Granted(tp, id, version, step) && n.logins[q] == Granted(tq, id, version, step)
  {
    var mid := Apply(w, Redeem(p, now));
    assert mid.logins[p] == Granted(tp, id, version, step) && mid.logins[q] == w.logins[q];
    assert Redeemable(mid.book, tq, id, version, now);
  }

  lemma RunFive(w: World, s1: Step, s2: Step, s3: Step, s4: Step, s5: Step)
    ensures Run(w, [s1, s2, s3, s4, s5]) == Apply(Apply(Apply(Apply(Apply(w, s1), s2), s3), s4), s5)
  {
    var w1 := Apply(w, s1);
    var w2 := Apply(w1, s2);
    var w3 := Apply(w2, s3);
    var w4 := Apply(w3, s4);
    assert [s1, s2, s3, s4, s5][1..] == [s2, s3, s4, s5] && [s2, s3, s4, s5][1..] == [s3, s4, s5];
    assert [s3, s4, s5][1..] == [s4, s5] && [s4, s5][1..] == [s5] && [s5][1..] == [];
    assert Run(w4, [s5]) == Run(Apply(w4, s5), []) == Apply(w4, s5);
    assert Run(w3, [s4, s5]) == Run(w4, [s5]);
    assert Run(w2, [s3, s4, s5]) == Run(w3, [s4, s5]);
    assert Run(w1, [s2, s3, s4, s5]) == Run(w2, [s3, s4, s5]);
  }

  /** Such states are reached: a request with a fresh challenge of an active user with 2FA gets
      as far as trying a code, and leaves everything else as it was. */
  lemma ReachesTrying(w: World, r: nat, token: string, id: int, version: int, now: Time)
    requires token !in w.book.checks && r !in w.logins && HasRoom(w.book, now) && MayLogIn(w.ledger, id, version)
    ensures var issued := Apply(w, Issue(token, id, version, now));
            var n := Apply(Apply(Apply(issued, Peek(r, token, now)), Check(r)), Try(r, now));
            && TriesFor(n, r, token, id, version) && Redeemable(n.book, token, id, version, now)
            && n.ledger == w.ledger
            && (forall q :: q in w.logins ==> q in n.logins && n.logins[q] == w.logins[q])
            && (forall t :: t != token && Alive(w.book, t, now) ==>
               Alive(n.book, t, now) && n.book.items[t] == w.book.items[t])
  {
    var w1 := Apply(w, Issue(token, id, version, now));
    assert w1.book == AfterIssue(w.book, token, id, version, now) && Alive(w1.book, token, now);
    var w2 := Apply(w1, Peek(r, token, now));
    assert w2.logins[r] == Peeked(token, id, version);
    var w3 := Apply(w2, Check(r));
    assert w3.logins[r] == Admitted(token, id, version) && w3.book == w1.book;
  }
}
