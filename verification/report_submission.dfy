/**
 Idempotent report submission: the Windows client with its pending-id file
 (client-windows/main.go) against InsertWindowsReportData (internal/store/windows.go),
 under crashes, torn writes, lost requests, lost responses and retries.
 */
module ReportSubmission {
  import opened Wrappers

  // A stored report with its disks.
  datatype Report = Report(server: int, reportID: string, disks: seq<string>)

  predicate Known(reports: seq<Report>, server: int, reportID: string) {
    exists i :: 0 <= i < |reports| && reports[i].server == server && reports[i].reportID == reportID
  }

  // InsertWindowsReportData when no statement fails.
  function Inserted(reports: seq<Report>, r: Report): seq<Report> {
    if r.reportID != "" && Known(reports, r.server, r.reportID) then reports else reports + [r]
  }

  // At most one report per server and (non-empty) report ID.
  ghost predicate Unique(reports: seq<Report>) {
    forall i, j :: 0 <= i < j < |reports| && reports[i].reportID != "" ==>
                     (reports[i].server, reports[i].reportID) != (reports[j].server, reports[j].reportID)
  }

  lemma InsertKeepsUnique(reports: seq<Report>, r: Report)
    requires Unique(reports)
    ensures Unique(Inserted(reports, r))
    ensures reports <= Inserted(reports, r)
    ensures Known(Inserted(reports, r), r.server, r.reportID)
  {
    var after := Inserted(reports, r);
    if after != reports {
      assert after[|reports|] == r;
      forall i, j | 0 <= i < j < |after| && after[i].reportID != ""
        ensures (after[i].server, after[i].reportID) != (after[j].server, after[j].reportID)
      {
        assert after[i] == reports[i];
      }
    }
  }

  class ReportStore {
    var reports: seq<Report>

    /** One transaction: a repeated token is ignored; otherwise the report goes in with all
        its disks or, when the insert of disk number failAt fails, not at all. */
    method InsertWindowsReportData(server: int, reportID: string, disks: seq<string>,
        failAt: Option<nat>) returns (ok: bool)
      modifies this
      ensures ok ==> reports == Inserted(old(reports), Report(server, reportID, disks))
      ensures !ok ==> reports == old(reports)
      ensures ok <==>
              || (reportID != "" && Known(old(reports), server, reportID))
              || failAt.None? || failAt.value >= |disks|
      ensures old(Unique(reports)) ==> Unique(reports)
      ensures ok && (reportID == "" || !Known(old(reports), server, reportID)) ==>
                reports == old(reports) + [Report(server, reportID, disks)]
      ensures reportID != "" && Known(old(reports), server, reportID) ==> reports == old(reports)
    {
      InsertUnique(reports, Report(server, reportID, disks));
      if reportID != "" {
        for i := 0 to |reports|
          invariant forall j :: 0 <= j < i ==> !(reports[j].server == server && reports[j].reportID == reportID)
        {
          if reports[i].server == server && reports[i].reportID == reportID {
            return true;
          }
        }
      }
      var written: seq<string> := [];
      for i := 0 to |disks|
        invariant written == disks[..i]
        invariant failAt.None? || failAt.value >= i
      {
        if failAt == Some(i) {
          return false;
        }
        written := written + [disks[i]];
      }
      assert disks[..|disks|] == disks;
      reports := reports + [Report(server, reportID, written)];
      ok := true;
    }
  }

  lemma InsertUnique(reports: seq<Report>, r: Report)
    ensures Unique(reports) ==> Unique(Inserted(reports, r))
  {
    if Unique(reports) { InsertKeepsUnique(reports, r); }
  }

  // ---------------------------------------------------------------- the protocol

  datatype Phase =
    | Off                                  // no client process
    | Started                              // about to read the pending file
    | HasID(id: string)                    // has a report ID, nothing sent yet
    | Waiting(server: int, id: string)     // posted to the server, no answer yet
    | Answered(server: int, id: string)    // got 200 from it, about to remove the file

  // file: the pending file's text, trimmed.  mail: posts on their way, which may arrive
  // after the client died.  acks: positive answers on their way back.
  // removed: the markers removed, with the server that had answered.
  datatype World = World(file: Option<string>, phase: Phase, mail: set<Report>, acks: set<(int, string)>,
                         reports: seq<Report>, removed: set<(int, string)>)

  datatype Step =
    | Launch
    | ReadFile
    | WriteFile(id: string)                // a fresh ID, written whole
    | TornWrite(text: string)              // the process dies while writing
    | Post(server: int, disks: seq<string>)
    | Handle(r: Report)                    // the server processes a post
    | Lose(r: Report)
    | Answer                               // the client gets its answer
    | Fail                                 // timeout, lost answer or error status
    | RemoveFile
    | Crash

  predicate Enabled(w: World, s: Step) {
    match s
    case Launch => w.phase.Off? // one client process at a time
    case ReadFile => w.phase.Started? && w.file.Some? && w.file.value != ""
    case WriteFile(id) => w.phase.Started? && (w.file.None? || w.file.value == "") && id != ""
    case TornWrite(text) => w.phase.Started? && (w.file.None? || w.file.value == "")
    case Post(_, _) => w.phase.HasID?
    case Handle(r) => r in w.mail
    case Lose(r) => r in w.mail
    case Answer => w.phase.Waiting? && (w.phase.server, w.phase.id) in w.acks
    case Fail => !w.phase.Off?
    case RemoveFile => w.phase.Answered?
    case Crash => !w.phase.Off?
  }

  function Apply(w: World, s: Step): World
    requires Enabled(w, s)
  {
    match s
    case Launch => w.(phase := Started)
    case ReadFile => w.(phase := HasID(w.file.value))
    case WriteFile(id) => w.(file := Some(id), phase := HasID(id))
    case TornWrite(text) => w.(file := Some(text), phase := Off)
    case Post(server, disks) => w.(phase := Waiting(server, w.phase.id),
        mail := w.mail + {Report(server, w.phase.id, disks)})
    case Handle(r) => w.(reports := Inserted(w.reports, r), mail := w.mail - {r},
        acks := w.acks + {(r.server, r.reportID)})
    case Lose(r) => w.(mail := w.mail - {r})
    case Answer => w.(phase := Answered(w.phase.server, w.phase.id))
    case Fail => w.(phase := Off)
    case RemoveFile => w.(file := None, phase := Off, removed := w.removed + {(w.phase.server, w.phase.id)})
    case Crash => w.(phase := Off)
  }

  // A report with this ID is stored on the server.
  predicate Stored(reports: seq<Report>, post: (int, string)) { Known(reports, post.0, post.1) }

  predicate InHand(p: Phase) { p.HasID? || p.Waiting? || p.Answered? }

  ghost predicate Inv(w: World) {
    && Unique(w.reports)
    && (forall post :: post in w.acks || post in w.removed ==> Stored(w.reports, post))
    && (w.phase.Answered? ==> Stored(w.reports, (w.phase.server, w.phase.id)))
    // whoever has an ID in hand has it in the file
    && (InHand(w.phase) ==> w.file == Some(w.phase.id) && w.phase.id != "")
    && (forall r :: r in w.mail ==> r.reportID != "")
  }

  // Before the first client, with whatever is stored and in the pending file.
  function Start(reports: seq<Report>, file: Option<string>): World { World(file, Off, {}, {}, reports, {}) }

  lemma StartKeepsInv(reports: seq<Report>, file: Option<string>)
    requires Unique(reports)
    ensures Inv(Start(reports, file))
  {
  }

  lemma StoredGrows(before: seq<Report>, after: seq<Report>, post: (int, string))
    requires before <= after && Stored(before, post)
    ensures Stored(after, post)
  {
    var i :| 0 <= i < |before| && before[i].server == post.0 && before[i].reportID == post.1;
    assert after[i] == before[i];
  }

  lemma StepKeepsInv(w: World, s: Step)
    requires Inv(w) && Enabled(w, s)
    ensures Inv(Apply(w, s))
    ensures w.reports <= Apply(w, s).reports
  {
    var after := Apply(w, s);
    if s.Handle? {
      InsertKeepsUnique(w.reports, s.r);
      forall post | post in after.acks || post in after.removed ensures Stored(after.reports, post) {
        if post != (s.r.server, s.r.reportID) { StoredGrows(w.reports, after.reports, post); }
      }
      if w.phase.Answered? { StoredGrows(w.reports, after.reports, (w.phase.server, w.phase.id)); }
    }
  }

  /** The pending file changes only when the client removes it after an answer, and then a
      report with its ID is stored on the server that answered; except that an empty one is
      replaced.  So an ID survives every crash, loss and retry until then. */
  lemma FileKeptUntilStored(w: World, s: Step)
    requires Inv(w) && Enabled(w, s)
    requires w.file.Some? && w.file.value != "" && Apply(w, s).file != w.file
    ensures s.RemoveFile? && w.phase.Answered? && Stored(w.reports, (w.phase.server, w.file.value))
    ensures Apply(w, s).removed == w.removed + {(w.phase.server, w.file.value)}
  {
  }

  ghost predicate AllEnabled(w: World, steps: seq<Step>)
    decreases |steps|
  {
    steps == [] || (Enabled(w, steps[0]) && AllEnabled(Apply(w, steps[0]), steps[1..]))
  }

  ghost function Run(w: World, steps: seq<Step>): World
    requires AllEnabled(w, steps)
    decreases |steps|
  {
    if steps == [] then w else Run(Apply(w, steps[0]), steps[1..])
  }

  lemma {:induction false} RunKeepsInv(w: World, steps: seq<Step>)
    requires Inv(w) && AllEnabled(w, steps)
    ensures Inv(Run(w, steps)) && w.reports <= Run(w, steps).reports
    decreases |steps|
  {
    if steps == [] {
    } else {
      StepKeepsInv(w, steps[0]);
      RunKeepsInv(Apply(w, steps[0]), steps[1..]);
    }
  }

  /** Over every run, from any store without duplicates and any pending file: at most one report
      is stored per server and report ID, a marker is removed only after a report with that ID
      was stored on the server it was posted to, and a stored report never changes. */
  lemma RunIsIdempotent(reports: seq<Report>, file: Option<string>, steps: seq<Step>)
    requires Unique(reports) && AllEnabled(Start(reports, file), steps)
    ensures var n := Run(Start(reports, file), steps);
            && Unique(n.reports) && reports <= n.reports
            && forall post :: post in n.removed ==> Stored(n.reports, post)
  {
    StartKeepsInv(reports, file);
    RunKeepsInv(Start(reports, file), steps);
  }

  /** However a client ends, the pending file stays as it is, unless it died writing one. */
  lemma ClientEnds(w: World, s: Step)
    requires s in {Crash, Fail} || s.TornWrite?
    ensures s in {Crash, Fail} ==> (Enabled(w, s) <==> !w.phase.Off?)
    ensures s.TornWrite? ==> (Enabled(w, s) <==> w.phase.Started? && (w.file.None? || w.file.value == ""))
    ensures Enabled(w, s) ==> Apply(w, s) == w.(phase := Off, file := if s.TornWrite? then Some(s.text) else w.file)
  {
  }

  // The steps of a client that nothing disturbs, with its own new ID for when there is none yet.
  ghost function Undisturbed(file: Option<string>, own: string, server: int, disks: seq<string>): seq<Step> {
    var known := file.Some? && file.value != "";
    var id := if known then file.value else own;
    [Launch, if known then ReadFile else WriteFile(own), Post(server, disks), Handle(Report(server, id, disks)),
     Answer, RemoveFile]
  }

  lemma ThreeSteps(w: World, s1: Step, s2: Step, s3: Step, w1: World, w2: World)
    requires Enabled(w, s1) && w1 == Apply(w, s1) && Enabled(w1, s2) && w2 == Apply(w1, s2) && Enabled(w2, s3)
    ensures AllEnabled(w, [s1, s2, s3]) && Run(w, [s1, s2, s3]) == Apply(w2, s3)
  {
    var w3 := Apply(w2, s3);
    assert [s1, s2, s3][1..] == [s2, s3] && [s2, s3][1..] == [s3] && [s3][1..] == [];
    assert AllEnabled(w3, []) && Run(w3, []) == w3;
    assert AllEnabled(w2, [s3]) && Run(w2, [s3]) == w3;
    assert AllEnabled(w1, [s2, s3]) && Run(w1, [s2, s3]) == w3;
  }

  lemma {:induction false} RunAppends(w: World, first: seq<Step>, second: seq<Step>)
    requires AllEnabled(w, first) && AllEnabled(Run(w, first), second)
    ensures AllEnabled(w, first + second) && Run(w, first + second) == Run(Run(w, first), second)
    decreases |first|
  {
    if first == [] {
      assert first + second == second;
    } else {
      assert (first + second)[1..] == first[1..] + second;
      RunAppends(Apply(w, first[0]), first[1..], second);
    }
  }

  // The client has an ID and posts.
  lemma ClientPosts(w: World, own: string, server: int, disks: seq<string>)
    requires w.phase.Off? && own != ""
    ensures var known := w.file.Some? && w.file.value != "";
            var id := if known then w.file.value else own;
            var steps := [Launch, if known then ReadFile else WriteFile(own), Post(server, disks)];
            AllEnabled(w, steps)
            && Run(w, steps) == w.(phase := Waiting(server, id), file := Some(id),
                                   mail := w.mail + {Report(server, id, disks)})
  {
    var known := w.file.Some? && w.file.value != "";
    var w1 := Apply(w, Launch);
    var next := if known then ReadFile else WriteFile(own);
    ThreeSteps(w, Launch, next, Post(server, disks), w1, Apply(w1, next));
  }

  // Its post arrives and is answered.
  lemma PostIsAnswered(w: World, r: Report)
    requires w.phase == Waiting(r.server, r.reportID) && r in w.mail
    ensures var steps := [Handle(r), Answer, RemoveFile];
            AllEnabled(w, steps) && var n := Run(w, steps);
            && n.file == None && n.phase.Off? && n.removed == w.removed + {(r.server, r.reportID)}
            && n.reports == Inserted(w.reports, r)
  {
    var w1 := Apply(w, Handle(r));
    ThreeSteps(w, Handle(r), Answer, RemoveFile, w1, Apply(w1, Answer));
  }

  /** After any history and however the client before it ended, a client that nothing disturbs
      gets its report stored, under the ID that was pending or else under its own, and
      removes the marker. */
  lemma UndisturbedDelivers(w: World, own: string, server: int, disks: seq<string>)
    requires Inv(w) && w.phase.Off? && own != ""
    ensures var steps := Undisturbed(w.file, own, server, disks);
            var id := if w.file.Some? && w.file.value != "" then w.file.value else own;
            && AllEnabled(w, steps) && var n := Run(w, steps);
            && n.file == None && n.phase.Off? && n.removed == w.removed + {(server, id)}
            && n.reports == if exists i :: 0 <= i < |w.reports| && w.reports[i].server == server
                                           && w.reports[i].reportID == id
                            then w.reports else w.reports + [Report(server, id, disks)]
  {
    var known := w.file.Some? && w.file.value != "";
    var id := if known then w.file.value else own;
    var first := [Launch, if known then ReadFile else WriteFile(own), Post(server, disks)];
    var second := [Handle(Report(server, id, disks)), Answer, RemoveFile];
    ClientPosts(w, own, server, disks);
    PostIsAnswered(Run(w, first), Report(server, id, disks));
    RunAppends(w, first, second);
    assert Undisturbed(w.file, own, server, disks) == first + second;
  }

  /** The price: a post is stored if and only if its ID is new on that server, so a retry
      carrying newer disks is answered like a success and its disks are dropped. */
  lemma RetryIsDroppedIff(w: World, r: Report)
    requires Inv(w) && Enabled(w, Handle(r))
    ensures Apply(w, Handle(r)).reports == w.reports + [r] <==> !Known(w.reports, r.server, r.reportID)
    ensures (r.server, r.reportID) in Apply(w, Handle(r)).acks
  {
  }
}
