/**
 Reconstructing the last backup job from the finished tasks (backupJobTasks in
 client/pve.go): sort by end time, cut at the first gap of more than two hours, one
 row per VM.  The reference is the graph whose edges join tasks at most two hours
 apart.
 */
module LastJob {
  // A task with both times and a status; vmid is 0 for an orchestration task.
  datatype Task = Task(start: real, end: real, status: string, vmid: int, upid: string)

  const MAX_GAP := 7200.0

  // The gap between the two intervals is at most two hours, whichever comes first.
  predicate Near(a: Task, b: Task) { a.start - b.end <= MAX_GAP && b.start - a.end <= MAX_GAP }

  /** The gap in seconds, and what may follow on what: a task that starts at most two hours after
      another has ended is near it, and so is any task that overlaps it. */
  lemma NearMeans(a: Task, b: Task)
    ensures Near(a, b) <==> a.start <= b.end + 7200.0 && b.start <= a.end + 7200.0
    ensures Plausible(a) <==> a.start <= a.end + 7200.0
  {
  }

  // Does not start more than two hours after its own end.
  predicate Plausible(t: Task) { t.start - t.end <= MAX_GAP }

  ghost predicate Chain(p: seq<Task>, pool: seq<Task>) {
    && p != []
    && (forall i :: 0 <= i < |p| ==> p[i] in pool)
    && (forall i :: 0 < i < |p| ==> Near(p[i - 1], p[i]))
  }

  ghost predicate ChainFrom(p: seq<Task>, pool: seq<Task>, a: Task, b: Task) {
    Chain(p, pool) && p[0] == a && p[|p| - 1] == b
  }

  // Connected in the graph on the pool.
  ghost predicate Linked(pool: seq<Task>, a: Task, b: Task) { exists p :: ChainFrom(p, pool, a, b) }

  ghost predicate EndsDescending(s: seq<Task>) { forall i, j :: 0 <= i < j < |s| ==> s[i].end >= s[j].end }

  // A possible outcome of the (unstable) sort.
  ghost predicate SortOf(s: seq<Task>, tasks: seq<Task>) { multiset(s) == multiset(tasks) && EndsDescending(s) }

  // The earliest start of the first n tasks.
  function LowStart(s: seq<Task>, n: nat): real
    requires 1 <= n <= |s|
  {
    if n == 1 then s[0].start
    else if s[n - 1].start < LowStart(s, n - 1) then s[n - 1].start else LowStart(s, n - 1)
  }

  // The grouping loop stops after the first k tasks.
  ghost predicate IsCut(s: seq<Task>, k: nat) {
    && 1 <= k <= |s|
    && (forall i :: 1 <= i < k ==> Joins(s, i))
    && (k < |s| ==> !Joins(s, k))
  }

  // Task i is at most two hours below the first i tasks.
  predicate Joins(s: seq<Task>, i: nat)
    requires 1 <= i < |s|
  {
    LowStart(s, i) - s[i].end <= MAX_GAP
  }

  // ---------------------------------------------------------------- the job is a component

  lemma {:induction false} LowStartIsLeast(s: seq<Task>, n: nat) returns (i: nat)
    requires 1 <= n <= |s|
    ensures i < n && s[i].start == LowStart(s, n)
    ensures forall j :: 0 <= j < n ==> LowStart(s, n) <= s[j].start
  {
    if n == 1 {
      i := 0;
    } else {
      i := LowStartIsLeast(s, n - 1);
      if s[n - 1].start < LowStart(s, n - 1) { i := n - 1; }
    }
  }

  lemma {:induction false} LowStartFalls(s: seq<Task>, m: nat, n: nat)
    requires 1 <= m <= n <= |s|
    ensures LowStart(s, n) <= LowStart(s, m)
  {
    if m < n { LowStartFalls(s, m, n - 1); }
  }

  // Everything after the cut is too old for the whole job.
  lemma BeyondTheCut(s: seq<Task>, k: nat, i: nat, j: nat)
    requires EndsDescending(s) && IsCut(s, k) && i < k <= j < |s|
    ensures s[i].start - s[j].end > MAX_GAP
    ensures LowStart(s, k) - s[j].end > MAX_GAP
  {
    var least := LowStartIsLeast(s, k);
    assert s[k].end >= s[j].end by { assert k == j || EndsDescending(s); }
  }

  lemma WithinTheCut(s: seq<Task>, k: nat, i: nat)
    requires IsCut(s, k) && 1 <= i < k
    ensures LowStart(s, k) - s[i].end <= MAX_GAP
  {
    assert Joins(s, i);
    LowStartFalls(s, i, k);
  }

  /** For every input: whatever is linked to the most recently ended task is in the job. */
  lemma {:induction false} LinkedIsInJob(s: seq<Task>, k: nat, p: seq<Task>, t: Task)
    requires EndsDescending(s) && IsCut(s, k) && ChainFrom(p, s, s[0], t)
    ensures t in s[..k]
    decreases |p|
  {
    if |p| == 1 {
      assert s[..k][0] == t;
    } else {
      var q, u := p[..|p| - 1], p[|p| - 2];
      assert Chain(q, s) by {
        forall i | 0 < i < |q| ensures Near(q[i - 1], q[i]) { assert Near(p[i - 1], p[i]); }
      }
      LinkedIsInJob(s, k, q, u);
      var i :| 0 <= i < k && s[i] == u;
      var j :| 0 <= j < |s| && s[j] == t;
      assert Near(p[|p| - 2], p[|p| - 1]);
      if j >= k {
        BeyondTheCut(s, k, i, j);
      }
      assert s[..k][j] == t;
    }
  }

  lemma Extend(p: seq<Task>, pool: seq<Task>, a: Task, b: Task, c: Task)
    requires ChainFrom(p, pool, a, b) && Near(b, c) && c in pool
    ensures Linked(pool, a, c)
  {
    var q := p + [c];
    forall i | 0 < i < |q| ensures Near(q[i - 1], q[i]) {
      if i < |p| { assert Near(p[i - 1], p[i]); }
    }
    assert ChainFrom(q, pool, a, c);
  }

  // Task i does not start long after its own end, or it is the head again, or some task
  // before it in the order is near it.
  ghost predicate Reached(s: seq<Task>, i: nat)
    requires i < |s|
  {
    Plausible(s[i]) || s[i] == s[0] || exists j :: 0 <= j < i && Near(s[j], s[i])
  }

  ghost predicate AllReached(s: seq<Task>, k: nat)
    requires k <= |s|
  {
    forall i :: 0 <= i < k ==> Reached(s, i)
  }

  /** Such a job is linked to its most recently ended task. */
  lemma {:induction false} JobIsLinked(s: seq<Task>, k: nat, i: nat)
    requires EndsDescending(s) && IsCut(s, k) && i < k && AllReached(s, k)
    ensures Linked(s, s[0], s[i])
    decreases i
  {
    assert Reached(s, i);
    if s[i] == s[0] {
      assert ChainFrom([s[0]], s, s[0], s[0]);
    } else {
      var j := LowStartIsLeast(s, i);
      if Plausible(s[i]) {
        assert Joins(s, i) && s[j].end >= s[i].end;
        assert Near(s[j], s[i]);
      } else {
        j :| 0 <= j < i && Near(s[j], s[i]);
      }
      JobIsLinked(s, k, j);
      var p :| ChainFrom(p, s, s[0], s[j]);
      Extend(p, s, s[0], s[j], s[i]);
    }
  }

  // A chain enters its last task from another one, unless it starts there.
  lemma {:induction false} Entered(p: seq<Task>, pool: seq<Task>, a: Task, b: Task) returns (u: Task)
    requires ChainFrom(p, pool, a, b) && a != b
    ensures u in pool && u != b && Near(u, b)
    decreases |p|
  {
    var q := p[..|p| - 1];
    u := p[|p| - 2];
    assert Near(p[|p| - 2], p[|p| - 1]);
    if u == b {
      assert Chain(q, pool) by {
        forall i | 0 < i < |q| ensures Near(q[i - 1], q[i]) { assert Near(p[i - 1], p[i]); }
      }
      u := Entered(q, pool, a, b);
    }
  }

  lemma LinkedIsReached(s: seq<Task>, i: nat)
    requires EndsDescending(s) && i < |s| && Linked(s, s[0], s[i])
    ensures Reached(s, i)
  {
    if !Plausible(s[i]) && s[i] != s[0] {
      var p :| ChainFrom(p, s, s[0], s[i]);
      var u := Entered(p, s, s[0], s[i]);
      var j :| 0 <= j < |s| && s[j] == u;
      assert u.end > s[i].end;
      assert j < i;
    }
  }

  /** The tasks selected as the last job are exactly the connected component of the most
      recently ended task if and only if every one of them that starts long after its own
      end is near an earlier one of the order (or is the head itself). */
  lemma JobIsComponentIff(s: seq<Task>, k: nat)
    requires EndsDescending(s) && IsCut(s, k)
    ensures (forall t :: t in s[..k] <==> Linked(s, s[0], t)) <==> AllReached(s, k)
  {
    if AllReached(s, k) {
      forall t ensures t in s[..k] <==> Linked(s, s[0], t) { JobIsComponent(s, k, t); }
    }
    if forall t :: t in s[..k] <==> Linked(s, s[0], t) {
      forall i | 0 <= i < k ensures Reached(s, i) {
        assert s[..k][i] == s[i];
        LinkedIsReached(s, i);
      }
    }
  }

  lemma JobIsComponent(s: seq<Task>, k: nat, t: Task)
    requires EndsDescending(s) && IsCut(s, k) && AllReached(s, k)
    ensures t in s[..k] <==> Linked(s, s[0], t)
  {
    if t in s[..k] {
      var i :| 0 <= i < k && s[i] == t;
      JobIsLinked(s, k, i);
    }
    if Linked(s, s[0], t) {
      var p :| ChainFrom(p, s, s[0], t);
      LinkedIsInJob(s, k, p, t);
    }
  }

  // ---------------------------------------------------------------- whatever the input order

  // Nothing ended after it.
  ghost predicate Latest(tasks: seq<Task>, a: Task) { a in tasks && forall t :: t in tasks ==> t.end <= a.end }

  // The first task does not start long after its own end, or no other ended with it.
  predicate HeadClear(s: seq<Task>) { s != [] && (Plausible(s[0]) || |s| == 1 || s[1].end < s[0].end) }

  // The job is then all that ended after the first task beyond it.
  lemma CutIsThreshold(s: seq<Task>, k: nat, i: nat)
    requires EndsDescending(s) && IsCut(s, k) && HeadClear(s) && i < k < |s|
    ensures s[i].end > s[k].end
  {
    BeyondTheCut(s, k, i, k);
    if i > 0 { WithinTheCut(s, k, i); }
  }

  lemma SameBag(s1: seq<Task>, s2: seq<Task>, t: Task)
    requires multiset(s1) == multiset(s2)
    ensures t in s1 <==> t in s2
  {
    assert t in s1 <==> t in multiset(s1);
    assert t in s2 <==> t in multiset(s2);
  }

  lemma SameHead(s1: seq<Task>, s2: seq<Task>)
    requires s1 != [] && EndsDescending(s1) && EndsDescending(s2) && multiset(s1) == multiset(s2)
    ensures s2 != [] && s1[0].end == s2[0].end
  {
    SameBag(s1, s2, s1[0]);
    SameBag(s1, s2, s2[0]);
    var i :| 0 <= i < |s2| && s2[i] == s1[0];
    var j :| 0 <= j < |s1| && s1[j] == s2[0];
  }

  // All of the first i tasks are in the other order's job; if that job stops before task i's
  // end, so does this one.
  lemma GapInBoth(s1: seq<Task>, s2: seq<Task>, k2: nat, i: nat)
    requires EndsDescending(s1) && EndsDescending(s2) && multiset(s1) == multiset(s2)
    requires IsCut(s2, k2) && k2 < |s2| && 1 <= i < |s1| && s1[i].end <= s2[k2].end
    requires forall j :: 0 <= j < i ==> s1[j].end > s2[k2].end
    ensures !Joins(s1, i)
  {
    var j := LowStartIsLeast(s1, i);
    SameBag(s1, s2, s1[j]);
    var m :| 0 <= m < |s2| && s2[m] == s1[j];
    BeyondTheCut(s2, k2, m, k2);
  }

  lemma {:induction false} FirstBelow(s: seq<Task>, j: nat, end: real) returns (i: nat)
    requires j < |s| && s[j].end <= end
    ensures i <= j && s[i].end <= end && forall m :: 0 <= m < i ==> s[m].end > end
    decreases j
  {
    if m :| 0 <= m < j && s[m].end <= end {
      i := FirstBelow(s, m, end);
    } else {
      i := j;
    }
  }

  // A task of one order's job ended after the first task beyond the other's.
  lemma InOtherJob(s1: seq<Task>, k1: nat, s2: seq<Task>, k2: nat, j: nat)
    requires EndsDescending(s1) && EndsDescending(s2) && multiset(s1) == multiset(s2)
    requires IsCut(s1, k1) && IsCut(s2, k2) && HeadClear(s2) && j < k1 && k2 < |s2|
    ensures s1[j].end > s2[k2].end
  {
    if s1[j].end <= s2[k2].end {
      SameHead(s1, s2);
      CutIsThreshold(s2, k2, 0);
      var i := FirstBelow(s1, j, s2[k2].end);
      assert i > 0 && Joins(s1, i);
      GapInBoth(s1, s2, k2, i);
    }
  }

  // With a clear head the job holds all copies of a task or none.
  lemma CutCount(s: seq<Task>, k: nat, t: Task)
    requires EndsDescending(s) && IsCut(s, k) && HeadClear(s)
    ensures multiset(s[..k])[t] == if k < |s| && t.end <= s[k].end then 0 else multiset(s)[t]
  {
    assert s == s[..k] + s[k..];
    if k < |s| {
      if t.end <= s[k].end {
        forall i | 0 <= i < k ensures s[..k][i] != t { CutIsThreshold(s, k, i); }
      } else {
        assert forall j :: k <= j < |s| ==> s[j] != t;
        assert t !in s[k..];
      }
    }
  }

  lemma SameCount(s1: seq<Task>, k1: nat, s2: seq<Task>, k2: nat, t: Task)
    requires EndsDescending(s1) && EndsDescending(s2) && multiset(s1) == multiset(s2)
    requires IsCut(s1, k1) && IsCut(s2, k2) && HeadClear(s1) && HeadClear(s2)
    ensures multiset(s1[..k1])[t] <= multiset(s2[..k2])[t]
  {
    CutCount(s1, k1, t);
    CutCount(s2, k2, t);
    if t in s1[..k1] && k2 < |s2| {
      var j :| 0 <= j < k1 && s1[j] == t;
      InOtherJob(s1, k1, s2, k2, j);
    }
  }

  // Of the tasks that ended last, one that starts long after its own end has no rival.
  ghost predicate NoRivals(tasks: seq<Task>) {
    forall a, b :: Latest(tasks, a) && Latest(tasks, b) ==> Plausible(a) || a == b
  }

  lemma HeadIsLatest(s: seq<Task>, tasks: seq<Task>)
    requires SortOf(s, tasks) && s != []
    ensures Latest(tasks, s[0])
    ensures |s| > 1 && s[1].end == s[0].end ==> Latest(tasks, s[1])
  {
    forall t | t in tasks ensures t.end <= s[0].end {
      SameBag(s, tasks, t);
      var i :| 0 <= i < |s| && s[i] == t;
    }
    SameBag(s, tasks, s[0]);
    if |s| > 1 { SameBag(s, tasks, s[1]); }
  }

  lemma SameJob(tasks: seq<Task>, s1: seq<Task>, k1: nat, s2: seq<Task>, k2: nat)
    requires SortOf(s1, tasks) && SortOf(s2, tasks) && IsCut(s1, k1) && IsCut(s2, k2) && NoRivals(tasks)
    ensures multiset(s1[..k1]) == multiset(s2[..k2])
  {
    HeadIsLatest(s1, tasks);
    HeadIsLatest(s2, tasks);
    SameHead(s1, s2);
    if HeadClear(s1) && HeadClear(s2) {
      forall t ensures multiset(s1[..k1])[t] == multiset(s2[..k2])[t] {
        SameCount(s1, k1, s2, k2, t);
        SameCount(s2, k2, s1, k1, t);
      }
    } else {
      // Both start with two copies of a task that starts long after its own end.
      SameLength(s1, s2);
      var a := s1[0];
      assert s2[0] == a;
      SecondIsLatest(s1, s2);
      HeadOnly(s1, k1);
      HeadOnly(s2, k2);
      assert s1[..1] == [a] && s2[..1] == [a];
    }
  }

  lemma SameLength(s1: seq<Task>, s2: seq<Task>)
    requires multiset(s1) == multiset(s2)
    ensures |s1| == |s2|
  {
    assert |multiset(s1)| == |multiset(s2)|;
  }

  // The second of the sorted tasks ends at the same time in every order.
  lemma SecondIsLatest(s1: seq<Task>, s2: seq<Task>)
    requires EndsDescending(s1) && EndsDescending(s2) && multiset(s1) == multiset(s2) && s1 != [] && s2 != []
        && s1[0] == s2[0]
    ensures |s1| == |s2| && (|s1| > 1 ==> s1[1].end == s2[1].end)
  {
    SameLength(s1, s2);
    TailBag(s1);
    TailBag(s2);
    if |s1| > 1 { SameHead(s1[1..], s2[1..]); }
  }

  lemma TailBag(s: seq<Task>)
    requires s != []
    ensures multiset(s[1..]) == multiset(s) - multiset{s[0]}
  {
    assert s == [s[0]] + s[1..];
  }

  lemma HeadOnly(s: seq<Task>, k: nat)
    requires EndsDescending(s) && IsCut(s, k) && !HeadClear(s)
    ensures k == 1
  {
    assert !Joins(s, 1);
  }

  // Any latest task can come first.
  lemma SortWithHead(tasks: seq<Task>, a: Task) returns (s: seq<Task>)
    requires Latest(tasks, a)
    ensures SortOf(s, tasks) && s != [] && s[0] == a
  {
    var i :| 0 <= i < |tasks| && tasks[i] == a;
    var others := tasks[..i] + tasks[i + 1..];
    assert tasks == tasks[..i] + [a] + tasks[i + 1..];
    assert multiset(tasks) == multiset(others) + multiset{a};
    var rest := SomeSort(others);
    s := [a] + rest;
    forall j | 0 <= j < |rest| ensures rest[j].end <= a.end {
      SameBag(rest, others, rest[j]);
      assert rest[j] in others;
    }
  }

  lemma {:induction false} SomeSort(tasks: seq<Task>) returns (s: seq<Task>)
    ensures SortOf(s, tasks)
    decreases |tasks|
  {
    if tasks == [] {
      s := [];
    } else {
      var t := tasks[|tasks| - 1];
      var front := SomeSort(tasks[..|tasks| - 1]);
      assert tasks == tasks[..|tasks| - 1] + [t];
      var j := InsertPoint(front, t);
      s := front[..j] + [t] + front[j..];
      InsertedSorted(front, j, t);
      InsertedBag(front, j, t);
    }
  }

  lemma InsertPoint(s: seq<Task>, t: Task) returns (j: nat)
    requires EndsDescending(s)
    ensures j <= |s| && (forall m :: j <= m < |s| ==> s[m].end < t.end) && (j > 0 ==> s[j - 1].end >= t.end)
  {
    j := |s|;
    while j > 0 && s[j - 1].end < t.end
      invariant 0 <= j <= |s|
      invariant forall m :: j <= m < |s| ==> s[m].end < t.end
    {
      j := j - 1;
    }
  }

  lemma {:induction false} SomeCut(s: seq<Task>, n: nat) returns (k: nat)
    requires 1 <= n <= |s| && forall i :: 1 <= i < n ==> Joins(s, i)
    ensures IsCut(s, k)
    decreases |s| - n
  {
    if n == |s| || !Joins(s, n) {
      k := n;
    } else {
      k := SomeCut(s, n + 1);
    }
  }

  ghost predicate OrderFree(tasks: seq<Task>) {
    forall s1, k1, s2, k2 :: SortOf(s1, tasks) && SortOf(s2, tasks) && IsCut(s1, k1) && IsCut(s2, k2)
                             ==> multiset(s1[..k1]) == multiset(s2[..k2])
  }

  /** However the input is ordered and however the sort orders ties, the job is the same, if
      and only if no task that ended last and starts long after its own end shares its end
      with a different task. */
  lemma OrderDoesNotMatterIff(tasks: seq<Task>)
    ensures OrderFree(tasks) <==> NoRivals(tasks)
  {
    if NoRivals(tasks) {
      forall s1, k1, s2, k2 | SortOf(s1, tasks) && SortOf(s2, tasks) && IsCut(s1, k1) && IsCut(s2, k2)
        ensures multiset(s1[..k1]) == multiset(s2[..k2])
      {
        SameJob(tasks, s1, k1, s2, k2);
      }
    } else {
      var a, b :| Latest(tasks, a) && Latest(tasks, b) && !Plausible(a) && a != b;
      RivalsDiffer(tasks, a, b);
    }
  }

  lemma RivalsDiffer(tasks: seq<Task>, a: Task, b: Task)
    requires Latest(tasks, a) && Latest(tasks, b) && !Plausible(a) && a != b
    ensures !OrderFree(tasks)
  {
    var s1 := SortWithHead(tasks, a);
    var s2 := SortWithHead(tasks, b);
    var k1 := SomeCut(s1, 1);
    var k2 := SomeCut(s2, 1);
    SameBag(s1, tasks, b);
    var j :| 0 <= j < |s1| && s1[j] == b;
    assert s1[1].end >= b.end;
    HeadIsLatest(s1, tasks);
    SameBag(s1, tasks, s1[1]);
    HeadOnly(s1, k1);
    assert s1[..k1] == [a] && s2[..k2][0] == b;
    assert b !in multiset(s1[..k1]) && b in multiset(s2[..k2]);
  }

  /** Both conditions fail: two sorts of the same two tasks are cut at one and at two, and
      the longer job is not its component. */
  lemma ImplausibleOrderMatters()
    ensures exists s1: seq<Task>, s2: seq<Task> ::
              SortOf(s1, s2) && SortOf(s2, s1) && IsCut(s1, 1) && IsCut(s2, 2)
              && !forall t :: t in s2[..2] <==> Linked(s2, s2[0], t)
  {
    var a := Task(10000.0, 0.0, "OK", 101, "a");
    var b := Task(0.0, 0.0, "OK", 102, "b");
    assert multiset([a, b]) == multiset([b, a]);
    assert SortOf([a, b], [b, a]) && SortOf([b, a], [a, b]) && IsCut([a, b], 1) && IsCut([b, a], 2);
    assert !Reached([b, a], 1);
    JobIsComponentIff([b, a], 2);
  }

  // ---------------------------------------------------------------- the code

  // One admissible choice of what sort.Slice may do with ties: keep them in order.
  method SortByEnd(tasks: seq<Task>) returns (s: seq<Task>)
    ensures SortOf(s, tasks)
  {
    s := [];
    for i := 0 to |tasks|
      invariant SortOf(s, tasks[..i])
    {
      assert tasks[..i + 1] == tasks[..i] + [tasks[i]];
      s := Insert(s, tasks[i]);
    }
    assert tasks[..|tasks|] == tasks;
  }

  method Insert(s: seq<Task>, t: Task) returns (r: seq<Task>)
    requires EndsDescending(s)
    ensures EndsDescending(r) && multiset(r) == multiset(s) + multiset{t}
  {
    var j := |s|;
    while j > 0 && s[j - 1].end < t.end
      invariant 0 <= j <= |s|
      invariant forall m :: j <= m < |s| ==> s[m].end < t.end
    {
      j := j - 1;
    }
    r := s[..j] + [t] + s[j..];
    InsertedSorted(s, j, t);
    InsertedBag(s, j, t);
  }

  lemma InsertedSorted(s: seq<Task>, j: nat, t: Task)
    requires j <= |s| && EndsDescending(s)
    requires forall m :: j <= m < |s| ==> s[m].end < t.end
    requires j > 0 ==> s[j - 1].end >= t.end
    ensures EndsDescending(s[..j] + [t] + s[j..])
  {
    var r := s[..j] + [t] + s[j..];
    forall a, b | 0 <= a < b < |r| ensures r[a].end >= r[b].end {
      var x := if a < j then a else a - 1;
      var y := if b < j then b else b - 1;
      if a == j {
        assert r[b] == s[y];
      } else if b == j {
        assert r[a] == s[a] && s[a].end >= s[j - 1].end;
      } else {
        assert r[a] == s[x] && r[b] == s[y];
      }
    }
  }

  lemma InsertedBag(s: seq<Task>, j: nat, t: Task)
    requires j <= |s|
    ensures multiset(s[..j] + [t] + s[j..]) == multiset(s) + multiset{t}
  {
    assert s == s[..j] + s[j..];
  }

  // Some task before the i-th starts at most the gap after its end.
  ghost predicate GapAtMost(s: seq<Task>, i: nat, gap: real)
    requires i < |s|
  {
    exists j :: 0 <= j < i && s[j].start <= s[i].end + gap
  }

  lemma CutMeans(s: seq<Task>, k: nat)
    requires IsCut(s, k)
    ensures k < |s| ==> forall i :: 0 <= i < k ==> s[k].end + 7200.0 < s[i].start
    ensures forall i :: 1 <= i < k ==> GapAtMost(s, i, 7200.0)
  {
    if k < |s| { var least := LowStartIsLeast(s, k); }
    forall i | 1 <= i < k ensures GapAtMost(s, i, 7200.0) {
      assert Joins(s, i);
      var j := LowStartIsLeast(s, i);
    }
  }

  // The grouping loop.
  method GroupLastJob(finished: seq<Task>) returns (jobTasks: seq<Task>)
    requires finished != []
    ensures IsCut(finished, |jobTasks|) && jobTasks == finished[..|jobTasks|]
    ensures |jobTasks| < |finished| ==>
              forall i :: 0 <= i < |jobTasks| ==> finished[|jobTasks|].end + 7200.0 < finished[i].start
    ensures forall i :: 1 <= i < |jobTasks| ==> GapAtMost(finished, i, 7200.0)
  {
    jobTasks := [];
    var prevStart := finished[0].start;
    for i := 0 to |finished|
      invariant jobTasks == finished[..i]
      invariant prevStart == if i == 0 then finished[0].start else LowStart(finished, i)
      invariant forall m :: 1 <= m < i ==> Joins(finished, m)
    {
      var t := finished[i];
      if |jobTasks| > 0 && prevStart - t.end > MAX_GAP {
        break;
      }
      jobTasks := jobTasks + [t];
      if t.start < prevStart {
        prevStart := t.start;
      }
    }
    CutMeans(finished, |jobTasks|);
  }

  // The VM of this task has a row, from a task that ended no earlier.
  ghost predicate HasRow(rows: seq<Task>, t: Task) {
    exists i :: 0 <= i < |rows| && rows[i].vmid == t.vmid && rows[i].end >= t.end
  }

  // The rows are right for the first i tasks of the job.
  ghost predicate RowsFor(rows: seq<Task>, jobTasks: seq<Task>, i: nat)
    requires i <= |jobTasks|
  {
    && OneRowPerVM(rows) && RowsFrom(rows, jobTasks[..i])
    && forall m :: 0 <= m < i && jobTasks[m].vmid != 0 ==> HasRow(rows, jobTasks[m])
  }

  // The rows: each VM once.
  method RowsOf(jobTasks: seq<Task>) returns (rows: seq<Task>)
    requires EndsDescending(jobTasks)
    ensures OneRowPerVM(rows) && RowsFrom(rows, jobTasks)
    ensures forall m :: 0 <= m < |jobTasks| && jobTasks[m].vmid != 0 ==> HasRow(rows, jobTasks[m])
  {
    var seen: set<int> := {};
    rows := [];
    for i := 0 to |jobTasks|
      invariant RowsFor(rows, jobTasks, i)
      invariant forall v :: v in seen <==> RowOf(rows, v)
    {
      var t := jobTasks[i];
      if t.vmid == 0 || t.vmid in seen {
        SkippedTask(rows, jobTasks, i);
        continue;
      }
      NewRow(rows, jobTasks, i);
      rows := rows + [t];
      seen := seen + {t.vmid};
    }
    assert jobTasks[..|jobTasks|] == jobTasks;
  }

  lemma SkippedTask(rows: seq<Task>, jobTasks: seq<Task>, i: nat)
    requires EndsDescending(jobTasks) && i < |jobTasks| && RowsFor(rows, jobTasks, i)
    requires jobTasks[i].vmid == 0 || RowOf(rows, jobTasks[i].vmid)
    ensures RowsFor(rows, jobTasks, i + 1)
  {
    if jobTasks[i].vmid != 0 { LaterOfVM(jobTasks, i, rows); }
    RowsFromGrow(rows, jobTasks, i);
  }

  lemma NewRow(rows: seq<Task>, jobTasks: seq<Task>, i: nat)
    requires i < |jobTasks| && RowsFor(rows, jobTasks, i)
    requires jobTasks[i].vmid != 0 && !RowOf(rows, jobTasks[i].vmid)
    ensures RowsFor(rows + [jobTasks[i]], jobTasks, i + 1)
    ensures forall v :: RowOf(rows + [jobTasks[i]], v) <==> RowOf(rows, v) || v == jobTasks[i].vmid
  {
    var t := jobTasks[i];
    FirstOfVM(rows, t);
    forall m | 0 <= m < i && jobTasks[m].vmid != 0 ensures HasRow(rows + [t], jobTasks[m]) {
      HasRowGrows(rows, t, jobTasks[m]);
    }
    RowsFromGrow(rows + [t], jobTasks, i);
  }

  ghost predicate OneRowPerVM(rows: seq<Task>) {
    forall i, j :: 0 <= i < j < |rows| ==> rows[i].vmid != rows[j].vmid
  }

  ghost predicate RowsFrom(rows: seq<Task>, jobTasks: seq<Task>) {
    forall i :: 0 <= i < |rows| ==> rows[i].vmid != 0 && rows[i] in jobTasks
  }

  ghost predicate RowOf(rows: seq<Task>, vmid: int) { exists i :: 0 <= i < |rows| && rows[i].vmid == vmid }

  lemma FirstOfVM(rows: seq<Task>, t: Task)
    requires OneRowPerVM(rows) && !RowOf(rows, t.vmid)
    ensures OneRowPerVM(rows + [t]) && HasRow(rows + [t], t)
    ensures forall v :: RowOf(rows + [t], v) <==> RowOf(rows, v) || v == t.vmid
  {
    var after := rows + [t];
    assert after[|rows|] == t;
    forall i, j | 0 <= i < j < |after| ensures after[i].vmid != after[j].vmid {
      assert after[i] == rows[i];
      assert j < |rows| ==> after[j] == rows[j];
    }
    forall v ensures RowOf(after, v) <==> RowOf(rows, v) || v == t.vmid {
      if RowOf(rows, v) {
        var i :| 0 <= i < |rows| && rows[i].vmid == v;
        assert after[i].vmid == v;
      }
    }
  }

  lemma HasRowGrows(rows: seq<Task>, t: Task, u: Task)
    requires HasRow(rows, u)
    ensures HasRow(rows + [t], u)
  {
    var i :| 0 <= i < |rows| && rows[i].vmid == u.vmid && rows[i].end >= u.end;
    assert (rows + [t])[i] == rows[i];
  }

  lemma LaterOfVM(jobTasks: seq<Task>, i: nat, rows: seq<Task>)
    requires EndsDescending(jobTasks) && i < |jobTasks| && RowsFrom(rows, jobTasks[..i])
    requires RowOf(rows, jobTasks[i].vmid)
    ensures HasRow(rows, jobTasks[i])
  {
    var a :| 0 <= a < |rows| && rows[a].vmid == jobTasks[i].vmid;
    var b :| 0 <= b < i && jobTasks[b] == rows[a];
  }

  lemma RowsFromGrow(rows: seq<Task>, jobTasks: seq<Task>, i: nat)
    requires i < |jobTasks|
    requires forall a :: 0 <= a < |rows| ==> rows[a].vmid != 0 && (rows[a] in jobTasks[..i] || rows[a] == jobTasks[i])
    ensures RowsFrom(rows, jobTasks[..i + 1])
  {
    assert jobTasks[..i + 1] == jobTasks[..i] + [jobTasks[i]];
  }

  /** The rows of the last job: each VM of it has exactly one row, from a task of the job no
      other of that VM outlasts; and when the job is the component of the most recently
      ended task. */
  method BackupJobTasks(tasks: seq<Task>) returns (rows: seq<Task>, ghost sorted: seq<Task>, ghost jobTasks: seq<Task>)
    ensures tasks == [] ==> rows == [] && jobTasks == []
    ensures tasks != [] ==> SortOf(sorted, tasks) && sorted != []
    ensures tasks != [] ==> IsCut(sorted, |jobTasks|) && jobTasks == sorted[..|jobTasks|]
    ensures OneRowPerVM(rows) && RowsFrom(rows, jobTasks)
    ensures forall m :: 0 <= m < |jobTasks| && jobTasks[m].vmid != 0 ==> HasRow(rows, jobTasks[m])
    ensures tasks != [] ==>
              ((forall t :: t in jobTasks <==> Linked(sorted, sorted[0], t)) <==> AllReached(sorted, |jobTasks|))
  {
    if tasks == [] {
      return [], [], [];
    }
    var finished := SortByEnd(tasks);
    assert finished != [] by { assert |multiset(finished)| == |multiset(tasks)|; }
    var job := GroupLastJob(finished);
    sorted, jobTasks := finished, job;
    rows := RowsOf(job);
    JobIsComponentIff(sorted, |jobTasks|);
  }
}
