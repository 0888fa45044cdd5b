/**
  What the two passes of the scheduler mean.

  A candidate schedule is one start hour per task.  Over every network whose tasks are listed
  after their predecessors, the early starts are the least feasible schedule, the late starts
  the greatest one that keeps the project duration, a task is critical exactly when it lies on
  a gap-free chain through the whole project, and total float is exact slack.
*/
module CriticalPathTheory {
  import opened CriticalPath

  /** The position of the task named `id`, or -1 when no task has that id. */
  function Position(tasks: seq<Task>, id: string): (p: int)
    ensures -1 <= p < |tasks|
    ensures p >= 0 ==> tasks[p].id == id
    ensures p < 0 ==> forall t :: t in tasks ==> t.id != id
  {
    if tasks == [] then -1
    else if tasks[|tasks| - 1].id == id then |tasks| - 1
    else Position(tasks[..|tasks| - 1], id)
  }

  ghost predicate Clash(tasks: seq<Task>, i: nat, j: nat)
    requires i < |tasks| && j < |tasks|
  {
    tasks[i].id == tasks[j].id
  }

  ghost predicate DistinctIds(tasks: seq<Task>) {
    forall i, j {:trigger Clash(tasks, i, j)} :: 0 <= i < j < |tasks| ==> !Clash(tasks, i, j)
  }

  lemma IdsDiffer(tasks: seq<Task>, i: nat, j: nat)
    requires DistinctIds(tasks) && i < |tasks| && j < |tasks| && i != j
    ensures tasks[i].id != tasks[j].id
  {
    assert !Clash(tasks, if i < j then i else j, if i < j then j else i);
  }

  /** The order the passes assume: a predecessor that is listed at all is listed earlier. */
  ghost predicate Ordered(tasks: seq<Task>) {
    && DistinctIds(tasks)
    && forall i, d :: 0 <= i < |tasks| && d in tasks[i].predecessors ==> Position(tasks, d.id) < i
  }

  /** Task `j` waits for task `i` by its dependency `d`. */
  ghost predicate Edge(tasks: seq<Task>, i: int, j: int, d: Dependency) {
    0 <= i < |tasks| && 0 <= j < |tasks| && d in tasks[j].predecessors && d.id == tasks[i].id
  }

  /** The hour `d` releases its task when the tasks start at hours `s`; an unlisted id is done at hour zero. */
  function ReleaseAt(tasks: seq<Task>, s: seq<real>, d: Dependency): real
    requires |s| == |tasks|
  {
    var p := Position(tasks, d.id);
    (if p >= 0 then s[p] + Span(tasks[p]) else 0.0) + Lag(d.lagHours)
  }

  /** No task starts before hour zero or before one of its dependencies releases it. */
  ghost predicate Feasible(tasks: seq<Task>, s: seq<real>) {
    && |s| == |tasks|
    && (forall i :: 0 <= i < |s| ==> s[i] >= 0.0)
    && forall i, d :: 0 <= i < |tasks| && d in tasks[i].predecessors ==> ReleaseAt(tasks, s, d) <= s[i]
  }

  ghost predicate FinishesBy(tasks: seq<Task>, s: seq<real>, hour: real)
    requires |s| == |tasks|
  {
    forall i :: 0 <= i < |tasks| ==> s[i] + Span(tasks[i]) <= hour
  }

  function EarlyStarts(tasks: seq<Task>): (s: seq<real>)
    ensures |s| == |tasks|
  {
    seq(|tasks|, i requires 0 <= i < |tasks| => GetOr(Forward(tasks).start, tasks[i].id, 0.0))
  }

  function LateStarts(tasks: seq<Task>): (s: seq<real>)
    ensures |s| == |tasks|
  {
    seq(|tasks|, i requires 0 <= i < |tasks| => GetOr(Late(tasks).start, tasks[i].id, 0.0))
  }

  // ---- what the maps hold -------------------------------------------------------------

  lemma {:induction false} ForwardKeeps(tasks: seq<Task>, i: nat, k: nat)
    requires DistinctIds(tasks) && i < k <= |tasks|
    ensures tasks[i].id in Forward(tasks[..k]).start
    ensures Forward(tasks[..k]).start[tasks[i].id] == Started(Forward(tasks[..i]), tasks[i]).start[tasks[i].id]
    ensures Forward(tasks[..k]).finish[tasks[i].id] == Started(Forward(tasks[..i]), tasks[i]).finish[tasks[i].id]
  {
    ForwardStep(tasks, k - 1);
    if i < k - 1 {
      IdsDiffer(tasks, i, k - 1);
      ForwardKeeps(tasks, i, k - 1);
    }
  }

  lemma PositionOf(tasks: seq<Task>, i: nat)
    requires DistinctIds(tasks) && i < |tasks|
    ensures Position(tasks, tasks[i].id) == i
  {
    if Position(tasks, tasks[i].id) != i {
      IdsDiffer(tasks, Position(tasks, tasks[i].id), i);
    }
  }

  lemma ReleaseInPrefix(tasks: seq<Task>, i: nat, d: Dependency)
    requires Ordered(tasks) && i < |tasks| && d in tasks[i].predecessors
    ensures Release(d, Forward(tasks[..i]).finish) == ReleaseAt(tasks, EarlyStarts(tasks), d)
  {
    var p := Position(tasks, d.id);
    assert tasks[..|tasks|] == tasks;
    if p >= 0 {
      ForwardKeeps(tasks, p, i);
      ForwardKeeps(tasks, p, |tasks|);
    } else {
      assert d.id !in Ids(tasks[..i]);
    }
  }

  /** In schedule `s`, task `i` starts at the least hour at or after zero and all its releases. */
  ghost predicate StartsEarly(tasks: seq<Task>, s: seq<real>, i: nat)
    requires |s| == |tasks| && i < |tasks|
  {
    && s[i] >= 0.0
    && (forall d :: d in tasks[i].predecessors ==> ReleaseAt(tasks, s, d) <= s[i])
    && (s[i] == 0.0 || exists d :: d in tasks[i].predecessors && ReleaseAt(tasks, s, d) == s[i])
  }

  lemma EarlyStartAt(tasks: seq<Task>, i: nat)
    requires Ordered(tasks) && i < |tasks|
    ensures StartsEarly(tasks, EarlyStarts(tasks), i)
  {
    assert tasks[..|tasks|] == tasks;
    ForwardKeeps(tasks, i, |tasks|);
    forall d | d in tasks[i].predecessors
      ensures Release(d, Forward(tasks[..i]).finish) == ReleaseAt(tasks, EarlyStarts(tasks), d)
    {
      ReleaseInPrefix(tasks, i, d);
    }
  }

  lemma {:induction false} ProjectDurationIsPeak(tasks: seq<Task>)
    requires DistinctIds(tasks)
    ensures var s, P := EarlyStarts(tasks), ProjectDuration(tasks);
      && P >= 0.0
      && FinishesBy(tasks, s, P)
      && (P == 0.0 || exists i :: 0 <= i < |tasks| && s[i] + Span(tasks[i]) == P)
  {
    var m := Forward(tasks).finish;
    assert tasks[..|tasks|] == tasks;
    forall i | 0 <= i < |tasks|
      ensures tasks[i].id in m && m[tasks[i].id] == EarlyStarts(tasks)[i] + Span(tasks[i])
    {
      ForwardKeeps(tasks, i, |tasks|);
    }
    var P := ProjectDuration(tasks);
    if P != 0.0 {
      var id :| id in m && m[id] == P;
      var t :| t in tasks && t.id == id;
      var i :| 0 <= i < |tasks| && tasks[i] == t;
    }
  }

  lemma {:induction false} EntriesMembers(t: Task, preds: seq<Dependency>, id: string)
    ensures forall d :: d in preds && d.id == id ==> Successor(t.id, d.lagHours) in SuccessorEntries(t, preds, id)
    ensures forall s :: s in SuccessorEntries(t, preds, id) ==>
              s.id == t.id && exists d :: d in preds && d.id == id && d.lagHours == s.lagHours
  {
    if preds != [] {
      var n := |preds| - 1;
      EntriesMembers(t, preds[..n], id);
      assert preds == preds[..n] + [preds[n]];
    }
  }

  lemma {:induction false} SuccessorsMembers(tasks: seq<Task>, i: nat, n: nat)
    requires i < |tasks| && n <= |tasks|
    ensures forall j, d :: j < n && Edge(tasks, i, j, d) ==>
              Successor(tasks[j].id, d.lagHours) in SuccessorsOf(tasks[..n], tasks[i].id)
    ensures forall s :: s in SuccessorsOf(tasks[..n], tasks[i].id) ==>
              exists j, d :: Edge(tasks, i, j, d) && s == Successor(tasks[j].id, d.lagHours)
  {
    if n > 0 {
      var id, m := tasks[i].id, n - 1;
      SuccessorsMembers(tasks, i, m);
      SuccessorsStep(tasks, m, id);
      EntriesMembers(tasks[m], tasks[m].predecessors, id);
      forall s | s in SuccessorEntries(tasks[m], tasks[m].predecessors, id)
        ensures exists j, d :: Edge(tasks, i, j, d) && s == Successor(tasks[j].id, d.lagHours)
      {
        var d :| d in tasks[m].predecessors && d.id == id && d.lagHours == s.lagHours;
        assert Edge(tasks, i, m, d);
      }
    }
  }

  lemma {:induction false} BackwardKeeps(tasks: seq<Task>, from: nat, i: nat, P: real)
    requires DistinctIds(tasks) && from <= i < |tasks|
    ensures tasks[i].id in Backward(tasks, from, P).start
    ensures Backward(tasks, from, P).start[tasks[i].id] == Backward(tasks, i, P).start[tasks[i].id]
    decreases i - from
  {
    if from < i {
      IdsDiffer(tasks, from, i);
      BackwardKeeps(tasks, from + 1, i, P);
    }
  }

  lemma EdgesGoForward(tasks: seq<Task>)
    requires Ordered(tasks)
    ensures forall i, j, d :: Edge(tasks, i, j, d) ==> i < j && Position(tasks, d.id) == i
  {
    forall i, j, d | Edge(tasks, i, j, d) ensures i < j && Position(tasks, d.id) == i {
      PositionOf(tasks, i);
    }
  }

  lemma LateStartFrom(tasks: seq<Task>, from: nat, i: nat)
    requires DistinctIds(tasks) && from <= i < |tasks|
    ensures GetOr(Backward(tasks, from, ProjectDuration(tasks)).start, tasks[i].id, ProjectDuration(tasks))
         == LateStarts(tasks)[i]
  {
    BackwardKeeps(tasks, from, i, ProjectDuration(tasks));
    BackwardKeeps(tasks, 0, i, ProjectDuration(tasks));
  }

  /** In schedule `s`, task `i` ends at the latest hour that suits the project end `P` and its successors. */
  ghost predicate EndsLate(tasks: seq<Task>, s: seq<real>, i: nat, P: real)
    requires |s| == |tasks| && i < |tasks|
  {
    var end := s[i] + Span(tasks[i]);
    && end <= P
    && (forall j, d :: Edge(tasks, i, j, d) ==> end + Lag(d.lagHours) <= s[j])
    && (end == P || exists j, d :: Edge(tasks, i, j, d) && end + Lag(d.lagHours) == s[j])
  }

  lemma LateStartAt(tasks: seq<Task>, i: nat)
    requires Ordered(tasks) && i < |tasks|
    ensures EndsLate(tasks, LateStarts(tasks), i, ProjectDuration(tasks))
  {
    LateStartFrom(tasks, i, i);
    forall j | i < j < |tasks|
      ensures GetOr(Backward(tasks, i + 1, ProjectDuration(tasks)).start, tasks[j].id, ProjectDuration(tasks))
           == LateStarts(tasks)[j]
    {
      LateStartFrom(tasks, i + 1, j);
    }
    var later := Backward(tasks, i + 1, ProjectDuration(tasks)).start;
    FinishMeetsDeadlines(tasks, LateStarts(tasks), i, ProjectDuration(tasks), later);
  }

  lemma FinishMeetsDeadlines(tasks: seq<Task>, s: seq<real>, i: nat, P: real, later: map<string, real>)
    requires Ordered(tasks) && |s| == |tasks| && i < |tasks|
    requires s[i] + Span(tasks[i]) == LatestFinish(SuccessorsOf(tasks, tasks[i].id), later, P)
    requires forall j :: i < j < |tasks| ==> GetOr(later, tasks[j].id, P) == s[j]
    ensures EndsLate(tasks, s, i, P)
  {
    var succs, end := SuccessorsOf(tasks, tasks[i].id), s[i] + Span(tasks[i]);
    EdgesGoForward(tasks);
    assert tasks[..|tasks|] == tasks;
    SuccessorsMembers(tasks, i, |tasks|);
    forall j, d | Edge(tasks, i, j, d) ensures end + Lag(d.lagHours) <= s[j] {
      assert Successor(tasks[j].id, d.lagHours) in succs;
    }
    if end != P {
      var e :| e in succs && end == Deadline(e, later, P);
      var j, d :| Edge(tasks, i, j, d) && e == Successor(tasks[j].id, d.lagHours);
      assert end + Lag(d.lagHours) == s[j];
    }
  }

  // ---- optimality ---------------------------------------------------------------------

  lemma {:induction false} LeastUpTo(tasks: seq<Task>, early: seq<real>, s: seq<real>, n: nat)
    requires Ordered(tasks) && |early| == |tasks| && Feasible(tasks, s) && n <= |tasks|
    requires forall i :: 0 <= i < |tasks| ==> StartsEarly(tasks, early, i)
    ensures forall i :: 0 <= i < n ==> early[i] <= s[i]
  {
    if n > 0 {
      var i := n - 1;
      LeastUpTo(tasks, early, s, i);
      assert StartsEarly(tasks, early, i);
      if early[i] != 0.0 {
        var d :| d in tasks[i].predecessors && ReleaseAt(tasks, early, d) == early[i];
        assert ReleaseAt(tasks, s, d) <= s[i];
        assert Position(tasks, d.id) < i;
      }
    }
  }

  lemma StartingEarlyIsFeasible(tasks: seq<Task>, early: seq<real>)
    requires |early| == |tasks|
    requires forall i :: 0 <= i < |tasks| ==> StartsEarly(tasks, early, i)
    ensures Feasible(tasks, early)
  {
    forall i, d | 0 <= i < |tasks| && d in tasks[i].predecessors ensures ReleaseAt(tasks, early, d) <= early[i] {
      assert StartsEarly(tasks, early, i);
    }
    forall i | 0 <= i < |tasks| ensures early[i] >= 0.0 {
      assert StartsEarly(tasks, early, i);
    }
  }

  /** The early starts are feasible, below every feasible schedule, and no feasible schedule ends sooner. */
  lemma {:induction false} EarlyScheduleIsLeast(tasks: seq<Task>)
    requires Ordered(tasks)
    ensures Feasible(tasks, EarlyStarts(tasks))
    ensures FinishesBy(tasks, EarlyStarts(tasks), ProjectDuration(tasks))
    ensures forall s, i :: Feasible(tasks, s) && 0 <= i < |tasks| ==> EarlyStarts(tasks)[i] <= s[i]
    ensures forall s, hour: real :: Feasible(tasks, s) && FinishesBy(tasks, s, hour) && hour >= 0.0 ==>
              ProjectDuration(tasks) <= hour
  {
    forall i | 0 <= i < |tasks| ensures StartsEarly(tasks, EarlyStarts(tasks), i) {
      EarlyStartAt(tasks, i);
    }
    ProjectDurationIsPeak(tasks);
    LeastSchedule(tasks, EarlyStarts(tasks), ProjectDuration(tasks));
  }

  /** One feasible schedule bounds the project duration and every early start. */
  lemma NoSoonerThan(tasks: seq<Task>, s: seq<real>, hour: real)
    requires Ordered(tasks) && Feasible(tasks, s) && FinishesBy(tasks, s, hour) && hour >= 0.0
    ensures ProjectDuration(tasks) <= hour
    ensures forall i :: 0 <= i < |tasks| ==> EarlyStarts(tasks)[i] <= s[i]
  {
    EarlyScheduleIsLeast(tasks);
  }

  lemma LeastSchedule(tasks: seq<Task>, early: seq<real>, P: real)
    requires Ordered(tasks) && |early| == |tasks|
    requires forall i :: 0 <= i < |tasks| ==> StartsEarly(tasks, early, i)
    requires P == 0.0 || exists i :: 0 <= i < |tasks| && early[i] + Span(tasks[i]) == P
    ensures Feasible(tasks, early)
    ensures forall s, i :: Feasible(tasks, s) && 0 <= i < |tasks| ==> early[i] <= s[i]
    ensures forall s, hour: real :: Feasible(tasks, s) && FinishesBy(tasks, s, hour) && hour >= 0.0 ==> P <= hour
  {
    StartingEarlyIsFeasible(tasks, early);
    forall s | Feasible(tasks, s)
      ensures forall i :: 0 <= i < |tasks| ==> early[i] <= s[i]
      ensures forall hour: real :: FinishesBy(tasks, s, hour) && hour >= 0.0 ==> P <= hour
    {
      LeastUpTo(tasks, early, s, |tasks|);
    }
  }

  /** Schedule `s` obeys the dependencies on the tasks from `from` on, which end by `hour`. */
  ghost predicate KeepsOrderFrom(tasks: seq<Task>, s: seq<real>, from: nat, hour: real)
    requires |s| == |tasks|
  {
    && (forall i :: from <= i < |tasks| ==> s[i] + Span(tasks[i]) <= hour)
    && forall i, j, d :: from <= i && Edge(tasks, i, j, d) ==> s[i] + Span(tasks[i]) + Lag(d.lagHours) <= s[j]
  }

  lemma {:induction false} GreatestFrom(tasks: seq<Task>, late: seq<real>, s: seq<real>, from: nat, P: real)
    requires Ordered(tasks) && |s| == |late| == |tasks| && from <= |tasks|
    requires forall i :: 0 <= i < |tasks| ==> EndsLate(tasks, late, i, P)
    requires KeepsOrderFrom(tasks, s, from, P)
    ensures forall i :: from <= i < |tasks| ==> s[i] <= late[i]
    decreases |tasks| - from
  {
    if from < |tasks| {
      GreatestFrom(tasks, late, s, from + 1, P);
      assert EndsLate(tasks, late, from, P);
      var end := late[from] + Span(tasks[from]);
      if end != P {
        var j, d :| Edge(tasks, from, j, d) && end + Lag(d.lagHours) == late[j];
        EdgesGoForward(tasks);
        assert s[from] + Span(tasks[from]) + Lag(d.lagHours) <= s[j];
      }
    }
  }

  lemma FeasibleKeepsOrder(tasks: seq<Task>, s: seq<real>, hour: real)
    requires Ordered(tasks) && Feasible(tasks, s) && FinishesBy(tasks, s, hour)
    ensures KeepsOrderFrom(tasks, s, 0, hour)
  {
    EdgesGoForward(tasks);
    forall i, j, d | Edge(tasks, i, j, d) ensures s[i] + Span(tasks[i]) + Lag(d.lagHours) <= s[j] {
      assert ReleaseAt(tasks, s, d) <= s[j];
    }
  }

  /** Any schedule that keeps the dependencies and the project duration lies at or below the late starts. */
  lemma BelowLate(tasks: seq<Task>, s: seq<real>, from: nat)
    requires Ordered(tasks) && |s| == |tasks| && from <= |tasks|
    requires KeepsOrderFrom(tasks, s, from, ProjectDuration(tasks))
    ensures forall i :: from <= i < |tasks| ==> s[i] <= LateStarts(tasks)[i]
  {
    forall i | 0 <= i < |tasks| ensures EndsLate(tasks, LateStarts(tasks), i, ProjectDuration(tasks)) {
      LateStartAt(tasks, i);
    }
    GreatestFrom(tasks, LateStarts(tasks), s, from, ProjectDuration(tasks));
  }

  lemma {:induction false} EarlyBeforeLate(tasks: seq<Task>)
    requires Ordered(tasks)
    ensures forall i :: 0 <= i < |tasks| ==> EarlyStarts(tasks)[i] <= LateStarts(tasks)[i]
  {
    EarlyScheduleIsLeast(tasks);
    FeasibleKeepsOrder(tasks, EarlyStarts(tasks), ProjectDuration(tasks));
    BelowLate(tasks, EarlyStarts(tasks), 0);
  }

  lemma EndingLateKeepsOrder(tasks: seq<Task>, late: seq<real>, P: real)
    requires |late| == |tasks|
    requires forall i :: 0 <= i < |tasks| ==> EndsLate(tasks, late, i, P)
    ensures KeepsOrderFrom(tasks, late, 0, P)
  {
    forall i, j, d | Edge(tasks, i, j, d) ensures late[i] + Span(tasks[i]) + Lag(d.lagHours) <= late[j] {
      assert EndsLate(tasks, late, i, P);
    }
    forall i | 0 <= i < |tasks| ensures late[i] + Span(tasks[i]) <= P {
      assert EndsLate(tasks, late, i, P);
    }
  }

  lemma LateKeepsOrder(tasks: seq<Task>)
    requires Ordered(tasks)
    ensures KeepsOrderFrom(tasks, LateStarts(tasks), 0, ProjectDuration(tasks))
  {
    forall i | 0 <= i < |tasks| ensures EndsLate(tasks, LateStarts(tasks), i, ProjectDuration(tasks)) {
      LateStartAt(tasks, i);
    }
    EndingLateKeepsOrder(tasks, LateStarts(tasks), ProjectDuration(tasks));
  }

  /**
    Taking the early hours up to some position and hours at or above them from there on, all of
    them keeping the order, gives a feasible schedule.
  */
  lemma SplicedIsFeasible(tasks: seq<Task>, early: seq<real>, late: seq<real>, cut: nat, s: seq<real>)
    requires Ordered(tasks) && Feasible(tasks, early) && |late| == |s| == |tasks| && cut <= |tasks|
    requires forall i :: 0 <= i < |tasks| ==> s[i] == if i < cut then early[i] else late[i]
    requires forall i :: cut <= i < |tasks| ==> early[i] <= late[i]
    requires forall i, j, d :: cut <= i && Edge(tasks, i, j, d) ==>
               late[i] + Span(tasks[i]) + Lag(d.lagHours) <= late[j]
    ensures Feasible(tasks, s)
  {
    EdgesGoForward(tasks);
    forall j, d | 0 <= j < |tasks| && d in tasks[j].predecessors ensures ReleaseAt(tasks, s, d) <= s[j] {
      assert ReleaseAt(tasks, early, d) <= early[j];
      var i := Position(tasks, d.id);
      if i >= 0 {
        assert Edge(tasks, i, j, d);
      }
    }
  }

  /**
    The late starts are a feasible schedule that keeps the project duration, and every such
    schedule lies at or below them.
  */
  lemma {:induction false} LateScheduleIsGreatest(tasks: seq<Task>)
    requires Ordered(tasks)
    ensures Feasible(tasks, LateStarts(tasks))
    ensures FinishesBy(tasks, LateStarts(tasks), ProjectDuration(tasks))
    ensures forall s, i :: Feasible(tasks, s) && FinishesBy(tasks, s, ProjectDuration(tasks)) && 0 <= i < |tasks| ==>
              s[i] <= LateStarts(tasks)[i]
  {
    var early, late, P := EarlyStarts(tasks), LateStarts(tasks), ProjectDuration(tasks);
    EarlyBeforeLate(tasks);
    EarlyScheduleIsLeast(tasks);
    LateKeepsOrder(tasks);
    SplicedIsFeasible(tasks, early, late, 0, late);
    forall s | Feasible(tasks, s) && FinishesBy(tasks, s, P) ensures forall i :: 0 <= i < |tasks| ==> s[i] <= late[i] {
      FeasibleKeepsOrder(tasks, s, P);
      BelowLate(tasks, s, 0);
    }
  }

  /** The clamp on total float never acts: both reported floats are late start minus early start. */
  lemma {:induction false} FloatIsNeverClamped(tasks: seq<Task>, i: nat)
    requires Ordered(tasks) && i < |tasks|
    ensures var o := CpmSchedule(tasks).tasks[i]; var early, late := EarlyStarts(tasks), LateStarts(tasks);
      && o.earlyStart == early[i] && o.earlyFinish == early[i] + Span(tasks[i])
      && o.lateStart == late[i] && o.lateFinish == late[i] + Span(tasks[i])
      && 0.0 <= o.totalFloat == o.freeFloat == late[i] - early[i]
      && (o.isCritical <==> early[i] == late[i])
  {
    assert tasks[..|tasks|] == tasks;
    EarlyBeforeLate(tasks);
    ForwardKeeps(tasks, i, |tasks|);
    var P := ProjectDuration(tasks);
    BackwardFinishKeeps(tasks, 0, i, P);
    BackwardKeeps(tasks, 0, i, P);
  }

  lemma {:induction false} BackwardFinishKeeps(tasks: seq<Task>, from: nat, i: nat, P: real)
    requires DistinctIds(tasks) && from <= i < |tasks|
    ensures tasks[i].id in Backward(tasks, from, P).finish
    ensures Backward(tasks, from, P).finish[tasks[i].id] == Backward(tasks, i, P).finish[tasks[i].id]
    decreases i - from
  {
    if from < i {
      IdsDiffer(tasks, from, i);
      BackwardFinishKeeps(tasks, from + 1, i, P);
    }
  }
}
