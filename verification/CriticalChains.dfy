/**
  Critical chains, exact slack, and the task order the scheduler relies on.
*/
module CriticalChains {
  import opened Wrappers
  import opened CriticalPath
  import opened CriticalPathTheory

  /** One stop of a chain: a task, and the dependency that fixes its start (none for a start at hour zero). */
  datatype Stop = Stop(task: nat, via: Option<Dependency>)

  /** A chain opens with a task that starts at hour zero, or at the lag of a dependency on an unlisted id. */
  ghost predicate Opens(tasks: seq<Task>, early: seq<real>, stop: Stop)
    requires |early| == |tasks| && stop.task < |tasks|
  {
    match stop.via
    case None => early[stop.task] == 0.0
    case Some(d) =>
      d in tasks[stop.task].predecessors && Position(tasks, d.id) < 0 && early[stop.task] == Lag(d.lagHours)
  }

  /** No time is lost between two consecutive stops. */
  ghost predicate Tight(tasks: seq<Task>, early: seq<real>, a: Stop, b: Stop)
    requires |early| == |tasks| && a.task < |tasks| && b.task < |tasks|
  {
    && b.via.Some?
    && Edge(tasks, a.task, b.task, b.via.value)
    && early[a.task] + Span(tasks[a.task]) + Lag(b.via.value.lagHours) == early[b.task]
  }

  ghost predicate TightChain(tasks: seq<Task>, early: seq<real>, c: seq<Stop>)
    requires |early| == |tasks|
  {
    && |c| > 0
    && (forall k :: 0 <= k < |c| ==> c[k].task < |tasks|)
    && Opens(tasks, early, c[0])
    && (forall k :: 0 < k < |c| ==> Tight(tasks, early, c[k - 1], c[k]))
  }

  /** A tight chain from the start of the project to its end. */
  ghost predicate CompleteChain(tasks: seq<Task>, c: seq<Stop>) {
    && TightChain(tasks, EarlyStarts(tasks), c)
    && var last := c[|c| - 1].task;
       EarlyStarts(tasks)[last] + Span(tasks[last]) == ProjectDuration(tasks)
  }

  ghost predicate OnCompleteChain(tasks: seq<Task>, i: nat) {
    exists c: seq<Stop>, k :: CompleteChain(tasks, c) && 0 <= k < |c| && c[k].task == i
  }

  /** The durations and lags along a chain. */
  function ChainHours(tasks: seq<Task>, c: seq<Stop>): real
    requires forall k :: 0 <= k < |c| ==> c[k].task < |tasks|
  {
    if c == [] then 0.0 else
      var stop := c[|c| - 1];
      ChainHours(tasks, c[..|c| - 1])
        + (if stop.via.Some? then Lag(stop.via.value.lagHours) else 0.0) + Span(tasks[stop.task])
  }

  /** The early and late starts of an ordered network, as the theory describes them. */
  ghost predicate Bounds(tasks: seq<Task>, early: seq<real>, late: seq<real>, P: real) {
    && |early| == |late| == |tasks|
    && (forall i :: 0 <= i < |tasks| ==> StartsEarly(tasks, early, i))
    && (forall i :: 0 <= i < |tasks| ==> EndsLate(tasks, late, i, P))
    && (forall i :: 0 <= i < |tasks| ==> early[i] <= late[i])
  }

  lemma {:induction false} PassesAreBounds(tasks: seq<Task>)
    requires Ordered(tasks)
    ensures Bounds(tasks, EarlyStarts(tasks), LateStarts(tasks), ProjectDuration(tasks))
  {
    EarlyBeforeLate(tasks);
    forall i | 0 <= i < |tasks|
      ensures StartsEarly(tasks, EarlyStarts(tasks), i)
      ensures EndsLate(tasks, LateStarts(tasks), i, ProjectDuration(tasks))
    {
      EarlyStartAt(tasks, i);
      LateStartAt(tasks, i);
    }
  }

  /** The hours along a tight chain are exactly the early finish of its last task. */
  lemma {:induction false} ChainSpansItsFinish(tasks: seq<Task>, early: seq<real>, c: seq<Stop>)
    requires |early| == |tasks| && TightChain(tasks, early, c)
    ensures ChainHours(tasks, c) == early[c[|c| - 1].task] + Span(tasks[c[|c| - 1].task])
  {
    var n := |c| - 1;
    if n > 0 {
      ChainSpansItsFinish(tasks, early, c[..n]);
      assert Tight(tasks, early, c[n - 1], c[n]);
    } else {
      assert c[..0] == [];
    }
  }

  lemma {:induction false} ChainInto(tasks: seq<Task>, early: seq<real>, late: seq<real>, P: real, i: nat)
    returns (c: seq<Stop>)
    requires Ordered(tasks) && Bounds(tasks, early, late, P) && i < |tasks|
    ensures TightChain(tasks, early, c) && c[|c| - 1].task == i
  {
    assert StartsEarly(tasks, early, i);
    if early[i] == 0.0 {
      return [Stop(i, None)];
    }
    var d :| d in tasks[i].predecessors && ReleaseAt(tasks, early, d) == early[i];
    var p := Position(tasks, d.id);
    if p < 0 {
      return [Stop(i, Some(d))];
    }
    var before := ChainInto(tasks, early, late, P, p);
    c := before + [Stop(i, Some(d))];
    assert Edge(tasks, p, i, d);
  }

  lemma {:induction false} ChainOnward(tasks: seq<Task>, early: seq<real>, late: seq<real>, P: real, c: seq<Stop>)
    returns (c': seq<Stop>)
    requires Ordered(tasks) && Bounds(tasks, early, late, P) && TightChain(tasks, early, c)
    requires early[c[|c| - 1].task] == late[c[|c| - 1].task]
    ensures TightChain(tasks, early, c') && c <= c'
    ensures early[c'[|c'| - 1].task] + Span(tasks[c'[|c'| - 1].task]) == P
    decreases |tasks| - c[|c| - 1].task
  {
    var i := c[|c| - 1].task;
    assert EndsLate(tasks, late, i, P);
    if late[i] + Span(tasks[i]) == P {
      return c;
    }
    var next := CriticalSuccessor(tasks, early, late, P, i);
    c' := ChainOnward(tasks, early, late, P, c + [next]);
  }

  lemma {:induction false} CriticalSuccessor(tasks: seq<Task>, early: seq<real>, late: seq<real>, P: real, i: nat)
    returns (next: Stop)
    requires Ordered(tasks) && Bounds(tasks, early, late, P) && i < |tasks|
    requires early[i] == late[i] && late[i] + Span(tasks[i]) != P
    ensures i < next.task < |tasks| && early[next.task] == late[next.task]
    ensures Tight(tasks, early, Stop(i, None), next)
  {
    assert EndsLate(tasks, late, i, P);
    var j, d :| Edge(tasks, i, j, d) && late[i] + Span(tasks[i]) + Lag(d.lagHours) == late[j];
    EdgesGoForward(tasks);
    assert StartsEarly(tasks, early, j);
    assert ReleaseAt(tasks, early, d) <= early[j];
    next := Stop(j, Some(d));
  }

  lemma {:induction false} ChainStopsAreCritical(tasks: seq<Task>, early: seq<real>, late: seq<real>, P: real,
                                                 c: seq<Stop>, k: nat)
    requires Bounds(tasks, early, late, P) && TightChain(tasks, early, c) && k < |c|
    requires early[c[|c| - 1].task] + Span(tasks[c[|c| - 1].task]) == P
    ensures early[c[k].task] == late[c[k].task]
    decreases |c| - k
  {
    assert EndsLate(tasks, late, c[k].task, P);
    if k + 1 < |c| {
      ChainStopsAreCritical(tasks, early, late, P, c, k + 1);
      assert Tight(tasks, early, c[k], c[k + 1]);
    }
  }

  /** A nonempty project has a gap-free chain from its start to its end. */
  lemma {:induction false} CriticalChainExists(tasks: seq<Task>) returns (c: seq<Stop>)
    requires Ordered(tasks) && tasks != []
    ensures CompleteChain(tasks, c)
    ensures ChainHours(tasks, c) == ProjectDuration(tasks)
    ensures forall k :: 0 <= k < |c| ==> CpmSchedule(tasks).tasks[c[k].task].isCritical
  {
    var early, late, P := EarlyStarts(tasks), LateStarts(tasks), ProjectDuration(tasks);
    PassesAreBounds(tasks);
    var i := LastToFinish(tasks);
    c := ChainInto(tasks, early, late, P, i);
    ChainSpansItsFinish(tasks, early, c);
    forall k | 0 <= k < |c| ensures CpmSchedule(tasks).tasks[c[k].task].isCritical {
      ChainStopsAreCritical(tasks, early, late, P, c, k);
      FloatIsNeverClamped(tasks, c[k].task);
    }
  }

  lemma {:induction false} LastToFinish(tasks: seq<Task>) returns (i: nat)
    requires Ordered(tasks) && tasks != []
    ensures i < |tasks| && EarlyStarts(tasks)[i] + Span(tasks[i]) == ProjectDuration(tasks)
  {
    ProjectDurationIsPeak(tasks);
    if ProjectDuration(tasks) == 0.0 {
      EarlyStartAt(tasks, 0);
      return 0;
    }
    i :| 0 <= i < |tasks| && EarlyStarts(tasks)[i] + Span(tasks[i]) == ProjectDuration(tasks);
  }

  /** A task is reported critical exactly when it lies on a gap-free chain through the whole project. */
  lemma {:induction false} CriticalIffOnCompleteChain(tasks: seq<Task>, i: nat)
    requires Ordered(tasks) && i < |tasks|
    ensures CpmSchedule(tasks).tasks[i].isCritical <==>
            OnCompleteChain(tasks, i)
  {
    var early, late, P := EarlyStarts(tasks), LateStarts(tasks), ProjectDuration(tasks);
    PassesAreBounds(tasks);
    FloatIsNeverClamped(tasks, i);
    if early[i] == late[i] {
      var into := ChainInto(tasks, early, late, P, i);
      var c := ChainOnward(tasks, early, late, P, into);
      assert CompleteChain(tasks, c) && c[|into| - 1].task == i;
    }
    forall c: seq<Stop>, k | CompleteChain(tasks, c) && 0 <= k < |c| && c[k].task == i ensures early[i] == late[i] {
      ChainStopsAreCritical(tasks, early, late, P, c, k);
    }
  }

  lemma {:induction false} CriticalIdsMembers(outputs: seq<TaskOutput>, id: string)
    ensures id in CriticalIds(outputs) <==> exists o :: o in outputs && o.isCritical && o.id == id
  {
    if outputs != [] {
      var n := |outputs| - 1;
      CriticalIdsMembers(outputs[..n], id);
      assert outputs == outputs[..n] + [outputs[n]];
    }
  }

  /** The reported critical path names exactly the tasks on gap-free chains. */
  lemma {:induction false} CriticalPathNamesChainTasks(tasks: seq<Task>, i: nat)
    requires Ordered(tasks) && i < |tasks|
    ensures tasks[i].id in CpmSchedule(tasks).criticalPathTaskIds <==> OnCompleteChain(tasks, i)
  {
    CriticalIffOnCompleteChain(tasks, i);
    OnlyOutputOf(tasks, CpmSchedule(tasks).tasks, i);
  }

  lemma {:induction false} OnlyOutputOf(tasks: seq<Task>, outputs: seq<TaskOutput>, i: nat)
    requires DistinctIds(tasks) && |outputs| == |tasks| && i < |tasks|
    requires forall j :: 0 <= j < |tasks| ==> outputs[j].id == tasks[j].id
    ensures tasks[i].id in CriticalIds(outputs) <==> outputs[i].isCritical
  {
    CriticalIdsMembers(outputs, tasks[i].id);
    assert outputs[i] in outputs;
    forall j | 0 <= j < |tasks| && j != i ensures outputs[j].id != tasks[i].id {
      IdsDiffer(tasks, i, j);
    }
  }

  // ---- exact slack --------------------------------------------------------------------

  /** The same tasks with the same dependencies, except that task `k` takes longer by `extra`. */
  ghost predicate Lengthened(tasks: seq<Task>, tasks': seq<Task>, k: nat, extra: real) {
    && |tasks'| == |tasks| && k < |tasks| && extra >= 0.0
    && (forall i :: 0 <= i < |tasks| ==>
          && tasks'[i].id == tasks[i].id
          && tasks'[i].predecessors == tasks[i].predecessors
          && Span(tasks'[i]) == Span(tasks[i]) + if i == k then extra else 0.0)
  }

  lemma {:induction false} SamePosition(tasks: seq<Task>, tasks': seq<Task>, id: string)
    requires |tasks'| == |tasks|
    requires forall i :: 0 <= i < |tasks| ==> tasks'[i].id == tasks[i].id
    ensures Position(tasks', id) == Position(tasks, id)
  {
    if tasks != [] {
      SamePosition(tasks[..|tasks| - 1], tasks'[..|tasks| - 1], id);
    }
  }

  lemma LengthenedIsOrdered(tasks: seq<Task>, tasks': seq<Task>, k: nat, extra: real)
    requires Ordered(tasks) && Lengthened(tasks, tasks', k, extra)
    ensures Ordered(tasks')
    ensures forall id :: Position(tasks', id) == Position(tasks, id)
    ensures forall i, j, d :: Edge(tasks', i, j, d) <==> Edge(tasks, i, j, d)
  {
    forall id ensures Position(tasks', id) == Position(tasks, id) {
      SamePosition(tasks, tasks', id);
    }
    SameIdsAreDistinct(tasks, tasks');
  }

  lemma SameIdsAreDistinct(tasks: seq<Task>, tasks': seq<Task>)
    requires DistinctIds(tasks) && |tasks'| == |tasks|
    requires forall i :: 0 <= i < |tasks| ==> tasks'[i].id == tasks[i].id
    ensures DistinctIds(tasks')
  {
    forall i, j | 0 <= i < j < |tasks| ensures !Clash(tasks', i, j) {
      IdsDiffer(tasks, i, j);
    }
  }

  /** Early hours up to task `k`, then late hours pushed back by `push`, absorb the longer task. */
  lemma PushedIsFeasible(tasks: seq<Task>, tasks': seq<Task>, k: nat, extra: real,
                         early: seq<real>, late: seq<real>, P: real, push: real, s: seq<real>)
    requires Ordered(tasks) && Lengthened(tasks, tasks', k, extra) && Bounds(tasks, early, late, P)
    requires push >= 0.0 && push >= extra - (late[k] - early[k])
    requires |s| == |tasks| && forall i :: 0 <= i < |tasks| ==> s[i] == if i <= k then early[i] else late[i] + push
    ensures Feasible(tasks', s) && FinishesBy(tasks', s, P + push)
  {
    LengthenedIsOrdered(tasks, tasks', k, extra);
    EdgesGoForward(tasks);
    forall j, d | 0 <= j < |tasks| && d in tasks'[j].predecessors ensures ReleaseAt(tasks', s, d) <= s[j] {
      assert StartsEarly(tasks, early, j);
      assert ReleaseAt(tasks, early, d) <= early[j];
      var i := Position(tasks, d.id);
      if i >= 0 {
        assert Edge(tasks, i, j, d);
        assert EndsLate(tasks, late, i, P);
      }
    }
    forall i | 0 <= i < |tasks| ensures s[i] >= 0.0 && s[i] + Span(tasks'[i]) <= P + push {
      assert StartsEarly(tasks, early, i) && EndsLate(tasks, late, i, P);
    }
  }

  /** A schedule of the longer network, pulled forward by `pull`, still keeps the order from task `k` on. */
  lemma PulledKeepsOrder(tasks: seq<Task>, tasks': seq<Task>, k: nat, extra: real,
                         s': seq<real>, P': real, pull: real, s: seq<real>)
    requires Ordered(tasks) && Lengthened(tasks, tasks', k, extra)
    requires Feasible(tasks', s') && FinishesBy(tasks', s', P')
    requires |s| == |tasks|
    requires forall i :: 0 <= i < |tasks| ==> s[i] == s'[i] - pull + if i == k then extra else 0.0
    ensures KeepsOrderFrom(tasks, s, k, P' - pull)
  {
    LengthenedIsOrdered(tasks, tasks', k, extra);
    EdgesGoForward(tasks);
    forall i, j, d | k <= i && Edge(tasks, i, j, d) ensures s[i] + Span(tasks[i]) + Lag(d.lagHours) <= s[j] {
      assert d in tasks'[j].predecessors;
      assert ReleaseAt(tasks', s', d) <= s'[j];
    }
  }

  lemma ShorterStaysFeasible(tasks: seq<Task>, tasks': seq<Task>, k: nat, extra: real, s': seq<real>, P': real)
    requires Ordered(tasks) && Lengthened(tasks, tasks', k, extra)
    requires Feasible(tasks', s') && FinishesBy(tasks', s', P')
    ensures Feasible(tasks, s') && FinishesBy(tasks, s', P')
  {
    LengthenedIsOrdered(tasks, tasks', k, extra);
    forall j, d | 0 <= j < |tasks| && d in tasks[j].predecessors ensures ReleaseAt(tasks, s', d) <= s'[j] {
      assert d in tasks'[j].predecessors;
      assert ReleaseAt(tasks', s', d) <= s'[j];
    }
    forall i | 0 <= i < |tasks| ensures s'[i] + Span(tasks[i]) <= P' {
      assert s'[i] + Span(tasks'[i]) <= P';
    }
  }

  lemma AtMostPushed(tasks: seq<Task>, tasks': seq<Task>, k: nat, extra: real,
                     early: seq<real>, late: seq<real>, P: real, push: real)
    requires Ordered(tasks) && Lengthened(tasks, tasks', k, extra) && Bounds(tasks, early, late, P)
    requires P >= 0.0 && push >= 0.0 && push >= extra - (late[k] - early[k])
    ensures ProjectDuration(tasks') <= P + push
  {
    var s := seq(|tasks|, i requires 0 <= i < |tasks| => if i <= k then early[i] else late[i] + push);
    PushedIsFeasible(tasks, tasks', k, extra, early, late, P, push, s);
    LengthenedIsOrdered(tasks, tasks', k, extra);
    NoSoonerThan(tasks', s, P + push);
  }

  /** Schedule `s'` of the longer network ends at `P'`: later than before by at least the hours beyond the float. */
  lemma {:induction false} AtLeastPushed(tasks: seq<Task>, tasks': seq<Task>, k: nat, extra: real, s': seq<real>,
                                         P': real)
    requires Ordered(tasks) && Lengthened(tasks, tasks', k, extra)
    requires Feasible(tasks', s') && FinishesBy(tasks', s', P') && P' >= 0.0
    ensures ProjectDuration(tasks) <= P'
    ensures ProjectDuration(tasks) + extra - (LateStarts(tasks)[k] - EarlyStarts(tasks)[k]) <= P'
  {
    ShorterStaysFeasible(tasks, tasks', k, extra, s', P');
    NoSoonerThan(tasks, s', P');
    var pull := P' - ProjectDuration(tasks);
    var s := seq(|tasks|, i requires 0 <= i < |tasks| => s'[i] - pull + if i == k then extra else 0.0);
    PulledKeepsOrder(tasks, tasks', k, extra, s', P', pull, s);
    BelowLate(tasks, s, k);
    assert s[k] == s'[k] - pull + extra;
  }

  lemma {:induction false} EarlyScheduleOf(tasks: seq<Task>) returns (s: seq<real>, P: real)
    requires Ordered(tasks)
    ensures P == ProjectDuration(tasks) && P >= 0.0 && Feasible(tasks, s) && FinishesBy(tasks, s, P)
  {
    EarlyScheduleIsLeast(tasks);
    ProjectDurationIsPeak(tasks);
    s, P := EarlyStarts(tasks), ProjectDuration(tasks);
  }

  /**
    Total float is exact slack.  Replace the hours of one task so that it takes `extra` hours
    longer and schedule again: the project ends later by the part of `extra` beyond the float,
    and not at all when the float covers it.
  */
  lemma {:induction false} TotalFloatIsExactSlack(tasks: seq<Task>, k: nat, hours: real)
    requires Ordered(tasks) && k < |tasks|
    requires Span(tasks[k].(durationHours := hours)) >= Span(tasks[k])
    ensures var tasks' := tasks[k := tasks[k].(durationHours := hours)];
      var beyond := Span(tasks'[k]) - Span(tasks[k]) - CpmSchedule(tasks).tasks[k].totalFloat;
      ProjectDuration(tasks') == ProjectDuration(tasks) + if beyond > 0.0 then beyond else 0.0
  {
    var tasks' := tasks[k := tasks[k].(durationHours := hours)];
    var extra := Span(tasks'[k]) - Span(tasks[k]);
    LengthenedIsOrdered(tasks, tasks', k, extra);
    FloatIsNeverClamped(tasks, k);
    PassesAreBounds(tasks);
    var beyond := extra - CpmSchedule(tasks).tasks[k].totalFloat;
    var s, P := EarlyScheduleOf(tasks);
    var s', P' := EarlyScheduleOf(tasks');
    AtMostPushed(tasks, tasks', k, extra, EarlyStarts(tasks), LateStarts(tasks), P,
                 if beyond > 0.0 then beyond else 0.0);
    AtLeastPushed(tasks, tasks', k, extra, s', P');
  }

  // ---- the order the passes assume ------------------------------------------------------

  /** Two networks with the same ids and the same dependencies, whatever the hours and lags. */
  ghost predicate SameShape(tasks: seq<Task>, tasks': seq<Task>) {
    && |tasks'| == |tasks|
    && (forall i :: 0 <= i < |tasks| ==> tasks'[i].id == tasks[i].id)
    && (forall i :: 0 <= i < |tasks| ==> SameIds(tasks[i].predecessors, tasks'[i].predecessors))
  }

  ghost predicate SameIds(preds: seq<Dependency>, preds': seq<Dependency>) {
    |preds| == |preds'| && forall e :: 0 <= e < |preds| ==> preds'[e].id == preds[e].id
  }

  /** A task of the given hours whose dependencies have no lag. */
  function Plain(t: Task, hours: real): Task {
    Task(t.id, hours,
         seq(|t.predecessors|, e requires 0 <= e < |t.predecessors| => Dependency(t.predecessors[e].id, None, None)),
         false)
  }

  lemma {:induction false} PlainTasksStayAtZero(tasks: seq<Task>)
    requires forall t :: t in tasks ==> Span(t) == 0.0
    requires forall t, d :: t in tasks && d in t.predecessors ==> Lag(d.lagHours) == 0.0
    ensures forall id :: id in Forward(tasks).finish ==> Forward(tasks).finish[id] == 0.0
  {
    if tasks != [] {
      var n := |tasks| - 1;
      assert tasks == tasks[..n] + [tasks[n]];
      PlainTasksStayAtZero(tasks[..n]);
    }
  }

  lemma SameShapeIsOrdered(tasks: seq<Task>, tasks': seq<Task>)
    requires Ordered(tasks) && SameShape(tasks, tasks')
    ensures Ordered(tasks')
  {
    SameIdsAreDistinct(tasks, tasks');
    forall i, d' | 0 <= i < |tasks| && d' in tasks'[i].predecessors ensures Position(tasks', d'.id) < i {
      SamePosition(tasks, tasks', d'.id);
      var e :| 0 <= e < |tasks'[i].predecessors| && tasks'[i].predecessors[e] == d';
      assert SameIds(tasks[i].predecessors, tasks'[i].predecessors);
      assert tasks[i].predecessors[e] in tasks[i].predecessors;
    }
  }

  /** A dependency on a task listed at or after its own position is broken for some choice of hours. */
  lemma {:induction false} MisplacedDependencyIsBroken(tasks: seq<Task>, i: nat, d: Dependency)
    returns (tasks': seq<Task>)
    requires DistinctIds(tasks) && i < |tasks| && d in tasks[i].predecessors && Position(tasks, d.id) >= i
    ensures SameShape(tasks, tasks') && !Feasible(tasks', EarlyStarts(tasks'))
  {
    var p := Position(tasks, d.id);
    tasks' := seq(|tasks|, j requires 0 <= j < |tasks| => Plain(tasks[j], if j == p then 1.0 else 0.0));
    forall j | 0 <= j < |tasks| ensures SameIds(tasks[j].predecessors, tasks'[j].predecessors) {
    }
    SamePosition(tasks, tasks', d.id);
    SameIdsAreDistinct(tasks, tasks');
    var e :| 0 <= e < |tasks[i].predecessors| && tasks[i].predecessors[e] == d;
    var d' := tasks'[i].predecessors[e];
    assert d' in tasks'[i].predecessors && d'.id == d.id;
    StartsAtZero(tasks', i);
    BrokenAt(tasks', EarlyStarts(tasks'), i, p, d');
  }

  lemma StartsAtZero(tasks: seq<Task>, i: nat)
    requires DistinctIds(tasks) && i < |tasks|
    requires forall j :: 0 <= j < i ==> Span(tasks[j]) == 0.0
    requires forall t, d :: t in tasks && d in t.predecessors ==> Lag(d.lagHours) == 0.0
    ensures EarlyStarts(tasks)[i] == 0.0
  {
    PlainTasksStayAtZero(tasks[..i]);
    ForwardKeeps(tasks, i, |tasks|);
    assert tasks[..|tasks|] == tasks;
  }

  lemma BrokenAt(tasks: seq<Task>, s: seq<real>, i: nat, p: nat, d: Dependency)
    requires |s| == |tasks| && i < |tasks| && d in tasks[i].predecessors
    requires Position(tasks, d.id) == p && Span(tasks[p]) == 1.0 && Lag(d.lagHours) == 0.0 && s[i] == 0.0
    ensures !Feasible(tasks, s)
  {
    if s[p] >= 0.0 {
      assert ReleaseAt(tasks, s, d) > s[i];
    }
  }

  /**
    The computed start hours obey every dependency, whatever the durations and lags, exactly
    when no task is listed before a task it waits for.
  */
  lemma {:induction false} EarlyStartsObeyOrderIff(tasks: seq<Task>)
    requires DistinctIds(tasks)
    ensures Ordered(tasks) <==> forall tasks' :: SameShape(tasks, tasks') ==> Feasible(tasks', EarlyStarts(tasks'))
  {
    if Ordered(tasks) {
      forall tasks' | SameShape(tasks, tasks') ensures Feasible(tasks', EarlyStarts(tasks')) {
        SameShapeIsOrdered(tasks, tasks');
        EarlyScheduleIsLeast(tasks');
      }
    } else {
      var i, d :| 0 <= i < |tasks| && d in tasks[i].predecessors && Position(tasks, d.id) >= i;
      var tasks' := MisplacedDependencyIsBroken(tasks, i, d);
    }
  }
}
