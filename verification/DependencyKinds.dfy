/**
  What the scheduler makes of dependency types.

  gantt.ts declares four types and reads none of them: every dependency is taken for
  finish-to-start.  The computed hours still obey every dependency under its own type, but they
  may lie later than the types ask for.  An id without a task has started and finished at hour zero.
*/
module DependencyKinds {
  import opened Wrappers
  import opened CriticalPath
  import opened CriticalPathTheory
  import opened CriticalChains

  /** The hour at or after which the type of `d` lets task `t` start, when the tasks start at hours `s`. */
  function KindRelease(tasks: seq<Task>, s: seq<real>, t: Task, d: Dependency): real
    requires |s| == |tasks|
  {
    var p := Position(tasks, d.id);
    var started := if p >= 0 then s[p] else 0.0;
    var finished := if p >= 0 then s[p] + Span(tasks[p]) else 0.0;
    match d.kind
    case None => finished + Lag(d.lagHours)
    case Some(FS) => finished + Lag(d.lagHours)
    case Some(SS) => started + Lag(d.lagHours)
    case Some(FF) => finished + Lag(d.lagHours) - Span(t)
    case Some(SF) => started + Lag(d.lagHours) - Span(t)
  }

  /** No task starts before hour zero or before one of its dependencies, by its type, allows it. */
  ghost predicate KindFeasible(tasks: seq<Task>, s: seq<real>) {
    && |s| == |tasks|
    && (forall i :: 0 <= i < |s| ==> s[i] >= 0.0)
    && forall i, d :: 0 <= i < |tasks| && d in tasks[i].predecessors ==> KindRelease(tasks, s, tasks[i], d) <= s[i]
  }

  /** The computed start hours are the least that obey every dependency under its own type. */
  ghost predicate LeastUnderKinds(tasks: seq<Task>) {
    && KindFeasible(tasks, EarlyStarts(tasks))
    && forall s, i :: KindFeasible(tasks, s) && 0 <= i < |tasks| ==> EarlyStarts(tasks)[i] <= s[i]
  }

  lemma NoKindAsksForMore(tasks: seq<Task>, s: seq<real>, t: Task, d: Dependency)
    requires |s| == |tasks| && forall i :: 0 <= i < |s| ==> s[i] >= 0.0
    ensures KindRelease(tasks, s, t, d) <= ReleaseAt(tasks, s, d)
  {
  }

  /** Taking every dependency for finish-to-start breaks none of them. */
  lemma {:induction false} EveryKindIsObeyed(tasks: seq<Task>)
    requires Ordered(tasks)
    ensures KindFeasible(tasks, EarlyStarts(tasks))
  {
    EarlyScheduleIsLeast(tasks);
    var s := EarlyStarts(tasks);
    forall i, d | 0 <= i < |tasks| && d in tasks[i].predecessors ensures KindRelease(tasks, s, tasks[i], d) <= s[i] {
      NoKindAsksForMore(tasks, s, tasks[i], d);
      assert ReleaseAt(tasks, s, d) <= s[i];
    }
  }

  // ---- one network ------------------------------------------------------------------------

  /** Task `i` starts at hour zero or at the very hour one of its dependencies, by its type, allows it. */
  ghost predicate HeldBack(tasks: seq<Task>, s: seq<real>, i: nat)
    requires |s| == |tasks| && i < |tasks|
  {
    s[i] == 0.0 || exists d :: d in tasks[i].predecessors && KindRelease(tasks, s, tasks[i], d) == s[i]
  }

  lemma {:induction false} HeldBackIsLeast(tasks: seq<Task>, s: seq<real>, other: seq<real>, n: nat)
    requires Ordered(tasks) && |s| == |tasks| && KindFeasible(tasks, other) && n <= |tasks|
    requires forall i :: 0 <= i < |tasks| ==> HeldBack(tasks, s, i)
    ensures forall i :: 0 <= i < n ==> s[i] <= other[i]
  {
    if n > 0 {
      var i := n - 1;
      HeldBackIsLeast(tasks, s, other, i);
      assert HeldBack(tasks, s, i);
      if s[i] != 0.0 {
        var d :| d in tasks[i].predecessors && KindRelease(tasks, s, tasks[i], d) == s[i];
        assert KindRelease(tasks, other, tasks[i], d) <= other[i];
        assert Position(tasks, d.id) < i;
      }
    }
  }

  /** The least hour at or after zero and what the types of `preds` ask for. */
  function KindReady(tasks: seq<Task>, s: seq<real>, t: Task, preds: seq<Dependency>): (ready: real)
    requires |s| == |tasks|
    ensures ready >= 0.0
    ensures forall d :: d in preds ==> KindRelease(tasks, s, t, d) <= ready
    ensures ready == 0.0 || exists d :: d in preds && KindRelease(tasks, s, t, d) == ready
  {
    if preds == [] then 0.0 else
      var n := |preds| - 1;
      var before := KindReady(tasks, s, t, preds[..n]);
      assert preds == preds[..n] + [preds[n]];
      if KindRelease(tasks, s, t, preds[n]) > before then KindRelease(tasks, s, t, preds[n]) else before
  }

  /** A task that nothing holds back can start sooner, all others as before. */
  lemma {:induction false} CanStartSooner(tasks: seq<Task>, s: seq<real>, i: nat)
    requires Ordered(tasks) && KindFeasible(tasks, s) && i < |tasks| && !HeldBack(tasks, s, i)
    ensures var sooner := KindReady(tasks, s, tasks[i], tasks[i].predecessors);
      sooner < s[i] && KindFeasible(tasks, s[i := sooner])
  {
    var sooner := KindReady(tasks, s, tasks[i], tasks[i].predecessors);
    forall j, d | 0 <= j < |tasks| && d in tasks[j].predecessors
      ensures KindRelease(tasks, s[i := sooner], tasks[j], d) <= s[i := sooner][j]
    {
      assert Position(tasks, d.id) < j;
      assert KindRelease(tasks, s, tasks[j], d) <= s[j];
    }
  }

  /**
    On one network the computed hours are the least under the dependency types exactly when every
    task is reported to start at hour zero or at the very hour one of its dependencies asks for.
  */
  lemma {:induction false} LeastUnderKindsHereIff(tasks: seq<Task>)
    requires Ordered(tasks)
    ensures LeastUnderKinds(tasks) <==> forall i :: 0 <= i < |tasks| ==> HeldBack(tasks, EarlyStarts(tasks), i)
  {
    var s := EarlyStarts(tasks);
    EveryKindIsObeyed(tasks);
    if i :| 0 <= i < |tasks| && !HeldBack(tasks, s, i) {
      CanStartSooner(tasks, s, i);
      var sooner := KindReady(tasks, s, tasks[i], tasks[i].predecessors);
      assert s[i := sooner][i] < s[i];
    } else {
      forall other | KindFeasible(tasks, other) ensures forall i :: 0 <= i < |tasks| ==> s[i] <= other[i] {
        HeldBackIsLeast(tasks, s, other, |tasks|);
      }
    }
  }

  // ---- all networks of one shape ------------------------------------------------------------

  /**
    The type asks for what the code computes: it is finish-to-start or missing, or start-to-start on
    an id without a task.
  */
  predicate ReadAsMeant(tasks: seq<Task>, d: Dependency) {
    d.kind.None? || d.kind == Some(FS) || (d.kind == Some(SS) && Position(tasks, d.id) < 0)
  }

  predicate AllReadAsMeant(tasks: seq<Task>) {
    forall t, d :: t in tasks && d in t.predecessors ==> ReadAsMeant(tasks, d)
  }

  /** The same ids, dependencies and dependency types, whatever the hours and lags. */
  ghost predicate SameKinds(tasks: seq<Task>, tasks': seq<Task>) {
    && SameShape(tasks, tasks')
    && forall i :: 0 <= i < |tasks| ==> SameTypes(tasks[i].predecessors, tasks'[i].predecessors)
  }

  ghost predicate SameTypes(preds: seq<Dependency>, preds': seq<Dependency>) {
    |preds| == |preds'| && forall e :: 0 <= e < |preds| ==> preds'[e].kind == preds[e].kind
  }

  lemma SameKindsAreReadAsMeant(tasks: seq<Task>, tasks': seq<Task>)
    requires AllReadAsMeant(tasks) && SameKinds(tasks, tasks')
    ensures AllReadAsMeant(tasks')
  {
    forall i, d' | 0 <= i < |tasks| && d' in tasks'[i].predecessors ensures ReadAsMeant(tasks', d') {
      assert SameIds(tasks[i].predecessors, tasks'[i].predecessors);
      assert SameTypes(tasks[i].predecessors, tasks'[i].predecessors);
      var e :| 0 <= e < |tasks'[i].predecessors| && tasks'[i].predecessors[e] == d';
      assert tasks[i] in tasks && ReadAsMeant(tasks, tasks[i].predecessors[e]);
      SamePosition(tasks, tasks', d'.id);
    }
  }

  lemma ReadAsMeantIsHeldBack(tasks: seq<Task>, s: seq<real>, i: nat)
    requires |s| == |tasks| && i < |tasks| && AllReadAsMeant(tasks) && StartsEarly(tasks, s, i)
    ensures HeldBack(tasks, s, i)
  {
    if s[i] != 0.0 {
      var d :| d in tasks[i].predecessors && ReleaseAt(tasks, s, d) == s[i];
      assert tasks[i] in tasks && ReadAsMeant(tasks, d);
    }
  }

  lemma {:induction false} ReadAsMeantIsLeast(tasks: seq<Task>)
    requires Ordered(tasks) && AllReadAsMeant(tasks)
    ensures LeastUnderKinds(tasks)
  {
    LeastUnderKindsHereIff(tasks);
    forall i | 0 <= i < |tasks| ensures HeldBack(tasks, EarlyStarts(tasks), i) {
      EarlyStartAt(tasks, i);
      ReadAsMeantIsHeldBack(tasks, EarlyStarts(tasks), i);
    }
  }

  /** The same dependencies; the one at `e` has lag `lag` and every other one a lag of -100 hours. */
  function OneLag(preds: seq<Dependency>, e: int, lag: real): (preds': seq<Dependency>)
    ensures |preds'| == |preds|
  {
    seq(|preds|, k requires 0 <= k < |preds| =>
      Dependency(preds[k].id, preds[k].kind, Some(if k == e then lag else -100.0)))
  }

  /** The same tasks with the given hours, where only dependency `e` of task `i` can hold a task back. */
  function OneBinding(tasks: seq<Task>, hours: seq<real>, i: nat, e: nat, lag: real): (net: seq<Task>)
    requires |hours| == |tasks|
    ensures |net| == |tasks|
  {
    seq(|tasks|, j requires 0 <= j < |tasks| =>
      Task(tasks[j].id, hours[j], OneLag(tasks[j].predecessors, if j == i then e else -1, lag), false))
  }

  /** Every dependency but `d` of task `i` has a lag of -100 hours. */
  ghost predicate OnlyOneBinds(net: seq<Task>, i: nat, d: Dependency) {
    && i < |net| && d in net[i].predecessors
    && forall j, d' :: 0 <= j < |net| && d' in net[j].predecessors ==>
         (j == i && d' == d) || Lag(d'.lagHours) == -100.0
  }

  lemma NetworkOf(tasks: seq<Task>, hours: seq<real>, i: nat, e: nat, lag: real)
    returns (net: seq<Task>, d: Dependency)
    requires Ordered(tasks) && |hours| == |tasks| && forall j :: 0 <= j < |hours| ==> hours[j] >= 0.0
    requires i < |tasks| && e < |tasks[i].predecessors|
    ensures SameKinds(tasks, net) && Ordered(net)
    ensures forall j :: 0 <= j < |tasks| ==> Span(net[j]) == hours[j]
    ensures OnlyOneBinds(net, i, d) && d == tasks[i].predecessors[e].(lagHours := Some(lag))
    ensures Position(net, d.id) == Position(tasks, d.id)
  {
    net := OneBinding(tasks, hours, i, e, lag);
    d := net[i].predecessors[e];
    forall j | 0 <= j < |tasks|
      ensures SameIds(tasks[j].predecessors, net[j].predecessors)
      ensures SameTypes(tasks[j].predecessors, net[j].predecessors)
    {
    }
    SamePosition(tasks, net, d.id);
    SameShapeIsOrdered(tasks, net);
  }

  /** The network in which `d` is the one binding dependency and task `i` and its predecessor take an hour. */
  ghost predicate ShowsMisreading(net: seq<Task>, i: nat, d: Dependency) {
    var p := Position(net, d.id);
    && OnlyOneBinds(net, i, d) && !ReadAsMeant(net, d)
    && (forall j :: 0 <= j < |net| ==> Span(net[j]) == if j == i || j == p then 1.0 else 0.0)
    && Lag(d.lagHours) == if p < 0 then 1.0 else 0.0
  }

  /** The start hours of that network: hour one for task `i`, hour zero for all others. */
  function OneAt(n: nat, i: nat): (s: seq<real>)
    ensures |s| == n
  {
    seq(n, j requires 0 <= j < n => if j == i then 1.0 else 0.0)
  }

  lemma MisreadIsNotHeldBack(net: seq<Task>, i: nat, d: Dependency)
    requires Ordered(net) && ShowsMisreading(net, i, d)
    ensures Feasible(net, OneAt(|net|, i)) && ReleaseAt(net, OneAt(|net|, i), d) == 1.0
    ensures !HeldBack(net, OneAt(|net|, i), i)
  {
    var s := OneAt(|net|, i);
    forall j, d' | 0 <= j < |net| && d' in net[j].predecessors
      ensures ReleaseAt(net, s, d') <= s[j]
      ensures KindRelease(net, s, net[j], d') < 1.0
    {
      assert Position(net, d'.id) < j;
    }
  }

  lemma {:induction false} MisreadIsNotLeast(net: seq<Task>, i: nat, d: Dependency)
    requires Ordered(net) && ShowsMisreading(net, i, d)
    ensures !LeastUnderKinds(net)
  {
    var s := OneAt(|net|, i);
    MisreadIsNotHeldBack(net, i, d);
    StartsAre(net, s, i, d);
    LeastUnderKindsHereIff(net);
  }

  /** A feasible schedule in which only task `i` starts after hour zero, at the release of `d`, is the computed one. */
  lemma StartsAre(net: seq<Task>, s: seq<real>, i: nat, d: Dependency)
    requires Ordered(net) && Feasible(net, s) && i < |net| && d in net[i].predecessors
    requires forall j :: 0 <= j < |net| && j != i ==> s[j] == 0.0
    requires ReleaseAt(net, s, d) == s[i]
    ensures EarlyStarts(net) == s
  {
    var early := EarlyStarts(net);
    EarlyScheduleIsLeast(net);
    IsLeastSchedule(net, early, s, i, d);
  }

  lemma IsLeastSchedule(net: seq<Task>, early: seq<real>, s: seq<real>, i: nat, d: Dependency)
    requires Ordered(net) && Feasible(net, s) && Feasible(net, early) && i < |net| && d in net[i].predecessors
    requires forall j :: 0 <= j < |net| ==> early[j] <= s[j]
    requires forall j :: 0 <= j < |net| && j != i ==> s[j] == 0.0
    requires ReleaseAt(net, s, d) == s[i]
    ensures early == s
  {
    assert Position(net, d.id) < i;
    assert ReleaseAt(net, early, d) <= early[i];
  }

  /**
    The computed hours are the least under the dependency types, whatever the durations and lags,
    exactly when every type is read as it is meant.
  */
  lemma {:induction false} LeastUnderKindsIff(tasks: seq<Task>)
    requires Ordered(tasks)
    ensures AllReadAsMeant(tasks) <==> forall tasks' :: SameKinds(tasks, tasks') ==> LeastUnderKinds(tasks')
  {
    if AllReadAsMeant(tasks) {
      forall tasks' | SameKinds(tasks, tasks') ensures LeastUnderKinds(tasks') {
        SameShapeIsOrdered(tasks, tasks');
        SameKindsAreReadAsMeant(tasks, tasks');
        ReadAsMeantIsLeast(tasks');
      }
    } else {
      var net := MisreadKindIsTooLate(tasks);
    }
  }

  lemma {:induction false} MisreadNetwork(tasks: seq<Task>, i: nat, e: nat) returns (net: seq<Task>, d: Dependency)
    requires Ordered(tasks) && i < |tasks| && e < |tasks[i].predecessors|
    requires !ReadAsMeant(tasks, tasks[i].predecessors[e])
    ensures SameKinds(tasks, net) && Ordered(net) && ShowsMisreading(net, i, d)
  {
    var p := Position(tasks, tasks[i].predecessors[e].id);
    var hours := seq(|tasks|, j requires 0 <= j < |tasks| => if j == i || j == p then 1.0 else 0.0);
    net, d := NetworkOf(tasks, hours, i, e, if p < 0 then 1.0 else 0.0);
  }

  /** Where a type is not read as it is meant, some hours and lags make a task start too late. */
  lemma {:induction false} MisreadKindIsTooLate(tasks: seq<Task>) returns (net: seq<Task>)
    requires Ordered(tasks) && !AllReadAsMeant(tasks)
    ensures SameKinds(tasks, net) && !LeastUnderKinds(net)
  {
    var t, d :| t in tasks && d in t.predecessors && !ReadAsMeant(tasks, d);
    var i :| 0 <= i < |tasks| && tasks[i] == t;
    var e :| 0 <= e < |t.predecessors| && t.predecessors[e] == d;
    var net', d' := MisreadNetwork(tasks, i, e);
    net := net';
    MisreadIsNotLeast(net, i, d');
  }
}
