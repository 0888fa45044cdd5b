/**
  What the scheduler reports as free float.

  gantt.ts reports the total float a second time.  The free float of a task is the longest slip
  that delays neither the end of the project nor the early start of any other task.
*/
module FreeFloat {
  import opened CriticalPath
  import opened CriticalPathTheory
  import opened CriticalChains
  import opened DependencyKinds

  /** Task `i` can start `x` hours late while every other task starts at its hour of `early` and all end by `P`. */
  ghost predicate SlipFits(tasks: seq<Task>, early: seq<real>, P: real, i: nat, x: real)
    requires |early| == |tasks| && i < |tasks|
  {
    var s := early[i := early[i] + x];
    x >= 0.0 && Feasible(tasks, s) && FinishesBy(tasks, s, P)
  }

  ghost predicate CanSlip(tasks: seq<Task>, i: nat, x: real)
    requires i < |tasks|
  {
    SlipFits(tasks, EarlyStarts(tasks), ProjectDuration(tasks), i, x)
  }

  ghost predicate IsFreeFloat(tasks: seq<Task>, i: nat, hours: real)
    requires i < |tasks|
  {
    CanSlip(tasks, i, hours) && forall x :: CanSlip(tasks, i, x) ==> x <= hours
  }

  // ---- one task -----------------------------------------------------------------------------

  /** Ending at hour `end`, task `i` keeps every task that waits for it at its hour of `early`. */
  ghost predicate LeavesSuccessors(tasks: seq<Task>, early: seq<real>, i: nat, end: real)
    requires |early| == |tasks| && i < |tasks|
  {
    forall j, d :: Edge(tasks, i, j, d) ==> end + Lag(d.lagHours) <= early[j]
  }

  lemma SlipFitsIff(tasks: seq<Task>, early: seq<real>, P: real, i: nat, x: real)
    requires Ordered(tasks) && Feasible(tasks, early) && FinishesBy(tasks, early, P) && i < |tasks| && x >= 0.0
    ensures var end := early[i] + x + Span(tasks[i]);
      SlipFits(tasks, early, P, i, x) <==> end <= P && LeavesSuccessors(tasks, early, i, end)
  {
    var s, end := early[i := early[i] + x], early[i] + x + Span(tasks[i]);
    EdgesGoForward(tasks);
    if SlipFits(tasks, early, P, i, x) {
      assert s[i] + Span(tasks[i]) <= P;
      forall j, d | Edge(tasks, i, j, d) ensures end + Lag(d.lagHours) <= early[j] {
        assert ReleaseAt(tasks, s, d) <= s[j];
      }
    } else if end <= P && LeavesSuccessors(tasks, early, i, end) {
      forall j, d | 0 <= j < |tasks| && d in tasks[j].predecessors ensures ReleaseAt(tasks, s, d) <= s[j] {
        assert ReleaseAt(tasks, early, d) <= early[j];
        assert Position(tasks, d.id) == i ==> Edge(tasks, i, j, d);
      }
    }
  }

  /** No slip beyond the total float keeps the project end. */
  lemma {:induction false} SlipWithinTotalFloat(tasks: seq<Task>, i: nat, x: real)
    requires Ordered(tasks) && i < |tasks| && CanSlip(tasks, i, x)
    ensures x <= LateStarts(tasks)[i] - EarlyStarts(tasks)[i]
  {
    var s := EarlyStarts(tasks)[i := EarlyStarts(tasks)[i] + x];
    FeasibleKeepsOrder(tasks, s, ProjectDuration(tasks));
    BelowLate(tasks, s, 0);
    assert s[i] <= LateStarts(tasks)[i];
  }

  /**
    A reported free float is never too small, and it is the true one exactly when the task could end
    at its late finish and every task that waits for it still start at its early start.
  */
  lemma {:induction false} ReportedFloatIsFreeIff(tasks: seq<Task>, i: nat)
    requires Ordered(tasks) && i < |tasks|
    ensures var o := CpmSchedule(tasks).tasks[i];
      && (forall hours :: IsFreeFloat(tasks, i, hours) ==> hours <= o.freeFloat)
      && (IsFreeFloat(tasks, i, o.freeFloat) <==> LeavesSuccessors(tasks, EarlyStarts(tasks), i, o.lateFinish))
  {
    var o := CpmSchedule(tasks).tasks[i];
    FloatIsNeverClamped(tasks, i);
    forall x | CanSlip(tasks, i, x) ensures x <= o.freeFloat {
      SlipWithinTotalFloat(tasks, i, x);
    }
    EarlyScheduleIsLeast(tasks);
    LateScheduleIsGreatest(tasks);
    SlipFitsIff(tasks, EarlyStarts(tasks), ProjectDuration(tasks), i, o.freeFloat);
  }

  lemma {:induction false} EarlyStartsHeld(tasks: seq<Task>, default: real)
    requires DistinctIds(tasks)
    ensures forall j :: 0 <= j < |tasks| ==> GetOr(Forward(tasks).start, tasks[j].id, default) == EarlyStarts(tasks)[j]
  {
    forall j | 0 <= j < |tasks|
      ensures GetOr(Forward(tasks).start, tasks[j].id, default) == EarlyStarts(tasks)[j]
    {
      assert tasks[..|tasks|] == tasks;
      ForwardKeeps(tasks, j, |tasks|);
    }
  }

  /** The inner loop of the backward pass, run over early starts, less the early finish. */
  function SlackBefore(tasks: seq<Task>, i: nat, early: seq<real>, start: map<string, real>, P: real): real
    requires i < |tasks| == |early|
  {
    LatestFinish(SuccessorsOf(tasks, tasks[i].id), start, P) - (early[i] + Span(tasks[i]))
  }

  /** Every task has a free float, which one more run of the backward pass's inner loop would find. */
  lemma {:induction false} FreeFloatIs(tasks: seq<Task>, i: nat)
    requires Ordered(tasks) && i < |tasks|
    ensures IsFreeFloat(tasks, i,
                        SlackBefore(tasks, i, EarlyStarts(tasks), Forward(tasks).start, ProjectDuration(tasks)))
  {
    EarlyStartsHeld(tasks, ProjectDuration(tasks));
    EarlyScheduleIsLeast(tasks);
    LongestSlip(tasks, EarlyStarts(tasks), ProjectDuration(tasks), i, Forward(tasks).start);
  }

  lemma LongestSlip(tasks: seq<Task>, early: seq<real>, P: real, i: nat, start: map<string, real>)
    requires Ordered(tasks) && Feasible(tasks, early) && FinishesBy(tasks, early, P) && i < |tasks|
    requires forall j :: 0 <= j < |tasks| ==> GetOr(start, tasks[j].id, P) == early[j]
    ensures var x := SlackBefore(tasks, i, early, start, P);
      SlipFits(tasks, early, P, i, x) && forall y :: SlipFits(tasks, early, P, i, y) ==> y <= x
  {
    var x := SlackBefore(tasks, i, early, start, P);
    var s := early[i := early[i] + x];
    FinishMeetsDeadlines(tasks, s, i, P, start);
    FeasibleKeepsOrder(tasks, early, P);
    EdgesGoForward(tasks);
    SlipFitsIff(tasks, early, P, i, if x >= 0.0 then x else 0.0);
    forall y | SlipFits(tasks, early, P, i, y) ensures y <= x {
      SlipFitsIff(tasks, early, P, i, y);
    }
  }

  // ---- all networks of one shape ------------------------------------------------------------

  ghost predicate FreeFloatsAreTrue(tasks: seq<Task>) {
    forall i :: 0 <= i < |tasks| ==> IsFreeFloat(tasks, i, CpmSchedule(tasks).tasks[i].freeFloat)
  }

  ghost predicate NoTaskWaits(tasks: seq<Task>) {
    forall i, j, d :: !Edge(tasks, i, j, d)
  }

  lemma NoTaskWaitsInShape(tasks: seq<Task>, tasks': seq<Task>)
    requires SameShape(tasks, tasks') && NoTaskWaits(tasks)
    ensures NoTaskWaits(tasks')
  {
    forall i, j, d' | Edge(tasks', i, j, d') ensures false {
      assert SameIds(tasks[j].predecessors, tasks'[j].predecessors);
      var e :| 0 <= e < |tasks'[j].predecessors| && tasks'[j].predecessors[e] == d';
      assert Edge(tasks, i, j, tasks[j].predecessors[e]);
    }
  }

  /** Of two tasks at most one can have float, so the other's early and late starts agree. */
  lemma PairLeavesSuccessors(tasks: seq<Task>, early: seq<real>, late: seq<real>, P: real, i: nat, k: nat)
    requires Ordered(tasks) && Bounds(tasks, early, late, P) && i < |tasks| <= 2
    requires k < |tasks| && early[k] + Span(tasks[k]) == P
    ensures LeavesSuccessors(tasks, early, i, late[i] + Span(tasks[i]))
  {
    EdgesGoForward(tasks);
    forall j, d | Edge(tasks, i, j, d) ensures late[i] + Span(tasks[i]) + Lag(d.lagHours) <= early[j] {
      assert i == 0 && j == 1;
      assert EndsLate(tasks, late, 0, P) && EndsLate(tasks, late, 1, P);
      assert StartsEarly(tasks, early, 1) && ReleaseAt(tasks, early, d) <= early[1];
    }
  }

  lemma {:induction false} SmallOrLooseIsTrue(tasks: seq<Task>)
    requires Ordered(tasks) && (|tasks| <= 2 || NoTaskWaits(tasks))
    ensures FreeFloatsAreTrue(tasks)
  {
    forall i | 0 <= i < |tasks| ensures IsFreeFloat(tasks, i, CpmSchedule(tasks).tasks[i].freeFloat) {
      ReportedFloatIsFreeIff(tasks, i);
      FloatIsNeverClamped(tasks, i);
      if |tasks| <= 2 {
        FloatOfPair(tasks, i);
      }
    }
  }

  lemma {:induction false} FloatOfPair(tasks: seq<Task>, i: nat)
    requires Ordered(tasks) && i < |tasks| <= 2
    ensures LeavesSuccessors(tasks, EarlyStarts(tasks), i, LateStarts(tasks)[i] + Span(tasks[i]))
  {
    PassesAreBounds(tasks);
    var k := LastToFinish(tasks);
    PairLeavesSuccessors(tasks, EarlyStarts(tasks), LateStarts(tasks), ProjectDuration(tasks), i, k);
  }

  /** Task `p` takes one hour, task `q` ten, all others none, and only `d` makes task `i` wait for `p`. */
  ghost predicate ShowsFalseFloat(net: seq<Task>, p: nat, i: nat, q: nat, d: Dependency) {
    && p < |net| && q < |net| && q != p && q != i && OnlyOneBinds(net, i, d)
    && Position(net, d.id) == p && Lag(d.lagHours) == 0.0
    && forall j :: 0 <= j < |net| ==> Span(net[j]) == if j == p then 1.0 else if j == q then 10.0 else 0.0
  }

  /** Two schedules of that network: the early one, and one that uses the nine hours of float of task `p`. */
  lemma EarlyAndLateOf(net: seq<Task>, p: nat, i: nat, q: nat, d: Dependency, late: seq<real>)
    requires Ordered(net) && ShowsFalseFloat(net, p, i, q, d) && |late| == |net|
    requires forall j :: 0 <= j < |net| ==> late[j] == if j == p then 9.0 else if j == i then 10.0 else 0.0
    ensures p < i && Edge(net, p, i, d)
    ensures Feasible(net, OneAt(|net|, i)) && ReleaseAt(net, OneAt(|net|, i), d) == 1.0
    ensures Feasible(net, late) && FinishesBy(net, late, 10.0)
  {
    forall j, d' | 0 <= j < |net| && d' in net[j].predecessors
      ensures ReleaseAt(net, OneAt(|net|, i), d') <= OneAt(|net|, i)[j] && ReleaseAt(net, late, d') <= late[j]
    {
      assert Position(net, d'.id) < j;
    }
  }

  /** A schedule of that network that ends by hour ten ends by the computed end. */
  lemma {:induction false} TenHoursAtLeast(net: seq<Task>, early: seq<real>, q: nat, late: seq<real>)
    requires Ordered(net) && EarlyStarts(net) == early && q < |net| && early[q] + Span(net[q]) >= 10.0
    requires Feasible(net, late) && FinishesBy(net, late, 10.0)
    ensures forall j :: 0 <= j < |net| ==> late[j] <= LateStarts(net)[j]
  {
    ProjectDurationIsPeak(net);
    assert early[q] + Span(net[q]) <= ProjectDuration(net);
    LateScheduleIsGreatest(net);
  }

  lemma {:induction false} NineHoursOfFloat(net: seq<Task>, p: nat, i: nat, q: nat, d: Dependency)
    requires Ordered(net) && ShowsFalseFloat(net, p, i, q, d)
    ensures EarlyStarts(net) == OneAt(|net|, i) && LateStarts(net)[p] >= 9.0 && Edge(net, p, i, d)
  {
    var early := OneAt(|net|, i);
    var late := seq(|net|, j requires 0 <= j < |net| => if j == p then 9.0 else if j == i then 10.0 else 0.0);
    EarlyAndLateOf(net, p, i, q, d, late);
    StartsAre(net, early, i, d);
    TenHoursAtLeast(net, early, q, late);
  }

  lemma {:induction false} FloatIsNotFree(net: seq<Task>, p: nat, i: nat, q: nat, d: Dependency)
    requires Ordered(net) && ShowsFalseFloat(net, p, i, q, d)
    ensures !IsFreeFloat(net, p, CpmSchedule(net).tasks[p].freeFloat)
  {
    NineHoursOfFloat(net, p, i, q, d);
    FloatIsNeverClamped(net, p);
    ReportedFloatIsFreeIff(net, p);
  }

  lemma {:induction false} FalseFloatNetwork(tasks: seq<Task>, p: nat, i: nat, e: nat, q: nat)
    returns (net: seq<Task>, d: Dependency)
    requires Ordered(tasks) && p < |tasks| && i < |tasks| && q < |tasks| && q != p && q != i
    requires e < |tasks[i].predecessors| && Position(tasks, tasks[i].predecessors[e].id) == p
    ensures SameShape(tasks, net) && Ordered(net) && ShowsFalseFloat(net, p, i, q, d)
  {
    var hours := seq(|tasks|, j requires 0 <= j < |tasks| => if j == p then 1.0 else if j == q then 10.0 else 0.0);
    net, d := NetworkOf(tasks, hours, i, e, 0.0);
  }

  /** Three tasks, one of which waits for another, are enough for a free float that is none. */
  lemma {:induction false} SomeFloatIsFalse(tasks: seq<Task>) returns (net: seq<Task>)
    requires Ordered(tasks) && |tasks| > 2 && !NoTaskWaits(tasks)
    ensures SameShape(tasks, net) && !FreeFloatsAreTrue(net)
  {
    var p, i, d :| Edge(tasks, p, i, d);
    EdgesGoForward(tasks);
    var e :| 0 <= e < |tasks[i].predecessors| && tasks[i].predecessors[e] == d;
    var q := if p != 0 && i != 0 then 0 else if p != 1 && i != 1 then 1 else 2;
    var net', d' := FalseFloatNetwork(tasks, p, i, e, q);
    net := net';
    FloatIsNotFree(net, p, i, q, d');
  }

  /**
    Every reported free float is the true one, whatever the durations and lags, exactly when there
    are at most two tasks or no task waits for another.
  */
  lemma {:induction false} FreeFloatsAreTrueIff(tasks: seq<Task>)
    requires Ordered(tasks)
    ensures (forall tasks' :: SameShape(tasks, tasks') ==> FreeFloatsAreTrue(tasks'))
       <==> |tasks| <= 2 || NoTaskWaits(tasks)
  {
    if |tasks| <= 2 || NoTaskWaits(tasks) {
      forall tasks' | SameShape(tasks, tasks') ensures FreeFloatsAreTrue(tasks') {
        SameShapeIsOrdered(tasks, tasks');
        if |tasks| > 2 {
          NoTaskWaitsInShape(tasks, tasks');
        }
        SmallOrLooseIsTrue(tasks');
      }
    } else {
      var net := SomeFloatIsFalse(tasks);
    }
  }
}
