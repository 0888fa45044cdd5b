/**
  The reported schedule in terms of its own fields: what the report of a run says about the tasks
  that went in, and that on an ordered network no other report says it.
*/
module ScheduleReport {
  import opened CriticalPath
  import opened CriticalPathTheory

  // ---- any input -----------------------------------------------------------------------------

  /** The project lasts from hour zero to the last early finish. */
  ghost predicate LastsToTheLastFinish(outputs: seq<TaskOutput>, duration: real) {
    && duration >= 0.0
    && (forall i :: 0 <= i < |outputs| ==> outputs[i].earlyFinish <= duration)
    && (duration == 0.0 || exists i :: 0 <= i < |outputs| && outputs[i].earlyFinish == duration)
  }

  ghost predicate Rising(positions: seq<nat>) {
    forall k, l :: 0 <= k < l < |positions| ==> positions[k] < positions[l]
  }

  /** The ids are those of the critical tasks at the positions, which leave none out. */
  ghost predicate NamesCritical(outputs: seq<TaskOutput>, ids: seq<string>, positions: seq<nat>) {
    && |positions| == |ids| && Rising(positions)
    && (forall k :: 0 <= k < |positions| ==>
          positions[k] < |outputs| && outputs[positions[k]].isCritical && ids[k] == outputs[positions[k]].id)
    && (forall i :: 0 <= i < |outputs| && outputs[i].isCritical ==> i in positions)
  }

  /** One id for each critical task, in task order. */
  ghost predicate ListsCritical(outputs: seq<TaskOutput>, ids: seq<string>) {
    exists positions: seq<nat> :: NamesCritical(outputs, ids, positions)
  }

  lemma {:induction false} CriticalPositions(outputs: seq<TaskOutput>) returns (positions: seq<nat>)
    ensures NamesCritical(outputs, CriticalIds(outputs), positions)
  {
    if outputs == [] {
      return [];
    }
    var n := |outputs| - 1;
    var before := CriticalPositions(outputs[..n]);
    positions := if outputs[n].isCritical then before + [n] else before;
    NamesOneMore(outputs, CriticalIds(outputs[..n]), before);
  }

  lemma NamesOneMore(outputs: seq<TaskOutput>, ids: seq<string>, before: seq<nat>)
    requires outputs != [] && NamesCritical(outputs[..|outputs| - 1], ids, before)
    ensures var n := |outputs| - 1; var last := outputs[n];
      NamesCritical(outputs, ids + (if last.isCritical then [last.id] else []),
                    before + if last.isCritical then [n] else [])
  {
    var n := |outputs| - 1;
    forall i | 0 <= i < |outputs| && outputs[i].isCritical && i != n ensures i in before {
      assert outputs[..n][i] == outputs[i];
    }
    assert outputs[n].isCritical ==> (before + [n])[|before|] == n;
  }

  lemma FinishHeld(tasks: seq<Task>, i: nat)
    requires i < |tasks|
    ensures tasks[i].id in Forward(tasks).finish
    ensures CpmSchedule(tasks).tasks[i].earlyFinish == Forward(tasks).finish[tasks[i].id]
  {
    assert tasks[i] in tasks;
  }

  lemma {:induction false} ReportLasts(tasks: seq<Task>)
    ensures LastsToTheLastFinish(CpmSchedule(tasks).tasks, CpmSchedule(tasks).projectDuration)
  {
    var outputs, duration := CpmSchedule(tasks).tasks, CpmSchedule(tasks).projectDuration;
    var finish := Forward(tasks).finish;
    assert IsPeak(finish, duration);
    forall i | 0 <= i < |tasks| ensures outputs[i].earlyFinish <= duration {
      FinishHeld(tasks, i);
    }
    if duration != 0.0 {
      var id :| id in finish && finish[id] == duration;
      var t :| t in tasks && t.id == id;
      var i :| 0 <= i < |tasks| && tasks[i] == t;
      FinishHeld(tasks, i);
    }
  }

  lemma {:induction false} ReportShape(tasks: seq<Task>)
    ensures var r := CpmSchedule(tasks);
      && |r.tasks| == r.totalTasks == |tasks|
      && r.criticalTasksCount == |r.criticalPathTaskIds|
      && forall i :: 0 <= i < |tasks| ==>
           r.tasks[i].id == tasks[i].id && r.tasks[i].durationHours == tasks[i].durationHours
  {
  }

  lemma {:induction false} ReportNames(tasks: seq<Task>)
    ensures ListsCritical(CpmSchedule(tasks).tasks, CpmSchedule(tasks).criticalPathTaskIds)
  {
    CriticalAreListed(CpmSchedule(tasks).tasks);
  }

  /** The counts and the ids of a report, and its duration. */
  ghost predicate CountsUp(tasks: seq<Task>, r: Schedule) {
    && |r.tasks| == r.totalTasks == |tasks|
    && (forall i :: 0 <= i < |tasks| ==>
          r.tasks[i].id == tasks[i].id && r.tasks[i].durationHours == tasks[i].durationHours)
    && LastsToTheLastFinish(r.tasks, r.projectDuration)
    && ListsCritical(r.tasks, r.criticalPathTaskIds)
    && r.criticalTasksCount == |r.criticalPathTaskIds|
  }

  /** Every run reports them, on repeated ids and unordered networks too. */
  lemma {:induction false} ReportCounts(tasks: seq<Task>)
    ensures CountsUp(tasks, CpmSchedule(tasks))
  {
    ReportShape(tasks);
    ReportNames(tasks);
    ReportLasts(tasks);
  }

  lemma CriticalAreListed(outputs: seq<TaskOutput>)
    ensures ListsCritical(outputs, CriticalIds(outputs))
  {
    var positions := CriticalPositions(outputs);
  }

  /** On an ordered network the reported duration is the least hour, from zero on, by which a feasible schedule ends. */
  lemma {:induction false} ReportedDurationIsLeast(tasks: seq<Task>, hour: real)
    requires Ordered(tasks) && hour >= 0.0
    ensures CpmSchedule(tasks).projectDuration <= hour <==> exists s :: Feasible(tasks, s) && FinishesBy(tasks, s, hour)
  {
    EarlyScheduleIsLeast(tasks);
    if CpmSchedule(tasks).projectDuration <= hour {
      assert FinishesBy(tasks, EarlyStarts(tasks), hour);
    }
  }

  // ---- ordered networks ------------------------------------------------------------------------

  /** From `start` to `finish` a milestone takes no time, any other task its hours, and none when they are negative. */
  ghost predicate Takes(t: Task, start: real, finish: real) {
    && (t.isMilestone || t.durationHours <= 0.0 ==> finish == start)
    && (!t.isMilestone && t.durationHours >= 0.0 ==> finish == start + t.durationHours)
  }

  /** The lag of a dependency; one that names none has none. */
  ghost predicate Lags(d: Dependency, from: real, to: real) {
    && (d.lagHours.None? ==> to == from)
    && (d.lagHours.Some? ==> to - from == d.lagHours.value)
  }

  ghost predicate NamesNoTask(tasks: seq<Task>, d: Dependency) {
    forall t :: t in tasks ==> t.id != d.id
  }

  /** Dependency `d` is met at `hour`: its lag after the early finish of the task it names, or after hour zero. */
  ghost predicate MetAt(tasks: seq<Task>, outputs: seq<TaskOutput>, d: Dependency, hour: real)
    requires |outputs| == |tasks|
  {
    || (NamesNoTask(tasks, d) && Lags(d, 0.0, hour))
    || exists p :: 0 <= p < |tasks| && tasks[p].id == d.id && Lags(d, outputs[p].earlyFinish, hour)
  }

  /** Task `i` starts at the first hour, from zero on, at which all its dependencies are met. */
  ghost predicate StartsWhenMet(tasks: seq<Task>, outputs: seq<TaskOutput>, i: nat)
    requires |outputs| == |tasks| && i < |tasks|
  {
    var start := outputs[i].earlyStart;
    && start >= 0.0
    && (forall d, hour :: d in tasks[i].predecessors && MetAt(tasks, outputs, d, hour) ==> hour <= start)
    && (start == 0.0 || exists d :: d in tasks[i].predecessors && MetAt(tasks, outputs, d, start))
  }

  /** Task `j` waits for task `i` by `d`, so that task `i` must end by `hour`. */
  ghost predicate NeededBy(tasks: seq<Task>, outputs: seq<TaskOutput>, i: nat, j: nat, d: Dependency, hour: real)
    requires |outputs| == |tasks| && i < |tasks| && j < |tasks|
  {
    d in tasks[j].predecessors && d.id == tasks[i].id && Lags(d, hour, outputs[j].lateStart)
  }

  /** Task `i` ends at the last hour that suits the project end and every task that waits for it. */
  ghost predicate EndsWhenNeeded(tasks: seq<Task>, outputs: seq<TaskOutput>, duration: real, i: nat)
    requires |outputs| == |tasks| && i < |tasks|
  {
    var end := outputs[i].lateFinish;
    && end <= duration
    && (forall j, d, hour :: 0 <= j < |tasks| && NeededBy(tasks, outputs, i, j, d, hour) ==> end <= hour)
    && (end == duration || exists j, d :: 0 <= j < |tasks| && NeededBy(tasks, outputs, i, j, d, end))
  }

  /** What the report says of one task. */
  ghost predicate ReportsTask(t: Task, o: TaskOutput) {
    && o.id == t.id && o.durationHours == t.durationHours
    && Takes(t, o.earlyStart, o.earlyFinish) && Takes(t, o.lateStart, o.lateFinish)
    && 0.0 <= o.totalFloat == o.freeFloat == o.lateStart - o.earlyStart
    && (o.isCritical <==> o.lateStart == o.earlyStart)
  }

  ghost predicate IsReport(tasks: seq<Task>, r: Schedule) {
    && CountsUp(tasks, r)
    && forall i :: 0 <= i < |tasks| ==>
         && ReportsTask(tasks[i], r.tasks[i])
         && StartsWhenMet(tasks, r.tasks, i)
         && EndsWhenNeeded(tasks, r.tasks, r.projectDuration, i)
  }

  /** The reported hours of a task, next to the schedules of the theory. */
  ghost predicate Shows(tasks: seq<Task>, outputs: seq<TaskOutput>, early: seq<real>, late: seq<real>) {
    && |outputs| == |early| == |late| == |tasks|
    && forall i :: 0 <= i < |tasks| ==>
         && outputs[i].earlyStart == early[i] && outputs[i].earlyFinish == early[i] + Span(tasks[i])
         && outputs[i].lateStart == late[i] && outputs[i].lateFinish == late[i] + Span(tasks[i])
  }

  lemma MetAtRelease(tasks: seq<Task>, outputs: seq<TaskOutput>, early: seq<real>, late: seq<real>, d: Dependency,
                     hour: real)
    requires DistinctIds(tasks) && Shows(tasks, outputs, early, late)
    ensures MetAt(tasks, outputs, d, hour) <==> hour == ReleaseAt(tasks, early, d)
  {
    var p := Position(tasks, d.id);
    forall q | 0 <= q < |tasks| && tasks[q].id == d.id ensures q == p {
      PositionOf(tasks, q);
    }
    if p >= 0 {
      assert tasks[p] in tasks;
    }
  }

  lemma ShownStarts(tasks: seq<Task>, outputs: seq<TaskOutput>, early: seq<real>, late: seq<real>, i: nat)
    requires DistinctIds(tasks) && Shows(tasks, outputs, early, late) && i < |tasks| && StartsEarly(tasks, early, i)
    ensures StartsWhenMet(tasks, outputs, i)
  {
    forall d, hour | d in tasks[i].predecessors
      ensures MetAt(tasks, outputs, d, hour) <==> hour == ReleaseAt(tasks, early, d)
    {
      MetAtRelease(tasks, outputs, early, late, d, hour);
    }
  }

  lemma ShownEnds(tasks: seq<Task>, outputs: seq<TaskOutput>, early: seq<real>, late: seq<real>, P: real, i: nat)
    requires Shows(tasks, outputs, early, late) && i < |tasks| && EndsLate(tasks, late, i, P)
    ensures EndsWhenNeeded(tasks, outputs, P, i)
  {
    var end := outputs[i].lateFinish;
    forall j, d, hour | 0 <= j < |tasks| && NeededBy(tasks, outputs, i, j, d, hour) ensures end <= hour {
      assert Edge(tasks, i, j, d);
    }
    if end != P {
      var j, d :| Edge(tasks, i, j, d) && end + Lag(d.lagHours) == late[j];
      assert NeededBy(tasks, outputs, i, j, d, end);
    }
  }

  lemma {:induction false} ReportShows(tasks: seq<Task>)
    requires Ordered(tasks)
    ensures Shows(tasks, CpmSchedule(tasks).tasks, EarlyStarts(tasks), LateStarts(tasks))
    ensures forall i :: 0 <= i < |tasks| ==> ReportsTask(tasks[i], CpmSchedule(tasks).tasks[i])
  {
    forall i | 0 <= i < |tasks|
      ensures var o := CpmSchedule(tasks).tasks[i]; var early, late := EarlyStarts(tasks), LateStarts(tasks);
        && o.earlyStart == early[i] && o.earlyFinish == early[i] + Span(tasks[i])
        && o.lateStart == late[i] && o.lateFinish == late[i] + Span(tasks[i])
        && ReportsTask(tasks[i], o)
    {
      FloatIsNeverClamped(tasks, i);
    }
  }

  /** The run on an ordered network makes such a report. */
  lemma {:induction false} RunReports(tasks: seq<Task>)
    requires Ordered(tasks)
    ensures IsReport(tasks, CpmSchedule(tasks))
  {
    var outputs, duration := CpmSchedule(tasks).tasks, CpmSchedule(tasks).projectDuration;
    ReportCounts(tasks);
    ReportShows(tasks);
    forall i | 0 <= i < |tasks|
      ensures StartsWhenMet(tasks, outputs, i) && EndsWhenNeeded(tasks, outputs, duration, i)
    {
      EarlyStartAt(tasks, i);
      LateStartAt(tasks, i);
      ShownStarts(tasks, outputs, EarlyStarts(tasks), LateStarts(tasks), i);
      ShownEnds(tasks, outputs, EarlyStarts(tasks), LateStarts(tasks), duration, i);
    }
  }

  // ---- no other report -------------------------------------------------------------------------

  /** The reports agree on the early hours of the first `n` tasks. */
  ghost predicate SameEarly(a: seq<TaskOutput>, b: seq<TaskOutput>, n: nat) {
    && |a| == |b| && n <= |a|
    && forall i :: 0 <= i < n ==> a[i].earlyStart == b[i].earlyStart && a[i].earlyFinish == b[i].earlyFinish
  }

  /** The reports agree on the late hours from task `n` on. */
  ghost predicate SameLate(a: seq<TaskOutput>, b: seq<TaskOutput>, n: nat) {
    && |a| == |b| && n <= |a|
    && forall i :: n <= i < |a| ==> a[i].lateStart == b[i].lateStart && a[i].lateFinish == b[i].lateFinish
  }

  lemma StartsNoLater(tasks: seq<Task>, a: seq<TaskOutput>, b: seq<TaskOutput>, i: nat)
    requires Ordered(tasks) && |a| == |tasks| && i < |tasks| && SameEarly(a, b, i)
    requires StartsWhenMet(tasks, a, i) && StartsWhenMet(tasks, b, i)
    ensures a[i].earlyStart <= b[i].earlyStart
  {
    var start := a[i].earlyStart;
    if start != 0.0 {
      var d :| d in tasks[i].predecessors && MetAt(tasks, a, d, start);
      forall p | 0 <= p < |tasks| && tasks[p].id == d.id ensures p < i {
        PositionOf(tasks, p);
      }
      assert MetAt(tasks, b, d, start);
    }
  }

  lemma EndsNoSooner(tasks: seq<Task>, a: seq<TaskOutput>, b: seq<TaskOutput>, duration: real, i: nat)
    requires Ordered(tasks) && |a| == |tasks| && i < |tasks| && SameLate(a, b, i + 1)
    requires EndsWhenNeeded(tasks, a, duration, i) && EndsWhenNeeded(tasks, b, duration, i)
    ensures a[i].lateFinish >= b[i].lateFinish
  {
    var end := a[i].lateFinish;
    if end != duration {
      var j, d :| 0 <= j < |tasks| && NeededBy(tasks, a, i, j, d, end);
      EdgesGoForward(tasks);
      assert Edge(tasks, i, j, d);
      assert NeededBy(tasks, b, i, j, d, end);
    }
  }

  lemma {:induction false} EarlyHoursAgree(tasks: seq<Task>, r: Schedule, r': Schedule, n: nat)
    requires Ordered(tasks) && IsReport(tasks, r) && IsReport(tasks, r') && n <= |tasks|
    ensures SameEarly(r.tasks, r'.tasks, n)
  {
    if n > 0 {
      EarlyHoursAgree(tasks, r, r', n - 1);
      EarlyHoursAgreeAt(tasks, r.tasks, r'.tasks, n - 1);
    }
  }

  lemma EarlyHoursAgreeAt(tasks: seq<Task>, a: seq<TaskOutput>, b: seq<TaskOutput>, i: nat)
    requires Ordered(tasks) && |a| == |tasks| && i < |tasks| && SameEarly(a, b, i)
    requires StartsWhenMet(tasks, a, i) && StartsWhenMet(tasks, b, i)
    requires ReportsTask(tasks[i], a[i]) && ReportsTask(tasks[i], b[i])
    ensures SameEarly(a, b, i + 1)
  {
    StartsNoLater(tasks, a, b, i);
    StartsNoLater(tasks, b, a, i);
  }

  lemma {:induction false} LateHoursAgree(tasks: seq<Task>, r: Schedule, r': Schedule, n: nat)
    requires Ordered(tasks) && IsReport(tasks, r) && IsReport(tasks, r') && n <= |tasks|
    requires r.projectDuration == r'.projectDuration
    ensures SameLate(r.tasks, r'.tasks, n)
    decreases |tasks| - n
  {
    if n < |tasks| {
      LateHoursAgree(tasks, r, r', n + 1);
      LateHoursAgreeAt(tasks, r.tasks, r'.tasks, r.projectDuration, n);
    }
  }

  lemma LateHoursAgreeAt(tasks: seq<Task>, a: seq<TaskOutput>, b: seq<TaskOutput>, duration: real, i: nat)
    requires Ordered(tasks) && |a| == |tasks| && i < |tasks| && SameLate(a, b, i + 1)
    requires EndsWhenNeeded(tasks, a, duration, i) && EndsWhenNeeded(tasks, b, duration, i)
    requires ReportsTask(tasks[i], a[i]) && ReportsTask(tasks[i], b[i])
    ensures SameLate(a, b, i)
  {
    EndsNoSooner(tasks, a, b, duration, i);
    EndsNoSooner(tasks, b, a, duration, i);
  }

  lemma DurationsAgree(a: seq<TaskOutput>, b: seq<TaskOutput>, p: real, q: real)
    requires LastsToTheLastFinish(a, p) && LastsToTheLastFinish(b, q) && SameEarly(a, b, |a|)
    ensures p == q
  {
  }

  lemma HasMember(u: seq<nat>)
    requires u != []
    ensures exists i :: i in u
  {
    assert u[0] in u;
  }

  /** Two rising sequences with the same members are equal. */
  lemma {:induction false} RisingIsUnique(u: seq<nat>, v: seq<nat>)
    requires Rising(u) && Rising(v) && forall i :: i in u <==> i in v
    ensures u == v
    decreases |u|
  {
    if u != [] {
      HasMember(u);
    }
    if v != [] {
      HasMember(v);
    }
    if u != [] && v != [] {
      var m, n := |u| - 1, |v| - 1;
      assert u[m] in v && v[n] in u;
      assert u[m] == v[n];
      forall i ensures i in u[..m] <==> i in v[..n] {
        assert i in u[..m] <==> i in u && i != u[m];
        assert i in v[..n] <==> i in v && i != v[n];
      }
      RisingIsUnique(u[..m], v[..n]);
    }
  }

  lemma SamePositions(a: seq<TaskOutput>, ids: seq<string>, ids': seq<string>, u: seq<nat>, v: seq<nat>)
    requires NamesCritical(a, ids, u) && NamesCritical(a, ids', v)
    ensures forall i :: i in u ==> i in v
  {
    forall i | i in u ensures i in v {
      var k :| 0 <= k < |u| && u[k] == i;
      assert a[u[k]].isCritical;
    }
  }

  lemma NamesAgree(a: seq<TaskOutput>, ids: seq<string>, ids': seq<string>)
    requires ListsCritical(a, ids) && ListsCritical(a, ids')
    ensures ids == ids'
  {
    var u: seq<nat> :| NamesCritical(a, ids, u);
    var v: seq<nat> :| NamesCritical(a, ids', v);
    SamePositions(a, ids, ids', u, v);
    SamePositions(a, ids', ids, v, u);
    RisingIsUnique(u, v);
  }

  /** The description fixes the report: on an ordered network it is the one that the run makes. */
  lemma {:induction false} ReportIsDetermined(tasks: seq<Task>, r: Schedule)
    requires Ordered(tasks)
    ensures IsReport(tasks, r) <==> r == CpmSchedule(tasks)
  {
    RunReports(tasks);
    if IsReport(tasks, r) {
      OneReport(tasks, r, CpmSchedule(tasks));
    }
  }

  lemma {:induction false} OneReport(tasks: seq<Task>, r: Schedule, r': Schedule)
    requires Ordered(tasks) && IsReport(tasks, r) && IsReport(tasks, r')
    ensures r == r'
  {
    EarlyHoursAgree(tasks, r, r', |tasks|);
    DurationsAgree(r.tasks, r'.tasks, r.projectDuration, r'.projectDuration);
    LateHoursAgree(tasks, r, r', 0);
    forall i | 0 <= i < |tasks| ensures r.tasks[i] == r'.tasks[i] {
      assert ReportsTask(tasks[i], r.tasks[i]) && ReportsTask(tasks[i], r'.tasks[i]);
    }
    assert r.tasks == r'.tasks;
    NamesAgree(r.tasks, r.criticalPathTaskIds, r'.criticalPathTaskIds);
  }
}
