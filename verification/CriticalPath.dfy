/**
  The critical-path scheduler: `calculateCpmSchedule` of gantt.ts.

  A schedule is computed by a forward pass, a backward pass and a float computation, all of
  them filling maps keyed by task id.  The functions say what each pass leaves in its maps for
  any input at all (repeated ids and unordered networks included); the method at the end runs
  the loops and is proved to compute them.  Hours are exact reals.
*/
module CriticalPath {
  import opened Wrappers

  datatype DependencyType = FS | SS | FF | SF

  datatype Dependency = Dependency(id: string, kind: Option<DependencyType>, lagHours: Option<real>)

  datatype Task = Task(id: string, durationHours: real, predecessors: seq<Dependency>, isMilestone: bool)

  datatype TaskOutput = TaskOutput(
    id: string,
    durationHours: real,
    earlyStart: real,
    earlyFinish: real,
    lateStart: real,
    lateFinish: real,
    totalFloat: real,
    freeFloat: real,
    isCritical: bool)

  datatype Schedule = Schedule(
    projectDuration: real,
    criticalPathTaskIds: seq<string>,
    tasks: seq<TaskOutput>,
    totalTasks: nat,
    criticalTasksCount: nat)

  /** An entry of the successors map. */
  datatype Successor = Successor(id: string, lagHours: Option<real>)

  /** The two maps a pass fills. */
  datatype Pass = Pass(start: map<string, real>, finish: map<string, real>)

  function Lag(lagHours: Option<real>): real {
    if lagHours.Some? then lagHours.value else 0.0
  }

  /** The hours a task occupies: none for a milestone, and never a negative number. */
  function Span(t: Task): real {
    if t.isMilestone || t.durationHours < 0.0 then 0.0 else t.durationHours
  }

  function GetOr(m: map<string, real>, id: string, default: real): real {
    if id in m then m[id] else default
  }

  /** The hour a dependency releases its successor; an id not finished yet counts as hour zero. */
  function Release(d: Dependency, finish: map<string, real>): real {
    GetOr(finish, d.id, 0.0) + Lag(d.lagHours)
  }

  /** The running maximum of the forward pass: the least hour at or after every release, and zero. */
  function ReadyTime(preds: seq<Dependency>, finish: map<string, real>): (ready: real)
    ensures ready >= 0.0
    ensures forall d :: d in preds ==> Release(d, finish) <= ready
    ensures ready == 0.0 || exists d :: d in preds && Release(d, finish) == ready
  {
    if preds == [] then 0.0 else
      var n := |preds| - 1;
      var before := ReadyTime(preds[..n], finish);
      assert preds == preds[..n] + [preds[n]];
      if Release(preds[n], finish) > before then Release(preds[n], finish) else before
  }

  function Forward(tasks: seq<Task>): (p: Pass)
    ensures p.start.Keys == p.finish.Keys == Ids(tasks)
  {
    if tasks == [] then Pass(map[], map[]) else
      var n := |tasks| - 1;
      assert tasks == tasks[..n] + [tasks[n]];
      Started(Forward(tasks[..n]), tasks[n])
  }

  /** One step of the forward pass. */
  function Started(before: Pass, t: Task): Pass {
    var es := ReadyTime(t.predecessors, before.finish);
    Pass(before.start[t.id := es], before.finish[t.id := es + Span(t)])
  }

  function Ids(tasks: seq<Task>): (ids: set<string>)
  {
    set t | t in tasks :: t.id
  }

  /** The project duration: the least number at or above zero and every value of the map. */
  ghost predicate IsPeak(m: map<string, real>, peak: real) {
    && peak >= 0.0
    && (forall id :: id in m ==> m[id] <= peak)
    && (peak == 0.0 || exists id :: id in m && m[id] == peak)
  }

  function Peak(tasks: seq<Task>, m: map<string, real>): (peak: real)
    requires Ids(tasks) == m.Keys
    ensures IsPeak(m, peak)
  {
    PeakOver(tasks, m)
  }

  function PeakOver(tasks: seq<Task>, m: map<string, real>): (peak: real)
    requires Ids(tasks) <= m.Keys
    ensures peak >= 0.0
    ensures forall t :: t in tasks ==> m[t.id] <= peak
    ensures peak == 0.0 || exists t :: t in tasks && m[t.id] == peak
  {
    if tasks == [] then 0.0 else
      var n := |tasks| - 1;
      assert tasks == tasks[..n] + [tasks[n]];
      var before := PeakOver(tasks[..n], m);
      if m[tasks[n].id] > before then m[tasks[n].id] else before
  }

  function ProjectDuration(tasks: seq<Task>): real {
    Peak(tasks, Forward(tasks).finish)
  }

  /** The entries one task adds to the successor list of `id`. */
  function SuccessorEntries(t: Task, preds: seq<Dependency>, id: string): seq<Successor> {
    if preds == [] then [] else
      var n := |preds| - 1;
      SuccessorEntries(t, preds[..n], id) +
      (if preds[n].id == id then [Successor(t.id, preds[n].lagHours)] else [])
  }

  /** The successor list of `id`, in task order and then dependency order. */
  function SuccessorsOf(tasks: seq<Task>, id: string): seq<Successor> {
    if tasks == [] then [] else
      var n := |tasks| - 1;
      SuccessorsOf(tasks[..n], id) + SuccessorEntries(tasks[n], tasks[n].predecessors, id)
  }

  /** The hour by which a successor needs its predecessor done. */
  function Deadline(s: Successor, start: map<string, real>, project: real): real {
    GetOr(start, s.id, project) - Lag(s.lagHours)
  }

  /** The running minimum of the backward pass. */
  function LatestFinish(succs: seq<Successor>, start: map<string, real>, project: real): (lf: real)
    ensures lf <= project
    ensures forall s :: s in succs ==> lf <= Deadline(s, start, project)
    ensures lf == project || exists s :: s in succs && lf == Deadline(s, start, project)
  {
    if succs == [] then project else
      var n := |succs| - 1;
      var before := LatestFinish(succs[..n], start, project);
      assert succs == succs[..n] + [succs[n]];
      if Deadline(succs[n], start, project) < before then Deadline(succs[n], start, project) else before
  }

  /** The backward pass over the tasks at positions `from` and above, last one first. */
  function Backward(tasks: seq<Task>, from: nat, project: real): (p: Pass)
    requires from <= |tasks|
    ensures p.start.Keys == p.finish.Keys == Ids(tasks[from..])
    decreases |tasks| - from
  {
    if from == |tasks| then Pass(map[], map[]) else
      assert tasks[from..] == [tasks[from]] + tasks[from + 1..];
      Finished(Backward(tasks, from + 1, project), tasks[from], SuccessorsOf(tasks, tasks[from].id), project)
  }

  /** One step of the backward pass. */
  function Finished(later: Pass, t: Task, succs: seq<Successor>, project: real): Pass {
    var lf := LatestFinish(succs, later.start, project);
    Pass(later.start[t.id := lf - Span(t)], later.finish[t.id := lf])
  }

  function Late(tasks: seq<Task>): (p: Pass)
    ensures p.start.Keys == p.finish.Keys == Ids(tasks)
  {
    Backward(tasks, 0, ProjectDuration(tasks))
  }

  function Output(t: Task, early: Pass, late: Pass): TaskOutput {
    var es, ef := GetOr(early.start, t.id, 0.0), GetOr(early.finish, t.id, 0.0);
    var ls, lf := GetOr(late.start, t.id, 0.0), GetOr(late.finish, t.id, 0.0);
    var totalFloat := if ls - es > 0.0 then ls - es else 0.0;
    TaskOutput(t.id, t.durationHours, es, ef, ls, lf, totalFloat, totalFloat, totalFloat <= 0.0)
  }

  function CriticalIds(outputs: seq<TaskOutput>): seq<string> {
    if outputs == [] then [] else
      var n := |outputs| - 1;
      CriticalIds(outputs[..n]) + (if outputs[n].isCritical then [outputs[n].id] else [])
  }

  function CpmSchedule(tasks: seq<Task>): Schedule {
    var early, late := Forward(tasks), Late(tasks);
    var outputs := seq(|tasks|, i requires 0 <= i < |tasks| => Output(tasks[i], early, late));
    Schedule(ProjectDuration(tasks), CriticalIds(outputs), outputs, |tasks|, |CriticalIds(outputs)|)
  }

  lemma PeakIsUnique(m: map<string, real>, p: real, q: real)
    requires IsPeak(m, p) && IsPeak(m, q)
    ensures p == q
  {
  }

  /** The largest value of a map or zero, whatever order the values are visited in. */
  method MaxValue(m: map<string, real>) returns (peak: real)
    ensures IsPeak(m, peak)
  {
    peak := 0.0;
    var keys := m.Keys;
    while keys != {}
      invariant keys <= m.Keys
      invariant peak >= 0.0
      invariant forall id :: id in m && id !in keys ==> m[id] <= peak
      invariant peak == 0.0 || exists id :: id in m && m[id] == peak
      decreases keys
    {
      var id :| id in keys;
      if m[id] > peak {
        peak := m[id];
      }
      keys := keys - {id};
    }
  }

  lemma ForwardStep(tasks: seq<Task>, i: nat)
    requires i < |tasks|
    ensures Forward(tasks[..i + 1]) == Started(Forward(tasks[..i]), tasks[i])
  {
    assert tasks[..i + 1][..i] == tasks[..i];
  }

  lemma BackwardStep(tasks: seq<Task>, i: nat, project: real)
    requires i < |tasks|
    ensures Backward(tasks, i, project)
         == Finished(Backward(tasks, i + 1, project), tasks[i], SuccessorsOf(tasks, tasks[i].id), project)
  {
  }

  lemma SuccessorsStep(tasks: seq<Task>, i: nat, id: string)
    requires i < |tasks|
    ensures SuccessorsOf(tasks[..i + 1], id)
         == SuccessorsOf(tasks[..i], id) + SuccessorEntries(tasks[i], tasks[i].predecessors, id)
  {
    assert tasks[..i + 1][..i] == tasks[..i];
  }

  /** The inner loop of the forward pass. */
  method LatestRelease(preds: seq<Dependency>, earlyFinish: map<string, real>) returns (maxEf: real)
    ensures maxEf == ReadyTime(preds, earlyFinish)
  {
    maxEf := 0.0;
    for k := 0 to |preds|
      invariant maxEf == ReadyTime(preds[..k], earlyFinish)
    {
      assert preds[..k + 1][..k] == preds[..k];
      var predEf := GetOr(earlyFinish, preds[k].id, 0.0);
      var lag := Lag(preds[k].lagHours);
      if predEf + lag > maxEf {
        maxEf := predEf + lag;
      }
    }
    assert preds[..|preds|] == preds;
  }

  method ForwardPass(tasks: seq<Task>) returns (earlyStart: map<string, real>, earlyFinish: map<string, real>)
    ensures Pass(earlyStart, earlyFinish) == Forward(tasks)
  {
    earlyStart, earlyFinish := map[], map[];
    for i := 0 to |tasks|
      invariant Pass(earlyStart, earlyFinish) == Forward(tasks[..i])
    {
      ForwardStep(tasks, i);
      var task := tasks[i];
      var es := LatestRelease(task.predecessors, earlyFinish);
      var ef := es + (if task.isMilestone then 0.0 else if task.durationHours > 0.0 then task.durationHours else 0.0);
      earlyStart := earlyStart[task.id := es];
      earlyFinish := earlyFinish[task.id := ef];
    }
    assert tasks[..|tasks|] == tasks;
  }

  /** Appends one task to the successor lists of its predecessors; ids without a list are skipped. */
  method AddSuccessor(task: Task, before: map<string, seq<Successor>>) returns (successors: map<string, seq<Successor>>)
    ensures successors.Keys == before.Keys
    ensures forall id :: id in successors ==>
              successors[id] == before[id] + SuccessorEntries(task, task.predecessors, id)
  {
    successors := before;
    var preds := task.predecessors;
    for k := 0 to |preds|
      invariant successors.Keys == before.Keys
      invariant forall id :: id in successors ==>
                  successors[id] == before[id] + SuccessorEntries(task, preds[..k], id)
    {
      assert preds[..k + 1][..k] == preds[..k];
      var p := preds[k];
      if p.id in successors {
        successors := successors[p.id := successors[p.id] + [Successor(task.id, p.lagHours)]];
      }
    }
    assert preds[..|preds|] == preds;
  }

  method BuildSuccessors(tasks: seq<Task>) returns (successors: map<string, seq<Successor>>)
    ensures successors.Keys == Ids(tasks)
    ensures forall id :: id in successors ==> successors[id] == SuccessorsOf(tasks, id)
  {
    successors := map[];
    for i := 0 to |tasks|
      invariant successors.Keys == Ids(tasks[..i])
      invariant forall id :: id in successors ==> successors[id] == []
    {
      assert tasks[..i + 1] == tasks[..i] + [tasks[i]];
      successors := successors[tasks[i].id := []];
    }
    assert tasks[..|tasks|] == tasks;
    for i := 0 to |tasks|
      invariant successors.Keys == Ids(tasks)
      invariant forall id :: id in successors ==> successors[id] == SuccessorsOf(tasks[..i], id)
    {
      forall id ensures SuccessorsOf(tasks[..i + 1], id)
                     == SuccessorsOf(tasks[..i], id) + SuccessorEntries(tasks[i], tasks[i].predecessors, id) {
        SuccessorsStep(tasks, i, id);
      }
      successors := AddSuccessor(tasks[i], successors);
    }
  }

  /** The inner loop of the backward pass. */
  method EarliestDeadline(succs: seq<Successor>, lateStart: map<string, real>, projectDuration: real)
    returns (minLs: real)
    ensures minLs == LatestFinish(succs, lateStart, projectDuration)
  {
    minLs := projectDuration;
    for k := 0 to |succs|
      invariant minLs == LatestFinish(succs[..k], lateStart, projectDuration)
    {
      assert succs[..k + 1][..k] == succs[..k];
      var sLs := GetOr(lateStart, succs[k].id, projectDuration);
      var lag := Lag(succs[k].lagHours);
      if sLs - lag < minLs {
        minLs := sLs - lag;
      }
    }
    assert succs[..|succs|] == succs;
  }

  /** The body of the backward loop. */
  method FinishTask(task: Task, succs: seq<Successor>, later: Pass, projectDuration: real)
    returns (lateStart: map<string, real>, lateFinish: map<string, real>)
    ensures Pass(lateStart, lateFinish) == Finished(later, task, succs, projectDuration)
  {
    var lf := EarliestDeadline(succs, later.start, projectDuration);
    var dur := if task.isMilestone then 0.0 else if task.durationHours > 0.0 then task.durationHours else 0.0;
    var ls := lf - dur;
    lateFinish := later.finish[task.id := lf];
    lateStart := later.start[task.id := ls];
  }

  /** One round of the backward loop. */
  method FinishAt(tasks: seq<Task>, i: nat, succs: seq<Successor>, start: map<string, real>, finish: map<string, real>,
                  projectDuration: real)
    returns (lateStart: map<string, real>, lateFinish: map<string, real>)
    requires i < |tasks| && succs == SuccessorsOf(tasks, tasks[i].id)
    requires Pass(start, finish) == Backward(tasks, i + 1, projectDuration)
    ensures Pass(lateStart, lateFinish) == Backward(tasks, i, projectDuration)
  {
    BackwardStep(tasks, i, projectDuration);
    lateStart, lateFinish := FinishTask(tasks[i], succs, Pass(start, finish), projectDuration);
  }

  method BackwardPass(tasks: seq<Task>, projectDuration: real)
    returns (lateStart: map<string, real>, lateFinish: map<string, real>)
    ensures Pass(lateStart, lateFinish) == Backward(tasks, 0, projectDuration)
  {
    var successors := BuildSuccessors(tasks);
    lateStart, lateFinish := map[], map[];
    for i := |tasks| downto 0
      invariant Pass(lateStart, lateFinish) == Backward(tasks, i, projectDuration)
    {
      assert tasks[i] in tasks;
      lateStart, lateFinish := FinishAt(tasks, i, successors[tasks[i].id], lateStart, lateFinish, projectDuration);
    }
  }

  /** The closing loop: one output record per task, and the ids of the critical ones. */
  method Assemble(tasks: seq<Task>, early: Pass, late: Pass)
    returns (cpmTasks: seq<TaskOutput>, criticalIds: seq<string>)
    ensures |cpmTasks| == |tasks|
    ensures forall i :: 0 <= i < |tasks| ==> cpmTasks[i] == Output(tasks[i], early, late)
    ensures criticalIds == CriticalIds(cpmTasks)
  {
    criticalIds, cpmTasks := [], [];
    for i := 0 to |tasks|
      invariant |cpmTasks| == i
      invariant forall j :: 0 <= j < i ==> cpmTasks[j] == Output(tasks[j], early, late)
      invariant criticalIds == CriticalIds(cpmTasks)
    {
      var task := tasks[i];
      var es, ef := GetOr(early.start, task.id, 0.0), GetOr(early.finish, task.id, 0.0);
      var ls, lf := GetOr(late.start, task.id, 0.0), GetOr(late.finish, task.id, 0.0);
      var totalFloat := if ls - es > 0.0 then ls - es else 0.0;
      var isCritical := totalFloat <= 0.0;
      if isCritical {
        criticalIds := criticalIds + [task.id];
      }
      var output := TaskOutput(task.id, task.durationHours, es, ef, ls, lf, totalFloat, totalFloat, isCritical);
      assert (cpmTasks + [output])[..i] == cpmTasks;
      cpmTasks := cpmTasks + [output];
    }
  }

  method CalculateCpmSchedule(tasks: seq<Task>) returns (result: Schedule)
    ensures result == CpmSchedule(tasks)
  {
    if |tasks| == 0 {
      return Schedule(0.0, [], [], 0, 0);
    }
    var earlyStart, earlyFinish := ForwardPass(tasks);
    var projectDuration := MaxValue(earlyFinish);
    PeakIsUnique(earlyFinish, projectDuration, ProjectDuration(tasks));
    var lateStart, lateFinish := BackwardPass(tasks, projectDuration);
    var cpmTasks, criticalIds := Assemble(tasks, Pass(earlyStart, earlyFinish), Pass(lateStart, lateFinish));
    assert cpmTasks == CpmSchedule(tasks).tasks;
    result := Schedule(projectDuration, criticalIds, cpmTasks, |tasks|, |criticalIds|);
  }
}
