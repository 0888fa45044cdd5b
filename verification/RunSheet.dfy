/**
  Delay propagation on the live run sheet: `LiveRunSheetEngine.applyCueDelay` of run-sheet-engine.ts.

  The engine copies the run sheet into a map, retimes the target cue, and walks the dependency
  graph breadth first, changing each copy it discovers.  Instants are milliseconds.
*/
module RunSheet {
  import opened Wrappers
  import opened RunSheetWalk
  import opened CueReport

  datatype PropagationError = CueNotFound(cueNumber: string)

  datatype CuePropagationResult = CuePropagationResult(
    updatedItem: LiveRunSheetItem,
    propagatedItems: seq<LiveRunSheetItem>,
    totalDelayedMinutes: int,
    impactedCuesCount: nat,
    criticalPathImpacted: bool)

  class LiveRunSheetItem {
    const cueNumber: string
    var plannedStart: int
    var plannedEnd: int
    var actualStart: Option<int>
    var actualEnd: Option<int>
    var delayMinutes: int
    var status: CueStatus
    const dependentOnCues: seq<string>
    var notes: seq<Remark>
    const isCriticalPath: bool

    function Value(): Cue
      reads this
    {
      Cue(cueNumber, plannedStart, plannedEnd, actualStart, actualEnd, delayMinutes, status,
          dependentOnCues, notes, isCriticalPath)
    }

    constructor Copy(item: LiveRunSheetItem)
      ensures Value() == item.Value()
    {
      cueNumber, dependentOnCues, isCriticalPath := item.cueNumber, item.dependentOnCues, item.isCriticalPath;
      plannedStart, plannedEnd := item.plannedStart, item.plannedEnd;
      actualStart, actualEnd := item.actualStart, item.actualEnd;
      delayMinutes, status, notes := item.delayMinutes, item.status, item.notes;
    }

    method Retime(minutes: int, options: DelayOptions)
      modifies this
      ensures Value() == Retimed(old(Value()), minutes, options)
    {
      delayMinutes := minutes;
      status := match options.status case Some(s) => s case None => if minutes > 0 then Delayed else status;
      if options.actualStart.Some? {
        actualStart := options.actualStart;
      }
      if options.actualEnd.Some? {
        actualEnd := options.actualEnd;
      }
      if options.notes.Some? && options.notes.value != "" {
        notes := [Text(options.notes.value)];
      }
    }

    method Shift(currentDelay: int, currentCueNum: string)
      modifies this
      ensures forall upstream: Cue :: upstream.delayMinutes == currentDelay && upstream.cueNumber == currentCueNum ==>
                Value() == Shifted(old(Value()), upstream)
    {
      var delayMs := currentDelay * 60 * 1000;
      delayMinutes := Max(delayMinutes, currentDelay);
      plannedStart := plannedStart + delayMs;
      plannedEnd := plannedEnd + delayMs;
      if status == Pending && currentDelay > 0 {
        status := Delayed;
      }
      notes := notes + [DelayedVia(currentDelay, currentCueNum)];
    }
  }

  function Values(items: seq<LiveRunSheetItem>): (cues: seq<Cue>)
    reads items
    ensures |cues| == |items|
    ensures forall i :: 0 <= i < |items| ==> cues[i] == items[i].Value()
  {
    seq(|items|, i requires 0 <= i < |items| reads items => items[i].Value())
  }

  /** The map holds one object per number of the sheet, no object twice, with the values of `now`. */
  ghost predicate Holds(itemsMap: map<string, LiveRunSheetItem>, now: map<string, Cue>)
    reads itemsMap.Values
  {
    && itemsMap.Keys == now.Keys
    && (forall k, l :: k in itemsMap && l in itemsMap && k != l ==> itemsMap[k] != itemsMap[l])
    && (forall k :: k in itemsMap ==> itemsMap[k].Value() == now[k])
  }

  /** Copies the run sheet into a map; `order` is the insertion order of its keys. */
  method LoadSheet(items: seq<LiveRunSheetItem>) returns (itemsMap: map<string, LiveRunSheetItem>, order: seq<string>)
    ensures Holds(itemsMap, Sheet(Values(items))) && order == Order(Values(items))
    ensures fresh(itemsMap.Values)
  {
    itemsMap, order := map[], [];
    ghost var cues := Values(items);
    for i := 0 to |items|
      invariant forall k :: k in itemsMap ==> fresh(itemsMap[k])
      invariant Holds(itemsMap, Sheet(cues[..i]))
      invariant order == Order(cues[..i])
    {
      SheetStep(cues, i);
      var item := new LiveRunSheetItem.Copy(items[i]);
      assert item.Value() == cues[i];
      if item.cueNumber !in order {
        order := order + [item.cueNumber];
      }
      itemsMap := itemsMap[item.cueNumber := item];
    }
    assert cues[..|items|] == cues;
  }

  /** The objects of the map have the values of the walk: visited ones as visited, the others as on the sheet. */
  ghost predicate Shows(itemsMap: map<string, LiveRunSheetItem>, sheet: map<string, Cue>, visit: seq<Cue>)
    reads itemsMap.Values
  {
    && itemsMap.Keys == sheet.Keys
    && (forall k, l :: k in itemsMap && l in itemsMap && k != l ==> itemsMap[k] != itemsMap[l])
    && (forall j :: 0 <= j < |visit| ==>
          visit[j].cueNumber in itemsMap && itemsMap[visit[j].cueNumber].Value() == visit[j])
    && (forall k :: k in sheet && !Visited(visit, k) ==> itemsMap[k].Value() == sheet[k])
  }

  /** The queue, the visited set and the propagated list of the engine, read off the walk. */
  ghost predicate Books(itemsMap: map<string, LiveRunSheetItem>, visit: seq<Cue>, from: nat,
                        queue: seq<string>, visited: set<string>, propagated: seq<LiveRunSheetItem>) {
    && from <= |visit| && |queue| == |visit| - from && |propagated| == |visit| - 1
    && (forall i :: 0 <= i < |queue| ==> queue[i] == visit[from + i].cueNumber)
    && (forall q :: q in visited <==> Visited(visit, q))
    && (forall j :: 0 < j < |visit| ==>
          visit[j].cueNumber in itemsMap && propagated[j - 1] == itemsMap[visit[j].cueNumber])
  }

  /** Objects, walk and bookkeeping of the engine agree; the queue holds the visited cues from `from` on. */
  ghost predicate Stage(itemsMap: map<string, LiveRunSheetItem>, sheet: map<string, Cue>, order: seq<string>,
                        target: string, visit: seq<Cue>, done: nat, k: nat, from: nat, queue: seq<string>,
                        visited: set<string>, propagated: seq<LiveRunSheetItem>)
    reads itemsMap.Values
  {
    var shown := Shows(itemsMap, sheet, visit);
    var walking := Walk(sheet, order, target, visit, done, k);
    var booked := Books(itemsMap, visit, from, queue, visited, propagated);
    shown && walking && booked
  }

  lemma {:induction false} BooksAfterVisit(itemsMap: map<string, LiveRunSheetItem>, visit: seq<Cue>, from: nat,
                                           queue: seq<string>, visited: set<string>, propagated: seq<LiveRunSheetItem>,
                                           cue: Cue)
    requires Books(itemsMap, visit, from, queue, visited, propagated) && cue.cueNumber in itemsMap
    ensures Books(itemsMap, visit + [cue], from, queue + [cue.cueNumber], visited + {cue.cueNumber},
                  propagated + [itemsMap[cue.cueNumber]])
  {
    var visit' := visit + [cue];
    forall j | 0 <= j < |visit| ensures visit'[j] == visit[j] {
    }
    forall q ensures q in visited + {cue.cueNumber} <==> Visited(visit', q) {
      assert visit'[|visit|].cueNumber == cue.cueNumber;
      if Visited(visit, q) {
        VisitedStays(visit, visit', q);
      }
    }
  }

  /** The change of one cue object, seen on the map. */
  method ShiftCue(itemsMap: map<string, LiveRunSheetItem>, x: string, currentDelay: int, currentCueNum: string,
                  ghost sheet: map<string, Cue>, ghost visit: seq<Cue>, ghost done: nat)
    requires Shows(itemsMap, sheet, visit) && x in sheet && !Visited(visit, x) && done < |visit|
    requires sheet[x].cueNumber == x
    requires currentDelay == visit[done].delayMinutes && currentCueNum == visit[done].cueNumber
    modifies itemsMap.Values
    ensures Shows(itemsMap, sheet, visit + [Shifted(sheet[x], visit[done])])
  {
    ghost var cue := Shifted(sheet[x], visit[done]);
    ghost var visit' := visit + [cue];
    var item := itemsMap[x];
    assert item in itemsMap.Values;
    assert forall k :: k in itemsMap && k != x ==> itemsMap[k] != item;
    item.Shift(currentDelay, currentCueNum);
    assert item.Value() == cue;
    forall j | 0 <= j < |visit'|
      ensures visit'[j].cueNumber in itemsMap && itemsMap[visit'[j].cueNumber].Value() == visit'[j]
    {
      if j < |visit| {
        assert visit'[j] == visit[j];
        assert visit[j].cueNumber != x;
      }
    }
    forall k | k in sheet && !Visited(visit', k) ensures itemsMap[k].Value() == sheet[k] {
      assert visit'[|visit|].cueNumber == x;
      if Visited(visit, k) {
        VisitedStays(visit, visit', k);
      }
    }
  }

  /** The body of the inner loop for the k-th cue of the sheet, an unvisited one that depends on the current cue. */
  method Discover(itemsMap: map<string, LiveRunSheetItem>, order: seq<string>, k: nat,
                  currentDelay: int, currentCueNum: string,
                  queue0: seq<string>, visited0: set<string>, propagated0: seq<LiveRunSheetItem>,
                  ghost sheet: map<string, Cue>, ghost target: string, ghost visit0: seq<Cue>, ghost done: nat)
    returns (queue: seq<string>, visited: set<string>, propagated: seq<LiveRunSheetItem>, ghost visit: seq<Cue>)
    requires Stage(itemsMap, sheet, order, target, visit0, done, k, done + 1, queue0, visited0, propagated0)
    requires done < |visit0| && visit0[done].delayMinutes == currentDelay && visit0[done].cueNumber == currentCueNum
    requires k < |order| && order[k] in sheet && sheet[order[k]].cueNumber == order[k]
    requires order[k] !in visited0 && order[k] in itemsMap && currentCueNum in itemsMap[order[k]].dependentOnCues
    modifies itemsMap.Values
    ensures visit == visit0 + [Shifted(sheet[order[k]], visit0[done])]
    ensures Stage(itemsMap, sheet, order, target, visit, done, k + 1, done + 1, queue, visited, propagated)
  {
    var otherNum := order[k];
    VisitStep(itemsMap, sheet, order, target, visit0, done, k, queue0, visited0, propagated0);
    visited := visited0 + {otherNum};
    ShiftCue(itemsMap, otherNum, currentDelay, currentCueNum, sheet, visit0, done);
    propagated := propagated0 + [itemsMap[otherNum]];
    queue := queue0 + [otherNum];
    visit := visit0 + [Shifted(sheet[otherNum], visit0[done])];
  }

  /** The inner loop: finds and shifts every unvisited cue that depends on the current one. */
  method Expand(itemsMap: map<string, LiveRunSheetItem>, order: seq<string>, currentCueNum: string,
                queue0: seq<string>, visited0: set<string>, propagated0: seq<LiveRunSheetItem>,
                ghost sheet: map<string, Cue>, ghost target: string, ghost visit0: seq<Cue>, ghost done: nat)
    returns (queue: seq<string>, visited: set<string>, propagated: seq<LiveRunSheetItem>, ghost visit: seq<Cue>)
    requires IsOrderOf(order, sheet) && forall q :: q in sheet ==> sheet[q].cueNumber == q
    requires Stage(itemsMap, sheet, order, target, visit0, done, 0, done + 1, queue0, visited0, propagated0)
    requires done < |visit0| && visit0[done].cueNumber == currentCueNum
    modifies itemsMap.Values
    ensures Stage(itemsMap, sheet, order, target, visit, done + 1, 0, done + 1, queue, visited, propagated)
  {
    queue, visited, propagated, visit := queue0, visited0, propagated0, visit0;
    var currentDelay := itemsMap[currentCueNum].delayMinutes;
    for k := 0 to |order|
      invariant Stage(itemsMap, sheet, order, target, visit, done, k, done + 1, queue, visited, propagated)
      invariant done < |visit| && visit[done].delayMinutes == currentDelay && visit[done].cueNumber == currentCueNum
    {
      var otherNum := order[k];
      assert otherNum in order;
      if currentCueNum in itemsMap[otherNum].dependentOnCues && otherNum !in visited {
        queue, visited, propagated, visit :=
          Discover(itemsMap, order, k, currentDelay, currentCueNum, queue, visited, propagated,
                   sheet, target, visit, done);
      } else {
        SkipStep(itemsMap, sheet, order, target, visit, done, k, queue, visited, propagated);
      }
    }
    NextStep(itemsMap, sheet, order, target, visit, done, queue, visited, propagated);
  }

  lemma {:induction false} VisitStep(itemsMap: map<string, LiveRunSheetItem>, sheet: map<string, Cue>,
                                     order: seq<string>, target: string, visit: seq<Cue>, done: nat, k: nat,
                                     queue: seq<string>, visited: set<string>, propagated: seq<LiveRunSheetItem>)
    requires Stage(itemsMap, sheet, order, target, visit, done, k, done + 1, queue, visited, propagated)
    requires done < |visit| && k < |order| && order[k] in sheet && sheet[order[k]].cueNumber == order[k]
    requires order[k] !in visited && order[k] in itemsMap && visit[done].cueNumber in itemsMap[order[k]].dependentOnCues
    ensures !Visited(visit, order[k])
    ensures var visit' := visit + [Shifted(sheet[order[k]], visit[done])];
      && Walk(sheet, order, target, visit', done, k + 1)
      && Books(itemsMap, visit', done + 1, queue + [order[k]], visited + {order[k]}, propagated + [itemsMap[order[k]]])
  {
    assert itemsMap[order[k]].Value() == sheet[order[k]];
    assert visit[done].cueNumber in sheet[order[k]].dependentOnCues;
    VisitKeepsWalk(sheet, order, target, visit, done, k);
    BooksAfterVisit(itemsMap, visit, done + 1, queue, visited, propagated, Shifted(sheet[order[k]], visit[done]));
  }

  lemma {:induction false} SkipStep(itemsMap: map<string, LiveRunSheetItem>, sheet: map<string, Cue>,
                                    order: seq<string>, target: string, visit: seq<Cue>, done: nat, k: nat,
                                    queue: seq<string>, visited: set<string>, propagated: seq<LiveRunSheetItem>)
    requires Stage(itemsMap, sheet, order, target, visit, done, k, done + 1, queue, visited, propagated)
    requires done < |visit| && k < |order| && order[k] in sheet && order[k] in itemsMap
    requires order[k] in visited || visit[done].cueNumber !in itemsMap[order[k]].dependentOnCues
    ensures Stage(itemsMap, sheet, order, target, visit, done, k + 1, done + 1, queue, visited, propagated)
  {
    if !Visited(visit, order[k]) {
      assert itemsMap[order[k]].Value() == sheet[order[k]];
    }
    SkipKeepsWalk(sheet, order, target, visit, done, k);
  }

  lemma {:induction false} NextStep(itemsMap: map<string, LiveRunSheetItem>, sheet: map<string, Cue>,
                                    order: seq<string>, target: string, visit: seq<Cue>, done: nat,
                                    queue: seq<string>, visited: set<string>, propagated: seq<LiveRunSheetItem>)
    requires IsOrderOf(order, sheet) && done < |visit|
    requires Stage(itemsMap, sheet, order, target, visit, done, |order|, done + 1, queue, visited, propagated)
    ensures Stage(itemsMap, sheet, order, target, visit, done + 1, 0, done + 1, queue, visited, propagated)
  {
    NextKeepsWalk(sheet, order, target, visit, done);
  }

  lemma {:induction false} BooksAtStart(itemsMap: map<string, LiveRunSheetItem>, cue: Cue)
    ensures Books(itemsMap, [cue], 0, [cue.cueNumber], {cue.cueNumber}, [])
  {
    assert [cue][0].cueNumber == cue.cueNumber;
  }

  /** The outer loop: expands the queue until it is empty. */
  method Propagate(itemsMap: map<string, LiveRunSheetItem>, order: seq<string>, cueNumber: string,
                   ghost sheet: map<string, Cue>)
    returns (propagated: seq<LiveRunSheetItem>, ghost visit: seq<Cue>)
    requires IsOrderOf(order, sheet) && forall q :: q in sheet ==> sheet[q].cueNumber == q
    requires cueNumber in sheet && Shows(itemsMap, sheet, [sheet[cueNumber]])
    modifies itemsMap.Values
    ensures Propagation(sheet, order, cueNumber, visit) && Shows(itemsMap, sheet, visit)
    ensures |propagated| == |visit| - 1
    ensures forall j :: 0 < j < |visit| ==>
              visit[j].cueNumber in itemsMap && propagated[j - 1] == itemsMap[visit[j].cueNumber]
  {
    propagated := [];
    var queue := [cueNumber];
    var visited := {cueNumber};
    visit := [sheet[cueNumber]];
    ghost var done := 0;
    WalkStarts(sheet, order, cueNumber);
    BooksAtStart(itemsMap, sheet[cueNumber]);
    while |queue| > 0
      invariant done <= |visit|
      invariant Stage(itemsMap, sheet, order, cueNumber, visit, done, 0, done, queue, visited, propagated)
      decreases |sheet| - done
    {
      NoMoreVisitsThanCues(sheet, visit);
      var currentCueNum := queue[0];
      queue := queue[1..];
      queue, visited, propagated, visit :=
        Expand(itemsMap, order, currentCueNum, queue, visited, propagated, sheet, cueNumber, visit, done);
      done := done + 1;
    }
  }

  /** The objects of a result: the target, then the propagated cues in order. */
  function Touched(result: CuePropagationResult): seq<LiveRunSheetItem> {
    [result.updatedItem] + result.propagatedItems
  }

  /** The minutes reported, the target and its propagated cues counted, and whether one of them is critical. */
  ghost predicate Counts(result: CuePropagationResult, minutes: int)
    reads Touched(result)
  {
    && result.totalDelayedMinutes == minutes
    && result.impactedCuesCount == 1 + |result.propagatedItems|
    && (result.criticalPathImpacted <==> exists c :: c in Touched(result) && c.isCriticalPath)
  }

  /** The result reports a propagation from `start`. */
  ghost predicate Reports(result: CuePropagationResult, start: map<string, Cue>, order: seq<string>, cueNumber: string)
    requires cueNumber in start
    reads Touched(result)
  {
    && Propagation(start, order, cueNumber, Values(Touched(result)))
    && result.totalDelayedMinutes == start[cueNumber].delayMinutes
    && result.impactedCuesCount == |Touched(result)|
    && (result.criticalPathImpacted <==> AnyCritical(Values(Touched(result))))
  }

  lemma {:induction false} ReportUpdates(result: CuePropagationResult, cues: seq<Cue>, cueNumber: string, minutes: int,
                                         options: DelayOptions)
    requires cueNumber in Sheet(cues)
    requires Reports(result, Start(Sheet(cues), cueNumber, minutes, options), Order(cues), cueNumber)
    ensures Updates(cues, cueNumber, minutes, options, Values(Touched(result))) && Counts(result, minutes)
  {
    PropagationUpdates(cues, cueNumber, minutes, options, Values(Touched(result)));
    CriticalAmong(Touched(result));
  }

  lemma CriticalAmong(items: seq<LiveRunSheetItem>)
    ensures AnyCritical(Values(items)) <==> exists c :: c in items && c.isCriticalPath
  {
    forall i | 0 <= i < |items| ensures Values(items)[i] in Values(items) {
    }
  }

  /** Retimes the target and propagates from it. */
  method Touch(itemsMap: map<string, LiveRunSheetItem>, order: seq<string>, cueNumber: string, delayMinutes: int,
               options: DelayOptions, ghost sheet: map<string, Cue>) returns (result: CuePropagationResult)
    requires cueNumber in itemsMap && Holds(itemsMap, sheet) && IsOrderOf(order, sheet)
    requires forall q :: q in sheet ==> sheet[q].cueNumber == q
    modifies itemsMap.Values
    ensures forall c :: c in Touched(result) ==> c in itemsMap.Values
    ensures Reports(result, Start(sheet, cueNumber, delayMinutes, options), order, cueNumber)
  {
    ghost var start := Start(sheet, cueNumber, delayMinutes, options);
    RetimeTarget(itemsMap, cueNumber, delayMinutes, options, sheet);
    ghost var visit;
    var propagated;
    propagated, visit := Propagate(itemsMap, order, cueNumber, start);
    TouchedIsVisit(itemsMap, start, cueNumber, visit, propagated);
    var touched := [itemsMap[cueNumber]] + propagated;
    var critical := exists c :: c in touched && c.isCriticalPath;
    result := CuePropagationResult(itemsMap[cueNumber], propagated, delayMinutes, |propagated| + 1, critical);
  }

  method ApplyCueDelay(cueNumber: string, delayMinutes: int, items: seq<LiveRunSheetItem>, options: DelayOptions)
    returns (r: Result<CuePropagationResult, PropagationError>)
    ensures Values(items) == old(Values(items))
    ensures r.Err? <==> forall c :: c in Values(items) ==> c.cueNumber != cueNumber
    ensures r.Err? ==> r.error == CueNotFound(cueNumber)
    ensures r.Ok? ==> forall c :: c in Touched(r.value) ==> fresh(c)
    ensures r.Ok? ==> Updates(Values(items), cueNumber, delayMinutes, options, Values(Touched(r.value)))
    ensures r.Ok? ==> Counts(r.value, delayMinutes)
    ensures r.Ok? ==> cueNumber in Sheet(Values(items))
    ensures r.Ok? ==>
      Reports(r.value, Start(Sheet(Values(items)), cueNumber, delayMinutes, options), Order(Values(items)), cueNumber)
  {
    var itemsMap, order := LoadSheet(items);
    SheetHasRecords(Values(items), cueNumber);
    if cueNumber !in itemsMap {
      return Err(CueNotFound(cueNumber));
    }
    OrderIsOrderOfSheet(Values(items));
    var result := Touch(itemsMap, order, cueNumber, delayMinutes, options, Sheet(Values(items)));
    ReportUpdates(result, Values(items), cueNumber, delayMinutes, options);
    r := Ok(result);
  }

  method RetimeTarget(itemsMap: map<string, LiveRunSheetItem>, cueNumber: string, delayMinutes: int,
                      options: DelayOptions, ghost sheet: map<string, Cue>)
    requires cueNumber in itemsMap && Holds(itemsMap, sheet) && sheet[cueNumber].cueNumber == cueNumber
    modifies itemsMap.Values
    ensures Shows(itemsMap, Start(sheet, cueNumber, delayMinutes, options),
                  [Start(sheet, cueNumber, delayMinutes, options)[cueNumber]])
  {
    ghost var start := Start(sheet, cueNumber, delayMinutes, options);
    var targetCue := itemsMap[cueNumber];
    assert targetCue in itemsMap.Values;
    targetCue.Retime(delayMinutes, options);
    assert forall k :: k in itemsMap ==> itemsMap[k].Value() == start[k];
  }

  lemma {:induction false} TouchedIsVisit(itemsMap: map<string, LiveRunSheetItem>, start: map<string, Cue>,
                                          cueNumber: string, visit: seq<Cue>, propagated: seq<LiveRunSheetItem>)
    requires Rooted(start, cueNumber, visit) && Shows(itemsMap, start, visit) && |propagated| == |visit| - 1
    requires cueNumber in itemsMap && start[cueNumber].cueNumber == cueNumber
    requires forall j :: 0 < j < |visit| ==>
               visit[j].cueNumber in itemsMap && propagated[j - 1] == itemsMap[visit[j].cueNumber]
    ensures Values([itemsMap[cueNumber]] + propagated) == visit
    ensures (exists c :: c in [itemsMap[cueNumber]] + propagated && c.isCriticalPath)
       <==> AnyCritical(visit)
    ensures forall c :: c in [itemsMap[cueNumber]] + propagated ==> c in itemsMap.Values
  {
  }
}
