/**
  Whether a propagation keeps the cues of a run sheet in order, and how far cues move when delays
  are reported again and again.
*/
module CueSequence {
  import opened RunSheetWalk
  import opened RunSheetTheory
  import opened Wrappers

  // ---- the sheet after a propagation -----------------------------------------------------------

  /** No cue starts before a cue it directly depends on has ended. */
  ghost predicate InSequence(sheet: map<string, Cue>) {
    forall k, p :: k in sheet && p in sheet && p in sheet[k].dependentOnCues ==>
      sheet[p].plannedEnd <= sheet[k].plannedStart
  }

  /** Where a cue stands in the visit, or -1. */
  function PlaceOf(visit: seq<Cue>, k: string): (j: int)
    ensures -1 <= j < |visit|
    ensures j >= 0 ==> visit[j].cueNumber == k
    ensures j < 0 ==> !Visited(visit, k)
  {
    if visit == [] then -1
    else if visit[|visit| - 1].cueNumber == k then |visit| - 1
    else PlaceOf(visit[..|visit| - 1], k)
  }

  /** The sheet after the propagation. */
  function After(sheet: map<string, Cue>, visit: seq<Cue>): (after: map<string, Cue>)
    ensures after.Keys == sheet.Keys
  {
    map k | k in sheet :: if PlaceOf(visit, k) >= 0 then visit[PlaceOf(visit, k)] else sheet[k]
  }

  /** The minutes a cue moves by: the final delay of its discoverer, nothing for the target and for unvisited cues. */
  ghost function Move(sheet: map<string, Cue>, visit: seq<Cue>, k: string): int
    requires AllDiscovered(sheet, visit)
  {
    var j := PlaceOf(visit, k);
    if j <= 0 then 0 else
      assert Discovered(sheet, visit, j);
      visit[ParentOf(sheet, visit, j)].delayMinutes
  }

  lemma {:induction false} AfterMoves(sheet: map<string, Cue>, order: seq<string>, target: string, visit: seq<Cue>,
                                      k: string)
    requires Propagation(sheet, order, target, visit) && Numbered(sheet) && k in sheet
    ensures MovedBy(sheet[k], After(sheet, visit)[k], Move(sheet, visit, k))
    ensures After(sheet, visit)[k].dependentOnCues == sheet[k].dependentOnCues
    ensures After(sheet, visit)[k].cueNumber == k
  {
    var j := PlaceOf(visit, k);
    if j > 0 {
      assert Discovered(sheet, visit, j);
    }
  }

  // ---- the walk follows the dependencies -------------------------------------------------------

  /** The same cues with the same dependencies, whatever their times and delays. */
  ghost predicate SameDependencies(sheet: map<string, Cue>, other: map<string, Cue>) {
    && other.Keys == sheet.Keys
    && forall k :: k in sheet ==> other[k].dependentOnCues == sheet[k].dependentOnCues
  }

  lemma {:induction false} ParentByNumbers(u: seq<Cue>, v: seq<Cue>, waitsFor: seq<string>)
    requires |u| == |v| && forall i :: 0 <= i < |u| ==> u[i].cueNumber == v[i].cueNumber
    ensures Parent(u, waitsFor) == Parent(v, waitsFor)
  {
    if u != [] {
      ParentByNumbers(u[1..], v[1..], waitsFor);
    }
  }

  /** The first n visits of the walk on another sheet: the same cues through the same discoverers. */
  ghost function Rewalked(sheet: map<string, Cue>, other: map<string, Cue>, visit: seq<Cue>, n: nat): (v: seq<Cue>)
    requires AllDiscovered(sheet, visit) && OnSheet(other, visit) && n <= |visit|
    ensures |v| == n
  {
    if n == 0 then [] else
      var v, x := Rewalked(sheet, other, visit, n - 1), other[visit[n - 1].cueNumber];
      if n == 1 then [x] else
        assert Discovered(sheet, visit, n - 1);
        v + [Shifted(x, v[ParentOf(sheet, visit, n - 1)])]
  }

  lemma {:induction false} RewalkedAt(sheet: map<string, Cue>, other: map<string, Cue>, visit: seq<Cue>, n: nat, j: nat)
    requires AllDiscovered(sheet, visit) && OnSheet(other, visit) && Numbered(other) && j < n <= |visit|
    ensures var v := Rewalked(sheet, other, visit, n);
      && v[j].cueNumber == visit[j].cueNumber
      && (j == 0 ==> v[j] == other[visit[j].cueNumber])
      && (j > 0 ==> ParentOf(sheet, visit, j) < j
                    && v[j] == Shifted(other[visit[j].cueNumber], v[ParentOf(sheet, visit, j)]))
  {
    assert j > 0 ==> Discovered(sheet, visit, j);
    if j < n - 1 {
      RewalkedAt(sheet, other, visit, n - 1, j);
    }
  }

  /** Numbers and discoverers of the visit. */
  ghost predicate SameWalk(sheet: map<string, Cue>, visit: seq<Cue>, other: map<string, Cue>, v: seq<Cue>) {
    && |v| == |visit| && OnSheet(sheet, visit) && OnSheet(other, v)
    && (forall j :: 0 <= j < |visit| ==> v[j].cueNumber == visit[j].cueNumber)
    && (forall j {:trigger ParentOf(other, v, j)} {:trigger ParentOf(sheet, visit, j)} :: 0 <= j < |visit| ==>
          ParentOf(other, v, j) == ParentOf(sheet, visit, j))
  }

  lemma {:induction false} RewalkedIsSameWalk(sheet: map<string, Cue>, other: map<string, Cue>, visit: seq<Cue>)
    requires AllDiscovered(sheet, visit) && SameDependencies(sheet, other) && Numbered(other)
    ensures OnSheet(other, visit)
    ensures SameWalk(sheet, visit, other, Rewalked(sheet, other, visit, |visit|))
  {
    var v := Rewalked(sheet, other, visit, |visit|);
    forall j | 0 <= j < |visit| ensures v[j].cueNumber == visit[j].cueNumber {
      RewalkedAt(sheet, other, visit, |visit|, j);
    }
    forall j | 0 <= j < |visit| ensures ParentOf(other, v, j) == ParentOf(sheet, visit, j) {
      ParentByNumbers(v, visit, sheet[visit[j].cueNumber].dependentOnCues);
    }
  }

  /** Which cues are visited, in what order and through which discoverers depends on the dependencies only. */
  lemma {:induction false} WalkFollowsDependencies(sheet: map<string, Cue>, other: map<string, Cue>, order: seq<string>,
                                                   target: string, visit: seq<Cue>) returns (v: seq<Cue>)
    requires Propagation(sheet, order, target, visit) && SameDependencies(sheet, other)
    requires Numbered(sheet) && Numbered(other)
    ensures Propagation(other, order, target, v) && SameWalk(sheet, visit, other, v)
  {
    RewalkedIsSameWalk(sheet, other, visit);
    v := Rewalked(sheet, other, visit, |visit|);
    RewalkedAt(sheet, other, visit, |visit|, 0);
    forall j | 0 < j < |v| ensures Discovered(other, v, j) {
      RewalkedAt(sheet, other, visit, |visit|, j);
      assert ParentOf(other, v, j) == ParentOf(sheet, visit, j);
    }
    SameWalkIsInTurn(sheet, order, visit, other, v);
    SameWalkIsFinished(sheet, order, visit, other, v);
  }

  lemma {:induction false} SameWalkIsInTurn(sheet: map<string, Cue>, order: seq<string>, visit: seq<Cue>,
                                            other: map<string, Cue>, v: seq<Cue>)
    requires SameWalk(sheet, visit, other, v) && AllInTurn(sheet, order, visit)
    ensures AllInTurn(other, order, v)
  {
    forall i, j | 0 < i < j < |v| ensures InTurn(other, order, v, i, j) {
      assert InTurn(sheet, order, visit, i, j);
    }
  }

  lemma {:induction false} SameWalkIsFinished(sheet: map<string, Cue>, order: seq<string>, visit: seq<Cue>,
                                              other: map<string, Cue>, v: seq<Cue>)
    requires SameWalk(sheet, visit, other, v) && SameDependencies(sheet, other)
    requires Expanded(sheet, visit, |visit|) && Reached(sheet, order, visit, |visit|, 0)
    ensures Expanded(other, v, |v|) && Reached(other, order, v, |v|, 0)
  {
    var done, none := |v|, 0;
    forall j | 0 < j < |v| ensures ReachedBy(other, order, v, done, none, j) {
      assert ReachedBy(sheet, order, visit, done, none, j);
      assert ParentOf(other, v, j) == ParentOf(sheet, visit, j);
    }
    forall q, i | q in other && !Visited(v, q) && 0 <= i < |v| ensures v[i].cueNumber !in other[q].dependentOnCues {
      assert v[i].cueNumber == visit[i].cueNumber;
    }
  }

  lemma {:induction false} SameWalkSamePlace(sheet: map<string, Cue>, visit: seq<Cue>, other: map<string, Cue>,
                                             v: seq<Cue>, k: string)
    requires SameWalk(sheet, visit, other, v)
    ensures PlaceOf(v, k) == PlaceOf(visit, k)
  {
    PlaceByNumbers(visit, v, k);
  }

  lemma {:induction false} PlaceByNumbers(u: seq<Cue>, v: seq<Cue>, k: string)
    requires |u| == |v| && forall i :: 0 <= i < |u| ==> u[i].cueNumber == v[i].cueNumber
    ensures PlaceOf(u, k) == PlaceOf(v, k)
  {
    if u != [] {
      PlaceByNumbers(u[..|u| - 1], v[..|u| - 1], k);
    }
  }

  ghost predicate SameDelays(visit: seq<Cue>, v: seq<Cue>) {
    |v| == |visit| && forall j :: 0 <= j < |visit| ==> v[j].delayMinutes == visit[j].delayMinutes
  }

  /** Two walks with the same delays move every cue alike. */
  lemma {:induction false} SameDelaysSameMove(sheet: map<string, Cue>, visit: seq<Cue>, other: map<string, Cue>,
                                              v: seq<Cue>, k: string)
    requires AllDiscovered(sheet, visit) && AllDiscovered(other, v)
    requires SameWalk(sheet, visit, other, v) && SameDelays(visit, v)
    ensures Move(other, v, k) == Move(sheet, visit, k)
  {
    SameWalkSamePlace(sheet, visit, other, v, k);
    var j := PlaceOf(visit, k);
    if j > 0 {
      assert Discovered(sheet, visit, j);
      assert ParentOf(other, v, j) == ParentOf(sheet, visit, j);
    }
  }

  // ---- when the order of cues survives ---------------------------------------------------------

  /** The same sheet with other planned times. */
  ghost predicate Replanned(sheet: map<string, Cue>, other: map<string, Cue>) {
    && other.Keys == sheet.Keys
    && forall k :: k in sheet ==>
         other[k] == sheet[k].(plannedStart := other[k].plannedStart, plannedEnd := other[k].plannedEnd)
  }

  /** Whatever the planned times, cues that are in order stay in order. */
  ghost predicate SequenceSurvives(sheet: map<string, Cue>, order: seq<string>, target: string) {
    forall other, v ::
      Replanned(sheet, other) && Propagation(other, order, target, v) && InSequence(other) ==>
        InSequence(After(other, v))
  }

  /** No cue moves further than one that waits for it. */
  ghost predicate MovesInOrder(sheet: map<string, Cue>, visit: seq<Cue>)
    requires AllDiscovered(sheet, visit)
  {
    forall k, p :: k in sheet && p in sheet && p in sheet[k].dependentOnCues ==>
      Move(sheet, visit, p) <= Move(sheet, visit, k)
  }

  lemma {:induction false} ReplannedDelay(sheet: map<string, Cue>, visit: seq<Cue>, other: map<string, Cue>,
                                          v: seq<Cue>, j: nat)
    requires AllDiscovered(sheet, visit) && AllDiscovered(other, v) && SameWalk(sheet, visit, other, v)
    requires Replanned(sheet, other) && j < |visit|
    requires visit[0] == sheet[visit[0].cueNumber] && v[0] == other[v[0].cueNumber]
    ensures v[j].delayMinutes == visit[j].delayMinutes
  {
    assert v[j].cueNumber == visit[j].cueNumber;
    if j > 0 {
      assert Discovered(sheet, visit, j) && Discovered(other, v, j);
      assert ParentOf(other, v, j) == ParentOf(sheet, visit, j);
      ReplannedDelay(sheet, visit, other, v, ParentOf(sheet, visit, j));
    }
  }

  lemma {:induction false} ReplannedMovesAlike(sheet: map<string, Cue>, other: map<string, Cue>, order: seq<string>,
                                               target: string, visit: seq<Cue>, v: seq<Cue>, k: string)
    requires IsOrderOf(order, sheet) && Numbered(sheet) && Replanned(sheet, other)
    requires Propagation(sheet, order, target, visit) && Propagation(other, order, target, v)
    ensures Move(other, v, k) == Move(sheet, visit, k)
  {
    var w := WalkFollowsDependencies(sheet, other, order, target, visit);
    PropagationIsDetermined(other, order, target, v, w);
    forall j | 0 <= j < |visit| ensures v[j].delayMinutes == visit[j].delayMinutes {
      ReplannedDelay(sheet, visit, other, v, j);
    }
    SameDelaysSameMove(sheet, visit, other, v, k);
  }

  /** With every planned time at zero, cues are in order, and afterwards stand where they moved to. */
  function AllAtZero(sheet: map<string, Cue>): map<string, Cue> {
    map k | k in sheet :: sheet[k].(plannedStart := 0, plannedEnd := 0)
  }

  lemma {:induction false} OvertakenBreaksSequence(sheet: map<string, Cue>, order: seq<string>, target: string,
                                                   visit: seq<Cue>, k: string, p: string)
    requires IsOrderOf(order, sheet) && Numbered(sheet) && Propagation(sheet, order, target, visit)
    requires k in sheet && p in sheet && p in sheet[k].dependentOnCues
    requires Move(sheet, visit, p) > Move(sheet, visit, k)
    ensures !SequenceSurvives(sheet, order, target)
  {
    var other := AllAtZero(sheet);
    var v := WalkFollowsDependencies(sheet, other, order, target, visit);
    ReplannedMovesAlike(sheet, other, order, target, visit, v, k);
    ReplannedMovesAlike(sheet, other, order, target, visit, v, p);
    AfterMoves(other, order, target, v, k);
    AfterMoves(other, order, target, v, p);
    BreaksSequence(After(other, v), k, p);
  }

  lemma BreaksSequence(sheet: map<string, Cue>, k: string, p: string)
    requires k in sheet && p in sheet && p in sheet[k].dependentOnCues
    requires sheet[p].plannedEnd > sheet[k].plannedStart
    ensures !InSequence(sheet)
  {
  }

  lemma {:induction false} StaysInSequence(sheet: map<string, Cue>, other: map<string, Cue>, order: seq<string>,
                                           target: string, visit: seq<Cue>, v: seq<Cue>)
    requires IsOrderOf(order, sheet) && Numbered(sheet) && Replanned(sheet, other) && InSequence(other)
    requires Propagation(sheet, order, target, visit) && Propagation(other, order, target, v)
    requires MovesInOrder(sheet, visit)
    ensures InSequence(After(other, v))
  {
    var after := After(other, v);
    forall k, p | k in after && p in after && p in after[k].dependentOnCues
      ensures after[p].plannedEnd <= after[k].plannedStart
    {
      AfterMoves(other, order, target, v, k);
      AfterMoves(other, order, target, v, p);
      ReplannedMovesAlike(sheet, other, order, target, visit, v, k);
      ReplannedMovesAlike(sheet, other, order, target, visit, v, p);
      assert Move(sheet, visit, p) <= Move(sheet, visit, k);
    }
  }

  /**
    For fixed dependencies and delays, every order of cues survives exactly when no cue moves
    further than one that waits for it.
  */
  lemma {:induction false} SequenceSurvivesIffMovesInOrder(sheet: map<string, Cue>, order: seq<string>, target: string,
                                                           visit: seq<Cue>)
    requires IsOrderOf(order, sheet) && Numbered(sheet) && Propagation(sheet, order, target, visit)
    ensures SequenceSurvives(sheet, order, target) <==> MovesInOrder(sheet, visit)
  {
    if MovesInOrder(sheet, visit) {
      forall other, v | Replanned(sheet, other) && Propagation(other, order, target, v) && InSequence(other)
        ensures InSequence(After(other, v))
      {
        StaysInSequence(sheet, other, order, target, visit, v);
      }
    } else {
      var k, p :| k in sheet && p in sheet && p in sheet[k].dependentOnCues
        && Move(sheet, visit, p) > Move(sheet, visit, k);
      OvertakenBreaksSequence(sheet, order, target, visit, k, p);
    }
  }

  // ---- the condition in terms of dependencies and prior delays -----------------------------------

  /** The cues through which the j-th visited cue was discovered, from the target to the cue itself. */
  ghost function DiscoveryPath(sheet: map<string, Cue>, visit: seq<Cue>, j: nat): (path: seq<string>)
    requires AllDiscovered(sheet, visit) && j < |visit|
    ensures path != [] && forall k :: k in path ==> k in sheet
  {
    if j == 0 then [visit[0].cueNumber] else
      assert Discovered(sheet, visit, j);
      DiscoveryPath(sheet, visit, ParentOf(sheet, visit, j)) + [visit[j].cueNumber]
  }

  /** The largest delay on record along a path. */
  function LargestDelay(sheet: map<string, Cue>, path: seq<string>): (most: int)
    requires path != [] && forall k :: k in path ==> k in sheet
    ensures forall k :: k in path ==> sheet[k].delayMinutes <= most
    ensures exists k :: k in path && sheet[k].delayMinutes == most
  {
    var n := |path| - 1;
    var last := sheet[path[n]].delayMinutes;
    assert path == path[..n] + [path[n]];
    if n == 0 then last else Max(LargestDelay(sheet, path[..n]), last)
  }

  /** The final delay of a cue is the largest prior delay on its discovery path. */
  lemma {:induction false} FinalDelayIsLargest(sheet: map<string, Cue>, visit: seq<Cue>, j: nat)
    requires AllDiscovered(sheet, visit) && j < |visit| && visit[0] == sheet[visit[0].cueNumber]
    ensures visit[j].delayMinutes == LargestDelay(sheet, DiscoveryPath(sheet, visit, j))
  {
    if j > 0 {
      assert Discovered(sheet, visit, j);
      var p := ParentOf(sheet, visit, j);
      FinalDelayIsLargest(sheet, visit, p);
      var before := DiscoveryPath(sheet, visit, p);
      assert (before + [visit[j].cueNumber])[..|before|] == before;
    }
  }

  /** What the j-th visited cue is moved by: the largest prior delay on the path to its discoverer. */
  ghost function Inherited(sheet: map<string, Cue>, visit: seq<Cue>, j: nat): int
    requires AllDiscovered(sheet, visit) && j < |visit|
  {
    if j == 0 then 0 else
      assert Discovered(sheet, visit, j);
      LargestDelay(sheet, DiscoveryPath(sheet, visit, ParentOf(sheet, visit, j)))
  }

  lemma {:induction false} MoveIsInherited(sheet: map<string, Cue>, visit: seq<Cue>, j: nat)
    requires Distinct(visit) && AllDiscovered(sheet, visit) && j < |visit| && visit[0] == sheet[visit[0].cueNumber]
    ensures Move(sheet, visit, visit[j].cueNumber) == Inherited(sheet, visit, j)
  {
    if j > 0 {
      assert Discovered(sheet, visit, j);
      FinalDelayIsLargest(sheet, visit, ParentOf(sheet, visit, j));
    }
  }

  /** No cue but the target itself waits for the target. */
  ghost predicate NobodyWaits(sheet: map<string, Cue>, target: string) {
    forall k :: k in sheet && target in sheet[k].dependentOnCues ==> k == target
  }

  ghost predicate WaitsFor(sheet: map<string, Cue>, visit: seq<Cue>, j: nat, i: nat)
    requires OnSheet(sheet, visit) && i < |visit| && j < |visit|
  {
    visit[i].cueNumber in sheet[visit[j].cueNumber].dependentOnCues
  }

  /** A visited cue inherits no larger delay than a cue that waits for it. */
  ghost predicate NoOvertaking(sheet: map<string, Cue>, visit: seq<Cue>)
    requires AllDiscovered(sheet, visit)
  {
    forall i, j :: 0 < i < |visit| && 0 <= j < |visit| && WaitsFor(sheet, visit, j, i) ==>
      Inherited(sheet, visit, i) <= Inherited(sheet, visit, j)
  }

  lemma {:induction false} SecondVisitWaits(sheet: map<string, Cue>, order: seq<string>, target: string,
                                            visit: seq<Cue>)
    requires Propagation(sheet, order, target, visit) && Numbered(sheet) && |visit| > 1
    ensures !NobodyWaits(sheet, target)
  {
    assert Discovered(sheet, visit, 1);
    assert ParentOf(sheet, visit, 1) == 0;
    assert visit[0].cueNumber == target && visit[1].cueNumber != visit[0].cueNumber;
  }

  lemma {:induction false} NobodyWaitsNobodyMoves(sheet: map<string, Cue>, order: seq<string>, target: string,
                                                  visit: seq<Cue>, k: string)
    requires Propagation(sheet, order, target, visit) && Numbered(sheet) && NobodyWaits(sheet, target)
    ensures Move(sheet, visit, k) == 0
  {
    if |visit| > 1 {
      SecondVisitWaits(sheet, order, target, visit);
    }
  }

  lemma {:induction false} NonnegativeMove(sheet: map<string, Cue>, order: seq<string>, target: string, visit: seq<Cue>,
                                           k: string)
    requires Propagation(sheet, order, target, visit) && sheet[target].delayMinutes >= 0
    ensures Move(sheet, visit, k) >= 0
  {
    var j := PlaceOf(visit, k);
    if j > 0 {
      assert Discovered(sheet, visit, j);
      DelaysOnlyGrow(sheet, visit, ParentOf(sheet, visit, j));
    }
  }

  lemma {:induction false} NoOvertakingKeepsPair(sheet: map<string, Cue>, order: seq<string>, target: string,
                                                 visit: seq<Cue>, k: string, p: string)
    requires Propagation(sheet, order, target, visit) && Numbered(sheet)
    requires sheet[target].delayMinutes >= 0 && NoOvertaking(sheet, visit)
    requires k in sheet && p in sheet[k].dependentOnCues
    ensures Move(sheet, visit, p) <= Move(sheet, visit, k)
  {
    NonnegativeMove(sheet, order, target, visit, k);
    var i := PlaceOf(visit, p);
    if i > 0 {
      var j := WaitingIsVisited(sheet, visit, i, k);
      assert WaitsFor(sheet, visit, j, i);
      MoveIsInherited(sheet, visit, i);
      MoveIsInherited(sheet, visit, j);
    }
  }

  lemma {:induction false} MovesInOrderIff(sheet: map<string, Cue>, order: seq<string>, target: string, visit: seq<Cue>)
    requires Propagation(sheet, order, target, visit) && Numbered(sheet)
    ensures MovesInOrder(sheet, visit)
       <==> NobodyWaits(sheet, target) || (sheet[target].delayMinutes >= 0 && NoOvertaking(sheet, visit))
  {
    if MovesInOrder(sheet, visit) {
      forall k | k in sheet && k != target && target in sheet[k].dependentOnCues
        ensures sheet[target].delayMinutes >= 0
      {
        assert visit[0].cueNumber == target;
        assert Move(sheet, visit, target) <= Move(sheet, visit, k);
      }
      forall i, j | 0 < i < |visit| && 0 <= j < |visit| && WaitsFor(sheet, visit, j, i)
        ensures Inherited(sheet, visit, i) <= Inherited(sheet, visit, j)
      {
        MoveIsInherited(sheet, visit, i);
        MoveIsInherited(sheet, visit, j);
        assert Move(sheet, visit, visit[i].cueNumber) <= Move(sheet, visit, visit[j].cueNumber);
      }
    } else {
      var k, p :| k in sheet && p in sheet && p in sheet[k].dependentOnCues
        && Move(sheet, visit, p) > Move(sheet, visit, k);
      if NobodyWaits(sheet, target) {
        NobodyWaitsNobodyMoves(sheet, order, target, visit, k);
        NobodyWaitsNobodyMoves(sheet, order, target, visit, p);
      } else if sheet[target].delayMinutes >= 0 && NoOvertaking(sheet, visit) {
        NoOvertakingKeepsPair(sheet, order, target, visit, k, p);
      }
    }
  }

  /**
    The order of cues survives, whatever their planned times, exactly when nothing waits for the
    target, or the delay is not negative and no visited cue inherits a larger prior delay along its
    discovery path than a cue that waits for it; the target inherits none.
  */
  lemma {:induction false} SequenceSurvivesIff(sheet: map<string, Cue>, order: seq<string>, target: string,
                                               visit: seq<Cue>)
    requires IsOrderOf(order, sheet) && Numbered(sheet) && Propagation(sheet, order, target, visit)
    ensures SequenceSurvives(sheet, order, target)
       <==> NobodyWaits(sheet, target) || (sheet[target].delayMinutes >= 0 && NoOvertaking(sheet, visit))
  {
    SequenceSurvivesIffMovesInOrder(sheet, order, target, visit);
    MovesInOrderIff(sheet, order, target, visit);
  }

  /** The target waits for one of the cues that transitively wait for it. */
  ghost predicate OnCycle(sheet: map<string, Cue>, target: string) {
    target in sheet
    && exists p :: p in sheet && p != target && p in sheet[target].dependentOnCues && DependsOn(sheet, p, target)
  }

  lemma {:induction false} UniformMove(sheet: map<string, Cue>, order: seq<string>, target: string, visit: seq<Cue>,
                                       k: string)
    requires Propagation(sheet, order, target, visit) && Numbered(sheet) && NoLargerPriorDelay(sheet, target)
    ensures Move(sheet, visit, k)
         == if k != target && DependsOn(sheet, k, target) then sheet[target].delayMinutes else 0
  {
    assert visit[0].cueNumber == target;
    PropagatedAreDependents(sheet, order, target, visit);
    var j := PlaceOf(visit, k);
    if j > 0 {
      assert Discovered(sheet, visit, j);
      UniformDelayIff(sheet, order, target, visit);
      assert visit[j].cueNumber != visit[0].cueNumber;
    }
  }

  /**
    When no dependent carried a larger delay, the order of cues survives exactly when nothing waits
    for the target, or the delay is zero, or it is positive and the target is on no cycle.
  */
  lemma {:induction false} UniformDelayKeepsSequenceIff(sheet: map<string, Cue>, order: seq<string>, target: string,
                                                        visit: seq<Cue>)
    requires IsOrderOf(order, sheet) && Numbered(sheet) && Propagation(sheet, order, target, visit)
    requires NoLargerPriorDelay(sheet, target)
    ensures var d := sheet[target].delayMinutes;
      SequenceSurvives(sheet, order, target)
      <==> NobodyWaits(sheet, target) || d == 0 || (d > 0 && !OnCycle(sheet, target))
  {
    SequenceSurvivesIffMovesInOrder(sheet, order, target, visit);
    MovesInOrderIff(sheet, order, target, visit);
    forall k
      ensures Move(sheet, visit, k)
           == if k != target && DependsOn(sheet, k, target) then sheet[target].delayMinutes else 0
    {
      UniformMove(sheet, order, target, visit, k);
    }
    var d := sheet[target].delayMinutes;
    if d == 0 || (d > 0 && !OnCycle(sheet, target)) {
      UniformMovesInOrder(sheet, order, target, visit);
    } else if d > 0 {
      var p :| p in sheet && p != target && p in sheet[target].dependentOnCues && DependsOn(sheet, p, target);
      assert Move(sheet, visit, p) > Move(sheet, visit, target);
    }
  }

  lemma {:induction false} UniformMovesInOrder(sheet: map<string, Cue>, order: seq<string>, target: string,
                                               visit: seq<Cue>)
    requires Propagation(sheet, order, target, visit) && Numbered(sheet)
    requires forall k ::
      Move(sheet, visit, k) == if k != target && DependsOn(sheet, k, target) then sheet[target].delayMinutes else 0
    requires sheet[target].delayMinutes == 0 || (sheet[target].delayMinutes > 0 && !OnCycle(sheet, target))
    ensures MovesInOrder(sheet, visit)
  {
    forall k, p | k in sheet && p in sheet && p in sheet[k].dependentOnCues
      ensures Move(sheet, visit, p) <= Move(sheet, visit, k)
    {
      if p != target && DependsOn(sheet, p, target) {
        DependsOnFurther(sheet, k, p, target);
      }
    }
  }

  lemma {:induction false} DependsOnFurther(sheet: map<string, Cue>, k: string, p: string, target: string)
    requires k in sheet && p in sheet[k].dependentOnCues && DependsOn(sheet, p, target)
    ensures DependsOn(sheet, k, target)
  {
    var path :| PathBetween(sheet, target, p, path) && |path| > 1;
    var further := ExtendedPath(sheet, target, path, k);
  }

  // ---- a larger prior delay, by example ----------------------------------------------------------

  function Sample(number: string, start: int, delay: int, waitsFor: seq<string>): Cue {
    Cue(number, start, start + 60000, None, None, delay, Pending, waitsFor, [], false)
  }

  /** A cue that names only `first`, or names the target, is discovered through it. */
  lemma {:induction false} AfterIsShifted(sheet: map<string, Cue>, target: string, visit: seq<Cue>, i: nat, k: string)
    returns (j: nat)
    requires Rooted(sheet, target, visit) && AllDiscovered(sheet, visit) && Expanded(sheet, visit, |visit|)
    requires i < |visit| && k in sheet && k != visit[0].cueNumber && visit[i].cueNumber in sheet[k].dependentOnCues
    requires i == 0 || sheet[k].dependentOnCues == [visit[i].cueNumber]
    ensures j < |visit| && visit[j].cueNumber == k && visit[j] == Shifted(sheet[k], visit[i])
  {
    j := WaitingIsVisited(sheet, visit, i, k);
    assert Discovered(sheet, visit, j);
    var p := ParentOf(sheet, visit, j);
    assert visit[p].cueNumber == visit[i].cueNumber || p == i;
  }

  /**
    A larger prior delay breaks the sequence: B, delayed 30 minutes already, passes 30 minutes on
    to C, while D, which waits for C, is discovered through A and moves by only 10.
  */
  lemma {:induction false} LargerPriorDelayBreaksSequence(sheet: map<string, Cue>, order: seq<string>, visit: seq<Cue>)
    requires sheet == DelayedSheet() && Propagation(sheet, order, "A", visit)
    ensures InSequence(sheet) && !InSequence(After(sheet, visit))
  {
    DelayedSheetInSequence();
    DelayedSheetMoves(sheet, order, visit);
    BreaksSequence(After(sheet, visit), "D", "C");
  }

  lemma DelayedSheetInSequence()
    ensures InSequence(DelayedSheet())
  {
  }

  lemma {:induction false} DelayedSheetMoves(sheet: map<string, Cue>, order: seq<string>, visit: seq<Cue>)
    requires sheet == DelayedSheet() && Propagation(sheet, order, "A", visit)
    ensures var after := After(sheet, visit);
      && after["C"].plannedEnd == 180000 + 30 * 60 * 1000
      && after["D"].plannedStart == 180000 + 10 * 60 * 1000
      && after["D"].dependentOnCues == ["A", "C"]
  {
    var b := AfterIsShifted(sheet, "A", visit, 0, "B");
    var c := AfterIsShifted(sheet, "A", visit, b, "C");
    var d := AfterIsShifted(sheet, "A", visit, 0, "D");
  }

  function DelayedSheet(): map<string, Cue> {
    map["A" := Sample("A", 0, 10, []), "B" := Sample("B", 60000, 30, ["A"]),
        "C" := Sample("C", 120000, 0, ["B"]), "D" := Sample("D", 180000, 0, ["A", "C"])]
  }

  // ---- runs of reported delays -------------------------------------------------------------------

  datatype Report = Report(cueNumber: string, minutes: int, options: DelayOptions)

  /** The sheet a report is propagated on. */
  function StartOf(sheet: map<string, Cue>, r: Report): map<string, Cue>
    requires r.cueNumber in sheet
  {
    Start(sheet, r.cueNumber, r.minutes, r.options)
  }

  ghost predicate IsStep(sheet: map<string, Cue>, order: seq<string>, r: Report, visit: seq<Cue>, after: map<string,
                         Cue>) {
    && r.cueNumber in sheet
    && (var finished := Propagation(StartOf(sheet, r), order, r.cueNumber, visit); finished)
    && after == After(StartOf(sheet, r), visit)
  }

  /** One report of a run, the walk it sets off, and the sheet it leaves. */
  datatype Step = Step(report: Report, visit: seq<Cue>, after: map<string, Cue>)

  /** Reports applied one after the other, each to the sheet the last one left. */
  ghost predicate IsRun(sheet: map<string, Cue>, order: seq<string>, steps: seq<Step>) {
    steps != [] ==>
      && IsStep(sheet, order, steps[0].report, steps[0].visit, steps[0].after)
      && IsRun(steps[0].after, order, steps[1..])
  }

  /** The minutes cue k moves by in one step. */
  ghost function StepMove(sheet: map<string, Cue>, order: seq<string>, s: Step, k: string): int
    requires IsStep(sheet, order, s.report, s.visit, s.after)
  {
    Move(StartOf(sheet, s.report), s.visit, k)
  }

  function Last(sheet: map<string, Cue>, steps: seq<Step>): map<string, Cue> {
    if steps == [] then sheet else steps[|steps| - 1].after
  }

  /** The minutes cue k moves by in all the reports of a run. */
  ghost function TotalMove(sheet: map<string, Cue>, order: seq<string>, steps: seq<Step>, k: string): int
    requires IsRun(sheet, order, steps)
    decreases |steps|
  {
    if steps == [] then 0 else
      StepMove(sheet, order, steps[0], k) + TotalMove(steps[0].after, order, steps[1..], k)
  }

  lemma {:induction false} StepMoves(sheet: map<string, Cue>, order: seq<string>, r: Report, visit: seq<Cue>,
                                     after: map<string, Cue>, k: string)
    requires IsStep(sheet, order, r, visit, after) && Numbered(sheet) && k in sheet
    ensures k in after && after[k].cueNumber == k && after[k].dependentOnCues == sheet[k].dependentOnCues
    ensures MovedBy(sheet[k], after[k], Move(StartOf(sheet, r), visit, k))
  {
    AfterMoves(StartOf(sheet, r), order, r.cueNumber, visit, k);
  }

  lemma {:induction false} StepKeepsDependencies(sheet: map<string, Cue>, order: seq<string>, r: Report,
                                                 visit: seq<Cue>, after: map<string, Cue>)
    requires IsStep(sheet, order, r, visit, after) && Numbered(sheet)
    ensures Numbered(after) && SameDependencies(sheet, after)
  {
    forall k | k in sheet ensures after[k].cueNumber == k && after[k].dependentOnCues == sheet[k].dependentOnCues {
      StepMoves(sheet, order, r, visit, after, k);
    }
  }

  /** After any run of reports, every cue stands away from its plan by the sum of its moves, start and end alike. */
  lemma {:induction false} RunMovesByTotal(sheet: map<string, Cue>, order: seq<string>, steps: seq<Step>, k: string)
    requires IsRun(sheet, order, steps) && Numbered(sheet) && k in sheet
    ensures k in Last(sheet, steps)
    ensures MovedBy(sheet[k], Last(sheet, steps)[k], TotalMove(sheet, order, steps, k))
    decreases |steps|
  {
    if steps != [] {
      StepMoves(sheet, order, steps[0].report, steps[0].visit, steps[0].after, k);
      StepKeepsDependencies(sheet, order, steps[0].report, steps[0].visit, steps[0].after);
      RunMovesByTotal(steps[0].after, order, steps[1..], k);
    }
  }

  /** A walk over a sheet that has the final delays of an earlier walk ends with the same delays. */
  lemma {:induction false} SecondWalkKeepsDelay(sheet: map<string, Cue>, visit: seq<Cue>, again: map<string, Cue>,
                                                v: seq<Cue>, j: nat)
    requires AllDiscovered(sheet, visit) && AllDiscovered(again, v) && SameWalk(sheet, visit, again, v) && j < |visit|
    requires v[0].delayMinutes == visit[0].delayMinutes
    requires forall i :: 0 < i < |visit| ==> again[v[i].cueNumber].delayMinutes == visit[i].delayMinutes
    ensures v[j].delayMinutes == visit[j].delayMinutes
  {
    if j > 0 {
      assert Discovered(sheet, visit, j) && Discovered(again, v, j);
      assert ParentOf(again, v, j) == ParentOf(sheet, visit, j);
      SecondWalkKeepsDelay(sheet, visit, again, v, ParentOf(sheet, visit, j));
    }
  }

  ghost predicate SameReport(r: Report, s: Report) {
    r.cueNumber == s.cueNumber && r.minutes == s.minutes
  }

  ghost predicate StepsAgain(sheet: map<string, Cue>, order: seq<string>, r: Report, visit: seq<Cue>,
                             after: map<string, Cue>, r': Report, v: seq<Cue>, last: map<string, Cue>) {
    && IsStep(sheet, order, r, visit, after) && IsStep(after, order, r', v, last) && SameReport(r, r')
    && (var alike :=
        Numbered(sheet) && Numbered(after) && IsOrderOf(order, sheet) && SameDependencies(sheet, after);
        alike)
  }

  lemma {:induction false} SecondReportWalksAgain(sheet: map<string, Cue>, order: seq<string>, r: Report,
                                                  visit: seq<Cue>, after: map<string, Cue>, r': Report, v: seq<Cue>,
                                                  last: map<string, Cue>)
    requires StepsAgain(sheet, order, r, visit, after, r', v, last)
    ensures SameWalk(StartOf(sheet, r), visit, StartOf(after, r'), v)
  {
    var w := WalkFollowsDependencies(StartOf(sheet, r), StartOf(after, r'), order, r.cueNumber, visit);
    PropagationIsDetermined(StartOf(after, r'), order, r.cueNumber, v, w);
  }

  lemma {:induction false} RecordedDelay(sheet: map<string, Cue>, order: seq<string>, r: Report, visit: seq<Cue>,
                                         after: map<string, Cue>, i: nat)
    requires IsStep(sheet, order, r, visit, after) && Numbered(sheet) && i < |visit|
    ensures visit[i].cueNumber in after && after[visit[i].cueNumber] == visit[i]
    ensures i > 0 ==> visit[i].cueNumber != r.cueNumber
  {
    assert visit[0].cueNumber == r.cueNumber;
  }

  lemma {:induction false} SecondReportKeepsDelays(sheet: map<string, Cue>, order: seq<string>, r: Report,
                                                   visit: seq<Cue>, after: map<string, Cue>, r': Report, v: seq<Cue>,
                                                   last: map<string, Cue>)
    requires StepsAgain(sheet, order, r, visit, after, r', v, last)
    requires SameWalk(StartOf(sheet, r), visit, StartOf(after, r'), v)
    ensures SameDelays(visit, v)
  {
    var start, again := StartOf(sheet, r), StartOf(after, r');
    forall i | 0 < i < |visit| ensures again[v[i].cueNumber].delayMinutes == visit[i].delayMinutes {
      RecordedDelay(sheet, order, r, visit, after, i);
    }
    forall j | 0 <= j < |visit| ensures v[j].delayMinutes == visit[j].delayMinutes {
      SecondWalkKeepsDelay(start, visit, again, v, j);
    }
  }

  lemma {:induction false} SecondReportMovesAgain(sheet: map<string, Cue>, order: seq<string>, r: Report,
                                                  visit: seq<Cue>, after: map<string, Cue>, r': Report, v: seq<Cue>,
                                                  last: map<string, Cue>, k: string)
    requires StepsAgain(sheet, order, r, visit, after, r', v, last) && k in after
    ensures Move(StartOf(after, r'), v, k) == Move(StartOf(sheet, r), visit, k)
    ensures k in last && last[k].delayMinutes == after[k].delayMinutes
  {
    SecondReportWalksAgain(sheet, order, r, visit, after, r', v, last);
    SecondReportKeepsDelays(sheet, order, r, visit, after, r', v, last);
    SameDelaysSameMove(StartOf(sheet, r), visit, StartOf(after, r'), v, k);
    SameWalkSamePlace(StartOf(sheet, r), visit, StartOf(after, r'), v, k);
    RecordedDelay(sheet, order, r, visit, after, 0);
  }

  lemma {:induction false} SecondStep(sheet: map<string, Cue>, order: seq<string>, first: Step, second: Step, k: string)
    requires Numbered(sheet) && IsOrderOf(order, sheet) && k in sheet
    requires IsStep(sheet, order, first.report, first.visit, first.after)
    requires IsStep(first.after, order, second.report, second.visit, second.after)
    requires SameReport(first.report, second.report)
    ensures Numbered(first.after) && IsOrderOf(order, first.after) && k in first.after && k in second.after
    ensures StepMove(first.after, order, second, k) == StepMove(sheet, order, first, k)
    ensures second.after[k].delayMinutes == first.after[k].delayMinutes
  {
    StepKeepsDependencies(sheet, order, first.report, first.visit, first.after);
    SecondReportMovesAgain(sheet, order, first.report, first.visit, first.after,
                           second.report, second.visit, second.after, k);
  }

  lemma {:induction false} LaterReportsMoveAlike(sheet: map<string, Cue>, order: seq<string>, first: Step,
                                                 steps: seq<Step>, k: string, m: int)
    requires Numbered(sheet) && IsOrderOf(order, sheet) && k in sheet
    requires IsStep(sheet, order, first.report, first.visit, first.after) && IsRun(first.after, order, steps)
    requires StepMove(sheet, order, first, k) == m
    requires forall s :: s in steps ==> SameReport(first.report, s.report)
    ensures TotalMove(first.after, order, steps, k) == Times(|steps|, m)
    decreases |steps|
  {
    if steps != [] {
      assert steps[0] in steps;
      SecondStep(sheet, order, first, steps[0], k);
      LaterReportsMoveAlike(first.after, order, steps[0], steps[1..], k, m);
    }
  }

  lemma {:induction false} LaterReportsKeepDelay(sheet: map<string, Cue>, order: seq<string>, first: Step,
                                                 steps: seq<Step>, k: string)
    requires Numbered(sheet) && IsOrderOf(order, sheet) && k in sheet
    requires IsStep(sheet, order, first.report, first.visit, first.after) && IsRun(first.after, order, steps)
    requires forall s :: s in steps ==> SameReport(first.report, s.report)
    ensures k in first.after && k in Last(first.after, steps)
    ensures Last(first.after, steps)[k].delayMinutes == first.after[k].delayMinutes
    decreases |steps|
  {
    if steps != [] {
      assert steps[0] in steps;
      SecondStep(sheet, order, first, steps[0], k);
      LaterReportsKeepDelay(first.after, order, steps[0], steps[1..], k);
    }
  }

  function Times(n: nat, x: int): (r: int)
    ensures r == n * x
  {
    if n == 0 then 0 else x + Times(n - 1, x)
  }

  /**
    The same delay reported n times for one cue moves every dependent n times by the same minutes,
    although no delay on record changes after the first time.
  */
  lemma {:induction false} RepeatedReportMovesAgain(sheet: map<string, Cue>, order: seq<string>, steps: seq<Step>,
                                                    k: string)
    requires IsRun(sheet, order, steps) && Numbered(sheet) && IsOrderOf(order, sheet) && k in sheet && steps != []
    requires forall s :: s in steps ==> SameReport(steps[0].report, s.report)
    ensures k in Last(sheet, steps) && k in steps[0].after
    ensures MovedBy(sheet[k], Last(sheet, steps)[k], |steps| * StepMove(sheet, order, steps[0], k))
    ensures Last(sheet, steps)[k].delayMinutes == steps[0].after[k].delayMinutes
  {
    RunMovesByTotal(sheet, order, steps, k);
    var m := StepMove(sheet, order, steps[0], k);
    LaterReportsMoveAlike(sheet, order, steps[0], steps[1..], k, m);
    LaterReportsKeepDelay(sheet, order, steps[0], steps[1..], k);
    assert Times(|steps|, m) == m + Times(|steps| - 1, m);
  }
}
