/**
  What a delay propagation does to a run sheet: which cues it touches, along which paths, by how
  much it moves them, and when it keeps the cues in order.
*/
module RunSheetTheory {
  import opened RunSheetWalk

  /** A path of direct dependencies: every cue waits for the one before it. */
  ghost predicate IsPath(sheet: map<string, Cue>, p: seq<string>) {
    && |p| > 0
    && (forall i :: 0 <= i < |p| ==> p[i] in sheet)
    && (forall i :: 0 < i < |p| ==> p[i - 1] in sheet[p[i]].dependentOnCues)
  }

  ghost predicate PathBetween(sheet: map<string, Cue>, a: string, b: string, p: seq<string>) {
    IsPath(sheet, p) && p[0] == a && p[|p| - 1] == b
  }

  /** Cue `b` waits for cue `a`, directly or through other cues. */
  ghost predicate DependsOn(sheet: map<string, Cue>, b: string, a: string) {
    exists p :: PathBetween(sheet, a, b, p) && |p| > 1
  }

  /** How many discoveries lie between the target and the j-th visited cue. */
  ghost function Level(sheet: map<string, Cue>, visit: seq<Cue>, j: nat): nat
    requires AllDiscovered(sheet, visit) && j < |visit|
  {
    if j == 0 then 0 else
      assert Discovered(sheet, visit, j);
      1 + Level(sheet, visit, ParentOf(sheet, visit, j))
  }

  lemma {:induction false} PathAlongParents(sheet: map<string, Cue>, target: string, visit: seq<Cue>, j: nat)
    returns (p: seq<string>)
    requires Rooted(sheet, target, visit) && AllDiscovered(sheet, visit) && j < |visit|
    requires visit[0].cueNumber == target
    ensures PathBetween(sheet, target, visit[j].cueNumber, p) && |p| == Level(sheet, visit, j) + 1
  {
    if j == 0 {
      return [target];
    }
    assert Discovered(sheet, visit, j);
    var before := PathAlongParents(sheet, target, visit, ParentOf(sheet, visit, j));
    p := ExtendedPath(sheet, target, before, visit[j].cueNumber);
  }

  lemma {:induction false} ExtendedPath(sheet: map<string, Cue>, a: string, before: seq<string>, x: string)
    returns (p: seq<string>)
    requires IsPath(sheet, before) && before[0] == a
    requires x in sheet && before[|before| - 1] in sheet[x].dependentOnCues
    ensures PathBetween(sheet, a, x, p) && |p| == |before| + 1
  {
    p := before + [x];
  }

  lemma {:induction false} WaitingIsVisited(sheet: map<string, Cue>, visit: seq<Cue>, i: nat, q: string)
    returns (j: nat)
    requires Expanded(sheet, visit, |visit|) && i < |visit|
    requires q in sheet && visit[i].cueNumber in sheet[q].dependentOnCues
    ensures j < |visit| && visit[j].cueNumber == q
  {
    j :| 0 <= j < |visit| && visit[j].cueNumber == q;
  }

  lemma {:induction false} LevelsRise(sheet: map<string, Cue>, order: seq<string>, visit: seq<Cue>, i: nat, j: nat)
    requires AllDiscovered(sheet, visit) && AllInTurn(sheet, order, visit) && i <= j < |visit|
    ensures Level(sheet, visit, i) <= Level(sheet, visit, j)
    decreases j
  {
    if 0 < i < j {
      assert InTurn(sheet, order, visit, i, j) && Discovered(sheet, visit, i) && Discovered(sheet, visit, j);
      LevelsRise(sheet, order, visit, ParentOf(sheet, visit, i), ParentOf(sheet, visit, j));
    }
  }

  /** Every cue on a path from the target is visited, no further from the target than the path says. */
  lemma {:induction false} PathIsVisited(sheet: map<string, Cue>, order: seq<string>, target: string, visit: seq<Cue>,
                                         p: seq<string>, i: nat) returns (j: nat)
    requires Propagation(sheet, order, target, visit) && visit[0].cueNumber == target
    requires IsPath(sheet, p) && p[0] == target && i < |p|
    ensures j < |visit| && visit[j].cueNumber == p[i] && Level(sheet, visit, j) <= i
  {
    if i == 0 {
      return 0;
    }
    var a := PathIsVisited(sheet, order, target, visit, p, i - 1);
    j := WaitingIsVisited(sheet, visit, a, p[i]);
    if j > 0 {
      assert Discovered(sheet, visit, j);
      LevelsRise(sheet, order, visit, ParentOf(sheet, visit, j), a);
    }
  }

  /** The numbers on the sheet and in its records agree. */
  ghost predicate Numbered(sheet: map<string, Cue>) {
    forall k :: k in sheet ==> sheet[k].cueNumber == k
  }

  lemma {:induction false} VisitedIsDependent(sheet: map<string, Cue>, order: seq<string>, target: string,
                                              visit: seq<Cue>, k: string)
    requires Propagation(sheet, order, target, visit) && Numbered(sheet)
    ensures Visited(visit, k) <==> k == target || DependsOn(sheet, k, target)
  {
    assert visit[0].cueNumber == target;
    if j :| 0 <= j < |visit| && visit[j].cueNumber == k {
      var p := PathAlongParents(sheet, target, visit, j);
    }
    if p :| PathBetween(sheet, target, k, p) {
      var j := PathIsVisited(sheet, order, target, visit, p, |p| - 1);
    }
  }

  /**
    The propagation touches, besides the target, exactly the cues that transitively depend on it,
    on any graph, cyclic ones included, each once.
  */
  lemma {:induction false} PropagatedAreDependents(sheet: map<string, Cue>, order: seq<string>, target: string,
                                                   visit: seq<Cue>)
    requires Propagation(sheet, order, target, visit) && Numbered(sheet)
    ensures forall k ::
              (exists j :: 0 < j < |visit| && visit[j].cueNumber == k) <==> k != target && DependsOn(sheet, k, target)
    ensures forall i, j :: 0 <= i < j < |visit| ==> visit[i].cueNumber != visit[j].cueNumber
  {
    assert visit[0].cueNumber == target;
    forall k
      ensures (exists j :: 0 < j < |visit| && visit[j].cueNumber == k) <==> k != target && DependsOn(sheet, k, target)
    {
      VisitedIsDependent(sheet, order, target, visit, k);
      if j :| 0 < j < |visit| && visit[j].cueNumber == k {
        assert Visited(visit, k);
      }
    }
  }

  /** Every cue is discovered along a shortest dependency path from the target. */
  lemma {:induction false} DiscoveryIsShortest(sheet: map<string, Cue>, order: seq<string>, target: string,
                                               visit: seq<Cue>, j: nat)
    requires Propagation(sheet, order, target, visit) && Numbered(sheet) && j < |visit|
    ensures exists p :: PathBetween(sheet, target, visit[j].cueNumber, p) && |p| == Level(sheet, visit, j) + 1
    ensures forall p :: PathBetween(sheet, target, visit[j].cueNumber, p) ==> |p| >= Level(sheet, visit, j) + 1
  {
    var p := PathAlongParents(sheet, target, visit, j);
    forall q | PathBetween(sheet, target, visit[j].cueNumber, q) ensures |q| >= Level(sheet, visit, j) + 1 {
      var i := PathIsVisited(sheet, order, target, visit, q, |q| - 1);
    }
  }

  /** The critical-path flag of the result speaks of the target and its dependents on the sheet. */
  lemma {:induction false} CriticalPathImpact(sheet: map<string, Cue>, order: seq<string>, target: string,
                                              visit: seq<Cue>)
    requires Propagation(sheet, order, target, visit) && Numbered(sheet)
    ensures AnyCritical(visit) <==>
            (sheet[target].isCriticalPath
             || exists k :: k in sheet && DependsOn(sheet, k, target) && sheet[k].isCriticalPath)
  {
    PropagatedAreDependents(sheet, order, target, visit);
    forall j | 0 <= j < |visit| ensures visit[j].isCriticalPath == sheet[visit[j].cueNumber].isCriticalPath {
      assert j > 0 ==> Discovered(sheet, visit, j);
    }
    if c :| c in visit && c.isCriticalPath {
      var j :| 0 <= j < |visit| && visit[j] == c;
      assert j > 0 ==> DependsOn(sheet, c.cueNumber, target);
    }
    if k :| k in sheet && DependsOn(sheet, k, target) && sheet[k].isCriticalPath {
      var j :| 0 <= j < |visit| && visit[j].cueNumber == k;
      assert visit[j] in visit;
    }
    assert visit[0] in visit;
  }

  // ---- how far cues move ------------------------------------------------------------------

  lemma {:induction false} DelaysOnlyGrow(sheet: map<string, Cue>, visit: seq<Cue>, j: nat)
    requires AllDiscovered(sheet, visit) && j < |visit|
    ensures visit[j].delayMinutes >= visit[0].delayMinutes
  {
    if j > 0 {
      assert Discovered(sheet, visit, j);
      DelaysOnlyGrow(sheet, visit, ParentOf(sheet, visit, j));
    }
  }

  lemma {:induction false} NoPriorDelayNoGrowth(sheet: map<string, Cue>, visit: seq<Cue>, j: nat)
    requires AllDiscovered(sheet, visit) && j < |visit|
    requires forall i :: 0 < i < |visit| ==>
               visit[i].cueNumber in sheet && sheet[visit[i].cueNumber].delayMinutes <= visit[0].delayMinutes
    ensures visit[j].delayMinutes == visit[0].delayMinutes
  {
    if j > 0 {
      assert Discovered(sheet, visit, j);
      NoPriorDelayNoGrowth(sheet, visit, ParentOf(sheet, visit, j));
    }
  }

  /** No dependent of the target carries a delay larger than the target's. */
  ghost predicate NoLargerPriorDelay(sheet: map<string, Cue>, target: string) {
    && target in sheet
    && forall k :: k in sheet && k != target && DependsOn(sheet, k, target) ==>
         sheet[k].delayMinutes <= sheet[target].delayMinutes
  }

  /** A propagated cue moved by whole minutes, start and end alike. */
  ghost predicate MovedBy(before: Cue, after: Cue, minutes: int) {
    && after.plannedStart == before.plannedStart + minutes * 60 * 1000
    && after.plannedEnd == before.plannedEnd + minutes * 60 * 1000
  }

  /**
    In general a propagated cue moves, start and end alike, by the final delay of the cue that
    discovered it, which is never less than the delay applied to the target.
  */
  lemma {:induction false} MovesByDiscoverersDelay(sheet: map<string, Cue>, order: seq<string>, target: string,
                                                   visit: seq<Cue>, j: nat)
    requires Propagation(sheet, order, target, visit) && 0 < j < |visit|
    ensures var p := ParentOf(sheet, visit, j); var before := sheet[visit[j].cueNumber];
      && p < j
      && MovedBy(before, visit[j], visit[p].delayMinutes)
      && visit[p].delayMinutes >= sheet[target].delayMinutes
      && visit[j].delayMinutes == Max(before.delayMinutes, visit[p].delayMinutes)
      && visit[j].plannedEnd - visit[j].plannedStart == before.plannedEnd - before.plannedStart
  {
    assert Discovered(sheet, visit, j);
    DelaysOnlyGrow(sheet, visit, ParentOf(sheet, visit, j));
  }

  /** A positive delay leaves no propagated cue pending and changes the status of pending cues only. */
  lemma {:induction false} NoDependentStaysPending(sheet: map<string, Cue>, order: seq<string>, target: string,
                                                   visit: seq<Cue>, j: nat)
    requires Propagation(sheet, order, target, visit) && 0 < j < |visit|
    requires sheet[target].delayMinutes > 0
    ensures var before := sheet[visit[j].cueNumber];
      && visit[j].status != Pending
      && (before.status != Pending ==> visit[j].status == before.status)
      && (before.status == Pending ==> visit[j].status == Delayed)
  {
    assert Discovered(sheet, visit, j);
    DelaysOnlyGrow(sheet, visit, ParentOf(sheet, visit, j));
  }

  /**
    Every propagated cue ends with exactly the applied delay if and only if no dependent carried
    a larger one before; and then every start and end moved by exactly that delay.
  */
  lemma {:induction false} UniformDelayIff(sheet: map<string, Cue>, order: seq<string>, target: string, visit: seq<Cue>)
    requires Propagation(sheet, order, target, visit) && Numbered(sheet)
    ensures (forall j :: 0 < j < |visit| ==> visit[j].delayMinutes == sheet[target].delayMinutes)
       <==> NoLargerPriorDelay(sheet, target)
    ensures NoLargerPriorDelay(sheet, target) ==>
            forall j :: 0 < j < |visit| ==> MovedBy(sheet[visit[j].cueNumber], visit[j], sheet[target].delayMinutes)
  {
    PropagatedAreDependents(sheet, order, target, visit);
    if NoLargerPriorDelay(sheet, target) {
      forall i | 0 < i < |visit|
        ensures visit[i].cueNumber in sheet && sheet[visit[i].cueNumber].delayMinutes <= visit[0].delayMinutes
      {
        assert DependsOn(sheet, visit[i].cueNumber, target);
      }
      forall j | 0 < j < |visit|
        ensures visit[j].delayMinutes == sheet[target].delayMinutes
        ensures MovedBy(sheet[visit[j].cueNumber], visit[j], sheet[target].delayMinutes)
      {
        NoPriorDelayNoGrowth(sheet, visit, j);
        MovesByDiscoverersDelay(sheet, order, target, visit, j);
        NoPriorDelayNoGrowth(sheet, visit, ParentOf(sheet, visit, j));
      }
    } else {
      var k :| k in sheet && k != target && DependsOn(sheet, k, target)
        && sheet[k].delayMinutes > sheet[target].delayMinutes;
      var j :| 0 < j < |visit| && visit[j].cueNumber == k;
      MovesByDiscoverersDelay(sheet, order, target, visit, j);
    }
  }

  // ---- the walk is determined -------------------------------------------------------------

  lemma {:induction false} SameCues(sheet: map<string, Cue>, order: seq<string>, target: string,
                                    u: seq<Cue>, v: seq<Cue>, i: nat) returns (j: nat)
    requires Numbered(sheet)
    requires Propagation(sheet, order, target, u) && Propagation(sheet, order, target, v) && i < |u|
    ensures j < |v| && v[j].cueNumber == u[i].cueNumber
  {
    VisitedIsDependent(sheet, order, target, u, u[i].cueNumber);
    VisitedIsDependent(sheet, order, target, v, u[i].cueNumber);
    assert Visited(u, u[i].cueNumber);
    j :| 0 <= j < |v| && v[j].cueNumber == u[i].cueNumber;
  }

  /** Where a visited cue of one walk stands in another that agrees on the first `n`. */
  lemma {:induction false} SameCueElsewhere(sheet: map<string, Cue>, order: seq<string>, target: string,
                                            u: seq<Cue>, v: seq<Cue>, n: nat, i: nat) returns (j: nat)
    requires Numbered(sheet)
    requires Propagation(sheet, order, target, u) && Propagation(sheet, order, target, v)
    requires n <= i < |u| && n <= |v| && u[..n] == v[..n]
    ensures n <= j < |v| && v[j].cueNumber == u[i].cueNumber
  {
    j := SameCues(sheet, order, target, u, v, i);
  }

  /** Two walks that agree on the first `n` cues cannot differ on the next: each would have it before the other. */
  lemma {:induction false} CannotDiffer(sheet: map<string, Cue>, order: seq<string>, u: seq<Cue>, v: seq<Cue>, n: nat,
                                        l: nat, m: nat)
    requires IsOrderOf(order, sheet)
    requires AllDiscovered(sheet, u) && AllInTurn(sheet, order, u) && AllDiscovered(sheet, v)
    requires AllInTurn(sheet, order, v)
    requires 0 < n <= l < |u| && n <= m < |v| && u[..n] == v[..n]
    requires u[l].cueNumber == v[n].cueNumber && v[m].cueNumber == u[n].cueNumber
    ensures n == l || n == m
  {
    if n < l && n < m {
      assert Discovered(sheet, u, n) && Discovered(sheet, v, n);
      assert InTurn(sheet, order, u, n, l) && InTurn(sheet, order, v, n, m);
    }
  }

  lemma {:induction false} NextNumberIsDetermined(sheet: map<string, Cue>, order: seq<string>, target: string,
                                                  u: seq<Cue>, v: seq<Cue>, n: nat)
    requires IsOrderOf(order, sheet) && Numbered(sheet)
    requires Propagation(sheet, order, target, u) && Propagation(sheet, order, target, v)
    requires 0 < n < |u| && n < |v| && u[..n] == v[..n]
    ensures u[n].cueNumber == v[n].cueNumber
  {
    var m := SameCueElsewhere(sheet, order, target, u, v, n, n);
    var l := SameCueElsewhere(sheet, order, target, v, u, n, n);
    CannotDiffer(sheet, order, u, v, n, l, m);
  }

  lemma {:induction false} NextIsDetermined(sheet: map<string, Cue>, order: seq<string>, target: string, u: seq<Cue>,
                                            v: seq<Cue>, n: nat)
    requires IsOrderOf(order, sheet) && Numbered(sheet)
    requires Propagation(sheet, order, target, u) && Propagation(sheet, order, target, v)
    requires 0 < n < |u| && n <= |v| && u[..n] == v[..n]
    ensures n < |v| && u[n] == v[n]
  {
    var m := SameCueElsewhere(sheet, order, target, u, v, n, n);
    NextNumberIsDetermined(sheet, order, target, u, v, n);
    assert Discovered(sheet, u, n) && Discovered(sheet, v, n);
    var p := ParentOf(sheet, u, n);
    assert u[..n][p] == v[..n][p];
  }

  lemma {:induction false} PrefixIsDetermined(sheet: map<string, Cue>, order: seq<string>, target: string,
                                              u: seq<Cue>, v: seq<Cue>, n: nat)
    requires IsOrderOf(order, sheet) && Numbered(sheet)
    requires Propagation(sheet, order, target, u) && Propagation(sheet, order, target, v)
    requires 0 < n <= |u|
    ensures n <= |v| && u[..n] == v[..n]
  {
    if n == 1 {
      assert u[0] == v[0];
    } else {
      PrefixIsDetermined(sheet, order, target, u, v, n - 1);
      NextIsDetermined(sheet, order, target, u, v, n - 1);
    }
  }

  /** The description of a finished walk fixes its outcome: the cues, their order and all their fields. */
  lemma {:induction false} PropagationIsDetermined(sheet: map<string, Cue>, order: seq<string>, target: string,
                                                   u: seq<Cue>, v: seq<Cue>)
    requires IsOrderOf(order, sheet) && Numbered(sheet)
    requires Propagation(sheet, order, target, u) && Propagation(sheet, order, target, v)
    ensures u == v
  {
    PrefixIsDetermined(sheet, order, target, u, v, |u|);
    PrefixIsDetermined(sheet, order, target, v, u, |v|);
    assert u == u[..|u|] == v[..|v|] == v;
  }
}
