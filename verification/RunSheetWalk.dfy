/**
  The breadth-first walk of a delay over the run sheet, on values: how a cue is retimed or shifted,
  in what order cues are discovered, and the invariant that each discovery keeps.
*/
module RunSheetWalk {
  import opened Wrappers

  datatype CueStatus = Pending | InProgress | Completed | Delayed | Skipped

  /** A note is free text or the remark the propagation leaves. */
  datatype Remark = Text(text: string) | DelayedVia(minutes: int, upstreamCue: string)

  /** The value of a run-sheet record. */
  datatype Cue = Cue(
    cueNumber: string,
    plannedStart: int,
    plannedEnd: int,
    actualStart: Option<int>,
    actualEnd: Option<int>,
    delayMinutes: int,
    status: CueStatus,
    dependentOnCues: seq<string>,
    notes: seq<Remark>,
    isCriticalPath: bool)

  datatype DelayOptions = DelayOptions(
    actualStart: Option<int>, actualEnd: Option<int>, status: Option<CueStatus>, notes: Option<string>)

  // ---- values -------------------------------------------------------------------------

  function Max(a: int, b: int): int {
    if a >= b then a else b
  }

  /** The target cue after its own update. */
  function Retimed(cue: Cue, minutes: int, options: DelayOptions): Cue {
    cue.(delayMinutes := minutes,
         status := if options.status.Some? then options.status.value else if minutes > 0 then Delayed else cue.status,
         actualStart := if options.actualStart.Some? then options.actualStart else cue.actualStart,
         actualEnd := if options.actualEnd.Some? then options.actualEnd else cue.actualEnd,
         notes := if options.notes.Some? && options.notes.value != "" then [Text(options.notes.value)] else cue.notes)
  }

  /** A cue discovered through `upstream` moves by the delay `upstream` has by then. */
  function Shifted(cue: Cue, upstream: Cue): Cue {
    cue.(delayMinutes := Max(cue.delayMinutes, upstream.delayMinutes),
         plannedStart := cue.plannedStart + upstream.delayMinutes * 60 * 1000,
         plannedEnd := cue.plannedEnd + upstream.delayMinutes * 60 * 1000,
         status := if cue.status == Pending && upstream.delayMinutes > 0 then Delayed else cue.status,
         notes := cue.notes + [DelayedVia(upstream.delayMinutes, upstream.cueNumber)])
  }

  /** The run sheet the propagation starts from: the target retimed, every other cue as it was. */
  function Start(sheet: map<string, Cue>, cueNumber: string, minutes: int, options: DelayOptions): map<string, Cue>
    requires cueNumber in sheet
  {
    sheet[cueNumber := Retimed(sheet[cueNumber], minutes, options)]
  }

  /** The map of a run sheet: of several records with one number, the last. */
  function Sheet(cues: seq<Cue>): (sheet: map<string, Cue>)
    ensures forall k :: k in sheet ==> sheet[k].cueNumber == k
  {
    if cues == [] then map[] else
      var n := |cues| - 1;
      assert cues == cues[..n] + [cues[n]];
      Sheet(cues[..n])[cues[n].cueNumber := cues[n]]
  }

  /** The order a map of the run sheet is walked in: by first occurrence. */
  function Order(cues: seq<Cue>): seq<string> {
    if cues == [] then [] else
      var n := |cues| - 1;
      var before := Order(cues[..n]);
      if cues[n].cueNumber in before then before else before + [cues[n].cueNumber]
  }

  ghost predicate IsOrderOf(order: seq<string>, sheet: map<string, Cue>) {
    && (forall i, j :: 0 <= i < j < |order| ==> order[i] != order[j])
    && (forall k :: k in order <==> k in sheet)
  }

  lemma {:induction false} OrderIsOrderOfSheet(cues: seq<Cue>)
    ensures IsOrderOf(Order(cues), Sheet(cues))
  {
    if cues != [] {
      OrderIsOrderOfSheet(cues[..|cues| - 1]);
    }
  }

  lemma {:induction false} SheetStep(cues: seq<Cue>, i: nat)
    requires i < |cues|
    ensures Sheet(cues[..i + 1]) == Sheet(cues[..i])[cues[i].cueNumber := cues[i]]
    ensures Order(cues[..i + 1])
         == Order(cues[..i]) + if cues[i].cueNumber in Order(cues[..i]) then [] else [cues[i].cueNumber]
  {
    assert cues[..i + 1][..i] == cues[..i];
  }

  // ---- what a propagation is ------------------------------------------------------------

  /** The position in the visit of the first cue that `waitsFor` names, or |visit| when it names none. */
  function Parent(visit: seq<Cue>, waitsFor: seq<string>): (p: nat)
    ensures p <= |visit|
    ensures forall i :: 0 <= i < p ==> visit[i].cueNumber !in waitsFor
    ensures p < |visit| ==> visit[p].cueNumber in waitsFor
  {
    if visit == [] then 0
    else if visit[0].cueNumber in waitsFor then 0
    else 1 + Parent(visit[1..], waitsFor)
  }

  ghost predicate Visited(visit: seq<Cue>, k: string) {
    exists j :: 0 <= j < |visit| && visit[j].cueNumber == k
  }

  ghost predicate Distinct(visit: seq<Cue>) {
    forall i, j :: 0 <= i < j < |visit| ==> visit[i].cueNumber != visit[j].cueNumber
  }

  ghost predicate OnSheet(sheet: map<string, Cue>, visit: seq<Cue>) {
    forall j :: 0 <= j < |visit| ==> visit[j].cueNumber in sheet
  }

  ghost predicate Before(order: seq<string>, x: string, y: string) {
    exists a, b :: 0 <= a < b < |order| && order[a] == x && order[b] == y
  }

  /** The position of the cue through which the j-th visited cue was discovered. */
  ghost function ParentOf(sheet: map<string, Cue>, visit: seq<Cue>, j: nat): nat
    requires j < |visit| && visit[j].cueNumber in sheet
  {
    Parent(visit, sheet[visit[j].cueNumber].dependentOnCues)
  }

  /** Cue j was discovered through an earlier one and is shifted by it, from its record on the sheet. */
  ghost predicate Discovered(sheet: map<string, Cue>, visit: seq<Cue>, j: nat)
    requires j < |visit| && visit[j].cueNumber in sheet
  {
    var p := ParentOf(sheet, visit, j);
    p < j && visit[j] == Shifted(sheet[visit[j].cueNumber], visit[p])
  }

  /** Cues are discovered parent by parent, and those of one parent in sheet order. */
  ghost predicate InTurn(sheet: map<string, Cue>, order: seq<string>, visit: seq<Cue>, i: nat, j: nat)
    requires i < |visit| && j < |visit| && visit[i].cueNumber in sheet && visit[j].cueNumber in sheet
  {
    var p, q := ParentOf(sheet, visit, i), ParentOf(sheet, visit, j);
    p < q || (p == q && Before(order, visit[i].cueNumber, visit[j].cueNumber))
  }

  /** The walk starts at the target and visits cues of the sheet, none of them twice. */
  ghost predicate Rooted(sheet: map<string, Cue>, target: string, visit: seq<Cue>) {
    && |visit| > 0 && target in sheet && visit[0] == sheet[target]
    && OnSheet(sheet, visit)
    && Distinct(visit)
  }

  ghost predicate AllDiscovered(sheet: map<string, Cue>, visit: seq<Cue>) {
    && OnSheet(sheet, visit)
    && forall j {:trigger Discovered(sheet, visit, j)} :: 0 < j < |visit| ==> Discovered(sheet, visit, j)
  }

  ghost predicate AllInTurn(sheet: map<string, Cue>, order: seq<string>, visit: seq<Cue>) {
    && OnSheet(sheet, visit)
    && forall i, j {:trigger InTurn(sheet, order, visit, i, j)} :: 0 < i < j < |visit| ==>
         InTurn(sheet, order, visit, i, j)
  }

  /** Cue j was discovered from the first `done` cues, or from the next one among the first `k` of the sheet. */
  ghost predicate ReachedBy(sheet: map<string, Cue>, order: seq<string>, visit: seq<Cue>, done: nat, k: nat, j: nat)
    requires k <= |order| && j < |visit| && visit[j].cueNumber in sheet
  {
    ParentOf(sheet, visit, j) < done || (ParentOf(sheet, visit, j) == done && visit[j].cueNumber in order[..k])
  }

  ghost predicate Reached(sheet: map<string, Cue>, order: seq<string>, visit: seq<Cue>, done: nat, k: nat)
    requires k <= |order|
  {
    && OnSheet(sheet, visit)
    && forall j {:trigger ReachedBy(sheet, order, visit, done, k, j)} :: 0 < j < |visit| ==>
         ReachedBy(sheet, order, visit, done, k, j)
  }

  /** No unvisited cue waits for an expanded one. */
  ghost predicate Expanded(sheet: map<string, Cue>, visit: seq<Cue>, done: nat)
    requires done <= |visit|
  {
    forall q, i :: q in sheet && !Visited(visit, q) && 0 <= i < done ==>
      visit[i].cueNumber !in sheet[q].dependentOnCues
  }

  /** Of the first `k` cues of the sheet, no unvisited one waits for `cue`. */
  ghost predicate Scanned(sheet: map<string, Cue>, order: seq<string>, visit: seq<Cue>, cue: string, k: nat)
    requires k <= |order|
  {
    forall q :: q in order[..k] && q in sheet && !Visited(visit, q) ==> cue !in sheet[q].dependentOnCues
  }

  /**
    The state of the walk: the first `done` visited cues have been expanded, and of the next one
    the first `k` cues of the sheet have been looked at.
  */
  ghost predicate Walk(sheet: map<string, Cue>, order: seq<string>, target: string, visit: seq<Cue>, done: nat,
                       k: nat) {
    && done <= |visit| && k <= |order| && (k > 0 ==> done < |visit|)
    && Rooted(sheet, target, visit)
    && AllDiscovered(sheet, visit)
    && Reached(sheet, order, visit, done, k)
    && AllInTurn(sheet, order, visit)
    && Expanded(sheet, visit, done)
    && (k > 0 ==> Scanned(sheet, order, visit, visit[done].cueNumber, k))
  }

  predicate AnyCritical(visit: seq<Cue>) {
    exists c :: c in visit && c.isCriticalPath
  }

  /** A finished walk. */
  ghost predicate Propagation(sheet: map<string, Cue>, order: seq<string>, target: string, visit: seq<Cue>) {
    Walk(sheet, order, target, visit, |visit|, 0)
  }

  lemma {:induction false} WalkStarts(sheet: map<string, Cue>, order: seq<string>, target: string)
    requires target in sheet && sheet[target].cueNumber == target
    ensures Walk(sheet, order, target, [sheet[target]], 0, 0)
  {
  }

  lemma {:induction false} SkipKeepsWalk(sheet: map<string, Cue>, order: seq<string>, target: string, visit: seq<Cue>,
                                         done: nat, k: nat)
    requires Walk(sheet, order, target, visit, done, k) && k < |order| && done < |visit|
    requires order[k] in sheet
    requires (Visited(visit, order[k]) || visit[done].cueNumber !in sheet[order[k]].dependentOnCues)
    ensures Walk(sheet, order, target, visit, done, k + 1)
  {
    assert order[..k + 1] == order[..k] + [order[k]];
    var next := k + 1;
    forall j | 0 < j < |visit| ensures ReachedBy(sheet, order, visit, done, next, j) {
      assert ReachedBy(sheet, order, visit, done, k, j);
    }
  }

  lemma {:induction false} NextKeepsWalk(sheet: map<string, Cue>, order: seq<string>, target: string, visit: seq<Cue>,
                                         done: nat)
    requires IsOrderOf(order, sheet) && done < |visit|
    requires Walk(sheet, order, target, visit, done, |order|)
    ensures Walk(sheet, order, target, visit, done + 1, 0)
  {
    assert order[..|order|] == order;
    var next, none := done + 1, 0;
    forall j | 0 < j < |visit| ensures ReachedBy(sheet, order, visit, next, none, j) {
      assert ReachedBy(sheet, order, visit, done, |order|, j);
    }
  }

  lemma {:induction false} ParentOnPrefix(visit: seq<Cue>, visit': seq<Cue>, waitsFor: seq<string>, p: nat)
    requires visit <= visit' && p < |visit|
    requires visit[p].cueNumber in waitsFor && forall i :: 0 <= i < p ==> visit[i].cueNumber !in waitsFor
    ensures Parent(visit', waitsFor) == p
  {
  }

  lemma {:induction false} DiscoveredStays(sheet: map<string, Cue>, visit: seq<Cue>, visit': seq<Cue>, j: nat)
    requires visit <= visit' && 0 < j < |visit| && AllDiscovered(sheet, visit)
    ensures visit'[j] == visit[j] && Discovered(sheet, visit', j)
    ensures ParentOf(sheet, visit', j) == ParentOf(sheet, visit, j) < j
  {
    assert visit'[j] == visit[j];
    assert Discovered(sheet, visit, j);
    assert visit'[ParentOf(sheet, visit, j)] == visit[ParentOf(sheet, visit, j)];
  }

  lemma {:induction false} VisitedStays(visit: seq<Cue>, visit': seq<Cue>, q: string)
    requires visit <= visit' && Visited(visit, q)
    ensures Visited(visit', q)
  {
  }

  /** `cue` is a cue waiting for the one being expanded, and is put at the end of the visit. */
  ghost predicate Grows(sheet: map<string, Cue>, visit: seq<Cue>, done: nat, x: string, visit': seq<Cue>) {
    && done < |visit| && |visit'| == |visit| + 1 && visit <= visit'
    && x in sheet && !Visited(visit, x)
    && visit'[|visit|].cueNumber == x
    && visit'[|visit|] == Shifted(sheet[x], visit[done])
    && ParentOf(sheet, visit', |visit|) == done
  }

  lemma {:induction false} GrowthIsDiscovered(sheet: map<string, Cue>, order: seq<string>, visit: seq<Cue>,
                                              done: nat, k: nat, visit': seq<Cue>)
    requires k < |order| && AllDiscovered(sheet, visit) && Reached(sheet, order, visit, done, k)
    requires Grows(sheet, visit, done, order[k], visit')
    ensures AllDiscovered(sheet, visit') && Reached(sheet, order, visit', done, k + 1)
  {
    assert order[..k + 1] == order[..k] + [order[k]];
    assert visit'[done] == visit[done];
    var next := k + 1;
    forall j | 0 < j < |visit'| ensures Discovered(sheet, visit', j) && ReachedBy(sheet, order, visit', done, next, j) {
      if j < |visit| {
        DiscoveredStays(sheet, visit, visit', j);
        assert ReachedBy(sheet, order, visit, done, k, j);
      }
    }
  }

  lemma {:induction false} GrowthIsInTurn(sheet: map<string, Cue>, order: seq<string>, visit: seq<Cue>,
                                          done: nat, k: nat, visit': seq<Cue>)
    requires k < |order| && AllDiscovered(sheet, visit) && Reached(sheet, order, visit, done, k)
    requires AllInTurn(sheet, order, visit)
    requires Grows(sheet, visit, done, order[k], visit')
    ensures AllInTurn(sheet, order, visit')
  {
    forall i, j | 0 < i < j < |visit'| ensures InTurn(sheet, order, visit', i, j) {
      DiscoveredStays(sheet, visit, visit', i);
      if j < |visit| {
        DiscoveredStays(sheet, visit, visit', j);
        assert InTurn(sheet, order, visit, i, j);
      } else {
        assert ReachedBy(sheet, order, visit, done, k, i);
      }
      if j == |visit| && ParentOf(sheet, visit, i) == done {
        assert visit[i].cueNumber in order[..k];
        var a :| 0 <= a < k && order[..k][a] == visit[i].cueNumber;
        assert order[a] == visit[i].cueNumber && order[k] == visit'[j].cueNumber;
      }
    }
  }

  /** Visiting the next dependent cue keeps the walk. */
  lemma {:induction false} VisitKeepsWalk(sheet: map<string, Cue>, order: seq<string>, target: string, visit: seq<Cue>,
                                          done: nat, k: nat)
    requires Walk(sheet, order, target, visit, done, k) && k < |order| && done < |visit|
    requires order[k] in sheet && sheet[order[k]].cueNumber == order[k]
    requires !Visited(visit, order[k]) && visit[done].cueNumber in sheet[order[k]].dependentOnCues
    ensures Walk(sheet, order, target, visit + [Shifted(sheet[order[k]], visit[done])], done, k + 1)
  {
    var x := order[k];
    var visit' := visit + [Shifted(sheet[x], visit[done])];
    ParentOnPrefix(visit, visit', sheet[x].dependentOnCues, done);
    assert Grows(sheet, visit, done, x, visit');
    GrowthIsDiscovered(sheet, order, visit, done, k, visit');
    GrowthIsInTurn(sheet, order, visit, done, k, visit');
  }

  lemma {:induction false} NoMoreVisitsThanCues(sheet: map<string, Cue>, visit: seq<Cue>)
    requires Distinct(visit) && forall j :: 0 <= j < |visit| ==> visit[j].cueNumber in sheet
    ensures |visit| <= |sheet|
  {
    if visit != [] {
      var n := |visit| - 1;
      var rest := sheet - {visit[n].cueNumber};
      forall j | 0 <= j < n ensures visit[..n][j].cueNumber in rest {
      }
      NoMoreVisitsThanCues(rest, visit[..n]);
      assert rest.Keys == sheet.Keys - {visit[n].cueNumber};
    }
  }
}
