/**
  What the result of a reported delay says of the records that went in, field by field.
*/
module CueReport {
  import opened Wrappers
  import opened RunSheetWalk

  /** The record of a cue number: the last of those given with it. */
  ghost predicate IsRecord(cues: seq<Cue>, number: string, record: Cue) {
    exists i :: 0 <= i < |cues| && cues[i] == record && record.cueNumber == number
                && forall j :: i < j < |cues| ==> cues[j].cueNumber != number
  }

  /** Everything that no propagation changes. */
  ghost predicate SameCue(before: Cue, after: Cue) {
    && after.cueNumber == before.cueNumber && after.dependentOnCues == before.dependentOnCues
    && after.isCriticalPath == before.isCriticalPath
  }

  /** A value given replaces the one on record, and an absent one keeps it. */
  ghost predicate Replaced<T(!new)>(given: Option<T>, before: Option<T>, after: Option<T>) {
    && (given.Some? ==> after == given)
    && (given.None? ==> after == before)
  }

  /** A status that is given holds, whatever the delay; otherwise a positive delay means delayed. */
  ghost predicate TargetStatus(given: Option<CueStatus>, minutes: int, before: CueStatus, after: CueStatus) {
    && (given.Some? ==> after == given.value)
    && (given.None? ==> (after == Delayed <==> minutes > 0 || before == Delayed))
    && (given.None? && minutes <= 0 ==> after == before)
  }

  ghost predicate TargetNotes(given: Option<string>, before: seq<Remark>, after: seq<Remark>) {
    && (given.Some? && given.value != "" ==> |after| == 1 && after[0] == Text(given.value))
    && (given.None? || given.value == "" ==> after == before)
  }

  /** The target next to its record: the delay is the one reported, and its planned times stay. */
  ghost predicate TargetUpdated(before: Cue, after: Cue, minutes: int, options: DelayOptions) {
    && SameCue(before, after)
    && after.delayMinutes == minutes
    && after.plannedStart == before.plannedStart && after.plannedEnd == before.plannedEnd
    && TargetStatus(options.status, minutes, before.status, after.status)
    && Replaced(options.actualStart, before.actualStart, after.actualStart)
    && Replaced(options.actualEnd, before.actualEnd, after.actualEnd)
    && TargetNotes(options.notes, before.notes, after.notes)
  }

  /**
    A propagated cue next to its record and the cue it waits for: it moved by that cue's delay, keeps
    the larger of the two delays, is delayed rather than pending, and says why.
  */
  ghost predicate DependentUpdated(before: Cue, after: Cue, upstream: Cue) {
    && SameCue(before, after)
    && upstream.cueNumber in before.dependentOnCues
    && after.plannedStart - before.plannedStart == upstream.delayMinutes * 60000
    && after.plannedEnd - before.plannedEnd == upstream.delayMinutes * 60000
    && after.actualStart == before.actualStart && after.actualEnd == before.actualEnd
    && after.delayMinutes >= before.delayMinutes && after.delayMinutes >= upstream.delayMinutes
    && after.delayMinutes in {before.delayMinutes, upstream.delayMinutes}
    && (before.status == Pending && upstream.delayMinutes > 0 ==> after.status == Delayed)
    && (before.status != Pending || upstream.delayMinutes <= 0 ==> after.status == before.status)
    && |after.notes| == |before.notes| + 1 && before.notes <= after.notes
    && after.notes[|before.notes|] == DelayedVia(upstream.delayMinutes, upstream.cueNumber)
  }

  lemma RecordStays(cues: seq<Cue>, number: string, record: Cue)
    requires cues != [] && IsRecord(cues[..|cues| - 1], number, record) && cues[|cues| - 1].cueNumber != number
    ensures IsRecord(cues, number, record)
  {
    var n := |cues| - 1;
    var i :| 0 <= i < n && cues[..n][i] == record && forall j :: i < j < n ==> cues[..n][j].cueNumber != number;
    assert cues[i] == record && forall j :: i < j < n ==> cues[j] == cues[..n][j];
  }

  lemma {:induction false} SheetHasRecords(cues: seq<Cue>, number: string)
    ensures number in Sheet(cues) <==> exists c :: c in cues && c.cueNumber == number
    ensures number in Sheet(cues) ==> IsRecord(cues, number, Sheet(cues)[number])
  {
    if cues != [] {
      var n := |cues| - 1;
      SheetHasRecords(cues[..n], number);
      assert cues == cues[..n] + [cues[n]];
      if cues[n].cueNumber == number {
        assert cues[n] in cues && IsRecord(cues, number, cues[n]);
      } else if number in Sheet(cues) {
        RecordStays(cues, number, Sheet(cues[..n])[number]);
      }
    }
  }

  /** There is one record to a number. */
  lemma OneRecord(cues: seq<Cue>, number: string, r: Cue, s: Cue)
    requires IsRecord(cues, number, r) && IsRecord(cues, number, s)
    ensures r == s
  {
  }

  ghost predicate FirstAt(cues: seq<Cue>, i: nat)
    requires i < |cues|
  {
    forall j :: 0 <= j < i ==> cues[j].cueNumber != cues[i].cueNumber
  }

  /** The cues are walked in the order in which their numbers come first. */
  lemma {:induction false} OrderIsByFirst(cues: seq<Cue>, i: nat, j: nat)
    requires i < |cues| && j < |cues| && FirstAt(cues, i) && FirstAt(cues, j)
    ensures Before(Order(cues), cues[i].cueNumber, cues[j].cueNumber) <==> i < j
  {
    OrderIsOrderOfSheet(cues);
    if i < j {
      FirstComesBefore(cues, i, j);
    } else if j < i {
      FirstComesBefore(cues, j, i);
    }
  }

  lemma {:induction false} OrderHas(cues: seq<Cue>, number: string)
    ensures number in Order(cues) <==> exists c :: c in cues && c.cueNumber == number
  {
    OrderIsOrderOfSheet(cues);
    SheetHasRecords(cues, number);
  }

  lemma {:induction false} FirstComesBefore(cues: seq<Cue>, i: nat, j: nat)
    requires i < j < |cues| && FirstAt(cues, j)
    ensures Before(Order(cues), cues[i].cueNumber, cues[j].cueNumber)
    decreases |cues|
  {
    var n := |cues| - 1;
    OrderHas(cues[..n], cues[i].cueNumber);
    assert cues[..n][i] == cues[i];
    if j < n {
      FirstComesBefore(cues[..n], i, j);
      assert cues[..n][j] == cues[j];
      var a, b :| 0 <= a < b < |Order(cues[..n])|
        && Order(cues[..n])[a] == cues[i].cueNumber && Order(cues[..n])[b] == cues[j].cueNumber;
      assert Order(cues[..n]) <= Order(cues);
      assert Order(cues)[a] == cues[i].cueNumber && Order(cues)[b] == cues[j].cueNumber;
    } else {
      OrderHas(cues[..n], cues[j].cueNumber);
      assert cues[i] in cues[..n];
      var before := Order(cues[..n]);
      assert Order(cues) == before + [cues[j].cueNumber];
      var a :| 0 <= a < |before| && before[a] == cues[i].cueNumber;
      assert Order(cues)[a] == cues[i].cueNumber && Order(cues)[|before|] == cues[j].cueNumber;
    }
  }

  lemma RetimedIsUpdated(cue: Cue, minutes: int, options: DelayOptions)
    ensures TargetUpdated(cue, Retimed(cue, minutes, options), minutes, options)
  {
  }

  /** The description leaves one value for the target. */
  lemma TargetIsDetermined(before: Cue, a: Cue, b: Cue, minutes: int, options: DelayOptions)
    requires TargetUpdated(before, a, minutes, options) && TargetUpdated(before, b, minutes, options)
    ensures a == b
  {
  }

  lemma DependentIsDetermined(before: Cue, a: Cue, b: Cue, upstream: Cue)
    requires DependentUpdated(before, a, upstream) && DependentUpdated(before, b, upstream)
    ensures a == b
  {
  }

  /** Every touched cue: the target updated, every other one by a cue touched before it. */
  ghost predicate Updates(cues: seq<Cue>, cueNumber: string, minutes: int, options: DelayOptions, touched: seq<Cue>) {
    && |touched| > 0
    && (exists record :: IsRecord(cues, cueNumber, record) && TargetUpdated(record, touched[0], minutes, options))
    && forall j :: 0 < j < |touched| ==> UpdatedBySome(cues, touched, j)
  }

  ghost predicate UpdatedBySome(cues: seq<Cue>, touched: seq<Cue>, j: nat)
    requires j < |touched|
  {
    exists record, p :: 0 <= p < j && IsRecord(cues, touched[j].cueNumber, record)
                        && DependentUpdated(record, touched[j], touched[p])
  }

  /** The records and the report leave one value for the target. */
  lemma {:induction false} UpdatedTargetIsOne(cues: seq<Cue>, cueNumber: string, minutes: int, options: DelayOptions,
                                              touched: seq<Cue>, touched': seq<Cue>)
    requires Updates(cues, cueNumber, minutes, options, touched)
    requires Updates(cues, cueNumber, minutes, options, touched')
    ensures touched[0] == touched'[0]
  {
    var r :| IsRecord(cues, cueNumber, r) && TargetUpdated(r, touched[0], minutes, options);
    var s :| IsRecord(cues, cueNumber, s) && TargetUpdated(s, touched'[0], minutes, options);
    OneRecord(cues, cueNumber, r, s);
    TargetIsDetermined(r, touched[0], touched'[0], minutes, options);
  }

  lemma {:induction false} DiscoveredIsUpdated(cues: seq<Cue>, start: map<string, Cue>, visit: seq<Cue>, j: nat)
    requires 0 < j < |visit| && AllDiscovered(start, visit)
    requires visit[j].cueNumber in start && IsRecord(cues, visit[j].cueNumber, start[visit[j].cueNumber])
    ensures UpdatedBySome(cues, visit, j)
  {
    assert Discovered(start, visit, j);
    var p, record := ParentOf(start, visit, j), start[visit[j].cueNumber];
    assert DependentUpdated(record, visit[j], visit[p]);
  }

  /** A finished walk from the retimed sheet updates the cues it touches so. */
  lemma {:induction false} PropagationUpdates(cues: seq<Cue>, cueNumber: string, minutes: int, options: DelayOptions,
                                              visit: seq<Cue>)
    requires cueNumber in Sheet(cues)
    requires Propagation(Start(Sheet(cues), cueNumber, minutes, options), Order(cues), cueNumber, visit)
    ensures Updates(cues, cueNumber, minutes, options, visit)
  {
    var start := Start(Sheet(cues), cueNumber, minutes, options);
    SheetHasRecords(cues, cueNumber);
    RetimedIsUpdated(Sheet(cues)[cueNumber], minutes, options);
    forall j | 0 < j < |visit| ensures UpdatedBySome(cues, visit, j) {
      SheetHasRecords(cues, visit[j].cueNumber);
      assert visit[0].cueNumber == cueNumber;
      DiscoveredIsUpdated(cues, start, visit, j);
    }
  }
}
