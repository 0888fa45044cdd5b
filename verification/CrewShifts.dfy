/**
  The crew rest rule of operations.ts: `CrewShiftEvaluator.validateShiftRestInterval`, and what
  it guarantees of a roster that only takes in shifts it reports clean.

  Instants are milliseconds.
*/
module CrewShifts {
  import opened Numbers

  datatype Shift = Shift(id: string, workerId: string, windowStart: int, windowEnd: int)

  datatype RestResult =
    | ShiftOverlap(shiftId: string)
    | RestViolation(violatingShiftId: string, restHoursProvided: real)
    | NoViolation

  const HOUR_MS := 3600000.0

  /** The minimum rest in milliseconds. */
  function RestMs(minimumRestHours: real): real {
    minimumRestHours * HOUR_MS
  }

  function RoundedHours(ms: int): real {
    Round(ms as real / HOUR_MS * 10.0) as real / 10.0
  }

  /** What one rostered shift says about a new one. */
  function Verdict(s: Shift, n: Shift, minRest: real): RestResult {
    if s.workerId != n.workerId || s.id == n.id then NoViolation
    else if n.windowStart < s.windowEnd && s.windowStart < n.windowEnd then ShiftOverlap(s.id)
    else if n.windowStart >= s.windowEnd && (n.windowStart - s.windowEnd) as real < minRest then
      RestViolation(s.id, RoundedHours(n.windowStart - s.windowEnd))
    else if s.windowStart >= n.windowEnd && (s.windowStart - n.windowEnd) as real < minRest then
      RestViolation(s.id, RoundedHours(s.windowStart - n.windowEnd))
    else NoViolation
  }

  predicate Clean(roster: seq<Shift>, n: Shift, minRest: real) {
    forall s :: s in roster ==> Verdict(s, n, minRest) == NoViolation
  }

  /** Reports the first rostered shift that overlaps the new one or is too close to it. */
  method ValidateShiftRestInterval(n: Shift, existing: seq<Shift>, minimumRestHours: real) returns (r: RestResult)
    ensures r == NoViolation <==> Clean(existing, n, RestMs(minimumRestHours))
    ensures r != NoViolation ==>
              exists k :: 0 <= k < |existing| && r == Verdict(existing[k], n, RestMs(minimumRestHours))
                       && forall i :: 0 <= i < k ==> Verdict(existing[i], n, RestMs(minimumRestHours)) == NoViolation
  {
    var newStart, newEnd := n.windowStart, n.windowEnd;
    var minRestMs := RestMs(minimumRestHours);
    for k := 0 to |existing|
      invariant forall i :: 0 <= i < k ==> Verdict(existing[i], n, minRestMs) == NoViolation
    {
      var s := existing[k];
      assert s in existing;
      if s.workerId == n.workerId && s.id != n.id {
        if newStart < s.windowEnd && s.windowStart < newEnd {
          return ShiftOverlap(s.id);
        }
        if newStart >= s.windowEnd && (newStart - s.windowEnd) as real < minRestMs {
          return RestViolation(s.id, RoundedHours(newStart - s.windowEnd));
        }
        if s.windowStart >= newEnd && (s.windowStart - newEnd) as real < minRestMs {
          return RestViolation(s.id, RoundedHours(s.windowStart - newEnd));
        }
      }
    }
    return NoViolation;
  }

  /** One of the shifts ends at least the rest before the other starts. */
  ghost predicate Separated(s: Shift, n: Shift, rest: real) {
    || (n.windowStart - s.windowEnd) as real >= rest
    || (s.windowStart - n.windowEnd) as real >= rest
  }

  ghost predicate WellRested(roster: seq<Shift>, minRest: real) {
    forall i, j :: 0 <= i < j < |roster| && roster[i].workerId == roster[j].workerId && roster[i].id != roster[j].id ==>
      Separated(roster[i], roster[j], minRest)
  }

  /** Rostering in turn the candidates reported clean. */
  function Rostered(roster: seq<Shift>, candidates: seq<Shift>, minRest: real): seq<Shift> {
    if candidates == [] then roster else
      var n := |candidates| - 1;
      var before := Rostered(roster, candidates[..n], minRest);
      if Clean(before, candidates[n], minRest) then before + [candidates[n]] else before
  }

  /** Every run keeps any two shifts of one worker apart by at least the minimum rest. */
  lemma {:induction false} RosterStaysRested(roster: seq<Shift>, candidates: seq<Shift>, minRest: real)
    requires WellRested(roster, minRest)
    ensures WellRested(Rostered(roster, candidates, minRest), minRest)
  {
    if candidates != [] {
      var n := |candidates| - 1;
      RosterStaysRested(roster, candidates[..n], minRest);
      var before := Rostered(roster, candidates[..n], minRest);
      if Clean(before, candidates[n], minRest) {
        forall i | 0 <= i < |before|
          ensures Verdict(before[i], candidates[n], minRest) == NoViolation
        {
          assert before[i] in before;
        }
      }
    }
  }

  // ---- repeated ids -----------------------------------------------------------------------------

  /** The shift at other hours. */
  function At(s: Shift, start: int, end: int): Shift {
    s.(windowStart := start, windowEnd := end)
  }

  /** Hours so long that two shifts cannot both have them and lie apart by the rest. */
  function LongHours(rest: real): (hours: int)
    ensures hours > 0 && -(hours as real) < rest
  {
    if rest >= 0.0 then 1 else -rest.Floor + 1
  }

  /** Whatever their hours, the check keeps two shifts of one worker apart exactly when their ids differ. */
  lemma {:induction false} CheckSeparatesIff(s: Shift, n: Shift, rest: real)
    requires s.workerId == n.workerId
    ensures (forall a, b, c, d :: Clean([At(s, a, b)], At(n, c, d), rest) ==> Separated(At(s, a, b), At(n, c, d), rest))
       <==> s.id != n.id
  {
    if s.id != n.id {
      forall a, b, c, d | Clean([At(s, a, b)], At(n, c, d), rest) ensures Separated(At(s, a, b), At(n, c, d), rest) {
        assert At(s, a, b) in [At(s, a, b)];
      }
    } else {
      var hours := LongHours(rest);
      assert Clean([At(s, 0, hours)], At(n, 0, hours), rest);
      assert !Separated(At(s, 0, hours), At(n, 0, hours), rest);
    }
  }

  ghost predicate NoRepeats(shifts: seq<Shift>) {
    forall i, j :: 0 <= i < j < |shifts| ==> !(shifts[i].workerId == shifts[j].workerId && shifts[i].id == shifts[j].id)
  }

  ghost predicate AllSeparated(roster: seq<Shift>, rest: real) {
    forall i, j :: 0 <= i < j < |roster| && roster[i].workerId == roster[j].workerId ==>
      Separated(roster[i], roster[j], rest)
  }

  /** The same shifts at other hours. */
  ghost predicate SameButHours(candidates: seq<Shift>, others: seq<Shift>) {
    && |others| == |candidates|
    && forall i :: 0 <= i < |candidates| ==>
         others[i].id == candidates[i].id && others[i].workerId == candidates[i].workerId
  }

  /** Whatever the hours, a roster filled from nothing keeps all shifts of each worker apart. */
  ghost predicate RostersStayRested(candidates: seq<Shift>, rest: real) {
    forall others :: SameButHours(candidates, others) ==> AllSeparated(Rostered([], others, rest), rest)
  }

  lemma {:induction false} RosteredHasNoRepeats(candidates: seq<Shift>, rest: real)
    requires NoRepeats(candidates)
    ensures NoRepeats(Rostered([], candidates, rest))
    ensures forall s :: s in Rostered([], candidates, rest) ==> s in candidates
  {
    if candidates != [] {
      var n := |candidates| - 1;
      RosteredHasNoRepeats(candidates[..n], rest);
      var before := Rostered([], candidates[..n], rest);
      forall i | 0 <= i < |before|
        ensures !(before[i].workerId == candidates[n].workerId && before[i].id == candidates[n].id)
      {
        assert before[i] in before;
        var j :| 0 <= j < n && candidates[..n][j] == before[i];
        assert candidates[j] == before[i];
      }
    }
  }

  /** Distance between the places that candidates are moved to. */
  function Spacing(rest: real): (spacing: int)
    ensures spacing > 0 && (spacing - LongHours(rest)) as real >= rest
  {
    LongHours(rest) + if rest >= 0.0 then rest.Floor + 1 else 0
  }

  /** Every candidate far from the others, but the j-th at the hours of the i-th. */
  function SpreadOut(candidates: seq<Shift>, rest: real, i: nat, j: nat): (others: seq<Shift>)
    ensures SameButHours(candidates, others)
    ensures forall m :: 0 <= m < |candidates| ==> others[m] == Spread(candidates[m], rest, if m == j then i else m)
  {
    seq(|candidates|, m requires 0 <= m < |candidates| => Spread(candidates[m], rest, if m == j then i else m))
  }

  function Spread(s: Shift, rest: real, place: nat): Shift {
    At(s, place * Spacing(rest), place * Spacing(rest) + LongHours(rest))
  }

  lemma SpreadIsClean(s: Shift, n: Shift, rest: real, p: nat, q: nat)
    requires p != q || s.id == n.id
    ensures Verdict(Spread(s, rest, p), Spread(n, rest, q), rest) == NoViolation
  {
    if p < q {
      FarApart(p, q, Spacing(rest));
    } else if q < p {
      FarApart(q, p, Spacing(rest));
    }
  }

  lemma FarApart(p: nat, q: nat, spacing: int)
    requires p < q && spacing > 0
    ensures q * spacing - p * spacing >= spacing
  {
    assert q * spacing - p * spacing == (q - p) * spacing;
    assert (q - p - 1) * spacing >= 0;
  }

  /** Candidates that are all clean are all rostered. */
  lemma {:induction false} AllRostered(candidates: seq<Shift>, rest: real, n: nat)
    requires n <= |candidates| && forall m :: 0 <= m < |candidates| ==> Clean(candidates[..m], candidates[m], rest)
    ensures Rostered([], candidates[..n], rest) == candidates[..n]
  {
    if n > 0 {
      AllRostered(candidates, rest, n - 1);
      assert candidates[..n][..n - 1] == candidates[..n - 1];
    }
  }

  lemma {:induction false} SpreadOutIsClean(candidates: seq<Shift>, rest: real, i: nat, j: nat, n: nat)
    requires i < j < |candidates| && n < |candidates| && candidates[i].id == candidates[j].id
    ensures var others := SpreadOut(candidates, rest, i, j); Clean(others[..n], others[n], rest)
  {
    var others := SpreadOut(candidates, rest, i, j);
    forall m | 0 <= m < n ensures Verdict(others[..n][m], others[n], rest) == NoViolation {
      SpreadIsClean(candidates[m], candidates[n], rest, if m == j then i else m, if n == j then i else n);
    }
  }

  lemma {:induction false} RepeatBreaksRest(candidates: seq<Shift>, rest: real, i: nat, j: nat)
    requires i < j < |candidates| && candidates[i].id == candidates[j].id
    requires candidates[i].workerId == candidates[j].workerId
    ensures !RostersStayRested(candidates, rest)
  {
    var others := SpreadOut(candidates, rest, i, j);
    forall n | 0 <= n < |candidates| ensures Clean(others[..n], others[n], rest) {
      SpreadOutIsClean(candidates, rest, i, j, n);
    }
    AllRostered(others, rest, |candidates|);
    assert others[..|candidates|] == others;
    assert !Separated(others[i], others[j], rest);
    assert !AllSeparated(Rostered([], others, rest), rest);
  }

  /**
    Whatever the hours, any two rostered shifts of one worker lie apart by the minimum rest, if and
    only if no two candidates share both worker and id.
  */
  lemma {:induction false} RostersStayRestedIff(candidates: seq<Shift>, rest: real)
    ensures RostersStayRested(candidates, rest) <==> NoRepeats(candidates)
  {
    if NoRepeats(candidates) {
      forall others | SameButHours(candidates, others) ensures AllSeparated(Rostered([], others, rest), rest) {
        RosteredHasNoRepeats(others, rest);
        RosterStaysRested([], others, rest);
      }
    } else {
      var i, j :| 0 <= i < j < |candidates|
        && candidates[i].workerId == candidates[j].workerId && candidates[i].id == candidates[j].id;
      RepeatBreaksRest(candidates, rest, i, j);
    }
  }

  /** Two shifts with one id are both rostered, whatever their hours. */
  lemma RepeatedIdIsNotChecked(s: Shift, n: Shift, minRest: real)
    requires s.id == n.id
    ensures Rostered([], [s, n], minRest) == [s, n]
  {
    assert [s, n][..1] == [s] && [s][..0] == [];
    assert Rostered([], [s], minRest) == [s];
  }

  // ---- the span of a worker's shifts -------------------------------------------------------------

  function Worked(shifts: seq<Shift>): int {
    if shifts == [] then 0 else shifts[0].windowEnd - shifts[0].windowStart + Worked(shifts[1..])
  }

  /** Shifts lie apart by at least the rest. */
  ghost predicate Apart(shifts: seq<Shift>, rest: real) {
    forall i, j :: 0 <= i < j < |shifts| ==> Separated(shifts[i], shifts[j], rest)
  }

  ghost predicate Follows(s: Shift, n: Shift, rest: real) {
    (n.windowStart - s.windowEnd) as real >= rest
  }

  /** Each shift follows the one before it. */
  ghost predicate Chain(c: seq<Shift>, rest: real) {
    forall i :: 0 < i < |c| ==> Follows(c[i - 1], c[i], rest)
  }

  lemma {:induction false} SlotIn(s: Shift, c: seq<Shift>, rest: real) returns (longer: seq<Shift>)
    requires Chain(c, rest) && forall n :: n in c ==> Separated(s, n, rest)
    ensures Chain(longer, rest) && |longer| == |c| + 1 && Worked(longer) == Worked([s]) + Worked(c)
    ensures forall n :: n in longer ==> n == s || n in c
    ensures longer[0] == s || (c != [] && longer[0] == c[0])
  {
    if c == [] || Follows(s, c[0], rest) {
      longer := [s] + c;
      assert longer[1..] == c && [s][1..] == [];
    } else {
      assert c[0] in c && forall i :: 0 < i < |c| - 1 ==> c[1..][i - 1] == c[i];
      var tail := SlotIn(s, c[1..], rest);
      longer := [c[0]] + tail;
      assert longer[1..] == tail;
    }
  }

  /** Shifts that lie pairwise apart can be put in an order in which each follows the one before it. */
  lemma {:induction false} InOrder(shifts: seq<Shift>, rest: real) returns (c: seq<Shift>)
    requires Apart(shifts, rest)
    ensures Chain(c, rest) && |c| == |shifts| && Worked(c) == Worked(shifts)
    ensures forall n :: n in c ==> n in shifts
  {
    if shifts == [] {
      return [];
    }
    var others := shifts[1..];
    assert shifts == [shifts[0]] + others;
    c := InOrder(others, rest);
    forall n | n in c ensures Separated(shifts[0], n, rest) {
      var i :| 0 <= i < |others| && others[i] == n;
      assert shifts[i + 1] == n;
    }
    c := SlotIn(shifts[0], c, rest);
    assert [shifts[0]][1..] == [];
  }

  /** The time that n rests take. */
  function Rests(n: nat, rest: real): real {
    n as real * rest
  }

  lemma {:induction false} ChainSpans(c: seq<Shift>, rest: real, from: real, to: real)
    requires c != [] && Chain(c, rest)
    requires from <= c[0].windowStart as real && c[|c| - 1].windowEnd as real <= to
    ensures to - from >= Worked(c) as real + Rests(|c| - 1, rest)
    decreases |c|
  {
    if |c| > 1 {
      var tail := c[1..];
      assert Follows(c[0], tail[0], rest) && forall i :: 0 < i < |tail| ==> tail[i - 1] == c[i];
      ChainSpans(tail, rest, c[0].windowEnd as real + rest, to);
    } else {
      assert c[1..] == [];
    }
  }

  /** Shifts that lie apart fill, with the rests between them, no more than the time from `from` to `to`. */
  lemma {:induction false} ApartShiftsSpan(shifts: seq<Shift>, rest: real, from: real, to: real)
    requires shifts != [] && Apart(shifts, rest)
    requires forall i :: 0 <= i < |shifts| ==>
               from <= shifts[i].windowStart as real && shifts[i].windowEnd as real <= to
    ensures to - from >= Worked(shifts) as real + Rests(|shifts| - 1, rest)
  {
    var c := InOrder(shifts, rest);
    assert c[0] in shifts && c[|c| - 1] in shifts;
    ChainSpans(c, rest, from, to);
  }

  /**
    Any n shifts of one worker with different ids, on a roster filled from nothing by clean
    candidates, span at least the hours worked plus n-1 minimum rests.
  */
  lemma {:induction false} WorkerSpanBound(candidates: seq<Shift>, minRest: real, shifts: seq<Shift>, from: real,
                                           to: real)
    requires shifts != []
    requires forall i :: 0 <= i < |shifts| ==>
               && shifts[i] in Rostered([], candidates, minRest)
               && from <= shifts[i].windowStart as real && shifts[i].windowEnd as real <= to
    requires forall i, j :: 0 <= i < j < |shifts| ==>
               shifts[i].workerId == shifts[j].workerId && shifts[i].id != shifts[j].id
    ensures to - from >= Worked(shifts) as real + Rests(|shifts| - 1, minRest)
  {
    RosterStaysRested([], candidates, minRest);
    ApartShiftsSpan(shifts, minRest, from, to);
  }

  // ---- the rule, in hours -------------------------------------------------------------------

  /** The hours from one instant to another. */
  function HoursBetween(from: int, to: int): real {
    (to - from) as real / 3600000.0
  }

  /** One shift starts at least so many hours after the other has ended. */
  ghost predicate HoursApart(s: Shift, n: Shift, hours: real) {
    || HoursBetween(s.windowEnd, n.windowStart) >= hours
    || HoursBetween(n.windowEnd, s.windowStart) >= hours
  }

  lemma HoursAreMs(from: int, to: int, hours: real)
    ensures HoursBetween(from, to) >= hours <==> (to - from) as real >= RestMs(hours)
  {
  }

  /**
    For shifts that do not end before they start, and a rest that is not negative, a new shift is
    clean exactly when every rostered shift of its worker with another id lies so many hours away.
  */
  lemma {:induction false} CleanIffHoursApart(roster: seq<Shift>, n: Shift, hours: real)
    requires hours >= 0.0 && n.windowStart <= n.windowEnd
    requires forall s :: s in roster ==> s.windowStart <= s.windowEnd
    ensures Clean(roster, n, RestMs(hours)) <==>
            forall s :: s in roster && s.workerId == n.workerId && s.id != n.id ==> HoursApart(s, n, hours)
  {
    forall s | s in roster
      ensures Verdict(s, n, RestMs(hours)) == NoViolation <==>
                s.workerId == n.workerId && s.id != n.id ==> HoursApart(s, n, hours)
    {
      VerdictIffHoursApart(s, n, hours);
    }
  }

  lemma VerdictIffHoursApart(s: Shift, n: Shift, hours: real)
    requires hours >= 0.0 && n.windowStart <= n.windowEnd && s.windowStart <= s.windowEnd
    ensures Verdict(s, n, RestMs(hours)) == NoViolation <==>
              s.workerId == n.workerId && s.id != n.id ==> HoursApart(s, n, hours)
  {
    HoursAreMs(s.windowEnd, n.windowStart, hours);
    HoursAreMs(n.windowEnd, s.windowStart, hours);
  }

  /** Each of the shifts starts before the other ends. */
  ghost predicate Meet(s: Shift, n: Shift) {
    n.windowStart < s.windowEnd && s.windowStart < n.windowEnd
  }

  /**
    What is reported: an overlap with the shift named, or a gap too short, in hours to the nearest tenth.
  */
  lemma {:induction false} VerdictTells(s: Shift, n: Shift, hours: real)
    ensures var v := Verdict(s, n, RestMs(hours));
      && (v.ShiftOverlap? <==> s.workerId == n.workerId && s.id != n.id && Meet(s, n))
      && (v.ShiftOverlap? ==> v.shiftId == s.id)
      && (v.RestViolation? ==> v.violatingShiftId == s.id && s.workerId == n.workerId && s.id != n.id)
      && (v.RestViolation? ==>
            || IsShortRest(v.restHoursProvided, HoursBetween(s.windowEnd, n.windowStart), hours)
            || IsShortRest(v.restHoursProvided, HoursBetween(n.windowEnd, s.windowStart), hours))
  {
    HoursAreMs(s.windowEnd, n.windowStart, hours);
    HoursAreMs(n.windowEnd, s.windowStart, hours);
    TenthIs(n.windowStart - s.windowEnd);
    TenthIs(s.windowStart - n.windowEnd);
  }

  /** A number of hours to the nearest tenth. */
  ghost predicate TenthOf(tenth: real, hours: real) {
    hours - 0.05 <= tenth <= hours + 0.05 && tenth * 10.0 == (tenth * 10.0).Floor as real
  }

  /** A rest that begins with the end of a shift, is shorter than required, and is given to the nearest tenth. */
  ghost predicate IsShortRest(given: real, gap: real, required: real) {
    0.0 <= gap < required && TenthOf(given, gap)
  }

  lemma TenthIs(ms: int)
    ensures TenthOf(RoundedHours(ms), ms as real / 3600000.0)
  {
    var tenths := Round(ms as real / HOUR_MS * 10.0);
    assert RoundedHours(ms) == tenths as real / 10.0;
  }
}
