/**
  Attendance metrics of integrations.ts: `MetricsAggregationEngine.aggregateAttendance`.
*/
module Attendance {

  datatype TicketScan = TicketScan(attendeeId: string, day: string)

  datatype AttendanceMetrics = AttendanceMetrics(
    totalTurnstileScans: nat, dailyUniqueAttendees: map<string, nat>, totalUniqueAttendees: nat, dailySumOfUniques: nat)

  // ---- what the scans say ---------------------------------------------------------------------

  function Attendees(scans: seq<TicketScan>): set<string> {
    set s | s in scans :: s.attendeeId
  }

  function Days(scans: seq<TicketScan>): set<string> {
    set s | s in scans :: s.day
  }

  function AttendeesOn(scans: seq<TicketScan>, day: string): set<string> {
    set s | s in scans && s.day == day :: s.attendeeId
  }

  /** The days on which someone attended, with the attendee. */
  function Visits(scans: seq<TicketScan>): set<(string, string)> {
    set s | s in scans :: (s.day, s.attendeeId)
  }

  function VisitsOn(scans: seq<TicketScan>, days: set<string>): set<(string, string)> {
    set s | s in scans && s.day in days :: (s.day, s.attendeeId)
  }

  // ---- the loops --------------------------------------------------------------------------------

  method CollectSets(scans: seq<TicketScan>) returns (daily: map<string, set<string>>, all: set<string>)
    ensures all == Attendees(scans) && daily.Keys == Days(scans)
    ensures forall d :: d in daily ==> daily[d] == AttendeesOn(scans, d)
  {
    daily, all := map[], {};
    for i := 0 to |scans|
      invariant all == Attendees(scans[..i]) && daily.Keys == Days(scans[..i])
      invariant forall d :: d in daily ==> daily[d] == AttendeesOn(scans[..i], d)
    {
      var scan := scans[i];
      assert scans[..i + 1] == scans[..i] + [scan];
      all := all + {scan.attendeeId};
      if scan.day !in daily {
        daily := daily[scan.day := {}];
      }
      daily := daily[scan.day := daily[scan.day] + {scan.attendeeId}];
    }
    assert scans[..|scans|] == scans;
  }

  /** Pairing the attendees of one day with the day changes no count. */
  lemma {:induction false} PairedSize(day: string, people: set<string>)
    ensures |set p | p in people :: (day, p)| == |people|
  {
    if people != {} {
      var p :| p in people;
      PairedSize(day, people - {p});
      assert (set q | q in people :: (day, q)) == (set q | q in people - {p} :: (day, q)) + {(day, p)};
    }
  }

  lemma {:induction false} VisitsOnOneMore(scans: seq<TicketScan>, days: set<string>, day: string)
    requires day !in days
    ensures |VisitsOn(scans, days + {day})| == |VisitsOn(scans, days)| + |AttendeesOn(scans, day)|
  {
    var paired := set p | p in AttendeesOn(scans, day) :: (day, p);
    PairedSize(day, AttendeesOn(scans, day));
    assert VisitsOn(scans, days + {day}) == VisitsOn(scans, days) + paired by {
      forall v | v in paired ensures v in VisitsOn(scans, days + {day}) {
        var s :| s in scans && s.day == day && s.attendeeId == v.1;
      }
    }
    assert VisitsOn(scans, days) !! paired;
  }

  method AggregateAttendance(scans: seq<TicketScan>) returns (r: AttendanceMetrics)
    ensures r.totalTurnstileScans == |scans|
    ensures r.dailyUniqueAttendees.Keys == Days(scans)
    ensures forall d :: d in r.dailyUniqueAttendees ==> r.dailyUniqueAttendees[d] == |AttendeesOn(scans, d)|
    ensures r.totalUniqueAttendees == |Attendees(scans)|
    ensures r.dailySumOfUniques == |Visits(scans)|
  {
    var daily, all := CollectSets(scans);
    var dailyUnique: map<string, nat> := map[];
    var dailySum := 0;
    var days := daily.Keys;
    assert VisitsOn(scans, {}) == {};
    while days != {}
      invariant days <= daily.Keys
      invariant dailyUnique.Keys == daily.Keys - days
      invariant forall d :: d in dailyUnique ==> dailyUnique[d] == |AttendeesOn(scans, d)|
      invariant dailySum == |VisitsOn(scans, daily.Keys - days)|
      decreases days
    {
      var day :| day in days;
      VisitsOnOneMore(scans, daily.Keys - days, day);
      assert daily.Keys - (days - {day}) == (daily.Keys - days) + {day};
      dailyUnique := dailyUnique[day := |daily[day]|];
      dailySum := dailySum + |daily[day]|;
      days := days - {day};
    }
    assert daily.Keys - {} == Days(scans);
    AllVisits(scans);
    r := AttendanceMetrics(|scans|, dailyUnique, |all|, dailySum);
  }

  lemma AllVisits(scans: seq<TicketScan>)
    ensures VisitsOn(scans, Days(scans)) == Visits(scans)
  {
  }

  // ---- how the counts compare -------------------------------------------------------------------

  function People(visits: set<(string, string)>): set<string> {
    set v | v in visits :: v.1
  }

  ghost predicate OneDayEach(visits: set<(string, string)>) {
    forall v, w :: v in visits && w in visits && v.1 == w.1 ==> v == w
  }

  /** Forgetting the day merges visits exactly when someone came on two days. */
  lemma {:induction false} PeopleOfVisits(visits: set<(string, string)>)
    ensures |People(visits)| <= |visits|
    ensures |People(visits)| == |visits| <==> OneDayEach(visits)
  {
    if visits != {} {
      var v :| v in visits;
      var rest := visits - {v};
      PeopleOfVisits(rest);
      assert People(visits) == People(rest) + {v.1};
      if v.1 in People(rest) {
        var w :| w in rest && w.1 == v.1;
      } else {
        forall a, b | a in visits && b in visits && a.1 == b.1 && OneDayEach(rest) ensures a == b {
          assert a in rest ==> a.1 in People(rest);
          assert b in rest ==> b.1 in People(rest);
        }
      }
    }
  }

  lemma PeopleAreAttendees(scans: seq<TicketScan>)
    ensures People(Visits(scans)) == Attendees(scans)
  {
    forall a | a in Attendees(scans) ensures a in People(Visits(scans)) {
      var s :| s in scans && s.attendeeId == a;
      assert (s.day, s.attendeeId) in Visits(scans);
    }
  }

  lemma {:induction false} NoMoreVisitsThanScans(scans: seq<TicketScan>)
    ensures |Visits(scans)| <= |scans|
  {
    if scans != [] {
      var n := |scans| - 1;
      NoMoreVisitsThanScans(scans[..n]);
      assert scans == scans[..n] + [scans[n]];
      assert Visits(scans) == Visits(scans[..n]) + {(scans[n].day, scans[n].attendeeId)};
    }
  }

  /** Nobody was scanned on two days. */
  ghost predicate NobodyReturns(scans: seq<TicketScan>) {
    forall s, t :: s in scans && t in scans && s.attendeeId == t.attendeeId ==> s.day == t.day
  }

  /**
    A day's count is at most the number of attendees, that at most the sum over the days, and that
    at most the scans; the sum over the days counts every attendee once exactly when nobody came on
    two days.
  */
  lemma CountsCompare(scans: seq<TicketScan>)
    ensures forall d :: |AttendeesOn(scans, d)| <= |Attendees(scans)|
    ensures |Attendees(scans)| <= |Visits(scans)| <= |scans|
    ensures |Attendees(scans)| == |Visits(scans)| <==> NobodyReturns(scans)
  {
    forall d ensures |AttendeesOn(scans, d)| <= |Attendees(scans)| {
      SubsetSize(AttendeesOn(scans, d), Attendees(scans));
    }
    PeopleAreAttendees(scans);
    PeopleOfVisits(Visits(scans));
    NoMoreVisitsThanScans(scans);
    if NobodyReturns(scans) {
      assert OneDayEach(Visits(scans));
    }
    if OneDayEach(Visits(scans)) {
      forall s, t | s in scans && t in scans && s.attendeeId == t.attendeeId ensures s.day == t.day {
        assert (s.day, s.attendeeId) in Visits(scans) && (t.day, t.attendeeId) in Visits(scans);
      }
    }
  }

  lemma {:induction false} SubsetSize(a: set<string>, b: set<string>)
    requires a <= b
    ensures |a| <= |b|
  {
    assert b == a + (b - a);
  }
}
