/**
  Reservation checks of inventory.ts: exclusive assets and bulk stock.

  Windows are half-open intervals of millisecond instants, compared as TimeUtil.overlaps of
  time.ts does, which throws on an interval that does not start before it ends.
*/
module Inventory {
  import opened Wrappers

  datatype ResourceType = Serialized | Bulk

  datatype ResourceStatus = Serviceable | InMaintenance | Quarantined | Retired

  datatype AuthoritativeSystem = EOS | LegacyLocked

  datatype Resource = Resource(
    kind: ResourceType, usableQuantity: real, status: ResourceStatus, authoritativeSystem: AuthoritativeSystem)

  datatype TimeWindow = TimeWindow(start: int, end: int)

  datatype ReservationStatus = Tentative | Confirmed | Released | Cancelled

  datatype Reservation = Reservation(projectId: string, window: TimeWindow, quantity: real, status: ReservationStatus)

  datatype ReservationError =
    | ResourceTypeMismatch
    | ResourceNotServiceable
    | WriterNotAuthoritative
    | InvalidInterval
    | ReservationCollision(projectId: string)
    | BulkCapacityExceeded(requested: real, available: real)

  datatype BulkCheck = BulkCheck(availableQuantity: real, canFulfill: bool, shortage: real)

  predicate ValidWindow(w: TimeWindow) {
    w.start < w.end
  }

  predicate Contains(w: TimeWindow, t: int) {
    w.start <= t < w.end
  }

  predicate Overlap(w1: TimeWindow, w2: TimeWindow) {
    w1.start < w2.end && w2.start < w1.end
  }

  function Overlaps(w1: TimeWindow, w2: TimeWindow): Result<bool, ReservationError> {
    if !ValidWindow(w1) || !ValidWindow(w2) then Err(InvalidInterval) else Ok(Overlap(w1, w2))
  }

  // ---- exclusive assets -----------------------------------------------------------------

  /** What an existing reservation objects to a new window, if anything. */
  function Objection(r: Reservation, window: TimeWindow): Option<ReservationError> {
    if r.status != Confirmed then None else
      match Overlaps(r.window, window)
      case Err(e) => Some(e)
      case Ok(collides) => if collides then Some(ReservationCollision(r.projectId)) else None
  }

  function ResourceObjection(resource: Resource): Option<ReservationError> {
    if resource.kind != Serialized then Some(ResourceTypeMismatch)
    else if resource.status != Serviceable || resource.usableQuantity < 1.0 then Some(ResourceNotServiceable)
    else if resource.authoritativeSystem != EOS then Some(WriterNotAuthoritative)
    else None
  }

  /** Accepts when neither the resource nor any reservation objects; otherwise throws the first objection. */
  method ValidateSerializedReservation(resource: Resource, existing: seq<Reservation>, window: TimeWindow)
    returns (error: Option<ReservationError>)
    ensures error.None? <==>
              ResourceObjection(resource).None? && forall r :: r in existing ==> Objection(r, window).None?
    ensures ResourceObjection(resource).Some? ==> error == ResourceObjection(resource)
    ensures error.Some? && ResourceObjection(resource).None? ==>
              exists k :: 0 <= k < |existing| && error == Objection(existing[k], window)
                       && forall i :: 0 <= i < k ==> Objection(existing[i], window).None?
  {
    if resource.kind != Serialized {
      return Some(ResourceTypeMismatch);
    }
    if resource.status != Serviceable || resource.usableQuantity < 1.0 {
      return Some(ResourceNotServiceable);
    }
    if resource.authoritativeSystem != EOS {
      return Some(WriterNotAuthoritative);
    }
    for k := 0 to |existing|
      invariant forall i :: 0 <= i < k ==> Objection(existing[i], window).None?
    {
      assert existing[k] in existing;
      if existing[k].status == Confirmed {
        match Overlaps(existing[k].window, window) {
          case Err(e) =>
            return Some(e);
          case Ok(collides) =>
            if collides {
              return Some(ReservationCollision(existing[k].projectId));
            }
        }
      }
    }
    return None;
  }

  predicate SerializedAccepts(resource: Resource, existing: seq<Reservation>, window: TimeWindow) {
    ResourceObjection(resource).None? && forall r :: r in existing ==> Objection(r, window).None?
  }

  /** Confirming in turn the requests the check accepts. */
  function SerializedRun(resource: Resource, existing: seq<Reservation>, requests: seq<Reservation>): seq<Reservation> {
    if requests == [] then existing else
      var n := |requests| - 1;
      var before := SerializedRun(resource, existing, requests[..n]);
      if SerializedAccepts(resource, before, requests[n].window)
      then before + [requests[n].(status := Confirmed)] else before
  }

  /** No instant lies in two confirmed windows. */
  ghost predicate Exclusive(rs: seq<Reservation>) {
    forall i, j, t :: 0 <= i < j < |rs| && rs[i].status == Confirmed && rs[j].status == Confirmed ==>
      !(Contains(rs[i].window, t) && Contains(rs[j].window, t))
  }

  /** Every run keeps the asset with one project at a time. */
  lemma {:induction false} SerializedStaysExclusive(resource: Resource, existing: seq<Reservation>,
                                                    requests: seq<Reservation>)
    requires Exclusive(existing)
    ensures Exclusive(SerializedRun(resource, existing, requests))
  {
    if requests != [] {
      var n := |requests| - 1;
      SerializedStaysExclusive(resource, existing, requests[..n]);
      var before := SerializedRun(resource, existing, requests[..n]);
      if SerializedAccepts(resource, before, requests[n].window) {
        forall i | 0 <= i < |before| ensures Objection(before[i], requests[n].window).None? {
          assert before[i] in before;
        }
      }
    }
  }

  /**
    With no confirmed reservation yet, no window is ever checked: one that does not start before
    it ends is accepted, and from then on every request is refused.
  */
  lemma {:induction false} EmptyWindowBlocksTheAsset(resource: Resource, existing: seq<Reservation>, window: TimeWindow)
    requires ResourceObjection(resource).None?
    requires forall r :: r in existing ==> r.status != Confirmed
    ensures SerializedAccepts(resource, existing, window)
    ensures !ValidWindow(window) ==>
              forall project, quantity, later ::
                !SerializedAccepts(resource, existing + [Reservation(project, window, quantity, Confirmed)], later)
  {
    forall project, quantity, later | !ValidWindow(window)
      ensures !SerializedAccepts(resource, existing + [Reservation(project, window, quantity, Confirmed)], later)
    {
      var r := Reservation(project, window, quantity, Confirmed);
      assert r in existing + [r] && Objection(r, later) == Some(InvalidInterval);
    }
  }

  /** No request for the asset can be accepted any more, whatever its window. */
  ghost predicate Blocked(resource: Resource, existing: seq<Reservation>) {
    forall window :: !SerializedAccepts(resource, existing, window)
  }

  predicate HoldsEmptyWindow(rs: seq<Reservation>) {
    exists r :: r in rs && r.status == Confirmed && !ValidWindow(r.window)
  }

  predicate NothingConfirmed(rs: seq<Reservation>) {
    forall r :: r in rs ==> r.status != Confirmed
  }

  function LatestEnd(rs: seq<Reservation>): (end: int)
    ensures forall r :: r in rs ==> r.window.end <= end
  {
    if rs == [] then 0 else
      var n := |rs| - 1;
      var before := LatestEnd(rs[..n]);
      assert rs == rs[..n] + [rs[n]];
      if rs[n].window.end > before then rs[n].window.end else before
  }

  /** An asset in service is blocked exactly when it holds a confirmed reservation with an empty window. */
  lemma {:induction false} BlockedIff(resource: Resource, existing: seq<Reservation>)
    requires ResourceObjection(resource).None?
    ensures Blocked(resource, existing) <==> HoldsEmptyWindow(existing)
  {
    if r :| r in existing && r.status == Confirmed && !ValidWindow(r.window) {
      forall window ensures !SerializedAccepts(resource, existing, window) {
        assert Objection(r, window) == Some(InvalidInterval);
      }
    } else {
      var end := LatestEnd(existing);
      assert SerializedAccepts(resource, existing, TimeWindow(end, end + 1));
    }
  }

  /**
    A run of requests for an asset in service leaves it blocked exactly when it was blocked before,
    or nothing was confirmed yet and the first request had an empty window.
  */
  lemma {:induction false} BlockedAfterRunIff(resource: Resource, existing: seq<Reservation>,
                                              requests: seq<Reservation>)
    requires ResourceObjection(resource).None?
    ensures Blocked(resource, SerializedRun(resource, existing, requests))
       <==> Blocked(resource, existing)
            || (NothingConfirmed(existing) && requests != [] && !ValidWindow(requests[0].window))
  {
    BlockedIff(resource, existing);
    BlockedIff(resource, SerializedRun(resource, existing, requests));
    EmptyWindowAfterRun(resource, existing, requests);
  }

  lemma {:induction false} EmptyWindowAfterRun(resource: Resource, existing: seq<Reservation>,
                                               requests: seq<Reservation>)
    requires ResourceObjection(resource).None?
    ensures var after := SerializedRun(resource, existing, requests);
      && (NothingConfirmed(after) <==> NothingConfirmed(existing) && requests == [])
      && (HoldsEmptyWindow(after) <==>
            HoldsEmptyWindow(existing)
            || (NothingConfirmed(existing) && requests != [] && !ValidWindow(requests[0].window)))
  {
    if requests != [] {
      var n := |requests| - 1;
      EmptyWindowAfterRun(resource, existing, requests[..n]);
    }
  }

  // ---- bulk stock -------------------------------------------------------------------------

  predicate Active(r: Reservation, window: TimeWindow) {
    r.status == Confirmed && Overlap(r.window, window)
  }

  /** Comparing windows throws when there is a confirmed reservation and either interval is empty. */
  ghost predicate Comparable(existing: seq<Reservation>, window: TimeWindow) {
    forall r :: r in existing && r.status == Confirmed ==> ValidWindow(r.window) && ValidWindow(window)
  }

  /** The sum the check takes for the peak: all units of the confirmed reservations that overlap the window. */
  function Reserved(existing: seq<Reservation>, window: TimeWindow): real {
    if existing == [] then 0.0 else
      var r := existing[|existing| - 1];
      Reserved(existing[..|existing| - 1], window) + if Active(r, window) then r.quantity else 0.0
  }

  function AvailableQuantity(resource: Resource, existing: seq<Reservation>, window: TimeWindow): real {
    var left := resource.usableQuantity - Reserved(existing, window);
    if left > 0.0 then left else 0.0
  }

  method ValidateBulkReservation(resource: Resource, existing: seq<Reservation>, requested: real, window: TimeWindow)
    returns (r: Result<BulkCheck, ReservationError>)
    ensures resource.kind != Bulk ==> r == Err(ResourceTypeMismatch)
    ensures resource.kind == Bulk ==>
      var available := AvailableQuantity(resource, existing, window);
      r == if !Comparable(existing, window) then Err(InvalidInterval)
           else if available >= requested then Ok(BulkCheck(available, true, 0.0))
           else Err(BulkCapacityExceeded(requested, available))
  {
    if resource.kind != Bulk {
      return Err(ResourceTypeMismatch);
    }
    var peakReserved := 0.0;
    for i := 0 to |existing|
      invariant Comparable(existing[..i], window)
      invariant peakReserved == Reserved(existing[..i], window)
    {
      assert existing[..i + 1] == existing[..i] + [existing[i]];
      if existing[i].status == Confirmed {
        match Overlaps(existing[i].window, window) {
          case Err(_) =>
            assert existing[i] in existing;
            return Err(InvalidInterval);
          case Ok(overlaps) =>
            if overlaps {
              peakReserved := peakReserved + existing[i].quantity;
            }
        }
      }
    }
    assert existing[..|existing|] == existing;
    var left := resource.usableQuantity - peakReserved;
    var availableQuantity := if left > 0.0 then left else 0.0;
    if availableQuantity >= requested {
      return Ok(BulkCheck(availableQuantity, true, 0.0));
    }
    return Err(BulkCapacityExceeded(requested, availableQuantity));
  }

  ghost predicate BulkAccepts(resource: Resource, existing: seq<Reservation>, request: Reservation) {
    && resource.kind == Bulk && Comparable(existing, request.window)
    && AvailableQuantity(resource, existing, request.window) >= request.quantity
  }

  ghost function BulkRun(resource: Resource, existing: seq<Reservation>, requests: seq<Reservation>): seq<Reservation> {
    if requests == [] then existing else
      var n := |requests| - 1;
      var before := BulkRun(resource, existing, requests[..n]);
      if BulkAccepts(resource, before, requests[n]) then before + [requests[n].(status := Confirmed)] else before
  }

  /** The pool alone, with nothing reserved, holds enough. */
  predicate FitsPool(resource: Resource, quantity: real) {
    quantity <= resource.usableQuantity || quantity <= 0.0
  }

  lemma {:induction false} NothingReservedAfter(existing: seq<Reservation>, window: TimeWindow)
    requires forall r :: r in existing && r.status == Confirmed ==> r.window.end <= window.start
    ensures Reserved(existing, window) == 0.0
  {
    if existing != [] {
      var n := |existing| - 1;
      assert existing[n] in existing;
      NothingReservedAfter(existing[..n], window);
    }
  }

  /** No window can be booked for that many units any more. */
  ghost predicate BulkBlocked(resource: Resource, existing: seq<Reservation>, quantity: real) {
    forall r: Reservation :: r.quantity == quantity ==> !BulkAccepts(resource, existing, r)
  }

  /**
    A quantity that fits the pool can be booked in no window exactly when the stock holds a confirmed
    reservation with an empty window: every later check then throws.
  */
  lemma {:induction false} BulkBlockedIff(resource: Resource, existing: seq<Reservation>, quantity: real)
    requires resource.kind == Bulk && FitsPool(resource, quantity)
    ensures BulkBlocked(resource, existing, quantity) <==> HoldsEmptyWindow(existing)
  {
    if !HoldsEmptyWindow(existing) {
      var end := LatestEnd(existing);
      var later := Reservation("", TimeWindow(end, end + 1), quantity, Confirmed);
      NothingReservedAfter(existing, later.window);
      assert BulkAccepts(resource, existing, later);
    }
  }

  /** The first of the requests that fits the pool has an empty window. */
  ghost predicate EmptyWindowFirst(resource: Resource, requests: seq<Reservation>) {
    exists k :: 0 <= k < |requests| && FitsPool(resource, requests[k].quantity) && !ValidWindow(requests[k].window)
      && forall i :: 0 <= i < k ==> !FitsPool(resource, requests[i].quantity)
  }

  ghost predicate NoneFitsPool(resource: Resource, requests: seq<Reservation>) {
    forall r :: r in requests ==> !FitsPool(resource, r.quantity)
  }

  /**
    A run of requests leaves bulk stock blocked exactly when it was blocked before, or nothing was
    confirmed yet and the first request that fits the pool had an empty window.
  */
  lemma {:induction false} BulkBlockedAfterRunIff(resource: Resource, existing: seq<Reservation>,
                                                  requests: seq<Reservation>, quantity: real)
    requires resource.kind == Bulk && FitsPool(resource, quantity)
    ensures BulkBlocked(resource, BulkRun(resource, existing, requests), quantity)
       <==> BulkBlocked(resource, existing, quantity)
            || (NothingConfirmed(existing) && EmptyWindowFirst(resource, requests))
  {
    BulkBlockedIff(resource, existing, quantity);
    BulkBlockedIff(resource, BulkRun(resource, existing, requests), quantity);
    EmptyWindowAfterBulkRun(resource, existing, requests);
  }

  lemma {:induction false} EmptyWindowAfterBulkRun(resource: Resource, existing: seq<Reservation>,
                                                   requests: seq<Reservation>)
    requires resource.kind == Bulk
    ensures var after := BulkRun(resource, existing, requests);
      && (NothingConfirmed(after) <==> NothingConfirmed(existing) && NoneFitsPool(resource, requests))
      && (HoldsEmptyWindow(after) <==>
            HoldsEmptyWindow(existing) || (NothingConfirmed(existing) && EmptyWindowFirst(resource, requests)))
  {
    if requests != [] {
      var n := |requests| - 1;
      var before := BulkRun(resource, existing, requests[..n]);
      EmptyWindowAfterBulkRun(resource, existing, requests[..n]);
      OneMoreRequest(resource, requests);
      if NothingConfirmed(before) {
        NothingReservedAfter(before, requests[n].window);
      }
    }
  }

  lemma OneMoreRequest(resource: Resource, requests: seq<Reservation>)
    requires requests != []
    ensures var n := |requests| - 1; var last := requests[n];
      && (NoneFitsPool(resource, requests) <==>
            NoneFitsPool(resource, requests[..n]) && !FitsPool(resource, last.quantity))
      && (EmptyWindowFirst(resource, requests) <==>
            || EmptyWindowFirst(resource, requests[..n])
            || (NoneFitsPool(resource, requests[..n]) && FitsPool(resource, last.quantity)
                && !ValidWindow(last.window)))
  {
    var n := |requests| - 1;
    assert requests == requests[..n] + [requests[n]];
    if k :| 0 <= k < n && FitsPool(resource, requests[..n][k].quantity) && !ValidWindow(requests[..n][k].window)
            && forall i :: 0 <= i < k ==> !FitsPool(resource, requests[..n][i].quantity) {
      assert requests[k] == requests[..n][k];
      assert forall i :: 0 <= i < k ==> requests[i] == requests[..n][i];
    }
  }

  /** The confirmed units in use at an instant. */
  function UsageAt(rs: seq<Reservation>, t: int): real {
    if rs == [] then 0.0 else
      var r := rs[|rs| - 1];
      UsageAt(rs[..|rs| - 1], t) + if r.status == Confirmed && Contains(r.window, t) then r.quantity else 0.0
  }

  /** No instant uses more than the pool. */
  ghost predicate WithinPool(resource: Resource, rs: seq<Reservation>) {
    forall t :: UsageAt(rs, t) <= resource.usableQuantity
  }

  ghost predicate NoneNegative(rs: seq<Reservation>) {
    forall r :: r in rs && r.status == Confirmed ==> r.quantity >= 0.0
  }

  lemma {:induction false} UsageWithinReserved(existing: seq<Reservation>, window: TimeWindow, t: int)
    requires NoneNegative(existing) && Contains(window, t)
    ensures UsageAt(existing, t) <= Reserved(existing, window)
  {
    if existing != [] {
      assert existing[|existing| - 1] in existing;
      UsageWithinReserved(existing[..|existing| - 1], window, t);
    }
  }

  /** Confirming an accepted request keeps every instant within the pool, whatever its quantity. */
  lemma {:induction false} AcceptedStaysWithinPool(resource: Resource, before: seq<Reservation>, request: Reservation)
    requires WithinPool(resource, before) && NoneNegative(before) && BulkAccepts(resource, before, request)
    ensures var after := before + [request.(status := Confirmed)];
      WithinPool(resource, after) && (NoneNegative(after) <==> request.quantity >= 0.0)
  {
    var r := request.(status := Confirmed);
    var after := before + [r];
    assert after[..|before|] == before && r in after;
    forall t ensures UsageAt(after, t) <= resource.usableQuantity {
      assert UsageAt(before, t) <= resource.usableQuantity;
      if Contains(request.window, t) {
        UsageWithinReserved(before, request.window, t);
      }
    }
  }

  /** Every run of requests with nonnegative quantities keeps every instant within the pool. */
  lemma {:induction false} BulkNeverOversold(resource: Resource, existing: seq<Reservation>, requests: seq<Reservation>)
    requires WithinPool(resource, existing) && NoneNegative(existing)
    requires forall r :: r in requests ==> r.quantity >= 0.0
    ensures WithinPool(resource, BulkRun(resource, existing, requests))
    ensures NoneNegative(BulkRun(resource, existing, requests))
  {
    if requests != [] {
      var n := |requests| - 1;
      assert requests[n] in requests;
      BulkNeverOversold(resource, existing, requests[..n]);
      var before := BulkRun(resource, existing, requests[..n]);
      if BulkAccepts(resource, before, requests[n]) {
        AcceptedStaysWithinPool(resource, before, requests[n]);
      }
    }
  }

  /** Every run with quantities of at least `least` keeps every instant within the pool. */
  ghost predicate BulkRunsKeepPool(least: real) {
    forall resource: Resource, existing: seq<Reservation>, requests: seq<Reservation> ::
      WithinPool(resource, existing) && NoneNegative(existing)
      && (forall r :: r in requests ==> r.quantity >= least) ==>
        WithinPool(resource, BulkRun(resource, existing, requests))
  }

  lemma {:induction false} BothAreConfirmed(resource: Resource, least: real, requests: seq<Reservation>)
    requires least < 0.0 && resource.kind == Bulk && resource.usableQuantity == 0.0
    requires requests == [Reservation("p", TimeWindow(0, 10), least, Tentative),
                          Reservation("p", TimeWindow(0, 20), -least, Tentative)]
    ensures BulkRun(resource, [], requests) == [requests[0].(status := Confirmed), requests[1].(status := Confirmed)]
  {
    var first := requests[0].(status := Confirmed);
    var before := [first];
    assert requests[..1][..0] == [] && requests[..1] == [requests[0]];
    assert BulkRun(resource, [], requests[..1]) == before;
    assert before[..0] == [];
    assert Reserved(before, requests[1].window) == least;
  }

  /** A negative reservation makes room, within its window only, for a longer one of as many units. */
  lemma {:induction false} NegativeQuantityOversells(resource: Resource, least: real, requests: seq<Reservation>)
    requires least < 0.0 && resource.kind == Bulk && resource.usableQuantity == 0.0
    requires requests == [Reservation("p", TimeWindow(0, 10), least, Tentative),
                          Reservation("p", TimeWindow(0, 20), -least, Tentative)]
    ensures !BulkRunsKeepPool(least)
  {
    BothAreConfirmed(resource, least, requests);
    var first, second := requests[0].(status := Confirmed), requests[1].(status := Confirmed);
    UsageOfTwo(first, second, 15);
    assert UsageAt([first, second], 15) > resource.usableQuantity;
  }

  lemma UsageOfTwo(r: Reservation, s: Reservation, t: int)
    ensures UsageAt([r, s], t) == (if r.status == Confirmed && Contains(r.window, t) then r.quantity else 0.0)
                                + (if s.status == Confirmed && Contains(s.window, t) then s.quantity else 0.0)
  {
    var one, two := [r], [r, s];
    assert two[..1] == one && one[..0] == [];
    assert UsageAt(one, t) == if r.status == Confirmed && Contains(r.window, t) then r.quantity else 0.0;
  }

  /** No run oversells an instant of the pool if and only if negative quantities are kept out. */
  lemma {:induction false} BulkNeverOversoldIff(least: real)
    ensures BulkRunsKeepPool(least) <==> least >= 0.0
  {
    if least >= 0.0 {
      forall resource: Resource, existing: seq<Reservation>, requests: seq<Reservation>
        | WithinPool(resource, existing) && NoneNegative(existing) && forall r :: r in requests ==> r.quantity >= least
        ensures WithinPool(resource, BulkRun(resource, existing, requests))
      {
        BulkNeverOversold(resource, existing, requests);
      }
    } else {
      NegativeQuantityOversells(Resource(Bulk, 0.0, Serviceable, EOS), least,
                                [Reservation("p", TimeWindow(0, 10), least, Tentative),
                                 Reservation("p", TimeWindow(0, 20), -least, Tentative)]);
    }
  }

  // ---- when the sum is the peak -----------------------------------------------------------

  /** The reservation takes units of the window. */
  predicate Loads(r: Reservation, window: TimeWindow) {
    Active(r, window) && r.quantity > 0.0
  }

  /** The reservations that take units of the window overlap one another. */
  ghost predicate MutuallyOverlapping(existing: seq<Reservation>, window: TimeWindow) {
    forall r, s :: r in existing && s in existing && Loads(r, window) && Loads(s, window) ==>
      Overlap(r.window, s.window)
  }

  /** Every reservation that takes units of the window is in use at `t`. */
  ghost predicate AllInUse(existing: seq<Reservation>, window: TimeWindow, t: int) {
    forall r :: r in existing && Loads(r, window) ==> Contains(r.window, t)
  }

  lemma {:induction false} SumAtCommonInstant(existing: seq<Reservation>, window: TimeWindow, t: int)
    requires Contains(window, t) && Comparable(existing, window) && NoneNegative(existing)
    ensures UsageAt(existing, t) <= Reserved(existing, window)
    ensures UsageAt(existing, t) == Reserved(existing, window) <==> AllInUse(existing, window, t)
  {
    if existing != [] {
      var n := |existing| - 1;
      assert existing == existing[..n] + [existing[n]];
      assert existing[n] in existing;
      SumAtCommonInstant(existing[..n], window, t);
    }
  }

  /** Intervals that overlap pairwise share an instant: the latest start. */
  lemma {:induction false} CommonInstant(existing: seq<Reservation>, window: TimeWindow, n: nat) returns (t: int)
    requires ValidWindow(window) && Comparable(existing, window) && MutuallyOverlapping(existing, window)
    requires n <= |existing|
    ensures Contains(window, t) && AllInUse(existing[..n], window, t)
    ensures t == window.start || exists r :: r in existing && Loads(r, window) && t == r.window.start
    ensures forall r :: r in existing[..n] && Loads(r, window) ==> r.window.start <= t
  {
    if n == 0 {
      return window.start;
    }
    assert existing[..n] == existing[..n - 1] + [existing[n - 1]];
    t := CommonInstant(existing, window, n - 1);
    var last := existing[n - 1];
    assert last in existing;
    if Loads(last, window) && t < last.window.start {
      t := last.window.start;
    }
  }

  /** The largest usage over the instants of a window. */
  function Peak(existing: seq<Reservation>, start: int, end: int): (peak: real)
    requires start < end
    ensures forall t :: start <= t < end ==> UsageAt(existing, t) <= peak
    ensures exists t :: start <= t < end && UsageAt(existing, t) == peak
    decreases end - start
  {
    var last := UsageAt(existing, end - 1);
    if end == start + 1 then last else
      var before := Peak(existing, start, end - 1);
      if last > before then last else before
  }

  /** The sum equals the true peak over the window exactly when the overlapping reservations overlap one another. */
  lemma {:induction false} SumIsPeakIff(existing: seq<Reservation>, window: TimeWindow)
    requires ValidWindow(window) && Comparable(existing, window)
    requires NoneNegative(existing)
    ensures Peak(existing, window.start, window.end) <= Reserved(existing, window)
    ensures Reserved(existing, window) == Peak(existing, window.start, window.end)
       <==> MutuallyOverlapping(existing, window)
  {
    var p :| window.start <= p < window.end && UsageAt(existing, p) == Peak(existing, window.start, window.end);
    SumAtCommonInstant(existing, window, p);
    if MutuallyOverlapping(existing, window) {
      var t := CommonInstant(existing, window, |existing|);
      assert existing[..|existing|] == existing;
      SumAtCommonInstant(existing, window, t);
    }
  }

  /** The check's decision: the requested units fit beside the sum. */
  predicate FitsSum(pool: real, existing: seq<Reservation>, requested: real, window: TimeWindow) {
    Reserved(existing, window) + requested <= pool
  }

  /** What oversell prevention needs: the requested units fit at every instant. */
  ghost predicate FitsEveryInstant(pool: real, existing: seq<Reservation>, requested: real, window: TimeWindow) {
    forall t :: Contains(window, t) ==> UsageAt(existing, t) + requested <= pool
  }

  lemma {:induction false} AcceptsIffFitsSum(resource: Resource, existing: seq<Reservation>, request: Reservation)
    requires resource.kind == Bulk && Comparable(existing, request.window) && request.quantity > 0.0
    ensures BulkAccepts(resource, existing, request)
       <==> FitsSum(resource.usableQuantity, existing, request.quantity, request.window)
  {
  }

  /**
    For every pool and every positive quantity the check accepts exactly the requests that fit at
    every instant, if and only if the reservations overlapping the window overlap one another.
    Otherwise some request that fits is refused; none that does not fit is ever accepted.
  */
  lemma {:induction false} CheckIsExactIff(existing: seq<Reservation>, window: TimeWindow)
    requires ValidWindow(window) && Comparable(existing, window)
    requires NoneNegative(existing)
    ensures (forall pool, requested :: requested > 0.0 ==>
              (FitsSum(pool, existing, requested, window) <==> FitsEveryInstant(pool, existing, requested, window)))
       <==> MutuallyOverlapping(existing, window)
    ensures forall pool, requested ::
              FitsSum(pool, existing, requested, window) ==> FitsEveryInstant(pool, existing, requested, window)
  {
    SumIsPeakIff(existing, window);
    var peak := Peak(existing, window.start, window.end);
    forall t | Contains(window, t) ensures UsageAt(existing, t) <= peak {
    }
    var p :| Contains(window, p) && UsageAt(existing, p) == peak;
    assert FitsEveryInstant(peak + 1.0, existing, 1.0, window);
    assert FitsSum(peak + 1.0, existing, 1.0, window) <==> Reserved(existing, window) <= peak;
  }

  // ---- what is checked, in terms of instants --------------------------------------------------

  /** An instant of both windows. */
  ghost predicate InBoth(v: TimeWindow, w: TimeWindow, t: int) {
    v.start <= t && t < v.end && w.start <= t && t < w.end
  }

  /** Two windows that start before they end overlap exactly when they have an instant in common. */
  lemma OverlapIffCommonInstant(v: TimeWindow, w: TimeWindow)
    requires ValidWindow(v) && ValidWindow(w)
    ensures Overlap(v, w) <==> exists t :: InBoth(v, w, t)
  {
    if Overlap(v, w) {
      assert InBoth(v, w, if v.start >= w.start then v.start else w.start);
    }
  }

  /** The asset can be reserved at all: an exclusive one, in service, at least one of it usable, and ours to write. */
  ghost predicate Bookable(resource: Resource) {
    && resource.kind == Serialized && resource.status == Serviceable && resource.usableQuantity >= 1.0
    && resource.authoritativeSystem == EOS
  }

  /** The first of these that fails is the objection: the kind, the service, the writer. */
  lemma ResourceObjectionIs(resource: Resource)
    ensures ResourceObjection(resource).None? <==> Bookable(resource)
    ensures ResourceObjection(resource) == Some(ResourceTypeMismatch) <==> resource.kind == Bulk
    ensures ResourceObjection(resource) == Some(WriterNotAuthoritative) <==>
            Bookable(resource.(authoritativeSystem := EOS)) && resource.authoritativeSystem == LegacyLocked
    ensures ResourceObjection(resource) == Some(ResourceNotServiceable) <==>
            resource.kind == Serialized && (resource.status != Serviceable || resource.usableQuantity < 1.0)
  {
  }

  /** Where anything is confirmed, neither its window nor the new one is empty, and they share no instant. */
  ghost predicate FreeFor(existing: seq<Reservation>, window: TimeWindow) {
    forall r :: r in existing && r.status == Confirmed ==>
      && r.window.start < r.window.end && window.start < window.end
      && forall t :: !InBoth(r.window, window, t)
  }

  /** An exclusive asset is granted exactly when it can be reserved and is free for the window. */
  lemma {:induction false} SerializedAcceptsIff(resource: Resource, existing: seq<Reservation>, window: TimeWindow)
    ensures SerializedAccepts(resource, existing, window) <==> Bookable(resource) && FreeFor(existing, window)
  {
    ResourceObjectionIs(resource);
    forall r | r in existing
      ensures Objection(r, window).None? <==> r.status == Confirmed ==>
                r.window.start < r.window.end && window.start < window.end
                && forall t :: !InBoth(r.window, window, t)
    {
      if ValidWindow(r.window) && ValidWindow(window) {
        OverlapIffCommonInstant(r.window, window);
      }
    }
  }

  /** A collision names the project that holds a common instant; the other objection is to an empty window. */
  lemma ObjectionIs(r: Reservation, window: TimeWindow)
    ensures var o := Objection(r, window); var valid := r.window.start < r.window.end && window.start < window.end;
      && (o == Some(InvalidInterval) <==> r.status == Confirmed && !valid)
      && (o == Some(ReservationCollision(r.projectId)) <==>
            r.status == Confirmed && valid && exists t :: InBoth(r.window, window, t))
      && (o.Some? ==> o.value in {InvalidInterval, ReservationCollision(r.projectId)})
  {
    if ValidWindow(r.window) && ValidWindow(window) {
      OverlapIffCommonInstant(r.window, window);
    }
  }

  /** A bulk check throws over an empty window exactly when something is confirmed and either window is empty. */
  ghost predicate Throws(existing: seq<Reservation>, window: TimeWindow) {
    exists r :: r in existing && r.status == Confirmed
                && (r.window.end <= r.window.start || window.end <= window.start)
  }

  /**
    Otherwise every confirmed reservation that shares an instant with the window takes its units of
    it once, and what the pool has beyond them is available.
  */
  lemma {:induction false} BulkUnitsAddUp(resource: Resource, existing: seq<Reservation>, r: Reservation,
                                          window: TimeWindow)
    ensures Throws(existing, window) <==> !Comparable(existing, window)
    ensures Reserved([], window) == 0.0
    ensures Comparable(existing + [r], window) ==>
      Reserved(existing + [r], window)
      == Reserved(existing, window)
         + if r.status == Confirmed && exists t :: InBoth(r.window, window, t) then r.quantity else 0.0
    ensures var available := AvailableQuantity(resource, existing, window);
      && available >= 0.0 && available >= resource.usableQuantity - Reserved(existing, window)
      && available in {0.0, resource.usableQuantity - Reserved(existing, window)}
  {
    assert (existing + [r])[..|existing|] == existing;
    assert r in existing + [r];
    if ValidWindow(r.window) && ValidWindow(window) {
      OverlapIffCommonInstant(r.window, window);
    }
  }
}
