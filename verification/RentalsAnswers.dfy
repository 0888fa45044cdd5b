/**
  What the answers of the reservation simulator say, field by field: how each booking enters an
  availability query, how buffers widen a window, and what a command leaves behind.
*/
module RentalsAnswers {
  import opened Wrappers
  import opened Rentals
  import opened RentalsTheory

  // ---- availability ---------------------------------------------------------------------------

  /** A confirmed booking of the pool whose window has an instant in common with [start, end]. */
  ghost predicate Weighs(b: Booking, poolId: string, start: int, end: int) {
    b.status == BookingConfirmed && b.poolId == poolId && b.start <= end && start <= b.end
  }

  /** One more booking raises one of the two counts by its units: its project's own, or those of others. */
  ghost predicate BookingAdds(before: Availability, after: Availability, b: Booking, scope: string, weighs: bool) {
    && (!weighs ==> after.projectExisting == before.projectExisting && after.occupied == before.occupied)
    && (weighs && scope != "" && scope == b.projectId ==>
          after.projectExisting == before.projectExisting + b.quantity && after.occupied == before.occupied)
    && (weighs && (scope == "" || scope != b.projectId) ==>
          after.projectExisting == before.projectExisting && after.occupied == before.occupied + b.quantity)
  }

  /** With nothing booked nothing is counted, and every booking counts once. */
  lemma {:induction false} EachBookingCounts(pools: map<string, Pool>, bookings: seq<Booking>, b: Booking,
                                             poolId: string, quantity: real, interval: OccupiedInterval, scope: string)
    requires poolId in pools
    ensures BookingAdds(Available(pools, bookings, poolId, quantity, interval, scope),
                        Available(pools, bookings + [b], poolId, quantity, interval, scope), b, scope,
                        Weighs(b, poolId, interval.start, interval.end))
    ensures Available(pools, [], poolId, quantity, interval, scope).occupied == 0.0
    ensures Available(pools, [], poolId, quantity, interval, scope).projectExisting == 0.0
  {
    UnitsAfter(bookings, b, poolId, interval.start, interval.end, scope, false);
    UnitsAfter(bookings, b, poolId, interval.start, interval.end, scope, true);
  }

  lemma UnitsAfter(bookings: seq<Booking>, b: Booking, poolId: string, start: int, end: int, scope: string, own: bool)
    ensures UnitsMeeting(bookings + [b], poolId, start, end, scope, own)
         == UnitsMeeting(bookings, poolId, start, end, scope, own)
            + if Weighs(b, poolId, start, end) && (scope != "" && scope == b.projectId) == own then b.quantity else 0.0
  {
    assert (bookings + [b])[..|bookings|] == bookings;
  }

  /** The rest of the answer, from the two counts: never below zero, and the demand that nothing covers. */
  lemma {:induction false} AnswerAddsUp(pools: map<string, Pool>, bookings: seq<Booking>, poolId: string,
                                        quantity: real, interval: OccupiedInterval, scope: string)
    ensures var a := Available(pools, bookings, poolId, quantity, interval, scope);
      && (a.connected <==> poolId in pools)
      && (poolId !in pools ==> a.totalServiceable == a.occupied == a.available == a.projectExisting == 0.0
                               && a.shortfall == quantity)
      && (poolId in pools ==>
            && a.totalServiceable == pools[poolId].totalServiceableUnits
            && a.available >= 0.0 && a.available >= a.totalServiceable - a.occupied - a.projectExisting
            && a.available in {0.0, a.totalServiceable - a.occupied - a.projectExisting}
            && a.shortfall >= 0.0 && a.shortfall >= quantity - a.available - a.projectExisting
            && a.shortfall in {0.0, quantity - a.available - a.projectExisting})
  {
  }

  const HOUR_MS := 3600000

  /** A window of bare event dates under a policy that names hours for prep, for return, or for both. */
  ghost predicate Buffered(window: OccupiedWindow, policy: Option<BufferPolicy>) {
    && window.basis == Some(EventDatesOnly) && policy.Some?
    && (policy.value.prepHours.Some? || policy.value.returnHours.Some?)
  }

  /** Such a window opens earlier by the prep hours and closes later by the return hours; any other one stays. */
  lemma BuffersWiden(window: OccupiedWindow, policy: Option<BufferPolicy>)
    ensures var i := CalculateOccupiedInterval(window, policy);
      && window.start - i.start == i.prepHours * HOUR_MS && i.end - window.end == i.returnHours * HOUR_MS
      && (!Buffered(window, policy) ==> i.prepHours == 0 && i.returnHours == 0)
      && (Buffered(window, policy) ==>
            && (policy.value.prepHours == Some(i.prepHours) || (policy.value.prepHours.None? && i.prepHours == 0))
            && (policy.value.returnHours == Some(i.returnHours)
                || (policy.value.returnHours.None? && i.returnHours == 0)))
      && (i.provenance == ConfiguredPolicy <==> Buffered(window, policy))
      && (i.provenance == AbsentPolicyUnspecified <==>
            window.basis == Some(EventDatesOnly) && !Buffered(window, policy))
      && (i.basis == EventDatesOnly <==> window.basis == Some(EventDatesOnly))
  {
  }

  // ---- commands -------------------------------------------------------------------------------

  /** The stored operation carries the command's ids and the hash of its payload. */
  ghost predicate Answers(cmd: Command, op: Operation) {
    && op.operationId == cmd.operationId && op.idempotencyKey == cmd.idempotencyKey
    && op.tenantId == cmd.tenantId && op.projectId == cmd.projectId
    && op.payloadHash == HashOf(cmd.request.payload)
  }

  /** What the project is offered for the window of the command, before the command. */
  function OfferedTo(pools: map<string, Pool>, bookings: seq<Booking>, cmd: Command, interval: OccupiedInterval): real {
    Available(pools, bookings, cmd.request.poolId, cmd.request.quantity, interval, cmd.projectId).available
  }

  /** The interval of the command's own window, without buffers. */
  ghost predicate IsWindowOf(cmd: Command, interval: OccupiedInterval) {
    interval.start == cmd.request.window.start && interval.end == cmd.request.window.end
  }

  /**
    A command with a new key is accepted as a message; its operation is confirmed exactly when the
    project is offered enough, one booking is made exactly then, and the operation is stored.
  */
  lemma {:induction false} NewCommandIsAnswered(pools: map<string, Pool>, st: Store, cmd: Command,
                                                interval: OccupiedInterval)
    requires (forall o :: o in st.operations ==> o.idempotencyKey != cmd.idempotencyKey) && IsWindowOf(cmd, interval)
    ensures var (after, response) := Submitted(pools, st, cmd); var op := response.operation;
      && response.status == Accepted && Answers(cmd, op)
      && op.available == OfferedTo(pools, st.bookings, cmd, interval)
      && (op.businessState == Confirmed <==> op.available >= cmd.request.quantity)
      && |after.bookings| == |st.bookings| + (if op.businessState == Confirmed then 1 else 0)
      && st.bookings <= after.bookings
      && (op.businessState == Confirmed ==> after.bookings[|st.bookings|].bookingId == cmd.bookingId)
      && op in after.operations
  {
    PutMembers(st.operations, Submitted(pools, st, cmd).1.operation);
  }

  /** The command counts in the answers to queries for its pool: as a confirmed booking of its project would. */
  ghost predicate CommandAdds(before: Availability, after: Availability, cmd: Command, scope: string, weighs: bool) {
    && (!weighs ==> after.projectExisting == before.projectExisting && after.occupied == before.occupied)
    && (weighs && scope != "" && scope == cmd.projectId ==>
          after.projectExisting == before.projectExisting + cmd.request.quantity && after.occupied == before.occupied)
    && (weighs && (scope == "" || scope != cmd.projectId) ==>
          after.projectExisting == before.projectExisting && after.occupied == before.occupied + cmd.request.quantity)
  }

  /**
    A granted command that asked for a confirmed booking weighs, in every query for its pool whose
    window meets its own, as units of its project: under the project's scope as existing ones, under
    any other as occupied ones.  No other command changes any answer.
  */
  lemma {:induction false} CommandCountsForItsProject(pools: map<string, Pool>, st: Store, cmd: Command,
                                                      poolId: string, quantity: real, interval: OccupiedInterval,
                                                      scope: string)
    requires (forall o :: o in st.operations ==> o.idempotencyKey != cmd.idempotencyKey) && poolId in pools
    ensures var (after, response) := Submitted(pools, st, cmd);
      CommandAdds(Available(pools, st.bookings, poolId, quantity, interval, scope),
                  Available(pools, after.bookings, poolId, quantity, interval, scope), cmd, scope,
                  response.operation.businessState == Confirmed
                  && cmd.request.requestedState == Some(RequestConfirmed) && cmd.request.poolId == poolId
                  && cmd.request.window.start <= interval.end && interval.start <= cmd.request.window.end)
  {
    EachBookingCounts(pools, st.bookings, Booked(cmd), poolId, quantity, interval, scope);
  }

  /** The hash is the length, and the weighted sum of the units as a signed 32-bit number. */
  lemma {:induction false} HashIs(payload: seq<CodeUnit>)
    ensures var h := HashOf(payload);
      && h.length == |payload|
      && -0x8000_0000 <= h.hash < 0x8000_0000
      && (h.hash - WeightedSum(payload)) % 0x1_0000_0000 == 0
  {
    var k := HashIsWeightedSum(payload);
    WholeTurns(k);
  }

  lemma WholeTurns(k: int)
    ensures (-k * 0x1_0000_0000) % 0x1_0000_0000 == 0
  {
  }

  /** A new operation goes to the end; one whose id is taken takes the place of that entry. */
  lemma {:induction false} StoredInPlace(operations: seq<Operation>, op: Operation)
    ensures var after := Put(operations, op);
      || ((forall o :: o in operations ==> o.operationId != op.operationId) && after == operations + [op])
      || exists i :: 0 <= i < |operations| && operations[i].operationId == op.operationId
                     && after == operations[i := op]
                     && forall j :: 0 <= j < i ==> operations[j].operationId != op.operationId
  {
    if operations != [] && operations[0].operationId != op.operationId {
      StoredInPlace(operations[1..], op);
      assert operations == [operations[0]] + operations[1..];
      if i :| 0 <= i < |operations| - 1 && operations[1..][i].operationId == op.operationId
              && Put(operations[1..], op) == operations[1..][i := op]
              && forall j :: 0 <= j < i ==> operations[1..][j].operationId != op.operationId {
        assert operations[i + 1] == operations[1..][i];
        assert Put(operations, op) == operations[i + 1 := op];
        assert forall j :: 0 < j < i + 1 ==> operations[j] == operations[1..][j - 1];
      }
    }
  }

  // ---- the seed -------------------------------------------------------------------------------

  /** Milliseconds from the epoch to midnight of 10 November 2026, at three hours east of Greenwich. */
  const OPENING := (20767 * 24 - 3) * HOUR_MS

  /** Of the 12 units 4 are booked from that midnight to the last second of the eleventh day. */
  lemma {:induction false} SeedAnswers(quantity: real, interval: OccupiedInterval, scope: string)
    ensures var a := Available(SeedPools(), SeedStore().bookings, "prod-counter-reg-01", quantity, interval, scope);
      var during := interval.start <= OPENING + 11 * 24 * HOUR_MS - 1000 && OPENING <= interval.end;
      && a.totalServiceable == 12.0 && a.available == (if during then 8.0 else 12.0)
      && a.projectExisting == (if during && scope == "EOS-UAT-ISOLATION-RUN01" then 4.0 else 0.0)
      && a.occupied == if during && scope != "EOS-UAT-ISOLATION-RUN01" then 4.0 else 0.0
  {
    EachBookingCounts(SeedPools(), [], SeedBooking(), "prod-counter-reg-01", quantity, interval, scope);
    assert [] + [SeedBooking()] == SeedStore().bookings;
  }
}
