/**
  The rentals contract simulator of rentals-adapter.ts: availability queries, reservation
  commands, the idempotency-key store, and the payload hash that guards replays.

  Windows are closed intervals of millisecond instants and quantities are exact reals.  A command
  carries the ids the original draws from the clock and a random source.
*/
module Rentals {
  import opened Numbers
  import opened Wrappers

  datatype WindowBasis = OccupiedIncludingBuffers | EventDatesOnly

  datatype OccupiedWindow = OccupiedWindow(start: int, end: int, basis: Option<WindowBasis>)

  datatype BufferPolicy = BufferPolicy(prepHours: Option<int>, returnHours: Option<int>)

  datatype PolicyProvenance = AlreadyBufferedInput | ConfiguredPolicy | AbsentPolicyUnspecified

  datatype OccupiedInterval = OccupiedInterval(
    start: int, end: int, prepHours: int, returnHours: int, provenance: PolicyProvenance, basis: WindowBasis)

  datatype BookingStatus = BookingConfirmed | TentativeHold | InUse

  datatype Booking = Booking(
    bookingId: string, projectId: string, poolId: string, quantity: real, start: int, end: int, status: BookingStatus)

  datatype Pool = Pool(poolId: string, totalServiceableUnits: real)

  datatype Availability = Availability(
    totalServiceable: real, occupied: real, available: real, projectExisting: real, shortfall: real, connected: bool)

  /** A UTF-16 code unit of the serialised request. */
  type CodeUnit = u: int | 0 <= u < 0x1_0000

  datatype PayloadHash = PayloadHash(length: nat, hash: int)

  datatype RequestedState = RequestTentativeHold | RequestConfirmed

  datatype Request = Request(
    poolId: string, quantity: real, window: OccupiedWindow, requestedState: Option<RequestedState>,
    payload: seq<CodeUnit>)

  datatype BusinessState = Confirmed | Rejected

  datatype Operation = Operation(
    operationId: string, idempotencyKey: string, tenantId: string, projectId: string,
    payloadHash: PayloadHash, businessState: BusinessState, available: real)

  datatype Command = Command(
    projectId: string, tenantId: string, idempotencyKey: string, request: Request,
    operationId: string, bookingId: string)

  datatype ResponseStatus = Accepted | Conflict

  datatype Response = Response(status: ResponseStatus, operation: Operation)

  /** The simulator's state; the operations are the entries of its map in insertion order. */
  datatype Store = Store(bookings: seq<Booking>, operations: seq<Operation>)

  // ---- the payload hash -----------------------------------------------------------------

  function HashStep(hash: int, unit: CodeUnit): int {
    ToInt32(ToInt32(hash * 32) - hash + unit)
  }

  function HashFrom(hash: int, payload: seq<CodeUnit>): int {
    if payload == [] then hash else HashStep(HashFrom(hash, payload[..|payload| - 1]), payload[|payload| - 1])
  }

  function HashOf(payload: seq<CodeUnit>): PayloadHash {
    PayloadHash(|payload|, HashFrom(0, payload))
  }

  method ComputePayloadHash(payload: seq<CodeUnit>) returns (h: PayloadHash)
    ensures h == HashOf(payload)
  {
    var hash := 0;
    for i := 0 to |payload|
      invariant hash == HashFrom(0, payload[..i])
    {
      assert payload[..i + 1][..i] == payload[..i];
      var shifted := ToInt32(hash * 32);
      hash := shifted - hash + payload[i];
      hash := ToInt32(hash);
    }
    assert payload[..|payload|] == payload;
    h := PayloadHash(|payload|, hash);
  }

  // ---- availability -----------------------------------------------------------------------

  function HoursOr0(h: Option<int>): int {
    if h.Some? then h.value else 0
  }

  /** Buffers are added to bare event dates only, and only when a policy names an hour count. */
  function CalculateOccupiedInterval(window: OccupiedWindow, policy: Option<BufferPolicy>): OccupiedInterval {
    var basis := if window.basis.Some? then window.basis.value else OccupiedIncludingBuffers;
    var configured := policy.Some? && (policy.value.prepHours.Some? || policy.value.returnHours.Some?);
    var prep := if basis == EventDatesOnly && configured then HoursOr0(policy.value.prepHours) else 0;
    var ret := if basis == EventDatesOnly && configured then HoursOr0(policy.value.returnHours) else 0;
    var provenance :=
      if basis == OccupiedIncludingBuffers then AlreadyBufferedInput
      else if configured then ConfiguredPolicy
      else AbsentPolicyUnspecified;
    OccupiedInterval(window.start - prep * 3600000, window.end + ret * 3600000, prep, ret, provenance, basis)
  }

  predicate Counts(b: Booking, poolId: string) {
    b.poolId == poolId && b.status == BookingConfirmed
  }

  predicate Meets(b: Booking, start: int, end: int) {
    start <= b.end && end >= b.start
  }

  predicate OwnedBy(b: Booking, scope: string) {
    scope != "" && b.projectId == scope
  }

  /** The confirmed units of a pool whose windows meet [start, end], of the project in scope or of the others. */
  function UnitsMeeting(bookings: seq<Booking>, poolId: string, start: int, end: int, scope: string, own: bool): real {
    if bookings == [] then 0.0 else
      var b := bookings[|bookings| - 1];
      UnitsMeeting(bookings[..|bookings| - 1], poolId, start, end, scope, own)
        + if Counts(b, poolId) && Meets(b, start, end) && OwnedBy(b, scope) == own then b.quantity else 0.0
  }

  function NotNegative(x: real): real {
    if x < 0.0 then 0.0 else x
  }

  function Unreachable(quantity: real): Availability {
    Availability(0.0, 0.0, 0.0, 0.0, quantity, false)
  }

  function Available(pools: map<string, Pool>, bookings: seq<Booking>, poolId: string, quantity: real,
                     interval: OccupiedInterval, scope: string): Availability {
    if poolId !in pools then Unreachable(quantity) else
      var total := pools[poolId].totalServiceableUnits;
      var others := UnitsMeeting(bookings, poolId, interval.start, interval.end, scope, false);
      var existing := UnitsMeeting(bookings, poolId, interval.start, interval.end, scope, true);
      var available := NotNegative(total - others - existing);
      Availability(total, others, available, existing, NotNegative(quantity - (available + existing)), true)
  }

  // ---- commands ---------------------------------------------------------------------------

  /** The first stored operation with an idempotency key. */
  function Find(operations: seq<Operation>, key: string): (op: Option<Operation>)
    ensures op.Some? ==> op.value in operations && op.value.idempotencyKey == key
    ensures op.None? ==> forall o :: o in operations ==> o.idempotencyKey != key
  {
    if operations == [] then None
    else if operations[0].idempotencyKey == key then Some(operations[0])
    else Find(operations[1..], key)
  }

  /** Setting a map entry: in place when the id is taken, at the end otherwise. */
  function Put(operations: seq<Operation>, op: Operation): seq<Operation> {
    if operations == [] then [op]
    else if operations[0].operationId == op.operationId then [op] + operations[1..]
    else [operations[0]] + Put(operations[1..], op)
  }

  function Stored(cmd: Command, state: BusinessState, available: real): Operation {
    Operation(cmd.operationId, cmd.idempotencyKey, cmd.tenantId, cmd.projectId,
              HashOf(cmd.request.payload), state, available)
  }

  function Booked(cmd: Command): Booking {
    Booking(cmd.bookingId, cmd.projectId, cmd.request.poolId, cmd.request.quantity,
            cmd.request.window.start, cmd.request.window.end,
            if cmd.request.requestedState == Some(RequestConfirmed) then BookingConfirmed else TentativeHold)
  }

  function AvailableTo(pools: map<string, Pool>, bookings: seq<Booking>, cmd: Command): real {
    Available(pools, bookings, cmd.request.poolId, cmd.request.quantity,
              CalculateOccupiedInterval(cmd.request.window, None), cmd.projectId).available
  }

  /** The response to a command and the state it leaves. */
  function Submitted(pools: map<string, Pool>, st: Store, cmd: Command): (Store, Response) {
    match Find(st.operations, cmd.idempotencyKey)
    case Some(op) =>
      (st, Response(if op.payloadHash != HashOf(cmd.request.payload) then Conflict else Accepted, op))
    case None =>
      var available := AvailableTo(pools, st.bookings, cmd);
      if available < cmd.request.quantity then
        var op := Stored(cmd, Rejected, available);
        (st.(operations := Put(st.operations, op)), Response(Accepted, op))
      else
        var op := Stored(cmd, Confirmed, available);
        (Store(st.bookings + [Booked(cmd)], Put(st.operations, op)), Response(Accepted, op))
  }

  /** The state after a run of commands. */
  function Run(pools: map<string, Pool>, st: Store, cmds: seq<Command>): Store {
    if cmds == [] then st else
      Submitted(pools, Run(pools, st, cmds[..|cmds| - 1]), cmds[|cmds| - 1]).0
  }

  class RentalsContractSimulator {
    const productPools: map<string, Pool>
    var bookings: seq<Booking>
    var operations: seq<Operation>

    function Value(): Store
      reads this
    {
      Store(bookings, operations)
    }

    constructor ()
      ensures productPools == SeedPools() && Value() == SeedStore()
    {
      productPools := SeedPools();
      bookings := [SeedBooking()];
      operations := [];
    }

    method ResetForTesting()
      modifies this
      ensures Value() == SeedStore()
    {
      bookings := [SeedBooking()];
      operations := [];
    }

    method QueryAvailability(poolId: string, quantity: real, window: OccupiedWindow, policy: Option<BufferPolicy>,
                             scope: string) returns (a: Availability)
      ensures a == Available(productPools, bookings, poolId, quantity, CalculateOccupiedInterval(window, policy), scope)
    {
      if poolId !in productPools {
        return Unreachable(quantity);
      }
      var interval := CalculateOccupiedInterval(window, policy);
      var occupiedOtherProjects, projectExistingReservations := 0.0, 0.0;
      for i := 0 to |bookings|
        invariant occupiedOtherProjects
             == UnitsMeeting(bookings[..i], poolId, interval.start, interval.end, scope, false)
        invariant projectExistingReservations
             == UnitsMeeting(bookings[..i], poolId, interval.start, interval.end, scope, true)
      {
        assert bookings[..i + 1][..i] == bookings[..i];
        var bkg := bookings[i];
        if bkg.poolId == poolId && bkg.status == BookingConfirmed {
          if interval.start <= bkg.end && interval.end >= bkg.start {
            if scope != "" && bkg.projectId == scope {
              projectExistingReservations := projectExistingReservations + bkg.quantity;
            } else {
              occupiedOtherProjects := occupiedOtherProjects + bkg.quantity;
            }
          }
        }
      }
      assert bookings[..|bookings|] == bookings;
      var total := productPools[poolId].totalServiceableUnits;
      var available := NotNegative(total - occupiedOtherProjects - projectExistingReservations);
      var shortfall := NotNegative(quantity - (available + projectExistingReservations));
      a := Availability(total, occupiedOtherProjects, available, projectExistingReservations, shortfall, true);
    }

    /** The scan for an operation with the key of the command. */
    method FindOperation(key: string) returns (op: Option<Operation>)
      ensures op == Find(operations, key)
    {
      for i := 0 to |operations|
        invariant Find(operations, key) == Find(operations[i..], key)
      {
        assert operations[i..][1..] == operations[i + 1..];
        if operations[i].idempotencyKey == key {
          return Some(operations[i]);
        }
      }
      op := None;
    }

    method SubmitReservationCommand(cmd: Command) returns (r: Response)
      modifies this
      ensures (Value(), r) == Submitted(productPools, old(Value()), cmd)
    {
      var payloadHash := ComputePayloadHash(cmd.request.payload);
      var existing := FindOperation(cmd.idempotencyKey);
      if existing.Some? {
        if existing.value.payloadHash != payloadHash {
          return Response(Conflict, existing.value);
        }
        return Response(Accepted, existing.value);
      }
      var avail := QueryAvailability(cmd.request.poolId, cmd.request.quantity, cmd.request.window, None, cmd.projectId);
      if avail.available < cmd.request.quantity {
        var op := Operation(cmd.operationId, cmd.idempotencyKey, cmd.tenantId, cmd.projectId,
                            payloadHash, Rejected, avail.available);
        operations := Put(operations, op);
        return Response(Accepted, op);
      }
      bookings := bookings + [Booked(cmd)];
      var op := Operation(cmd.operationId, cmd.idempotencyKey, cmd.tenantId, cmd.projectId,
                          payloadHash, Confirmed, avail.available);
      operations := Put(operations, op);
      r := Response(Accepted, op);
    }
  }

  /** The state the simulator starts from: one pool of 12 units, 4 of them booked for ten days. */
  function SeedPools(): map<string, Pool> {
    map["prod-counter-reg-01" := Pool("prod-counter-reg-01", 12.0)]
  }

  /** Its window runs from 2026-11-10T00:00:00+03:00 to 2026-11-20T23:59:59+03:00. */
  function SeedBooking(): Booking {
    Booking("rnt-bkg-proj-b-01", "EOS-UAT-ISOLATION-RUN01", "prod-counter-reg-01", 4.0,
            1794258000000, 1795208399000, BookingConfirmed)
  }

  function SeedStore(): Store {
    Store([SeedBooking()], [])
  }
}
