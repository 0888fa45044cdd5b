/**
  What every run of reservation commands keeps: no pool is oversold at any instant, one stored
  operation per idempotency key, one booking per confirmed operation; and what the replay check
  on payload hashes can and cannot tell.
*/
module RentalsTheory {
  import opened Numbers
  import opened Wrappers
  import opened Rentals

  // ---- capacity -----------------------------------------------------------------------------

  predicate Covers(b: Booking, t: int) {
    b.start <= t <= b.end
  }

  /** The confirmed units of a pool in use at an instant. */
  function Usage(bookings: seq<Booking>, poolId: string, t: int): real {
    if bookings == [] then 0.0 else
      var b := bookings[|bookings| - 1];
      Usage(bookings[..|bookings| - 1], poolId, t) + if Counts(b, poolId) && Covers(b, t) then b.quantity else 0.0
  }

  /** No instant is oversold, and no booking has a negative quantity. */
  ghost predicate Safe(pools: map<string, Pool>, bookings: seq<Booking>) {
    && (forall b :: b in bookings ==> b.quantity >= 0.0)
    && WithinCapacity(pools, bookings)
  }

  /** No instant is oversold in any pool. */
  ghost predicate WithinCapacity(pools: map<string, Pool>, bookings: seq<Booking>) {
    forall poolId, t :: poolId in pools ==> Usage(bookings, poolId, t) <= pools[poolId].totalServiceableUnits
  }

  /** The sum the availability query takes bounds the use at every instant of the window. */
  lemma {:induction false} UsageWithinMeetingUnits(bookings: seq<Booking>, poolId: string, start: int, end: int,
                                                   scope: string, t: int)
    requires forall b :: b in bookings ==> b.quantity >= 0.0
    requires start <= t <= end
    ensures Usage(bookings, poolId, t)
         <= UnitsMeeting(bookings, poolId, start, end, scope, false)
            + UnitsMeeting(bookings, poolId, start, end, scope, true)
  {
    if bookings != [] {
      UsageWithinMeetingUnits(bookings[..|bookings| - 1], poolId, start, end, scope, t);
      assert bookings[|bookings| - 1] in bookings;
    }
  }

  /** All confirmed units of a pool whose windows meet [start, end], whoever holds them. */
  function UnitsHeld(bookings: seq<Booking>, poolId: string, start: int, end: int): real {
    if bookings == [] then 0.0 else
      var b := bookings[|bookings| - 1];
      UnitsHeld(bookings[..|bookings| - 1], poolId, start, end)
        + if Counts(b, poolId) && Meets(b, start, end) then b.quantity else 0.0
  }

  lemma {:induction false} ScopesAddUp(bookings: seq<Booking>, poolId: string, start: int, end: int, scope: string)
    ensures UnitsMeeting(bookings, poolId, start, end, scope, false)
            + UnitsMeeting(bookings, poolId, start, end, scope, true)
         == UnitsHeld(bookings, poolId, start, end)
  {
    if bookings != [] {
      ScopesAddUp(bookings[..|bookings| - 1], poolId, start, end, scope);
    }
  }

  /**
    However a query is scoped, the two counts of held units add up to all of them, and what is
    available is the rest of the pool: a project's own units are never offered to it again.
  */
  lemma {:induction false} AvailabilityAddsUp(pools: map<string, Pool>, bookings: seq<Booking>, poolId: string,
                                              quantity: real, interval: OccupiedInterval, scope: string)
    requires poolId in pools
    ensures var a := Available(pools, bookings, poolId, quantity, interval, scope);
      var total, held := pools[poolId].totalServiceableUnits, UnitsHeld(bookings, poolId, interval.start, interval.end);
      && a.occupied + a.projectExisting == held
      && a.available == (if held <= total then total - held else 0.0)
      && (a.shortfall == 0.0 <==> quantity <= a.available + a.projectExisting)
  {
    ScopesAddUp(bookings, poolId, interval.start, interval.end, scope);
  }

  /** A window that has its buffers already gets none again, whatever the policy. */
  lemma BuffersAreAddedOnce(window: OccupiedWindow, policy: Option<BufferPolicy>, again: Option<BufferPolicy>)
    ensures var i := CalculateOccupiedInterval(window, policy);
      var j := CalculateOccupiedInterval(OccupiedWindow(i.start, i.end, Some(OccupiedIncludingBuffers)), again);
      j.start == i.start && j.end == i.end
  {
  }

  lemma {:induction false} UsageAfterBooking(bookings: seq<Booking>, b: Booking, poolId: string, t: int)
    ensures Usage(bookings + [b], poolId, t)
         == Usage(bookings, poolId, t) + if Counts(b, poolId) && Covers(b, t) then b.quantity else 0.0
  {
  }

  /** Booking what the availability query grants keeps every instant within capacity, whatever its quantity. */
  lemma {:induction false} GrantedBookingIsSafe(pools: map<string, Pool>, bookings: seq<Booking>, cmd: Command)
    requires Safe(pools, bookings)
    requires AvailableTo(pools, bookings, cmd) >= cmd.request.quantity
    ensures WithinCapacity(pools, bookings + [Booked(cmd)])
    ensures Safe(pools, bookings + [Booked(cmd)]) <==> cmd.request.quantity >= 0.0
  {
    var b := Booked(cmd);
    forall poolId, t | poolId in pools
      ensures Usage(bookings + [b], poolId, t) <= pools[poolId].totalServiceableUnits
    {
      UsageAfterBooking(bookings, b, poolId, t);
      assert Usage(bookings, poolId, t) <= pools[poolId].totalServiceableUnits;
      if Counts(b, poolId) && Covers(b, t) {
        UsageWithinMeetingUnits(bookings, poolId, b.start, b.end, cmd.projectId, t);
      }
    }
    assert b in bookings + [b];
  }

  /**
    In every run of commands with nonnegative quantities, from a safe state, no pool is oversold at
    any instant, although the code only adds up whole windows.
  */
  lemma {:induction false} NeverOversold(pools: map<string, Pool>, st: Store, cmds: seq<Command>)
    requires Safe(pools, st.bookings)
    requires forall c :: c in cmds ==> c.request.quantity >= 0.0
    ensures Safe(pools, Run(pools, st, cmds).bookings)
  {
    if cmds != [] {
      var n := |cmds| - 1;
      NeverOversold(pools, st, cmds[..n]);
      var before := Run(pools, st, cmds[..n]);
      assert cmds[n] in cmds;
      if Find(before.operations, cmds[n].idempotencyKey).None?
         && AvailableTo(pools, before.bookings, cmds[n]) >= cmds[n].request.quantity {
        GrantedBookingIsSafe(pools, before.bookings, cmds[n]);
      }
    }
  }

  /** Every run from a safe state whose quantities are at least `least` keeps every instant within capacity. */
  ghost predicate RunsKeepCapacity(least: real) {
    forall pools, st: Store, cmds: seq<Command> ::
      Safe(pools, st.bookings) && (forall c :: c in cmds ==> c.request.quantity >= least) ==>
        WithinCapacity(pools, Run(pools, st, cmds).bookings)
  }

  /** A command of project "p" for the pool "units", from instant 0 on. */
  function Ask(key: string, quantity: real, end: int): Command {
    Command("p", "t", key, Request("units", quantity, OccupiedWindow(0, end, None), Some(RequestConfirmed), []),
            key, key)
  }

  lemma {:induction false} BothAreBooked(pools: map<string, Pool>, least: real, cmds: seq<Command>)
    requires least < 0.0 && pools == map["units" := Pool("units", 0.0)]
    requires cmds == [Ask("a", least, 10), Ask("b", -least, 20)]
    ensures Run(pools, Store([], []), cmds).bookings == [Booked(cmds[0])] + [Booked(cmds[1])]
  {
    var st, b := Store([], []), Booked(cmds[0]);
    assert cmds[..1][..0] == [] && cmds[..1] == [cmds[0]];
    var first := Submitted(pools, st, cmds[0]).0;
    assert Run(pools, st, cmds[..1]) == first;
    assert first.bookings == [b] && first.operations[0].idempotencyKey == "a";
    ScopesAddUp([b], "units", 0, 20, "p");
    assert [b][..0] == [];
    assert UnitsHeld([b], "units", 0, 20) == least;
  }

  /** A negative booking makes room, within its window only, for a longer booking of as many units. */
  lemma {:induction false} NegativeQuantityOversells(pools: map<string, Pool>, least: real, cmds: seq<Command>)
    requires least < 0.0 && pools == map["units" := Pool("units", 0.0)]
    requires cmds == [Ask("a", least, 10), Ask("b", -least, 20)]
    ensures !RunsKeepCapacity(least)
  {
    BothAreBooked(pools, least, cmds);
    var b, c := Booked(cmds[0]), Booked(cmds[1]);
    UsageAfterBooking([], b, "units", 15);
    assert [] + [b] == [b];
    UsageAfterBooking([b], c, "units", 15);
    RefutedBy(pools, Store([], []), cmds, least);
  }

  lemma RefutedBy(pools: map<string, Pool>, st: Store, cmds: seq<Command>, least: real)
    requires Safe(pools, st.bookings) && forall i :: 0 <= i < |cmds| ==> cmds[i].request.quantity >= least
    requires !WithinCapacity(pools, Run(pools, st, cmds).bookings)
    ensures !RunsKeepCapacity(least)
  {
  }

  /** No run oversells an instant if and only if negative quantities are kept out. */
  lemma {:induction false} NeverOversoldIff(least: real)
    ensures RunsKeepCapacity(least) <==> least >= 0.0
  {
    if least >= 0.0 {
      forall pools, st: Store, cmds: seq<Command>
        | Safe(pools, st.bookings) && forall c :: c in cmds ==> c.request.quantity >= least
        ensures WithinCapacity(pools, Run(pools, st, cmds).bookings)
      {
        NeverOversold(pools, st, cmds);
      }
    } else {
      NegativeQuantityOversells(map["units" := Pool("units", 0.0)], least, [Ask("a", least, 10), Ask("b", -least, 20)]);
    }
  }

  /** The simulator's own seed data is safe to start from. */
  lemma SeedIsSafe()
    ensures Safe(SeedPools(), SeedStore().bookings)
  {
  }

  /**
    A granted hold reserves nothing: every later query and command sees the availability it
    would have seen without the hold, although the hold's operation is stored as confirmed.
  */
  lemma {:induction false} HoldReservesNothing(pools: map<string, Pool>, st: Store, hold: Command, poolId: string,
                                               quantity: real, interval: OccupiedInterval, scope: string)
    requires hold.request.requestedState != Some(RequestConfirmed)
    ensures Available(pools, Submitted(pools, st, hold).0.bookings, poolId, quantity, interval, scope)
         == Available(pools, st.bookings, poolId, quantity, interval, scope)
  {
  }

  /** Some query is offered less in the second state than in the first. */
  ghost predicate OffersLess(pools: map<string, Pool>, before: seq<Booking>, after: seq<Booking>) {
    exists poolId, quantity, interval, scope ::
      Available(pools, after, poolId, quantity, interval, scope).available
        < Available(pools, before, poolId, quantity, interval, scope).available
  }

  /** What every query for [start, end] is offered, whatever its scope and quantity. */
  function Offer(pools: map<string, Pool>, bookings: seq<Booking>, poolId: string, start: int, end: int): real {
    if poolId !in pools then 0.0 else
      NotNegative(pools[poolId].totalServiceableUnits - UnitsHeld(bookings, poolId, start, end))
  }

  lemma {:induction false} OfferIs(pools: map<string, Pool>, bookings: seq<Booking>, poolId: string, quantity: real,
                                   interval: OccupiedInterval, scope: string)
    ensures Available(pools, bookings, poolId, quantity, interval, scope).available
         == Offer(pools, bookings, poolId, interval.start, interval.end)
  {
    if poolId in pools {
      AvailabilityAddsUp(pools, bookings, poolId, quantity, interval, scope);
    }
  }

  /** A booking lowers exactly the positive offers of its pool to the queries that meet it. */
  lemma {:induction false} BookingLowers(pools: map<string, Pool>, bookings: seq<Booking>, b: Booking, poolId: string,
                                         start: int, end: int)
    requires b.status == BookingConfirmed && b.quantity > 0.0
    ensures Offer(pools, bookings + [b], poolId, start, end) < Offer(pools, bookings, poolId, start, end)
       <==> poolId == b.poolId && Meets(b, start, end) && Offer(pools, bookings, poolId, start, end) > 0.0
  {
    assert (bookings + [b])[..|bookings|] == bookings;
  }

  /** Before the command some query that meets its window is offered units of its pool. */
  ghost predicate UnitsAround(pools: map<string, Pool>, bookings: seq<Booking>, cmd: Command) {
    exists start, end :: Meets(Booked(cmd), start, end) && Offer(pools, bookings, cmd.request.poolId, start, end) > 0.0
  }

  lemma {:induction false} BookingTakesUnitsAround(pools: map<string, Pool>, bookings: seq<Booking>, cmd: Command)
    requires cmd.request.quantity > 0.0 && cmd.request.requestedState == Some(RequestConfirmed)
    ensures OffersLess(pools, bookings, bookings + [Booked(cmd)]) <==> UnitsAround(pools, bookings, cmd)
  {
    var b := Booked(cmd);
    forall poolId, quantity, interval, scope
      ensures Available(pools, bookings + [b], poolId, quantity, interval, scope).available
                < Available(pools, bookings, poolId, quantity, interval, scope).available
         <==> poolId == b.poolId && Meets(b, interval.start, interval.end)
              && Offer(pools, bookings, poolId, interval.start, interval.end) > 0.0
    {
      OfferIs(pools, bookings, poolId, quantity, interval, scope);
      OfferIs(pools, bookings + [b], poolId, quantity, interval, scope);
      BookingLowers(pools, bookings, b, poolId, interval.start, interval.end);
    }
    if start, end :| Meets(b, start, end) && Offer(pools, bookings, b.poolId, start, end) > 0.0 {
      var interval := CalculateOccupiedInterval(OccupiedWindow(start, end, None), None);
      assert Available(pools, bookings + [b], b.poolId, b.quantity, interval, "").available
           < Available(pools, bookings, b.poolId, b.quantity, interval, "").available;
    }
  }

  /**
    A granted command for a positive quantity takes units away from later queries exactly when it
    asked for a confirmed booking of a window that runs forwards, or of one that runs backwards
    within a longer window that still had units to offer.
  */
  lemma {:induction false} GrantedReservesIffConfirmed(pools: map<string, Pool>, st: Store, cmd: Command)
    requires Find(st.operations, cmd.idempotencyKey).None? && cmd.request.poolId in pools
    requires 0.0 < cmd.request.quantity <= AvailableTo(pools, st.bookings, cmd)
    ensures OffersLess(pools, st.bookings, Submitted(pools, st, cmd).0.bookings)
       <==> cmd.request.requestedState == Some(RequestConfirmed)
            && (cmd.request.window.start <= cmd.request.window.end || UnitsAround(pools, st.bookings, cmd))
  {
    var after := Submitted(pools, st, cmd).0.bookings;
    if cmd.request.requestedState == Some(RequestConfirmed) {
      assert after == st.bookings + [Booked(cmd)];
      if cmd.request.window.start <= cmd.request.window.end {
        var interval := CalculateOccupiedInterval(cmd.request.window, None);
        OfferIs(pools, st.bookings, cmd.request.poolId, cmd.request.quantity, interval, cmd.projectId);
        assert Meets(Booked(cmd), interval.start, interval.end);
      }
      BookingTakesUnitsAround(pools, st.bookings, cmd);
    } else {
      forall poolId, quantity, interval, scope
        ensures Available(pools, after, poolId, quantity, interval, scope).available
             == Available(pools, st.bookings, poolId, quantity, interval, scope).available
      {
        HoldReservesNothing(pools, st, cmd, poolId, quantity, interval, scope);
      }
    }
  }

  // ---- idempotency ----------------------------------------------------------------------------

  ghost predicate OnePerKey(operations: seq<Operation>) {
    forall i, j :: 0 <= i < j < |operations| ==> operations[i].idempotencyKey != operations[j].idempotencyKey
  }

  lemma {:induction false} PutMembers(operations: seq<Operation>, op: Operation)
    ensures forall o :: o in Put(operations, op) ==> o == op || o in operations
    ensures op in Put(operations, op)
  {
    if operations != [] && operations[0].operationId != op.operationId {
      PutMembers(operations[1..], op);
    }
  }

  lemma {:induction false} PutKeepsOnePerKey(operations: seq<Operation>, op: Operation)
    requires OnePerKey(operations) && forall o :: o in operations ==> o.idempotencyKey != op.idempotencyKey
    ensures OnePerKey(Put(operations, op))
  {
    if operations != [] && operations[0].operationId != op.operationId {
      PutKeepsOnePerKey(operations[1..], op);
      PutMembers(operations[1..], op);
      forall i | 0 < i < |Put(operations, op)|
        ensures Put(operations, op)[i].idempotencyKey != operations[0].idempotencyKey
      {
        assert Put(operations, op)[i] in Put(operations[1..], op);
      }
    }
  }

  /** Every run keeps at most one stored operation per idempotency key. */
  lemma {:induction false} OneOperationPerKey(pools: map<string, Pool>, st: Store, cmds: seq<Command>)
    requires OnePerKey(st.operations)
    ensures OnePerKey(Run(pools, st, cmds).operations)
  {
    if cmds != [] {
      var n := |cmds| - 1;
      OneOperationPerKey(pools, st, cmds[..n]);
      var before := Run(pools, st, cmds[..n]);
      if Find(before.operations, cmds[n].idempotencyKey).None? {
        PutKeepsOnePerKey(before.operations, Submitted(pools, before, cmds[n]).1.operation);
      }
    }
  }

  ghost predicate FreshId(operations: seq<Operation>, id: string) {
    forall o :: o in operations ==> o.operationId != id
  }

  lemma {:induction false} PutFreshAppends(operations: seq<Operation>, op: Operation)
    requires FreshId(operations, op.operationId)
    ensures Put(operations, op) == operations + [op]
  {
    if operations != [] {
      PutFreshAppends(operations[1..], op);
    }
  }

  /** The operations a run draws ids for are new: they clash neither with each other nor with stored ones. */
  ghost predicate FreshIds(st: Store, cmds: seq<Command>) {
    && (forall c :: c in cmds ==> FreshId(st.operations, c.operationId))
    && (forall i, j :: 0 <= i < j < |cmds| ==> cmds[i].operationId != cmds[j].operationId)
  }

  lemma {:induction false} StoredIdsComeFromCommands(pools: map<string, Pool>, st: Store, cmds: seq<Command>)
    ensures forall o :: o in Run(pools, st, cmds).operations ==>
              o in st.operations || exists c :: c in cmds && c.operationId == o.operationId
  {
    if cmds != [] {
      var n := |cmds| - 1;
      StoredIdsComeFromCommands(pools, st, cmds[..n]);
      var before := Run(pools, st, cmds[..n]);
      if Find(before.operations, cmds[n].idempotencyKey).None? {
        PutMembers(before.operations, Submitted(pools, before, cmds[n]).1.operation);
      }
      forall o | o in before.operations && o !in st.operations
        ensures exists c :: c in cmds && c.operationId == o.operationId
      {
        var c :| c in cmds[..n] && c.operationId == o.operationId;
        assert c in cmds;
      }
      assert cmds[n] in cmds;
    }
  }

  function CountConfirmed(operations: seq<Operation>): nat {
    if operations == [] then 0 else
      CountConfirmed(operations[..|operations| - 1])
        + if operations[|operations| - 1].businessState == Confirmed then 1 else 0
  }

  /** In every run with fresh ids, bookings are added one for one with operations stored as confirmed. */
  lemma {:induction false} OneBookingPerConfirmedOperation(pools: map<string, Pool>, st: Store, cmds: seq<Command>)
    requires FreshIds(st, cmds)
    ensures var end := Run(pools, st, cmds);
      && st.bookings <= end.bookings && st.operations <= end.operations
      && |end.bookings| - |st.bookings| == CountConfirmed(end.operations) - CountConfirmed(st.operations)
  {
    if cmds != [] {
      var n := |cmds| - 1;
      OneBookingPerConfirmedOperation(pools, st, cmds[..n]);
      var before := Run(pools, st, cmds[..n]);
      StoredIdsComeFromCommands(pools, st, cmds[..n]);
      assert cmds[n] in cmds;
      assert FreshId(before.operations, cmds[n].operationId);
      if Find(before.operations, cmds[n].idempotencyKey).None? {
        var op := Submitted(pools, before, cmds[n]).1.operation;
        PutFreshAppends(before.operations, op);
        assert (before.operations + [op])[..|before.operations|] == before.operations;
      }
    }
  }

  /** A replay of a stored key returns the stored operation and changes nothing; it conflicts iff the hashes differ. */
  lemma {:induction false} ReplayReturnsStored(pools: map<string, Pool>, st: Store, op: Operation, replay: Command)
    requires OnePerKey(st.operations) && op in st.operations && replay.idempotencyKey == op.idempotencyKey
    ensures var (after, response) := Submitted(pools, st, replay);
      && after == st && response.operation == op
      && (response.status == Conflict <==> HashOf(replay.request.payload) != op.payloadHash)
  {
  }

  lemma {:induction false} FreshIdsAfterFirst(st: Store, cmd: Command, between: seq<Command>, op: Operation)
    requires FreshIds(st, [cmd] + between) && op.operationId == cmd.operationId
    ensures forall bookings :: FreshIds(Store(bookings, st.operations + [op]), between)
    ensures FreshId(st.operations, op.operationId)
  {
    var all := [cmd] + between;
    assert all[0] == cmd && forall i :: 0 <= i < |between| ==> all[i + 1] == between[i];
    forall c | c in between ensures FreshId(st.operations + [op], c.operationId) {
      var i :| 0 <= i < |between| && between[i] == c;
      assert all[i + 1] == c;
    }
    forall i, j | 0 <= i < j < |between| ensures between[i].operationId != between[j].operationId {
      assert all[i + 1] == between[i] && all[j + 1] == between[j];
    }
  }

  lemma {:induction false} StaysStored(pools: map<string, Pool>, st: Store, op: Operation, between: seq<Command>)
    requires FreshIds(st, between) && op in st.operations
    ensures op in Run(pools, st, between).operations
  {
    OneBookingPerConfirmedOperation(pools, st, between);
    var i :| 0 <= i < |st.operations| && st.operations[i] == op;
    assert Run(pools, st, between).operations[i] == op;
  }

  lemma {:induction false} RetryOfNewKey(pools: map<string, Pool>, st: Store, cmd: Command, between: seq<Command>,
                                         retry: Command)
    requires OnePerKey(st.operations) && FreshIds(st, [cmd] + between)
    requires retry.idempotencyKey == cmd.idempotencyKey && retry.request.payload == cmd.request.payload
    requires Find(st.operations, cmd.idempotencyKey).None?
    ensures var (after, first) := Submitted(pools, st, cmd);
      var later := Run(pools, after, between);
      Submitted(pools, later, retry) == (later, first)
  {
    var (after, first) := Submitted(pools, st, cmd);
    var op := first.operation;
    FreshIdsAfterFirst(st, cmd, between, op);
    PutFreshAppends(st.operations, op);
    PutKeepsOnePerKey(st.operations, op);
    assert after == Store(after.bookings, st.operations + [op]);
    StaysStored(pools, after, op, between);
    OneOperationPerKey(pools, after, between);
    ReplayReturnsStored(pools, Run(pools, after, between), op, retry);
  }

  lemma {:induction false} FreshIdsAfterReplay(st: Store, cmd: Command, between: seq<Command>)
    requires FreshIds(st, [cmd] + between)
    ensures FreshIds(st, between)
  {
    var all := [cmd] + between;
    forall i | 0 <= i < |between| ensures FreshId(st.operations, between[i].operationId) {
      assert all[i + 1] == between[i];
    }
    forall i, j | 0 <= i < j < |between| ensures between[i].operationId != between[j].operationId {
      assert all[i + 1] == between[i] && all[j + 1] == between[j];
    }
  }

  /**
    After any run in between, a command sent twice gets the answer it got the first time: the same
    operation, and again a conflict when it was one.
  */
  lemma {:induction false} RetryGetsFirstAnswer(pools: map<string, Pool>, st: Store, cmd: Command,
                                                between: seq<Command>, retry: Command)
    requires OnePerKey(st.operations) && FreshIds(st, [cmd] + between)
    requires retry.idempotencyKey == cmd.idempotencyKey && retry.request.payload == cmd.request.payload
    ensures var (after, first) := Submitted(pools, st, cmd);
      var later := Run(pools, after, between);
      Submitted(pools, later, retry) == (later, first)
  {
    var stored := Find(st.operations, cmd.idempotencyKey);
    if stored.None? {
      RetryOfNewKey(pools, st, cmd, between, retry);
    } else {
      FreshIdsAfterReplay(st, cmd, between);
      StaysStored(pools, st, stored.value, between);
      OneOperationPerKey(pools, st, between);
      ReplayReturnsStored(pools, Run(pools, st, between), stored.value, retry);
    }
  }

  // ---- payload hashes ---------------------------------------------------------------------------

  lemma HashStepWraps(hash: int, unit: CodeUnit) returns (k: int)
    ensures HashStep(hash, unit) == 31 * hash + unit - k * 0x1_0000_0000
  {
    var x := hash * 32;
    var y := ToInt32(x) - hash + unit;
    var k1 := if x % 0x1_0000_0000 >= 0x8000_0000 then x / 0x1_0000_0000 + 1 else x / 0x1_0000_0000;
    var k2 := if y % 0x1_0000_0000 >= 0x8000_0000 then y / 0x1_0000_0000 + 1 else y / 0x1_0000_0000;
    k := k1 + k2;
  }

  /** 31 is invertible modulo 2^32: a step never merges two hashes, nor two units. */
  lemma HashStepIsInjective(h: int, h': int, u: CodeUnit, u': CodeUnit)
    requires -0x8000_0000 <= h < 0x8000_0000 && -0x8000_0000 <= h' < 0x8000_0000
    requires (h != h' && u == u') || (h == h' && u != u')
    ensures HashStep(h, u) != HashStep(h', u')
  {
    var k := HashStepWraps(h, u);
    var k' := HashStepWraps(h', u');
    NoSmallMultiple(h - h', u - u', k - k');
  }

  lemma NoSmallMultiple(d: int, e: int, m: int)
    requires -0x1_0000_0000 < d < 0x1_0000_0000 && -0x1_0000 < e < 0x1_0000
    requires (d != 0 && e == 0) || (d == 0 && e != 0)
    ensures 31 * d + e != m * 0x1_0000_0000
  {
  }

  lemma {:induction false} HashFromDiffers(h: int, h': int, suffix: seq<CodeUnit>)
    requires -0x8000_0000 <= h < 0x8000_0000 && -0x8000_0000 <= h' < 0x8000_0000 && h != h'
    ensures HashFrom(h, suffix) != HashFrom(h', suffix)
  {
    if suffix != [] {
      var n := |suffix| - 1;
      HashFromDiffers(h, h', suffix[..n]);
      HashStepIsInjective(HashFrom(h, suffix[..n]), HashFrom(h', suffix[..n]), suffix[n], suffix[n]);
    }
  }

  lemma {:induction false} HashFromConcat(h: int, a: seq<CodeUnit>, b: seq<CodeUnit>)
    ensures HashFrom(h, a + b) == HashFrom(HashFrom(h, a), b)
  {
    if b == [] {
      assert a + b == a;
    } else {
      var n := |b| - 1;
      assert (a + b)[..|a| + n] == a + b[..n];
      HashFromConcat(h, a, b[..n]);
    }
  }

  /** Changing one code unit of a payload always changes its hash, so the replay is a conflict. */
  lemma {:induction false} OneUnitChangeIsDetected(prefix: seq<CodeUnit>, u: CodeUnit, u': CodeUnit,
                                                   suffix: seq<CodeUnit>)
    requires u != u'
    ensures HashOf(prefix + [u] + suffix) != HashOf(prefix + [u'] + suffix)
  {
    var h := HashFrom(0, prefix);
    HashFromConcat(0, prefix + [u], suffix);
    HashFromConcat(0, prefix + [u'], suffix);
    HashFromConcat(0, prefix, [u]);
    HashFromConcat(0, prefix, [u']);
    HashStepIsInjective(h, h, u, u');
    HashFromDiffers(HashStep(h, u), HashStep(h, u'), suffix);
  }

  lemma HashOfPair(h: int, u: CodeUnit, v: CodeUnit) returns (k: int)
    ensures HashFrom(h, [u, v]) == 961 * h + 31 * u + v - k * 0x1_0000_0000
  {
    assert [u, v] == [u] + [v];
    HashFromConcat(h, [u], [v]);
    var k1 := HashStepWraps(h, u);
    var k2 := HashStepWraps(HashStep(h, u), v);
    k := 31 * k1 + k2;
  }

  lemma PairsAgreeIff(h: int, u: CodeUnit, v: CodeUnit, u': CodeUnit, v': CodeUnit)
    requires -0x8000_0000 <= h < 0x8000_0000
    ensures HashFrom(h, [u, v]) == HashFrom(h, [u', v']) <==> 31 * u + v == 31 * u' + v'
  {
    var k := HashOfPair(h, u, v);
    var k' := HashOfPair(h, u', v');
    SmallSumsAgree(31 * u + v, 31 * u' + v', 961 * h, k, k', HashFrom(h, [u, v]), HashFrom(h, [u', v']));
  }

  lemma SmallSumsAgree(s: nat, s': nat, x: int, k: int, k': int, a: int, b: int)
    requires s < 0x20_0000 && s' < 0x20_0000
    requires a == x + s - k * 0x1_0000_0000 && b == x + s' - k' * 0x1_0000_0000
    requires -0x8000_0000 <= a < 0x8000_0000 && -0x8000_0000 <= b < 0x8000_0000
    ensures a == b <==> s == s'
  {
  }

  /** Exchanging two neighbouring units goes unseen exactly when 31 times the first plus the second stays the same. */
  lemma {:induction false} TwoUnitChangeIsUnseenIff(prefix: seq<CodeUnit>, u: CodeUnit, v: CodeUnit,
                                                    u': CodeUnit, v': CodeUnit, suffix: seq<CodeUnit>)
    ensures HashOf(prefix + [u, v] + suffix) == HashOf(prefix + [u', v'] + suffix) <==> 31 * u + v == 31 * u' + v'
  {
    var h := HashFrom(0, prefix);
    HashFromConcat(0, prefix + [u, v], suffix);
    HashFromConcat(0, prefix + [u', v'], suffix);
    HashFromConcat(0, prefix, [u, v]);
    HashFromConcat(0, prefix, [u', v']);
    PairsAgreeIff(h, u, v, u', v');
    if HashFrom(h, [u, v]) != HashFrom(h, [u', v']) {
      HashFromDiffers(HashFrom(h, [u, v]), HashFrom(h, [u', v']), suffix);
    }
  }

  /** "Aa" and "BB" hash alike wherever they stand in a payload. */
  lemma {:induction false} TwoUnitChangeCanGoUnseen(prefix: seq<CodeUnit>, suffix: seq<CodeUnit>)
    ensures HashOf(prefix + [65, 97] + suffix) == HashOf(prefix + [66, 66] + suffix)
    ensures prefix + [65, 97] + suffix != prefix + [66, 66] + suffix
  {
    TwoUnitChangeIsUnseenIff(prefix, 65, 97, 66, 66, suffix);
    assert (prefix + [65, 97] + suffix)[|prefix|] == 65 && (prefix + [66, 66] + suffix)[|prefix|] == 66;
  }

  function Power31(n: nat): nat {
    if n == 0 then 1 else 31 * Power31(n - 1)
  }

  /** The units of a payload, the last one once and each earlier one 31 times as often as the next. */
  function WeightedSum(payload: seq<CodeUnit>): nat {
    if payload == [] then 0 else Power31(|payload| - 1) * payload[0] + WeightedSum(payload[1..])
  }

  lemma {:induction false} WeightedSumExtends(payload: seq<CodeUnit>, u: CodeUnit)
    ensures WeightedSum(payload + [u]) == 31 * WeightedSum(payload) + u
  {
    if payload == [] {
      assert [u][1..] == [];
      assert Power31(0) * u == u;
    } else {
      var n := |payload|;
      assert (payload + [u])[1..] == payload[1..] + [u];
      WeightedSumExtends(payload[1..], u);
    }
  }

  lemma {:induction false} HashIsWeightedSum(payload: seq<CodeUnit>) returns (k: int)
    ensures HashFrom(0, payload) == WeightedSum(payload) - k * 0x1_0000_0000
  {
    if payload == [] {
      return 0;
    }
    var n := |payload| - 1;
    assert payload == payload[..n] + [payload[n]];
    var before := HashIsWeightedSum(payload[..n]);
    WeightedSumExtends(payload[..n], payload[n]);
    var step := HashStepWraps(HashFrom(0, payload[..n]), payload[n]);
    k := 31 * before + step;
  }

  /** Two payloads that the hash cannot tell apart. */
  predicate HashAlike(a: seq<CodeUnit>, b: seq<CodeUnit>) {
    |a| == |b| && WeightedSum(a) % 0x1_0000_0000 == WeightedSum(b) % 0x1_0000_0000
  }

  /** Two payloads share a hash exactly when they have one length and weighted sums that agree modulo 2^32. */
  lemma {:induction false} HashesAgreeIff(a: seq<CodeUnit>, b: seq<CodeUnit>)
    ensures HashOf(a) == HashOf(b) <==> HashAlike(a, b)
  {
    var j := HashIsWeightedSum(a);
    var k := HashIsWeightedSum(b);
    AgreeModulo(WeightedSum(a), WeightedSum(b), j, k, HashFrom(0, a), HashFrom(0, b));
  }

  lemma AgreeModulo(x: int, y: int, j: int, k: int, a: int, b: int)
    requires a == x - j * 0x1_0000_0000 && b == y - k * 0x1_0000_0000
    requires -0x8000_0000 <= a < 0x8000_0000 && -0x8000_0000 <= b < 0x8000_0000
    ensures a == b <==> x % 0x1_0000_0000 == y % 0x1_0000_0000
  {
  }

  /**
    A replay of the key of an operation stored for one payload is a conflict exactly when the hash
    tells the payloads apart.
  */
  lemma {:induction false} ReplayConflictsIff(pools: map<string, Pool>, st: Store, op: Operation,
                                              original: seq<CodeUnit>, replay: Command)
    requires OnePerKey(st.operations) && op in st.operations && op.payloadHash == HashOf(original)
    requires replay.idempotencyKey == op.idempotencyKey
    ensures Submitted(pools, st, replay).1.status == Conflict <==> !HashAlike(replay.request.payload, original)
  {
    ReplayReturnsStored(pools, st, op, replay);
    HashesAgreeIff(replay.request.payload, original);
  }
}
