/**
  The logger's queue and its pump: what is accepted, taken, delivered and flushed, and in
  which order.  The threads that call the logger come in module `Logger`.
*/
module LoggerCore {
  datatype Item = Record(tid: nat, message: string) | Marker(ticket: nat)

  /** What the sinks see. */
  datatype Event = Delivered(record: Item) | SinksFlushed

  /** Where the pump is in its loop. */
  datatype Pump =
    | Looks                       // about to take the mutex and look at the queue
    | Parked                      // in the wait set of records_available_
    | Taken(item: Item)           // took an item, owes space_available_ a notification
    | Delivering(record: Item)
    | Flushing(ticket: nat)
    | Completing(ticket: nat)
    | OwesDone                    // completed a ticket, owes flush_done_ a notification
    | FinalFlush                  // left the loop
    | FinalComplete
    | FinalOwes
    | Returned

  /** `accepted`, `taken` and `events` record the history: everything queued, how much was taken. */
  datatype Core = Core(
    capacity: nat, queue: seq<Item>, requested: nat, completed: nat, stopping: bool, pump: Pump,
    accepted: seq<Item>, taken: nat, events: seq<Event>)

  function InitCore(capacity: nat): Core {
    Core(capacity, [], 0, 0, false, Looks, [], 0, [])
  }

  function Append(c: Core, item: Item): Core {
    c.(queue := c.queue + [item], accepted := c.accepted + [item])
  }

  /** `flush` under the mutex: the next ticket, riding the queue past the capacity bound. */
  function AppendMarker(c: Core): Core {
    Append(c.(requested := c.requested + 1), Marker(c.requested + 1))
  }

  function Max(a: nat, b: nat): nat { if a < b then b else a }

  /** The pump's next move, from the top of `pump_loop` to its return. */
  function PumpMoves(c: Core): Core {
    match c.pump
    case Looks =>
      if !c.stopping && c.queue == [] then c.(pump := Parked)
      else if c.queue == [] then c.(pump := FinalFlush)
      else c.(pump := Taken(c.queue[0]), queue := c.queue[1..], taken := c.taken + 1)
    case Parked => c
    case Taken(item) => c.(pump := if item.Marker? then Flushing(item.ticket) else Delivering(item))
    case Delivering(record) => c.(pump := Looks, events := c.events + [Delivered(record)])
    case Flushing(ticket) => c.(pump := Completing(ticket), events := c.events + [SinksFlushed])
    case Completing(ticket) => c.(pump := OwesDone, completed := Max(c.completed, ticket))
    case OwesDone => c.(pump := Looks)
    case FinalFlush => c.(pump := FinalComplete, events := c.events + [SinksFlushed])
    case FinalComplete => c.(pump := FinalOwes, completed := c.requested)
    case FinalOwes => c.(pump := Returned)
    case Returned => c
  }

  // ----- histories -----

  function Records(items: seq<Item>): seq<Item> {
    if items == [] then []
    else Records(items[..|items| - 1]) + if items[|items| - 1].Record? then [items[|items| - 1]] else []
  }

  function Deliveries(events: seq<Event>): seq<Item> {
    if events == [] then []
    else Deliveries(events[..|events| - 1])
         + if events[|events| - 1].Delivered? then [events[|events| - 1].record] else []
  }

  /** The sinks were flushed at event `e`, after all of `records` had been delivered in order. */
  ghost predicate FlushedAt(records: seq<Item>, events: seq<Event>, e: nat) {
    e < |events| && events[e] == SinksFlushed && records <= Deliveries(events[..e])
  }

  /** The sinks were flushed after all of `records` had been delivered in order. */
  ghost predicate FlushedAfter(records: seq<Item>, events: seq<Event>) {
    exists e: nat :: FlushedAt(records, events, e)
  }

  lemma {:induction false} RecordsPrefix(items: seq<Item>, m: nat, n: nat)
    requires m <= n <= |items|
    ensures Records(items[..m]) <= Records(items[..n])
  {
    if m < n {
      RecordsPrefix(items, m, n - 1);
      assert items[..n][..n - 1] == items[..n - 1];
    }
  }

  lemma RecordsAppend(items: seq<Item>, item: Item)
    ensures Records(items + [item]) == Records(items) + if item.Record? then [item] else []
  {
    assert (items + [item])[..|items|] == items;
  }

  lemma DeliveriesAppend(events: seq<Event>, event: Event)
    ensures Deliveries(events + [event]) == Deliveries(events) + if event.Delivered? then [event.record] else []
  {
    assert (events + [event])[..|events|] == events;
  }

  /** Later events do not undo a flush. */
  lemma FlushedStays(records: seq<Item>, events: seq<Event>, more: seq<Event>)
    requires FlushedAfter(records, events)
    ensures FlushedAfter(records, events + more)
  {
    var e: nat :| FlushedAt(records, events, e);
    assert (events + more)[..e] == events[..e];
    assert FlushedAt(records, events + more, e);
  }

  /** A flush after more records is a flush after fewer. */
  lemma FlushedFewer(records: seq<Item>, fewer: seq<Item>, events: seq<Event>)
    requires FlushedAfter(records, events) && fewer <= records
    ensures FlushedAfter(fewer, events)
  {
    var e: nat :| FlushedAt(records, events, e);
    assert FlushedAt(fewer, events, e);
  }

  lemma FlushNow(records: seq<Item>, events: seq<Event>)
    requires records <= Deliveries(events)
    ensures FlushedAfter(records, events + [SinksFlushed])
  {
    assert (events + [SinksFlushed])[..|events|] == events;
    assert FlushedAt(records, events + [SinksFlushed], |events|);
  }

  // ----- the invariant -----

  /** The items whose handling is over: all taken ones but a record still in the pump's hands. */
  function Settled(c: Core): int {
    if (c.pump.Taken? && c.pump.item.Record?) || c.pump.Delivering? then c.taken - 1 else c.taken
  }

  predicate Final(pump: Pump) {
    pump.FinalFlush? || pump.FinalComplete? || pump.FinalOwes? || pump.Returned?
  }

  /** The pump has taken exactly what is accepted and no longer queued, and holds the last of it. */
  ghost predicate QueueInv(c: Core) {
    && c.taken <= |c.accepted| && c.queue == c.accepted[c.taken..]
    && (c.pump.Taken? ==> c.taken > 0 && c.accepted[c.taken - 1] == c.pump.item)
    && (c.pump.Delivering? ==> c.taken > 0 && c.accepted[c.taken - 1] == c.pump.record && c.pump.record.Record?)
    && (c.pump.Flushing? || c.pump.Completing? ==>
          c.taken > 0 && c.accepted[c.taken - 1] == Marker(c.pump.ticket))
    && (Final(c.pump) ==> c.stopping && c.queue == [])
  }

  /** The records handed to the sinks are those settled, in the order they were accepted. */
  ghost predicate DeliveredInv(c: Core)
    requires QueueInv(c)
  {
    Deliveries(c.events) == Records(c.accepted[..Settled(c)])
  }

  /** Tickets are issued in order, each with its marker in the queue. */
  ghost predicate TicketsInv(c: Core) {
    && c.completed <= c.requested
    && (forall i :: 0 <= i < |c.accepted| && c.accepted[i].Marker? ==> c.accepted[i].ticket <= c.requested)
    && (forall i, j :: 0 <= i < j < |c.accepted| && c.accepted[i].Marker? && c.accepted[j].Marker?
          ==> c.accepted[i].ticket < c.accepted[j].ticket)
  }

  /** A completed ticket's barrier holds. */
  ghost predicate BarrierInv(c: Core) {
    && (forall m :: 0 <= m < |c.accepted| && c.accepted[m].Marker? && c.accepted[m].ticket <= c.completed
          ==> FlushedAfter(Records(c.accepted[..m]), c.events))
    && (c.pump.Completing? ==> 0 < c.taken <= |c.accepted| && FlushedAfter(Records(c.accepted[..c.taken - 1]), c.events))
    && (c.pump.FinalComplete? || c.pump.FinalOwes? || c.pump.Returned? ==> FlushedAfter(Records(c.accepted), c.events))
    && (c.pump.FinalOwes? || c.pump.Returned? ==> c.completed == c.requested)
  }

  ghost predicate CapacityInv(c: Core) {
    |Records(c.queue)| <= c.capacity
  }

  ghost predicate CoreInv(c: Core) {
    QueueInv(c) && DeliveredInv(c) && TicketsInv(c) && BarrierInv(c) && CapacityInv(c)
  }

  lemma InitCoreInv(capacity: nat)
    ensures CoreInv(InitCore(capacity))
  {
  }

  lemma {:induction false} RecordsAtMost(items: seq<Item>)
    ensures |Records(items)| <= |items|
  {
    if items != [] { RecordsAtMost(items[..|items| - 1]); }
  }

  lemma AppendKeepsQueue(c: Core, item: Item)
    requires QueueInv(c) && DeliveredInv(c) && CapacityInv(c) && !c.stopping
    requires item.Record? ==> |c.queue| < c.capacity
    ensures var c' := Append(c, item); QueueInv(c') && DeliveredInv(c') && CapacityInv(c')
  {
    assert Append(c, item).accepted[..Settled(c)] == c.accepted[..Settled(c)];
    RecordsAppend(c.queue, item);
    RecordsAtMost(c.queue);
  }

  lemma AppendKeepsBarrier(c: Core, item: Item)
    requires QueueInv(c) && BarrierInv(c) && !c.stopping
    requires item.Marker? ==> item.ticket > c.completed
    ensures BarrierInv(Append(c, item))
  {
    var c' := Append(c, item);
    forall m | 0 <= m < |c'.accepted| && c'.accepted[m].Marker? && c'.accepted[m].ticket <= c'.completed
      ensures FlushedAfter(Records(c'.accepted[..m]), c'.events)
    {
      assert c'.accepted[..m] == c.accepted[..m];
    }
    if c.pump.Completing? { assert c'.accepted[..c.taken - 1] == c.accepted[..c.taken - 1]; }
  }

  /** Accepting a record, with room in the queue, keeps the invariant. */
  lemma RecordKeepsInv(c: Core, item: Item)
    requires CoreInv(c) && !c.stopping && item.Record? && |c.queue| < c.capacity
    ensures CoreInv(Append(c, item))
  {
    AppendKeepsQueue(c, item);
    AppendKeepsBarrier(c, item);
  }

  lemma MarkerKeepsTickets(c: Core)
    requires TicketsInv(c)
    ensures TicketsInv(AppendMarker(c))
  {
  }

  lemma RequestKeepsRest(c: Core)
    requires QueueInv(c) && DeliveredInv(c) && CapacityInv(c) && BarrierInv(c) && !c.stopping
    ensures var r := c.(requested := c.requested + 1);
            QueueInv(r) && DeliveredInv(r) && CapacityInv(r) && BarrierInv(r)
  {
    hide FlushedAfter, Records, Deliveries;
  }

  /** Issuing a ticket keeps the invariant, whether or not there is room. */
  lemma MarkerKeepsInv(c: Core)
    requires CoreInv(c) && !c.stopping
    ensures CoreInv(AppendMarker(c))
  {
    var requested := c.(requested := c.requested + 1);
    var marker := Marker(c.requested + 1);
    assert AppendMarker(c) == Append(requested, marker);
    RequestKeepsRest(c);
    MarkerKeepsTickets(c);
    assert c.completed <= c.requested;
    hide QueueInv, DeliveredInv, CapacityInv, BarrierInv, TicketsInv;
    AppendKeepsQueue(requested, marker);
    AppendKeepsBarrier(requested, marker);
  }

  lemma {:induction false} RecordsOfTail(items: seq<Item>)
    requires items != []
    ensures |Records(items[1..])| <= |Records(items)|
  {
    if |items| > 1 {
      RecordsOfTail(items[..|items| - 1]);
      var tail := items[1..];
      assert tail[..|tail| - 1] == items[..|items| - 1][1..];
      assert tail[|tail| - 1] == items[|items| - 1];
    }
  }

  lemma TakeKeepsInv(c: Core)
    requires CoreInv(c) && c.pump.Looks? && c.queue != []
    ensures CoreInv(PumpMoves(c))
  {
    hide FlushedAfter, Records, Deliveries;
    var c' := PumpMoves(c);
    assert c.accepted[..c'.taken] == c.accepted[..c.taken] + [c.queue[0]];
    RecordsAppend(c.accepted[..c.taken], c.queue[0]);
    RecordsOfTail(c.queue);
  }

  /** Whatever the sinks see next, completed tickets keep their barrier. */
  lemma EventKeepsCompleted(c: Core, event: Event)
    requires BarrierInv(c)
    ensures forall m :: 0 <= m < |c.accepted| && c.accepted[m].Marker? && c.accepted[m].ticket <= c.completed
              ==> FlushedAfter(Records(c.accepted[..m]), c.events + [event])
  {
    hide FlushedAfter, Records;
    forall m | 0 <= m < |c.accepted| && c.accepted[m].Marker? && c.accepted[m].ticket <= c.completed
      ensures FlushedAfter(Records(c.accepted[..m]), c.events + [event])
    {
      FlushedStays(Records(c.accepted[..m]), c.events, [event]);
    }
  }

  lemma DeliverKeepsInv(c: Core)
    requires CoreInv(c) && c.pump.Delivering?
    ensures CoreInv(PumpMoves(c))
  {
    var c' := PumpMoves(c);
    assert c.accepted[..c.taken] == c.accepted[..c.taken - 1] + [c.pump.record];
    RecordsAppend(c.accepted[..c.taken - 1], c.pump.record);
    DeliveriesAppend(c.events, Delivered(c.pump.record));
    EventKeepsCompleted(c, Delivered(c.pump.record));
    hide FlushedAfter;
  }

  lemma FlushKeepsBarrier(c: Core)
    requires CoreInv(c) && (c.pump.Flushing? || c.pump.FinalFlush?)
    ensures BarrierInv(PumpMoves(c))
  {
    var c' := PumpMoves(c);
    EventKeepsCompleted(c, SinksFlushed);
    assert c.accepted[..|c.accepted|] == c.accepted;
    FlushNow(Deliveries(c.events), c.events);
    if c.pump.Flushing? { RecordsPrefix(c.accepted, c.taken - 1, c.taken); }
    hide FlushedAfter, Records, Deliveries, TicketsInv, CapacityInv;
    if c.pump.Flushing? {
      FlushedFewer(Deliveries(c.events), Records(c.accepted[..c.taken - 1]), c'.events);
    }
  }

  lemma FlushKeepsInv(c: Core)
    requires CoreInv(c) && (c.pump.Flushing? || c.pump.FinalFlush?)
    ensures CoreInv(PumpMoves(c))
  {
    FlushKeepsBarrier(c);
    hide BarrierInv;
    DeliveriesAppend(c.events, SinksFlushed);
  }

  lemma CompleteKeepsInv(c: Core)
    requires CoreInv(c) && (c.pump.Completing? || c.pump.FinalComplete?)
    ensures CoreInv(PumpMoves(c))
  {
    var c' := PumpMoves(c);
    var upTo := if c.pump.Completing? then c.taken - 1 else |c.accepted|;
    assert c.accepted[..|c.accepted|] == c.accepted;
    forall m | 0 <= m < |c'.accepted| && c'.accepted[m].Marker? && c'.accepted[m].ticket <= c'.completed
      ensures FlushedAfter(Records(c'.accepted[..m]), c'.events)
    {
      if c'.accepted[m].ticket > c.completed {
        RecordsPrefix(c.accepted, m, upTo);
        FlushedFewer(Records(c.accepted[..upTo]), Records(c.accepted[..m]), c.events);
      }
    }
  }

  /** The moves that only change where the pump is. */
  lemma OtherMoveKeepsInv(c: Core)
    requires CoreInv(c) && !(c.pump.Looks? && c.queue != []) && !c.pump.Delivering?
    requires !c.pump.Flushing? && !c.pump.FinalFlush? && !c.pump.Completing? && !c.pump.FinalComplete?
    ensures CoreInv(PumpMoves(c))
  {
    hide FlushedAfter, Records, Deliveries;
  }

  /** Every move of the pump keeps the invariant. */
  lemma PumpKeepsInv(c: Core)
    requires CoreInv(c)
    ensures CoreInv(PumpMoves(c))
  {
    hide CoreInv, PumpMoves;
    if c.pump.Looks? && c.queue != [] { TakeKeepsInv(c); }
    else if c.pump.Delivering? { DeliverKeepsInv(c); }
    else if c.pump.Flushing? || c.pump.FinalFlush? { FlushKeepsInv(c); }
    else if c.pump.Completing? || c.pump.FinalComplete? { CompleteKeepsInv(c); }
    else { OtherMoveKeepsInv(c); }
  }
}
