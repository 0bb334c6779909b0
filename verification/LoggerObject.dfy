/** The logger's fields and sinks as objects changed in place by its critical sections and by delivery. */
module LoggerObject {
  import opened Counting
  import opened LoggerCore
  import opened Logger

  class Monitor {
    const capacity: nat
    const block: bool
    var queue: seq<Item>
    var requested: nat
    var completed: nat
    var stopping: bool
    var dropped: nat

    /** The object holds the fields of core `c`. */
    ghost predicate Holds(c: Core)
      reads this
    {
      && capacity == c.capacity && queue == c.queue && requested == c.requested
      && completed == c.completed && stopping == c.stopping
    }

    constructor (capacity: nat, block: bool)
      requires capacity > 0
      ensures Holds(InitCore(capacity)) && this.block == block && dropped == 0
    {
      this.capacity, this.block := capacity, block;
      queue, requested, completed, stopping, dropped := [], 0, 0, false, 0;
    }

    /** `enqueue` under the mutex, up to its wait or its notification. */
    method Enqueue(tid: nat, message: string, ghost c: Core) returns (next: Phase)
      requires Holds(c)
      modifies this
      ensures Holds(ProducerLooks(c, block, tid, message).0) && next == ProducerLooks(c, block, tid, message).1
      ensures dropped == old(dropped) + One(next == Outside(Dropped))
      ensures next == if stopping then Outside(Refused)
                      else if |old(queue)| < capacity then OwesRecords
                      else if block then ProducerParked(message)
                      else Outside(Dropped)
      ensures queue == if next == OwesRecords then old(queue) + [Record(tid, message)] else old(queue)
      ensures requested == old(requested) && completed == old(completed) && stopping == old(stopping)
    {
      if stopping { return Outside(Refused); }
      if |queue| >= capacity {
        if !block {
          dropped := dropped + 1;
          return Outside(Dropped);
        }
        return ProducerParked(message);
      }
      queue := queue + [Record(tid, message)];
      next := OwesRecords;
    }

    /** `flush` under the mutex, up to its wait. */
    method BeginFlush(ghost c: Core) returns (next: Phase)
      requires Holds(c)
      modifies this
      ensures Holds(FlushLooks(c).0) && next == FlushLooks(c).1
      ensures dropped == old(dropped) && completed == old(completed) && stopping == old(stopping)
      ensures stopping ==> next == Outside(Stopping) && queue == old(queue) && requested == old(requested)
      ensures !stopping ==>
                && requested == old(requested) + 1 && next == FlushParked(requested)
                && queue == old(queue) + [Marker(requested)]
    {
      if stopping { return Outside(Stopping); }
      requested := requested + 1;
      var ticket := requested;
      queue := queue + [Marker(ticket)];
      next := FlushParked(ticket);
    }

    method Stop(ghost c: Core)
      requires Holds(c)
      modifies this
      ensures Holds(c.(stopping := true)) && dropped == old(dropped)
    {
      stopping := true;
    }

    /** The pump's look at the queue at the top of its loop. */
    method Take(ghost c: Core) returns (next: Pump)
      requires Holds(c) && c.pump.Looks?
      modifies this
      ensures Holds(PumpMoves(c)) && next == PumpMoves(c).pump && dropped == old(dropped)
      ensures next == if old(queue) != [] then Taken(old(queue)[0]) else if stopping then FinalFlush else Parked
      ensures queue == if old(queue) != [] then old(queue)[1..] else []
      ensures requested == old(requested) && completed == old(completed) && stopping == old(stopping)
    {
      if !stopping && queue == [] { return Parked; }
      if queue == [] { return FinalFlush; }
      next := Taken(queue[0]);
      queue := queue[1..];
    }

    /** The pump completes a ticket, or, past its loop, every ticket. */
    method Complete(ghost c: Core, pump: Pump)
      requires Holds(c) && c.pump == pump && (pump.Completing? || pump.FinalComplete?)
      modifies this
      ensures Holds(PumpMoves(c)) && dropped == old(dropped)
      ensures pump.FinalComplete? ==> completed == requested
      ensures pump.Completing? ==> pump.ticket <= completed && completed in {old(completed), pump.ticket} && old(completed) <= completed
      ensures queue == old(queue) && requested == old(requested) && stopping == old(stopping)
    {
      completed := if pump.Completing? then Max(completed, pump.ticket) else requested;
    }
  }

  // ----- delivery to the sinks -----

  /** A sink and the lines it has been given. */
  class Sink {
    var lines: seq<string>

    constructor ()
      ensures lines == []
    {
      lines := [];
    }

    /** A write either takes the line or throws. */
    method Write(line: string, throws: bool) returns (ok: bool)
      modifies this
      ensures ok == !throws && lines == if ok then old(lines) + [line] else old(lines)
    {
      if !throws { lines := lines + [line]; }
      ok := !throws;
    }
  }

  function Failures(throws: seq<bool>): nat {
    if throws == [] then 0 else Failures(throws[..|throws| - 1]) + One(throws[|throws| - 1])
  }

  /** One sink's failure is counted and starves no other sink. */
  method Deliver(sinks: seq<Sink>, line: string, throws: seq<bool>) returns (failures: nat)
    requires |throws| == |sinks| && forall i, j :: 0 <= i < j < |sinks| ==> sinks[i] != sinks[j]
    modifies sinks
    ensures failures == Failures(throws)
    ensures forall i :: 0 <= i < |sinks| ==>
              sinks[i].lines == if throws[i] then old(sinks[i].lines) else old(sinks[i].lines) + [line]
  {
    failures := 0;
    for k := 0 to |sinks|
      invariant failures == Failures(throws[..k])
      invariant forall i :: 0 <= i < k ==>
                  sinks[i].lines == if throws[i] then old(sinks[i].lines) else old(sinks[i].lines) + [line]
      invariant forall i :: k <= i < |sinks| ==> sinks[i].lines == old(sinks[i].lines)
    {
      var ok := sinks[k].Write(line, throws[k]);
      if !ok { failures := failures + 1; }
      assert throws[..k + 1][..k] == throws[..k];
    }
    assert throws[..|sinks|] == throws;
  }
}
