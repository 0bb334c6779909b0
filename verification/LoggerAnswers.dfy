/**
  What a call to the logger answers, by policy, room and shutdown, in every run; and that the pump,
  left to itself, finishes what was accepted.
*/
module LoggerAnswers {
  import opened Counting
  import opened LoggerCore
  import opened Logger

  // ----- the policies -----

  /** Blocking drops nothing; dropping makes nobody wait. */
  ghost predicate PolicyInv(s: State, capacity: nat, block: bool) {
    && s.block == block && s.core.capacity == capacity
    && (block ==> s.dropped == 0 && forall t :: t in s.threads ==> s.threads[t] != Outside(Dropped))
    && (!block ==> forall t :: t in s.threads ==> !s.threads[t].ProducerParked? && !s.threads[t].ProducerAwake?)
  }

  lemma StepKeepsPolicy(s: State, action: Action, capacity: nat, block: bool)
    requires PolicyInv(s, capacity, block)
    ensures PolicyInv(Step(s, action), capacity, block)
  {
    StepMovesCore(s, action);
    hide WakePump, PumpMoves, CoreStep;
  }

  lemma {:induction false} PolicyHolds(capacity: nat, block: bool, tids: set<nat>, schedule: seq<Action>)
    ensures PolicyInv(Execute(Init(capacity, block, tids), schedule), capacity, block)
  {
    hide Step, PolicyInv;
    if schedule == [] {
      PolicyAtFirst(capacity, block, tids);
    } else {
      var last := |schedule| - 1;
      PolicyHolds(capacity, block, tids, schedule[..last]);
      StepKeepsPolicy(Execute(Init(capacity, block, tids), schedule[..last]), schedule[last], capacity, block);
    }
  }

  lemma PolicyAtFirst(capacity: nat, block: bool, tids: set<nat>)
    ensures PolicyInv(Init(capacity, block, tids), capacity, block)
  {
  }

  /** Under the block policy no record is ever dropped, under the drop policy no caller ever waits. */
  lemma BlockNeverDropsDropNeverBlocks(capacity: nat, block: bool, tids: set<nat>, schedule: seq<Action>)
    ensures var s := Execute(Init(capacity, block, tids), schedule);
            && (block ==> s.dropped == 0 && forall t :: t in s.threads ==> s.threads[t] != Outside(Dropped))
            && (!block ==> ParkedProducers(s) == {} && AwakeProducers(s) == {})
  {
    PolicyHolds(capacity, block, tids, schedule);
    hide Execute;
  }

  // ----- one call -----

  /** The record of this call is queued, and its caller owes the pump a notification. */
  ghost predicate Accepts(s: State, s': State, tid: nat, message: string) {
    var record := Record(tid, message);
    s' == s.(core := s.core.(queue := s.core.queue + [record], accepted := s.core.accepted + [record]),
             threads := s.threads[tid := OwesRecords])
  }

  ghost predicate OnlyMoves(s: State, s': State, tid: nat, phase: Phase) {
    s' == s.(threads := s.threads[tid := phase])
  }

  /**
    A call of `log` in any run.  A stopping logger refuses it.  Where there is room its own record
    is accepted; on a full queue it parks under the block policy and is dropped, and counted, under
    the other.
  */
  lemma LogAnswers(capacity: nat, block: bool, tids: set<nat>, schedule: seq<Action>, tid: nat, message: string)
    requires var s := Execute(Init(capacity, block, tids), schedule); tid in s.threads && s.threads[tid].Outside?
    ensures var s := Execute(Init(capacity, block, tids), schedule);
            var s' := Step(s, Log(tid, message));
            if s.core.stopping then OnlyMoves(s, s', tid, Outside(Refused))
            else if |s.core.queue| < capacity then Accepts(s, s', tid, message)
            else if block then OnlyMoves(s, s', tid, ProducerParked(message))
            else OnlyMoves(s.(dropped := s.dropped + 1), s', tid, Outside(Dropped))
  {
    PolicyHolds(capacity, block, tids, schedule);
    hide Execute;
  }

  /**
    A producer that was waiting is refused once the logger is stopping, has the record of its own
    call accepted if there is room by now, and waits on with it otherwise.
  */
  lemma WaitingProducerAnswers(capacity: nat, block: bool, tids: set<nat>, schedule: seq<Action>, tid: nat)
    requires var s := Execute(Init(capacity, block, tids), schedule); tid in s.threads && s.threads[tid].ProducerAwake?
    ensures var s := Execute(Init(capacity, block, tids), schedule);
            var s', message := Step(s, Advance(tid)), s.threads[tid].message;
            if s.core.stopping then OnlyMoves(s, s', tid, Outside(Refused))
            else if |s.core.queue| < capacity then Accepts(s, s', tid, message)
            else OnlyMoves(s, s', tid, ProducerParked(message))
  {
    PolicyHolds(capacity, block, tids, schedule);
    hide Execute;
  }

  /** While it waits its message stays the one of its call. */
  lemma WaitingKeepsMessage(s: State, action: Action, tid: nat)
    requires tid in s.threads && (s.threads[tid].ProducerParked? || s.threads[tid].ProducerAwake?)
    ensures var after := Step(s, action).threads;
            tid in after &&
            (|| after[tid] == ProducerParked(s.threads[tid].message)
             || after[tid] == ProducerAwake(s.threads[tid].message)
             || after[tid] == OwesRecords || after[tid] == Outside(Refused))
  {
    hide ParkedProducers;
  }

  /** `dropped` counts the calls answered so, and the records sinks could not queue; nothing else. */
  lemma DroppedCounts(s: State, action: Action)
    ensures var s' := Step(s, action);
            s'.dropped == s.dropped +
              One(|| (action.Log? && action.tid in s.threads && s.threads[action.tid].Outside?
                      && s'.threads[action.tid] == Outside(Dropped))
                  || (action.SinkLogs? && action.record.Record? && !s.block && !s.core.stopping
                      && (s.core.pump.Delivering? || s.core.pump.Flushing? || s.core.pump.FinalFlush?)
                      && |s.core.queue| >= s.core.capacity))
  {
  }

  /** A flush of a running logger is issued the next ticket, whose marker is queued, and the pump is not asleep. */
  lemma FlushAnswers(s: State, tid: nat)
    requires tid in s.threads && s.threads[tid].Outside? && !s.core.stopping
    ensures var s', ticket := Step(s, Flush(tid)), s.core.requested + 1;
            && s'.threads == s.threads[tid := FlushParked(ticket)] && s'.dropped == s.dropped
            && s'.core.requested == ticket && s'.core.completed == s.core.completed
            && s'.core.queue == s.core.queue + [Marker(ticket)]
            && s'.core.accepted == s.core.accepted + [Marker(ticket)]
            && !s'.core.pump.Parked?
  {
  }

  /** A woken flush returns exactly when its ticket is completed. */
  lemma WokenFlushAnswers(s: State, tid: nat)
    requires tid in s.threads && s.threads[tid].FlushAwake?
    ensures var ticket := s.threads[tid].ticket;
            OnlyMoves(s, Step(s, Advance(tid)), tid,
                      if ticket <= s.core.completed then Outside(Flushed(ticket)) else FlushParked(ticket))
  {
  }

  /** A caller whose record was accepted wakes the pump and returns. */
  lemma AcceptedReturns(s: State, tid: nat)
    requires tid in s.threads && s.threads[tid].OwesRecords?
    ensures var s' := Step(s, Advance(tid));
            && s'.threads == s.threads[tid := Outside(Accepted)] && !s'.core.pump.Parked?
            && s'.core.queue == s.core.queue && s'.core.accepted == s.core.accepted && s'.dropped == s.dropped
  {
  }

  /**
    A shutdown stops the logger, wakes the pump, then every waiting producer, and returns exactly
    when the pump has.
  */
  lemma ShutdownAnswers(s: State, tid: nat)
    requires tid in s.threads
    ensures s.threads[tid].Outside? ==>
              Step(s, Shutdown(tid)) == s.(core := s.core.(stopping := true), threads := s.threads[tid := OwesStopRecords])
    ensures s.threads[tid].OwesStopRecords? ==>
              var s' := Step(s, Advance(tid));
              s'.threads == s.threads[tid := OwesStopSpace] && !s'.core.pump.Parked?
    ensures s.threads[tid].OwesStopSpace? ==>
              var s' := Step(s, Advance(tid));
              && s'.core == s.core && s'.threads.Keys == s.threads.Keys && s'.threads[tid] == Joining
              && forall t :: t in s.threads && s.threads[t].ProducerParked? ==>
                   s'.threads[t] == ProducerAwake(s.threads[t].message)
    ensures s.threads[tid].Joining? ==>
              (Step(s, Advance(tid)).threads[tid] == Outside(Stopped) <==> s.core.pump.Returned?)
  {
  }

  /** A sink that logs while the pump is with it: accepted where there is room, dropped or refused where not. */
  lemma SinkLogAnswers(s: State, record: Item)
    requires record.Record? && (s.core.pump.Delivering? || s.core.pump.Flushing? || s.core.pump.FinalFlush?)
    ensures var s' := Step(s, SinkLogs(record));
            if s.core.stopping then s' == s
            else if |s.core.queue| < s.core.capacity then
              s' == s.(core := s.core.(queue := s.core.queue + [record], accepted := s.core.accepted + [record]))
            else s' == s.(dropped := if s.block then s.dropped else s.dropped + 1)
  {
  }

  // ----- the pump left to itself -----

  /** Of the accepted markers, the pump has completed those it took, but for one it may hold. */
  ghost predicate CompletedInv(c: Core)
    requires QueueInv(c)
  {
    var held := c.pump.Taken? || c.pump.Flushing? || c.pump.Completing?;
    forall m :: 0 <= m < (if held then c.taken - 1 else c.taken) && c.accepted[m].Marker? ==>
      c.accepted[m].ticket <= c.completed
  }

  lemma PumpKeepsCompleted(c: Core)
    requires QueueInv(c) && TicketsInv(c) && QueueInv(PumpMoves(c)) && CompletedInv(c)
    ensures CompletedInv(PumpMoves(c))
  {
  }

  lemma CoreStepKeepsCompleted(c: Core, c': Core)
    requires CoreInv(c) && CoreStep(c, c') && CompletedInv(c)
    ensures CoreInv(c') && CompletedInv(c')
  {
    hide FlushedAfter, Records, Deliveries, BarrierInv, CapacityInv, DeliveredInv, TicketsInv, PumpMoves, Final;
    CoreStepKeepsInv(c, c');
    if c' == PumpMoves(c) {
      PumpKeepsCompleted(c);
    } else if c'.accepted == c.accepted {
      hide QueueInv;
      assert c'.taken == c.taken && c'.completed == c.completed;
    } else {
      assert |c'.accepted| == |c.accepted| + 1;
      assert forall m :: 0 <= m < |c.accepted| ==> c'.accepted[m] == c.accepted[m];
      assert c'.taken == c.taken <= |c.accepted| && c'.completed == c.completed;
    }
  }

  lemma {:induction false} CompletedHolds(capacity: nat, block: bool, tids: set<nat>, schedule: seq<Action>)
    requires capacity > 0
    ensures CoreInv(Execute(Init(capacity, block, tids), schedule).core)
    ensures CompletedInv(Execute(Init(capacity, block, tids), schedule).core)
  {
    hide Step, CoreStep, CoreInv;
    if schedule == [] {
      ReachableInv(capacity, block, tids, []);
    } else {
      var last := |schedule| - 1;
      CompletedHolds(capacity, block, tids, schedule[..last]);
      var s := Execute(Init(capacity, block, tids), schedule[..last]);
      StepMovesCore(s, schedule[last]);
      CoreStepKeepsCompleted(s.core, Step(s, schedule[last]).core);
    }
  }

  function PumpRun(c: Core, n: nat): Core
    decreases n
  {
    if n == 0 then c else PumpRun(PumpMoves(c), n - 1)
  }

  /** An upper bound on the moves until the pump sleeps or returns. */
  function MovesLeft(c: Core): nat {
    5 * |c.queue| +
    match c.pump
    case Looks => 4
    case Parked => 0
    case Taken(_) => 8
    case Delivering(_) => 7
    case Flushing(_) => 7
    case Completing(_) => 6
    case OwesDone => 5
    case FinalFlush => 3
    case FinalComplete => 2
    case FinalOwes => 1
    case Returned => 0
  }

  /** Nothing left to do: all delivered in order, all tickets completed, asleep or, when stopping, returned. */
  ghost predicate Drained(c: Core) {
    && c.queue == [] && Deliveries(c.events) == Records(c.accepted)
    && (forall m :: 0 <= m < |c.accepted| && c.accepted[m].Marker? ==> c.accepted[m].ticket <= c.completed)
    && c.pump == if c.stopping then Returned else Parked
  }

  lemma DrainedAtRest(c: Core)
    requires CoreInv(c) && CompletedInv(c)
    requires c.pump.Returned? || (c.pump.Parked? && !c.stopping && c.queue == [])
    ensures Drained(c)
  {
    hide FlushedAfter, Records, Deliveries;
    assert c.accepted[..|c.accepted|] == c.accepted;
  }

  /** From any state it can be in, unless it sleeps on work, the pump drains by its own moves. */
  lemma {:induction false} PumpDrains(c: Core) returns (n: nat)
    requires CoreInv(c) && CompletedInv(c)
    requires c.pump.Parked? ==> !c.stopping && c.queue == []
    ensures n <= MovesLeft(c)
    ensures Drained(PumpRun(c, n)) && PumpRun(c, n).accepted == c.accepted
    decreases MovesLeft(c)
  {
    hide CoreInv, CompletedInv, Drained, CoreStep;
    if c.pump.Returned? || c.pump.Parked? {
      n := 0;
      DrainedAtRest(c);
    } else {
      var next := PumpMoves(c);
      PumpMovesCore(c);
      CoreStepKeepsCompleted(c, next);
      var m := PumpDrains(next);
      n := m + 1;
    }
  }

  lemma PumpMovesCore(c: Core)
    ensures CoreStep(c, PumpMoves(c))
  {
  }

  /** What the pump does in a step of the whole logger is its own move, where it can choose whom to wake. */
  lemma PumpStepMoves(s: State, target: nat)
    requires target in ParkedProducers(s) || ParkedProducers(s) == {} || !s.core.pump.Taken?
    ensures Step(s, PumpAdvance(target)).core == PumpMoves(s.core)
  {
    hide ParkedProducers;
  }
}
