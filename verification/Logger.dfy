/**
  The logger as a monitor: any number of threads that log, flush and shut down, beside the
  pump.  A step is one critical section, one notification sent after the mutex was released,
  or one wake-up, which may be spurious.
*/
module Logger {
  import opened Counting
  import opened LoggerCore

  datatype Outcome = Nothing | Accepted | Dropped | Refused | Flushed(ticket: nat) | Stopping | Stopped

  datatype Phase =
    | Outside(outcome: Outcome)
    | ProducerParked(message: string)  // in the wait set of space_available_
    | ProducerAwake(message: string)
    | OwesRecords                      // accepted, owes records_available_ a notification
    | FlushParked(ticket: nat)         // in the wait set of flush_done_
    | FlushAwake(ticket: nat)
    | OwesStopRecords                  // shutdown, before its two notifications and the join
    | OwesStopSpace
    | Joining

  /** `block` is the overflow policy: block when true, drop when false. */
  datatype State = State(core: Core, block: bool, dropped: nat, threads: map<nat, Phase>)

  datatype Action =
    | Log(tid: nat, message: string)
    | Flush(tid: nat)
    | Shutdown(tid: nat)
    | Advance(tid: nat)        // an owed notification, a second look, or the end of the join
    | Wake(tid: nat)           // a spurious wake-up
    | PumpAdvance(target: nat) // the pump's next move; its notify_one wakes `target`
    | PumpWake
    | SinkLogs(record: Item)   // a sink logs from inside the pump

  function Init(capacity: nat, block: bool, tids: set<nat>): State {
    State(InitCore(capacity), block, 0, map tid | tid in tids :: Outside(Nothing))
  }

  /** `enqueue` under the mutex, on arrival and after each wake-up. */
  function ProducerLooks(c: Core, block: bool, tid: nat, message: string): (Core, Phase) {
    if c.stopping then (c, Outside(Refused))
    else if |c.queue| >= c.capacity then
      (c, if block then ProducerParked(message) else Outside(Dropped))
    else (Append(c, Record(tid, message)), OwesRecords)
  }

  /** A notification of records_available_; the pump is the only thread that waits there. */
  function WakePump(c: Core): Core {
    if c.pump.Parked? then c.(pump := Looks) else c
  }

  /** `flush` under the mutex; the pump is notified before the mutex is released. */
  function FlushLooks(c: Core): (Core, Phase) {
    if c.stopping then (c, Outside(Stopping))
    else (WakePump(AppendMarker(c)), FlushParked(c.requested + 1))
  }

  function FlushLooksAgain(c: Core, ticket: nat): Phase {
    if c.completed >= ticket then Outside(Flushed(ticket)) else FlushParked(ticket)
  }

  function Put(s: State, tid: nat, core: Core, phase: Phase): State {
    s.(core := core, threads := s.threads[tid := phase])
  }

  function WakeProducers(threads: map<nat, Phase>): map<nat, Phase> {
    map t | t in threads ::
      if threads[t].ProducerParked? then ProducerAwake(threads[t].message) else threads[t]
  }

  function WakeFlushers(threads: map<nat, Phase>): map<nat, Phase> {
    map t | t in threads ::
      if threads[t].FlushParked? then FlushAwake(threads[t].ticket) else threads[t]
  }

  function ParkedProducers(s: State): set<nat> { set t | t in s.threads && s.threads[t].ProducerParked? }
  function AwakeProducers(s: State): set<nat> { set t | t in s.threads && s.threads[t].ProducerAwake? }

  /** The pump moves; after taking an item it wakes one producer, after completing all flushers. */
  function PumpStep(s: State, target: nat): State {
    var core := PumpMoves(s.core);
    if s.core.pump.Taken? then
      if target in ParkedProducers(s) then
        s.(core := core, threads := s.threads[target := ProducerAwake(s.threads[target].message)])
      else if ParkedProducers(s) == {} then s.(core := core)
      else s
    else if s.core.pump.OwesDone? || s.core.pump.FinalOwes? then
      s.(core := core, threads := WakeFlushers(s.threads))
    else s.(core := core)
  }

  /** A sink that logs runs in the pump's own thread: it must not wait, and wakes nobody. */
  function SinkStep(s: State, record: Item): State {
    var c := s.core;
    if !(c.pump.Delivering? || c.pump.Flushing? || c.pump.FinalFlush?) || !record.Record? || c.stopping then s
    else if |c.queue| < c.capacity then s.(core := Append(c, record))
    else if s.block then s
    else s.(dropped := s.dropped + 1)
  }

  function ThreadStep(s: State, action: Action): State
    requires action.Log? || action.Flush? || action.Shutdown? || action.Advance? || action.Wake?
    requires action.tid in s.threads
  {
    var tid, phase, c := action.tid, s.threads[action.tid], s.core;
    match action
    case Log(_, message) =>
      if !phase.Outside? then s
      else
        var looked := ProducerLooks(c, s.block, tid, message);
        Put(s, tid, looked.0, looked.1)
          .(dropped := s.dropped + if looked.1 == Outside(Dropped) then 1 else 0)
    case Flush(_) =>
      if !phase.Outside? then s else Put(s, tid, FlushLooks(c).0, FlushLooks(c).1)
    case Shutdown(_) =>
      if !phase.Outside? then s else Put(s, tid, c.(stopping := true), OwesStopRecords)
    case Wake(_) =>
      if phase.ProducerParked? then Put(s, tid, c, ProducerAwake(phase.message))
      else if phase.FlushParked? then Put(s, tid, c, FlushAwake(phase.ticket))
      else s
    case Advance(_) =>
      match phase
      case ProducerAwake(message) =>
        var looked := ProducerLooks(c, true, tid, message);
        Put(s, tid, looked.0, looked.1)
      case OwesRecords => Put(s, tid, WakePump(c), Outside(Accepted))
      case FlushAwake(ticket) => Put(s, tid, c, FlushLooksAgain(c, ticket))
      case OwesStopRecords => Put(s, tid, WakePump(c), OwesStopSpace)
      case OwesStopSpace => s.(threads := WakeProducers(s.threads)[tid := Joining])
      case Joining => if c.pump.Returned? then Put(s, tid, c, Outside(Stopped)) else s
      case _ => s
  }

  /** One step; an action that does not apply changes nothing. */
  function Step(s: State, action: Action): State {
    match action
    case PumpAdvance(target) => PumpStep(s, target)
    case PumpWake => s.(core := WakePump(s.core))
    case SinkLogs(record) => SinkStep(s, record)
    case _ => if action.tid in s.threads then ThreadStep(s, action) else s
  }

  function Execute(s: State, schedule: seq<Action>): State {
    if schedule == [] then s
    else Step(Execute(s, schedule[..|schedule| - 1]), schedule[|schedule| - 1])
  }

  // ----- the core through a step -----

  /** What a step can do to the queue and the pump. */
  ghost predicate CoreStep(c: Core, c': Core) {
    || c' == c
    || c' == WakePump(c)
    || c' == PumpMoves(c)
    || c' == c.(stopping := true)
    || (!c.stopping && c' == WakePump(AppendMarker(c)))
    || (!c.stopping && |c.queue| < c.capacity && exists item: Item :: item.Record? && c' == Append(c, item))
  }

  lemma StepMovesCore(s: State, action: Action)
    ensures CoreStep(s.core, Step(s, action).core)
    ensures Step(s, action).core.capacity == s.core.capacity
  {
    match action
    case Log(tid, message) => assert Record(tid, message).Record?;
    case Advance(tid) =>
      if tid in s.threads && s.threads[tid].ProducerAwake? { assert Record(tid, s.threads[tid].message).Record?; }
    case SinkLogs(record) => assert record.Record? ==> record.Record?;
    case _ =>
  }

  lemma CoreStepKeepsInv(c: Core, c': Core)
    requires CoreInv(c) && CoreStep(c, c')
    ensures CoreInv(c')
  {
    hide FlushedAfter, Records, Deliveries;
    if c' == PumpMoves(c) { PumpKeepsInv(c); }
    else if c' == WakePump(c) || c' == c.(stopping := true) { }
    else if !c.stopping && c' == WakePump(AppendMarker(c)) { MarkerKeepsInv(c); }
    else {
      var item: Item :| item.Record? && c' == Append(c, item);
      RecordKeepsInv(c, item);
    }
  }

  // ----- no wake-up is lost -----

  ghost predicate Anyone(s: State, p: Phase -> bool) {
    exists t :: t in s.threads && p(s.threads[t])
  }

  /**
    No producer sleeps on a free slot: if one is parked, the free slots do not exceed the
    notification the pump still owes plus the producers already awake; once stopping, the
    notification that releases them all is still to come.
  */
  ghost predicate SpaceInv(s: State) {
    ParkedProducers(s) != {} ==>
      if s.core.stopping then Anyone(s, (p: Phase) => p.OwesStopRecords? || p.OwesStopSpace?)
      else s.core.capacity - |s.core.queue| <= One(s.core.pump.Taken?) + |AwakeProducers(s)|
  }

  /** The pump does not sleep on work: a notification is on its way. */
  ghost predicate PumpInv(s: State) {
    s.core.pump.Parked? && (s.core.stopping || s.core.queue != []) ==>
      Anyone(s, (p: Phase) => p.OwesRecords? || p.OwesStopRecords?)
  }

  /** A flush that sleeps on a completed ticket is about to be notified by the pump. */
  ghost predicate DoneInv(s: State) {
    forall t :: t in s.threads ==>
      match s.threads[t]
      case FlushParked(ticket) =>
        && ticket <= s.core.requested
        && (s.core.completed >= ticket ==> s.core.pump.OwesDone? || s.core.pump.FinalOwes?)
      case FlushAwake(ticket) => ticket <= s.core.requested
      case Outside(outcome) => outcome.Flushed? ==> outcome.ticket <= s.core.completed
      case _ => true
  }

  ghost predicate WakeupInv(s: State) {
    SpaceInv(s) && PumpInv(s) && DoneInv(s)
  }

  lemma AnyoneStill(s: State, s': State, p: Phase -> bool, tid: nat)
    requires Anyone(s, p)
    requires forall t :: t in s.threads && t != tid ==> t in s'.threads && (p(s.threads[t]) ==> p(s'.threads[t]))
    requires tid in s.threads && p(s.threads[tid]) ==> tid in s'.threads && p(s'.threads[tid])
    ensures Anyone(s', p)
  {
    var t :| t in s.threads && p(s.threads[t]);
    assert t in s'.threads && p(s'.threads[t]);
  }

  lemma AnyoneIs(s: State, p: Phase -> bool, tid: nat)
    requires tid in s.threads && p(s.threads[tid])
    ensures Anyone(s, p)
  {
  }

  lemma AwakeCount(s: State, s': State, tid: nat)
    requires tid in s.threads && s'.threads.Keys == s.threads.Keys
    requires forall t :: t in s.threads && t != tid ==> s'.threads[t] == s.threads[t]
    ensures |AwakeProducers(s')| ==
            |AwakeProducers(s)| - One(s.threads[tid].ProducerAwake?) + One(s'.threads[tid].ProducerAwake?)
  {
    var a, b := AwakeProducers(s), AwakeProducers(s');
    var awake := s'.threads[tid].ProducerAwake?;
    assert b == if awake then a + {tid} else a - {tid};
    CountAfter(a, b, tid, awake);
  }

  /** Only one thread moved. */
  lemma OtherThreads(s: State, s': State, tid: nat)
    requires tid in s.threads && s'.threads.Keys == s.threads.Keys
    requires forall t :: t in s.threads && t != tid ==> s'.threads[t] == s.threads[t]
    ensures |AwakeProducers(s')| ==
            |AwakeProducers(s)| - One(s.threads[tid].ProducerAwake?) + One(s'.threads[tid].ProducerAwake?)
    ensures ParkedProducers(s') != {} ==> ParkedProducers(s) != {} || s'.threads[tid].ProducerParked?
  {
    AwakeCount(s, s', tid);
    assert ParkedProducers(s') <= ParkedProducers(s) + {tid};
  }

  lemma ThreadKeepsSpace(s: State, action: Action)
    requires action.Log? || action.Flush? || action.Shutdown? || action.Advance? || action.Wake?
    requires action.tid in s.threads && SpaceInv(s)
    ensures SpaceInv(ThreadStep(s, action))
  {
    var s' := ThreadStep(s, action);
    if action.Advance? && s.threads[action.tid].OwesStopSpace? {
      assert ParkedProducers(s') == {};
    } else if s'.core.stopping {
      StoppingKeepsSpace(s, action);
    } else {
      OpenKeepsSpace(s, action);
    }
  }

  lemma StoppingKeepsSpace(s: State, action: Action)
    requires action.Log? || action.Flush? || action.Shutdown? || action.Advance? || action.Wake?
    requires action.tid in s.threads && SpaceInv(s) && ThreadStep(s, action).core.stopping
    requires !(action.Advance? && s.threads[action.tid].OwesStopSpace?)
    ensures SpaceInv(ThreadStep(s, action))
  {
    hide AwakeProducers, ParkedProducers;
    var tid, s' := action.tid, ThreadStep(s, action);
    assert forall t :: t in s.threads && t != tid ==> s'.threads[t] == s.threads[t];
    OtherThreads(s, s', tid);
    var p := (p: Phase) => p.OwesStopRecords? || p.OwesStopSpace?;
    if p(s'.threads[tid]) {
      AnyoneIs(s', p, tid);
    } else if ParkedProducers(s') != {} {
      AnyoneStill(s, s', p, tid);
    }
  }

  lemma OpenKeepsSpace(s: State, action: Action)
    requires action.Log? || action.Flush? || action.Shutdown? || action.Advance? || action.Wake?
    requires action.tid in s.threads && SpaceInv(s) && !ThreadStep(s, action).core.stopping
    requires !(action.Advance? && s.threads[action.tid].OwesStopSpace?)
    ensures SpaceInv(ThreadStep(s, action))
  {
    hide AwakeProducers, ParkedProducers;
    var tid, s' := action.tid, ThreadStep(s, action);
    assert forall t :: t in s.threads && t != tid ==> s'.threads[t] == s.threads[t];
    OtherThreads(s, s', tid);
  }

  lemma PumpKeepsSpace(s: State, target: nat)
    requires SpaceInv(s) && QueueInv(s.core)
    ensures SpaceInv(PumpStep(s, target))
  {
    var s' := PumpStep(s, target);
    if s.core.pump.Taken? && target in ParkedProducers(s) {
      AwakeCount(s, s', target);
      assert ParkedProducers(s') == ParkedProducers(s) - {target};
    } else {
      assert AwakeProducers(s') == AwakeProducers(s) && ParkedProducers(s') == ParkedProducers(s);
    }
    hide AwakeProducers, ParkedProducers;
    if s.core.stopping && ParkedProducers(s) != {} {
      AnyoneStill(s, s', (p: Phase) => p.OwesStopRecords? || p.OwesStopSpace?, target);
    }
  }

  lemma ThreadKeepsPump(s: State, action: Action)
    requires action.Log? || action.Flush? || action.Shutdown? || action.Advance? || action.Wake?
    requires action.tid in s.threads && PumpInv(s)
    ensures PumpInv(ThreadStep(s, action))
  {
    var tid, s' := action.tid, ThreadStep(s, action);
    var p := (p: Phase) => p.OwesRecords? || p.OwesStopRecords?;
    if s'.core.pump.Parked? {
      if p(s'.threads[tid]) { AnyoneIs(s', p, tid); }
      else if s'.core.stopping || s'.core.queue != [] { AnyoneStill(s, s', p, tid); }
    }
  }

  lemma PumpKeepsPump(s: State, target: nat)
    requires PumpInv(s) && QueueInv(s.core)
    ensures PumpInv(PumpStep(s, target))
  {
    var s' := PumpStep(s, target);
    var p := (p: Phase) => p.OwesRecords? || p.OwesStopRecords?;
    if s'.core.pump.Parked? && (s'.core.stopping || s'.core.queue != []) { AnyoneStill(s, s', p, target); }
  }

  lemma ThreadKeepsDone(s: State, action: Action)
    requires action.Log? || action.Flush? || action.Shutdown? || action.Advance? || action.Wake?
    requires action.tid in s.threads && DoneInv(s) && TicketsInv(s.core)
    ensures DoneInv(ThreadStep(s, action))
  {
  }

  lemma PumpKeepsDone(s: State, target: nat)
    requires DoneInv(s) && CoreInv(s.core)
    ensures DoneInv(PumpStep(s, target))
  {
    hide FlushedAfter, Records, Deliveries;
  }

  lemma StepKeepsWakeups(s: State, action: Action)
    requires CoreInv(s.core) && WakeupInv(s)
    ensures WakeupInv(Step(s, action))
  {
    match action
    case PumpAdvance(target) =>
      PumpKeepsSpace(s, target);
      PumpKeepsPump(s, target);
      PumpKeepsDone(s, target);
    case PumpWake =>
      SameThreadsKeepWakeups(s, Step(s, action));
    case SinkLogs(_) =>
      SameThreadsKeepWakeups(s, Step(s, action));
    case _ =>
      if action.tid in s.threads {
        ThreadKeepsSpace(s, action);
        ThreadKeepsPump(s, action);
        ThreadKeepsDone(s, action);
      }
  }

  /** A step that moves no thread: the pump wakes, or a sink logs from the pump's own thread. */
  lemma SameThreadsKeepWakeups(s: State, s': State)
    requires WakeupInv(s) && s'.threads == s.threads
    requires || s'.core == s.core || s'.core == WakePump(s.core)
             || (s'.core == s.core.(queue := s'.core.queue, accepted := s'.core.accepted)
                 && |s'.core.queue| >= |s.core.queue| && !s.core.pump.Parked?)
    ensures WakeupInv(s')
  {
    assert AwakeProducers(s') == AwakeProducers(s) && ParkedProducers(s') == ParkedProducers(s);
    hide AwakeProducers, ParkedProducers;
    var p := (p: Phase) => p.OwesStopRecords? || p.OwesStopSpace?;
    assert Anyone(s, p) ==> Anyone(s', p);
  }

  ghost predicate Inv(s: State) {
    CoreInv(s.core) && WakeupInv(s) && s.core.capacity > 0
  }

  lemma StepKeepsInv(s: State, action: Action)
    requires Inv(s)
    ensures Inv(Step(s, action))
  {
    hide Step, CoreInv, WakeupInv, CoreStep;
    StepMovesCore(s, action);
    CoreStepKeepsInv(s.core, Step(s, action).core);
    StepKeepsWakeups(s, action);
  }

  lemma {:induction false} ExecuteKeepsInv(s: State, schedule: seq<Action>)
    requires Inv(s)
    ensures Inv(Execute(s, schedule))
  {
    if schedule != [] {
      var last := |schedule| - 1;
      ExecuteKeepsInv(s, schedule[..last]);
      StepKeepsInv(Execute(s, schedule[..last]), schedule[last]);
    }
  }

  lemma ReachableInv(capacity: nat, block: bool, tids: set<nat>, schedule: seq<Action>)
    requires capacity > 0
    ensures Inv(Execute(Init(capacity, block, tids), schedule))
  {
    InitCoreInv(capacity);
    ExecuteKeepsInv(Init(capacity, block, tids), schedule);
  }

  // ----- what only grows -----

  ghost predicate Grows(s: State, s': State) {
    && s.core.accepted <= s'.core.accepted
    && s.core.events <= s'.core.events
    && s.core.requested <= s'.core.requested
    && (s.core.stopping ==> s'.core.stopping && s'.core.accepted == s.core.accepted)
  }

  lemma StepGrows(s: State, action: Action)
    ensures Grows(s, Step(s, action))
  {
    StepMovesCore(s, action);
    hide Step;
  }

  lemma {:induction false} ExecuteGrows(s: State, schedule: seq<Action>)
    ensures Grows(s, Execute(s, schedule))
  {
    if schedule != [] {
      var last := |schedule| - 1;
      ExecuteGrows(s, schedule[..last]);
      StepGrows(Execute(s, schedule[..last]), schedule[last]);
    }
  }

  // ----- the promises -----

  lemma TakenInState(c: Core)
    requires QueueInv(c) && DeliveredInv(c)
    ensures c.taken <= |c.accepted| && c.accepted == c.accepted[..c.taken] + c.queue
    ensures c.taken - 1 <= Settled(c) <= c.taken && 0 <= Settled(c)
    ensures Deliveries(c.events) == Records(c.accepted[..Settled(c)])
  {
    hide Records, Deliveries;
  }

  /** What the pump took, then what is queued, is what was accepted; the records taken are delivered in order. */
  lemma NothingLostOrReordered(capacity: nat, block: bool, tids: set<nat>, schedule: seq<Action>)
    requires capacity > 0
    ensures var c := Execute(Init(capacity, block, tids), schedule).core;
            && c.taken <= |c.accepted| && c.accepted == c.accepted[..c.taken] + c.queue
            && c.taken - 1 <= Settled(c) <= c.taken
            && 0 <= Settled(c) && Deliveries(c.events) == Records(c.accepted[..Settled(c)])
  {
    ReachableInv(capacity, block, tids, schedule);
    hide Execute;
    TakenInState(Execute(Init(capacity, block, tids), schedule).core);
  }

  /** However many markers bypass the bound, the queue never holds more records than its capacity. */
  lemma CapacityHolds(capacity: nat, block: bool, tids: set<nat>, schedule: seq<Action>)
    requires capacity > 0
    ensures |Records(Execute(Init(capacity, block, tids), schedule).core.queue)| <= capacity
  {
    ReachableInv(capacity, block, tids, schedule);
    CapacityStays(Init(capacity, block, tids), schedule);
  }

  lemma {:induction false} CapacityStays(s: State, schedule: seq<Action>)
    ensures Execute(s, schedule).core.capacity == s.core.capacity
  {
    if schedule != [] {
      CapacityStays(s, schedule[..|schedule| - 1]);
      StepMovesCore(Execute(s, schedule[..|schedule| - 1]), schedule[|schedule| - 1]);
    }
  }

  /**
    The flush barrier.  `tid` calls flush after the schedule `before`, when the logger is not
    stopping, and is issued a ticket; whenever that call has returned, however the others moved
    in between, every record accepted before the call has been delivered, in order, and the
    sinks were flushed after that.
  */
  lemma FlushIsABarrier(
    capacity: nat, block: bool, tids: set<nat>, before: seq<Action>, tid: nat, after: seq<Action>)
    requires capacity > 0
    requires var s := Execute(Init(capacity, block, tids), before);
             && tid in s.threads && s.threads[tid].Outside? && !s.core.stopping
             && var t := Execute(Step(s, Flush(tid)), after);
                tid in t.threads && t.threads[tid] == Outside(Flushed(s.core.requested + 1))
    ensures var s := Execute(Init(capacity, block, tids), before);
            FlushedAfter(Records(s.core.accepted), Execute(Step(s, Flush(tid)), after).core.events)
  {
    hide Execute, Step, Inv, FlushedAfter, Grows;
    ReachableInv(capacity, block, tids, before);
    var s := Execute(Init(capacity, block, tids), before);
    var called := Step(s, Flush(tid));
    StepKeepsInv(s, Flush(tid));
    ExecuteKeepsInv(called, after);
    ExecuteGrows(called, after);
    BarrierInState(s, called, Execute(called, after), tid);
  }

  lemma BarrierInState(s: State, called: State, t: State, tid: nat)
    requires tid in s.threads && s.threads[tid].Outside? && !s.core.stopping && called == Step(s, Flush(tid))
    requires Grows(called, t) && Inv(t)
    requires tid in t.threads && t.threads[tid] == Outside(Flushed(s.core.requested + 1))
    ensures FlushedAfter(Records(s.core.accepted), t.core.events)
  {
    hide FlushedAfter, Records;
    var m := |s.core.accepted|;
    assert called.core.accepted == s.core.accepted + [Marker(s.core.requested + 1)];
    assert t.core.accepted[m] == called.core.accepted[m];
    assert t.core.accepted[..m] == s.core.accepted;
  }

  /** Once the pump has returned: all accepted records delivered and flushed, no ticket open, nobody waiting. */
  lemma ReturnedPumpLeavesNothing(capacity: nat, block: bool, tids: set<nat>, schedule: seq<Action>)
    requires capacity > 0 && Execute(Init(capacity, block, tids), schedule).core.pump.Returned?
    ensures var s := Execute(Init(capacity, block, tids), schedule);
            && s.core.queue == [] && Deliveries(s.core.events) == Records(s.core.accepted)
            && FlushedAfter(Records(s.core.accepted), s.core.events)
            && s.core.completed == s.core.requested
            && (forall t :: t in s.threads ==> !s.threads[t].FlushParked?)
  {
    ReachableInv(capacity, block, tids, schedule);
    var s := Execute(Init(capacity, block, tids), schedule);
    hide Execute, FlushedAfter, Records, Deliveries;
    assert s.core.accepted[..|s.core.accepted|] == s.core.accepted;
  }

  /** From then on nothing is accepted any more. */
  lemma NothingAcceptedWhileStopping(s: State, schedule: seq<Action>)
    requires s.core.stopping
    ensures Execute(s, schedule).core.accepted == s.core.accepted
  {
    ExecuteGrows(s, schedule);
  }

  /** Producers, pump and flushers: none sleeps while what it waits for is there and no wake-up is coming. */
  lemma NoWakeupIsEverLost(capacity: nat, block: bool, tids: set<nat>, schedule: seq<Action>)
    requires capacity > 0
    ensures WakeupInv(Execute(Init(capacity, block, tids), schedule))
  {
    ReachableInv(capacity, block, tids, schedule);
  }

  // ----- flush during shutdown -----

  /** Every accepted record has been delivered, and the last thing the sinks saw was a flush. */
  ghost predicate FinallyFlushed(c: Core) {
    && Deliveries(c.events) == Records(c.accepted)
    && c.events != [] && c.events[|c.events| - 1] == SinksFlushed
  }

  lemma {:induction false} DeliveriesPrefix(events: seq<Event>, e: nat)
    requires e <= |events|
    ensures Deliveries(events[..e]) <= Deliveries(events)
    ensures e < |events| && Deliveries(events[..e]) == Deliveries(events) ==> !events[|events| - 1].Delivered?
  {
    if e == |events| {
      assert events[..e] == events;
    } else {
      var last := |events| - 1;
      DeliveriesPrefix(events[..last], e);
      assert events[..last][..e] == events[..e];
    }
  }

  /** A later flush follows the delivery of everything accepted exactly when it was the last thing seen. */
  lemma FlushedIffFinally(c: Core)
    requires QueueInv(c) && DeliveredInv(c)
    ensures FlushedAfter(Records(c.accepted), c.events) <==> FinallyFlushed(c)
  {
    hide Records, Deliveries;
    assert c.accepted[..|c.accepted|] == c.accepted;
    RecordsPrefix(c.accepted, Settled(c), |c.accepted|);
    if FinallyFlushed(c) {
      var e: nat := |c.events| - 1;
      LastIsNoDelivery(c.events);
      assert FlushedAt(Records(c.accepted), c.events, e);
    }
    if FlushedAfter(Records(c.accepted), c.events) {
      var e: nat :| FlushedAt(Records(c.accepted), c.events, e);
      DeliveriesPrefix(c.events, e);
    }
  }

  lemma LastIsNoDelivery(events: seq<Event>)
    requires events != [] && events[|events| - 1] == SinksFlushed
    ensures Deliveries(events[..|events| - 1]) == Deliveries(events)
  {
  }

  /**
    A flush that finds the logger stopping is issued no ticket and returns at once.  It is a
    barrier exactly when shutdown's delivery is complete and the sinks were flushed since.
  */
  lemma StoppingFlushIsABarrierIff(s: State, tid: nat)
    requires Inv(s) && s.core.stopping && tid in s.threads && s.threads[tid].Outside?
    ensures var t := Step(s, Flush(tid));
            && t.threads[tid] == Outside(Stopping) && t.core == s.core
            && (FlushedAfter(Records(t.core.accepted), t.core.events) <==> FinallyFlushed(s.core))
  {
    hide FinallyFlushed, FlushedAfter, Records, Deliveries;
    FlushedIffFinally(s.core);
  }

  /** In particular it is one from the pump's last flush on. */
  lemma StoppingFlushIsABarrierAtTheEnd(s: State, tid: nat)
    requires Inv(s) && tid in s.threads && s.threads[tid].Outside?
    requires s.core.pump.FinalComplete? || s.core.pump.FinalOwes? || s.core.pump.Returned?
    ensures var t := Step(s, Flush(tid));
            && t.threads[tid] == Outside(Stopping)
            && FlushedAfter(Records(t.core.accepted), t.core.events) && FinallyFlushed(t.core)
  {
    hide FinallyFlushed, FlushedAfter, Records, Deliveries;
    FlushedIffFinally(s.core);
  }

  /** A shutdown that has returned has joined the pump. */
  ghost predicate JoinedInv(s: State) {
    forall t :: t in s.threads && s.threads[t] == Outside(Stopped) ==> s.core.pump.Returned?
  }

  lemma StepKeepsJoined(s: State, action: Action)
    requires JoinedInv(s)
    ensures JoinedInv(Step(s, action))
  {
    hide ParkedProducers;
  }

  lemma {:induction false} ExecuteKeepsJoined(s: State, schedule: seq<Action>)
    requires JoinedInv(s)
    ensures JoinedInv(Execute(s, schedule))
  {
    hide Step, JoinedInv;
    if schedule != [] {
      var last := |schedule| - 1;
      ExecuteKeepsJoined(s, schedule[..last]);
      StepKeepsJoined(Execute(s, schedule[..last]), schedule[last]);
    }
  }

  /**
    What a caller can rely on.  Beside a flush that found the logger running, one that is called
    after some shutdown has returned is a barrier, in every run.
  */
  lemma FlushAfterShutdownIsABarrier(
    capacity: nat, block: bool, tids: set<nat>, schedule: seq<Action>, stopper: nat, tid: nat)
    requires capacity > 0
    requires var s := Execute(Init(capacity, block, tids), schedule);
             && stopper in s.threads && s.threads[stopper] == Outside(Stopped)
             && tid in s.threads && s.threads[tid].Outside?
    ensures var t := Step(Execute(Init(capacity, block, tids), schedule), Flush(tid));
            && t.threads[tid] == Outside(Stopping)
            && FlushedAfter(Records(t.core.accepted), t.core.events)
  {
    ReachableInv(capacity, block, tids, schedule);
    ExecuteKeepsJoined(Init(capacity, block, tids), schedule);
    var s := Execute(Init(capacity, block, tids), schedule);
    hide Execute, Inv, Step;
    StoppingFlushIsABarrierAtTheEnd(s, tid);
  }

  /** Thread 2 finds the logger stopping and calls flush, which returns and is no barrier. */
  ghost predicate FlushFails(s: State) {
    && s.core.stopping && 2 in s.threads && s.threads[2].Outside?
    && var t := Step(s, Flush(2));
       && t.threads[2] == Outside(Stopping)
       && !FlushedAfter(Records(t.core.accepted), t.core.events)
  }

  lemma FlushFailsIfUnflushed(s: State)
    requires Inv(s) && s.core.stopping && 2 in s.threads && s.threads[2].Outside? && !FinallyFlushed(s.core)
    ensures FlushFails(s)
  {
    hide Inv, FinallyFlushed, FlushedAfter, Step;
    StoppingFlushIsABarrierIff(s, 2);
  }

  /** One thread logs, one shuts down, and then the pump makes `moves` moves. */
  function LogThenShutdown(moves: nat): seq<Action> {
    if moves == 0 then [Log(0, "a"), Shutdown(1)] else LogThenShutdown(moves - 1) + [PumpAdvance(0)]
  }

  /** The state after that: the record queued, taken, on its way to the sinks, and delivered. */
  function Draining(capacity: nat, block: bool, moves: nat): State
    requires moves <= 3
  {
    var record := Record(0, "a");
    var c := InitCore(capacity).(accepted := [record], stopping := true);
    var threads := map[0 := OwesRecords, 1 := OwesStopRecords, 2 := Outside(Nothing)];
    State(if moves == 0 then c.(queue := [record])
          else if moves == 1 then c.(pump := Taken(record), taken := 1)
          else if moves == 2 then c.(pump := Delivering(record), taken := 1)
          else c.(taken := 1, events := [Delivered(record)]),
          block, 0, threads)
  }

  lemma ExecuteNone(s: State)
    ensures Execute(s, []) == s
  {
    hide Step;
  }

  lemma ExecuteAppends(s: State, schedule: seq<Action>, action: Action)
    ensures Execute(s, schedule + [action]) == Step(Execute(s, schedule), action)
  {
    hide Step;
    assert (schedule + [action])[..|schedule|] == schedule;
  }

  lemma DrainingSteps(capacity: nat, block: bool)
    requires capacity > 0
    ensures Step(Step(Init(capacity, block, {0, 1, 2}), Log(0, "a")), Shutdown(1)) == Draining(capacity, block, 0)
  {
    var s0 := Init(capacity, block, {0, 1, 2});
    var s1 := Put(s0, 0, Append(s0.core, Record(0, "a")), OwesRecords);
    assert Step(s0, Log(0, "a")) == s1;
    assert s1.core.queue == [Record(0, "a")] == s1.core.accepted;
    assert Step(s1, Shutdown(1)) == Put(s1, 1, s1.core.(stopping := true), OwesStopRecords);
  }

  lemma DrainingMoves(capacity: nat, block: bool, moves: nat)
    requires moves < 3
    ensures Step(Draining(capacity, block, moves), PumpAdvance(0)) == Draining(capacity, block, moves + 1)
  {
    var s := Draining(capacity, block, moves);
    assert ParkedProducers(s) == {};
    assert moves == 2 ==> s.core.events + [Delivered(Record(0, "a"))] == [Delivered(Record(0, "a"))];
    assert moves == 0 ==> s.core.queue[1..] == [];
  }

  lemma {:induction false} DrainingIsReached(capacity: nat, block: bool, moves: nat)
    requires capacity > 0 && moves <= 3
    ensures Execute(Init(capacity, block, {0, 1, 2}), LogThenShutdown(moves)) == Draining(capacity, block, moves)
  {
    hide Step, Execute, Draining, Init;
    var s0 := Init(capacity, block, {0, 1, 2});
    if moves == 0 {
      ExecuteNone(s0);
      ExecuteAppends(s0, [], Log(0, "a"));
      ExecuteAppends(s0, [] + [Log(0, "a")], Shutdown(1));
      assert [] + [Log(0, "a")] + [Shutdown(1)] == [Log(0, "a"), Shutdown(1)];
      DrainingSteps(capacity, block);
    } else {
      DrainingIsReached(capacity, block, moves - 1);
      ExecuteAppends(s0, LogThenShutdown(moves - 1), PumpAdvance(0));
      DrainingMoves(capacity, block, moves - 1);
    }
  }

  lemma OneRecord(record: Item)
    requires record.Record?
    ensures Records([record]) == [record] && Deliveries([Delivered(record)]) == [record] && Deliveries([]) == []
  {
    RecordsAppend([], record);
    DeliveriesAppend([], Delivered(record));
    assert [] + [record] == [record] && [] + [Delivered(record)] == [Delivered(record)];
  }

  /** To know that stopping has begun is not enough: a record can be undelivered yet. */
  lemma FlushCanReturnBeforeTheDrain(capacity: nat, block: bool)
    requires capacity > 0
    ensures exists schedule ::
              var s := Execute(Init(capacity, block, {0, 1, 2}), schedule);
              FlushFails(s) && Deliveries(s.core.events) != Records(s.core.accepted)
  {
    var schedule := LogThenShutdown(0);
    ReachableInv(capacity, block, {0, 1, 2}, schedule);
    DrainingIsReached(capacity, block, 0);
    OneRecord(Record(0, "a"));
    hide Execute, Inv, LogThenShutdown, FlushFails, Records, Deliveries;
    FlushFailsIfUnflushed(Execute(Init(capacity, block, {0, 1, 2}), schedule));
  }

  /** Nor is it enough that every record is delivered: the sinks can be unflushed yet. */
  lemma FlushCanReturnBeforeTheLastFlush(capacity: nat, block: bool)
    requires capacity > 0
    ensures exists schedule ::
              var s := Execute(Init(capacity, block, {0, 1, 2}), schedule);
              FlushFails(s) && Deliveries(s.core.events) == Records(s.core.accepted) != []
  {
    var schedule := LogThenShutdown(3);
    ReachableInv(capacity, block, {0, 1, 2}, schedule);
    DrainingIsReached(capacity, block, 3);
    OneRecord(Record(0, "a"));
    hide Execute, Inv, LogThenShutdown, FlushFails, Records, Deliveries;
    FlushFailsIfUnflushed(Execute(Init(capacity, block, {0, 1, 2}), schedule));
  }
}
