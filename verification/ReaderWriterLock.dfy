/**
  The writer-preferring reader/writer lock as a monitor.  A step is one critical section
  under the mutex, one wake-up of a parked thread, or one notification sent after the mutex
  was released; any number of threads take steps in any order.  Time is a wake-up that can
  come at any moment, and so is a spurious one.
*/
module ReaderWriterLock {
  import opened Counting

  datatype Fields = Fields(activeReaders: nat, waitingWriters: nat, writerActive: bool)

  /** Where a thread is between two of its critical sections. */
  datatype Phase =
    | Outside
    | WriterParked(timed: bool)  // in the wait set of writer_turn_
    | WriterAwake(timed: bool)   // woken, has not looked at the fields again yet
    | Writing
    | ReaderParked(timed: bool)  // in the wait set of readers_allowed_
    | ReaderAwake(timed: bool)
    | Reading
    | OwesWriter                 // released the mutex, has still to call writer_turn_.notify_one
    | OwesReaders                // released the mutex, has still to call readers_allowed_.notify_all

  datatype State = State(fields: Fields, threads: map<nat, Phase>)

  datatype Action =
    | Lock(tid: nat, timed: bool)
    | TryLock(tid: nat)
    | Unlock(tid: nat)
    | LockShared(tid: nat, timed: bool)
    | TryLockShared(tid: nat)
    | UnlockShared(tid: nat)
    | Wake(tid: nat)                       // a spurious wake-up or an elapsed timeout
    | Resume(tid: nat, timedOut: bool)     // an awake thread takes the mutex and looks again
    | Notify(tid: nat, target: nat)        // the notification that is owed; notify_one wakes `target`

  // ----- the critical sections -----

  predicate WriterMayEnter(f: Fields) {
    !f.writerActive && f.activeReaders == 0
  }

  predicate ReaderMayEnter(f: Fields) {
    !f.writerActive && f.waitingWriters == 0
  }

  /** A writer enters or parks; it counts as waiting while it is parked. */
  function WriterArrives(f: Fields, timed: bool): (Fields, Phase) {
    if WriterMayEnter(f) then (f.(writerActive := true), Writing)
    else (f.(waitingWriters := f.waitingWriters + 1), WriterParked(timed))
  }

  /** A woken writer enters, parks again, or, out of time, gives up. */
  function WriterLooksAgain(f: Fields, timed: bool, timedOut: bool): (Fields, Phase)
    requires f.waitingWriters > 0
  {
    var without := f.(waitingWriters := f.waitingWriters - 1);
    if WriterMayEnter(f) then (without.(writerActive := true), Writing)
    else if timed && timedOut then
      (without, if ReaderMayEnter(without) then OwesReaders else Outside)
    else (f, WriterParked(timed))
  }

  function WriterTries(f: Fields): (Fields, Phase) {
    if WriterMayEnter(f) then (f.(writerActive := true), Writing) else (f, Outside)
  }

  function WriterLeaves(f: Fields): (Fields, Phase) {
    (f.(writerActive := false), if f.waitingWriters > 0 then OwesWriter else OwesReaders)
  }

  function ReaderLooks(f: Fields, timed: bool, timedOut: bool): (Fields, Phase) {
    if ReaderMayEnter(f) then (f.(activeReaders := f.activeReaders + 1), Reading)
    else if timed && timedOut then (f, Outside)
    else (f, ReaderParked(timed))
  }

  function ReaderTries(f: Fields): (Fields, Phase) {
    if ReaderMayEnter(f) then (f.(activeReaders := f.activeReaders + 1), Reading) else (f, Outside)
  }

  function ReaderLeaves(f: Fields): (Fields, Phase)
    requires f.activeReaders > 0
  {
    var left := f.(activeReaders := f.activeReaders - 1);
    (left, if left.activeReaders == 0 && left.waitingWriters > 0 then OwesWriter else Outside)
  }

  // ----- the machine -----

  function Init(tids: set<nat>): State {
    State(Fields(0, 0, false), map tid | tid in tids :: Outside)
  }

  function Put(s: State, tid: nat, next: (Fields, Phase)): State {
    State(next.0, s.threads[tid := next.1])
  }

  predicate Parked(s: State, tid: nat) {
    tid in s.threads && s.threads[tid].WriterParked?
  }

  /** notify_one wakes one parked writer, if there is any; `target` is the scheduler's choice. */
  function NotifyWriter(s: State, tid: nat, target: nat): State {
    if Parked(s, target) then
      State(s.fields, s.threads[target := WriterAwake(s.threads[target].timed)][tid := Outside])
    else if exists t :: t in s.threads && Parked(s, t) then s
    else s.(threads := s.threads[tid := Outside])
  }

  /** notify_all wakes every parked reader. */
  function NotifyReaders(s: State, tid: nat): State {
    State(s.fields, map t | t in s.threads ::
      if t == tid then Outside
      else if s.threads[t].ReaderParked? then ReaderAwake(s.threads[t].timed)
      else s.threads[t])
  }

  /** One step; an action that does not apply in the thread's phase changes nothing. */
  function Step(s: State, action: Action): State {
    if action.tid !in s.threads then s
    else
      var tid, phase, f := action.tid, s.threads[action.tid], s.fields;
      match action
      case Lock(_, timed) => if phase.Outside? then Put(s, tid, WriterArrives(f, timed)) else s
      case TryLock(_) => if phase.Outside? then Put(s, tid, WriterTries(f)) else s
      case Unlock(_) => if phase.Writing? then Put(s, tid, WriterLeaves(f)) else s
      case LockShared(_, timed) => if phase.Outside? then Put(s, tid, ReaderLooks(f, timed, false)) else s
      case TryLockShared(_) => if phase.Outside? then Put(s, tid, ReaderTries(f)) else s
      case UnlockShared(_) =>
        if phase.Reading? && f.activeReaders > 0 then Put(s, tid, ReaderLeaves(f)) else s
      case Wake(_) =>
        if phase.WriterParked? then Put(s, tid, (f, WriterAwake(phase.timed)))
        else if phase.ReaderParked? then Put(s, tid, (f, ReaderAwake(phase.timed)))
        else s
      case Resume(_, timedOut) =>
        if phase.WriterAwake? && f.waitingWriters > 0 then Put(s, tid, WriterLooksAgain(f, phase.timed, timedOut))
        else if phase.ReaderAwake? then Put(s, tid, ReaderLooks(f, phase.timed, timedOut))
        else s
      case Notify(_, target) =>
        if phase.OwesWriter? then NotifyWriter(s, tid, target)
        else if phase.OwesReaders? then NotifyReaders(s, tid)
        else s
  }

  function Execute(s: State, schedule: seq<Action>): State {
    if schedule == [] then s
    else Step(Execute(s, schedule[..|schedule| - 1]), schedule[|schedule| - 1])
  }

  // ----- the invariant -----

  function Readers(s: State): set<nat> { set t | t in s.threads && s.threads[t].Reading? }
  function Writers(s: State): set<nat> { set t | t in s.threads && s.threads[t].Writing? }
  function Waiters(s: State): set<nat> {
    set t | t in s.threads && (s.threads[t].WriterParked? || s.threads[t].WriterAwake?)
  }

  /** The fields count the threads they are meant to count. */
  ghost predicate Counted(s: State) {
    && s.fields.activeReaders == |Readers(s)|
    && s.fields.waitingWriters == |Waiters(s)|
    && |Writers(s)| == (if s.fields.writerActive then 1 else 0)
    && (s.fields.writerActive ==> s.fields.activeReaders == 0)
  }

  ghost predicate WriterWakeupKept(s: State) {
    WriterMayEnter(s.fields) && (exists t :: t in s.threads && s.threads[t].WriterParked?) ==>
      exists t :: t in s.threads && (s.threads[t].OwesWriter? || s.threads[t].WriterAwake?)
  }

  ghost predicate ReaderWakeupKept(s: State) {
    ReaderMayEnter(s.fields) && (exists t :: t in s.threads && s.threads[t].ReaderParked?) ==>
      exists t :: t in s.threads && s.threads[t].OwesReaders?
  }

  /** A parked thread that could enter has a notification on its way or an awake writer before it. */
  ghost predicate NoLostWakeup(s: State) {
    WriterWakeupKept(s) && ReaderWakeupKept(s)
  }

  predicate IsWaiting(phase: Phase) { phase.WriterParked? || phase.WriterAwake? }

  lemma PutSets(s: State, tid: nat, next: (Fields, Phase))
    requires tid in s.threads
    ensures var s', before, after := Put(s, tid, next), s.threads[tid], next.1;
            && Readers(s') == (if after.Reading? then Readers(s) + {tid} else Readers(s) - {tid})
            && Writers(s') == (if after.Writing? then Writers(s) + {tid} else Writers(s) - {tid})
            && Waiters(s') == (if IsWaiting(after) then Waiters(s) + {tid} else Waiters(s) - {tid})
            && (tid in Readers(s) <==> before.Reading?)
            && (tid in Writers(s) <==> before.Writing?)
            && (tid in Waiters(s) <==> IsWaiting(before))
  {
  }

  /** How the three counts follow one thread's change of phase. */
  lemma PutCounts(s: State, tid: nat, next: (Fields, Phase))
    requires tid in s.threads
    ensures var s', before, after := Put(s, tid, next), s.threads[tid], next.1;
            && |Readers(s')| == |Readers(s)| - One(before.Reading?) + One(after.Reading?)
            && |Writers(s')| == |Writers(s)| - One(before.Writing?) + One(after.Writing?)
            && |Waiters(s')| == |Waiters(s)| - One(IsWaiting(before)) + One(IsWaiting(after))
  {
    PutSets(s, tid, next);
    hide Readers, Writers, Waiters;
    var s', after := Put(s, tid, next), next.1;
    CountAfter(Readers(s), Readers(s'), tid, after.Reading?);
    CountAfter(Writers(s), Writers(s'), tid, after.Writing?);
    CountAfter(Waiters(s), Waiters(s'), tid, IsWaiting(after));
  }

  lemma PutKeepsCounts(s: State, tid: nat, next: (Fields, Phase))
    requires Counted(s) && tid in s.threads
    requires var before, after := s.threads[tid], next.1;
             && next.0.activeReaders == s.fields.activeReaders - One(before.Reading?) + One(after.Reading?)
             && next.0.waitingWriters == s.fields.waitingWriters - One(IsWaiting(before)) + One(IsWaiting(after))
             && One(next.0.writerActive) == One(s.fields.writerActive) - One(before.Writing?) + One(after.Writing?)
             && (next.0.writerActive ==> next.0.activeReaders == 0)
    ensures Counted(Put(s, tid, next))
  {
    PutCounts(s, tid, next);
  }

  lemma NotifyKeepsCounts(s: State, tid: nat, target: nat)
    requires Counted(s) && tid in s.threads && (s.threads[tid].OwesWriter? || s.threads[tid].OwesReaders?)
    ensures Counted(NotifyWriter(s, tid, target)) && Counted(NotifyReaders(s, tid))
  {
    forall s' | s' == NotifyWriter(s, tid, target) || s' == NotifyReaders(s, tid)
      ensures Readers(s') == Readers(s) && Writers(s') == Writers(s) && Waiters(s') == Waiters(s)
    {
    }
  }

  lemma StepKeepsCounts(s: State, action: Action)
    requires Counted(s)
    ensures Counted(Step(s, action))
  {
    if action.tid in s.threads {
      var tid, phase, f := action.tid, s.threads[action.tid], s.fields;
      // the counted sets are not looked into from here on
      CountsOfThread(s, tid);
      match action
      case Lock(_, timed) => if phase.Outside? { PutKeepsCounts(s, tid, WriterArrives(f, timed)); }
      case TryLock(_) => if phase.Outside? { PutKeepsCounts(s, tid, WriterTries(f)); }
      case Unlock(_) => if phase.Writing? { PutKeepsCounts(s, tid, WriterLeaves(f)); }
      case LockShared(_, timed) => if phase.Outside? { PutKeepsCounts(s, tid, ReaderLooks(f, timed, false)); }
      case TryLockShared(_) => if phase.Outside? { PutKeepsCounts(s, tid, ReaderTries(f)); }
      case UnlockShared(_) =>
        if phase.Reading? && f.activeReaders > 0 { PutKeepsCounts(s, tid, ReaderLeaves(f)); }
      case Wake(_) =>
        if phase.WriterParked? { PutKeepsCounts(s, tid, (f, WriterAwake(phase.timed))); }
        if phase.ReaderParked? { PutKeepsCounts(s, tid, (f, ReaderAwake(phase.timed))); }
      case Resume(_, timedOut) =>
        if phase.WriterAwake? && f.waitingWriters > 0 {
          PutKeepsCounts(s, tid, WriterLooksAgain(f, phase.timed, timedOut));
        }
        if phase.ReaderAwake? { PutKeepsCounts(s, tid, ReaderLooks(f, phase.timed, timedOut)); }
      case Notify(_, target) =>
        if phase.OwesWriter? || phase.OwesReaders? { NotifyKeepsCounts(s, tid, target); }
    }
  }

  /** A thread that holds the lock is counted. */
  lemma CountsOfThread(s: State, tid: nat)
    requires Counted(s) && tid in s.threads
    ensures s.threads[tid].Writing? ==> s.fields.writerActive
    ensures s.threads[tid].Reading? ==> s.fields.activeReaders > 0
    ensures IsWaiting(s.threads[tid]) ==> s.fields.waitingWriters > 0
  {
    assert tid in Readers(s) <==> s.threads[tid].Reading?;
    assert tid in Writers(s) <==> s.threads[tid].Writing?;
    assert tid in Waiters(s) <==> IsWaiting(s.threads[tid]);
  }

  /** No writer is parked while none is counted as waiting. */
  lemma NoneWaiting(s: State)
    requires Counted(s) && s.fields.waitingWriters == 0
    ensures forall t :: t in s.threads ==> !IsWaiting(s.threads[t])
  {
    forall t | t in s.threads ensures !IsWaiting(s.threads[t]) { CountsOfThread(s, t); }
  }

  /** A thread's own step keeps both promises if it opens no gate without waking somebody. */
  lemma PutKeepsWakeups(s: State, tid: nat, next: (Fields, Phase))
    requires NoLostWakeup(s) && tid in s.threads && Counted(Put(s, tid, next))
    requires var before, after := s.threads[tid], next.1;
             WriterMayEnter(next.0) ==>
               || after.OwesWriter? || after.WriterAwake? || next.0.waitingWriters == 0
               || (WriterMayEnter(s.fields) && !before.OwesWriter? && !before.WriterAwake? && !after.WriterParked?)
    requires var before, after := s.threads[tid], next.1;
             ReaderMayEnter(next.0) ==>
               || after.OwesReaders?
               || (ReaderMayEnter(s.fields) && !before.OwesReaders? && !after.ReaderParked?)
    ensures NoLostWakeup(Put(s, tid, next))
  {
    var s' := Put(s, tid, next);
    if s'.fields.waitingWriters == 0 { NoneWaiting(s'); }
    if WriterMayEnter(s'.fields) && exists t :: t in s'.threads && s'.threads[t].WriterParked? {
      if next.1.OwesWriter? || next.1.WriterAwake? {
        assert s'.threads[tid] == next.1;
      } else {
        var parked :| parked in s'.threads && s'.threads[parked].WriterParked?;
        assert s.threads[parked].WriterParked?;
        var awake :| awake in s.threads && (s.threads[awake].OwesWriter? || s.threads[awake].WriterAwake?);
        assert s'.threads[awake] == s.threads[awake];
      }
    }
    if ReaderMayEnter(s'.fields) && exists t :: t in s'.threads && s'.threads[t].ReaderParked? {
      if next.1.OwesReaders? {
        assert s'.threads[tid] == next.1;
      } else {
        var parked :| parked in s'.threads && s'.threads[parked].ReaderParked?;
        assert s.threads[parked].ReaderParked?;
        var owing :| owing in s.threads && s.threads[owing].OwesReaders?;
        assert s'.threads[owing] == s.threads[owing];
      }
    }
  }

  lemma NotifyWriterKeepsWakeups(s: State, tid: nat, target: nat)
    requires NoLostWakeup(s) && tid in s.threads && s.threads[tid].OwesWriter?
    ensures NoLostWakeup(NotifyWriter(s, tid, target))
  {
    var s' := NotifyWriter(s, tid, target);
    if Parked(s, target) { assert s'.threads[target].WriterAwake?; }
    if exists t :: t in s.threads && s.threads[t].OwesReaders? {
      var owing :| owing in s.threads && s.threads[owing].OwesReaders?;
      assert s'.threads[owing].OwesReaders?;
    }
    assert forall t :: t in s'.threads && s'.threads[t].ReaderParked? ==> s.threads[t].ReaderParked?;
    assert !(exists t :: t in s.threads && Parked(s, t)) ==> forall t :: t in s'.threads ==> !s'.threads[t].WriterParked?;
  }

  lemma NotifyReadersKeepsWakeups(s: State, tid: nat)
    requires NoLostWakeup(s) && tid in s.threads && s.threads[tid].OwesReaders?
    ensures NoLostWakeup(NotifyReaders(s, tid))
  {
    var s' := NotifyReaders(s, tid);
    if exists t :: t in s'.threads && s'.threads[t].WriterParked? {
      var parked :| parked in s'.threads && s'.threads[parked].WriterParked?;
      assert s.threads[parked].WriterParked?;
      if WriterMayEnter(s.fields) {
        var awake :| awake in s.threads && (s.threads[awake].OwesWriter? || s.threads[awake].WriterAwake?);
        assert s'.threads[awake] == s.threads[awake];
      }
    }
  }

  lemma StepKeepsWakeups(s: State, action: Action)
    requires Counted(s) && Counted(Step(s, action)) && NoLostWakeup(s)
    ensures NoLostWakeup(Step(s, action))
  {
    if action.tid in s.threads {
      var tid, phase, f := action.tid, s.threads[action.tid], s.fields;
      CountsOfThread(s, tid);
      hide Counted, NoLostWakeup;
      match action
      case Lock(_, timed) => if phase.Outside? { PutKeepsWakeups(s, tid, WriterArrives(f, timed)); }
      case TryLock(_) => if phase.Outside? { PutKeepsWakeups(s, tid, WriterTries(f)); }
      case Unlock(_) => if phase.Writing? { PutKeepsWakeups(s, tid, WriterLeaves(f)); }
      case LockShared(_, timed) => if phase.Outside? { PutKeepsWakeups(s, tid, ReaderLooks(f, timed, false)); }
      case TryLockShared(_) => if phase.Outside? { PutKeepsWakeups(s, tid, ReaderTries(f)); }
      case UnlockShared(_) =>
        if phase.Reading? && f.activeReaders > 0 { PutKeepsWakeups(s, tid, ReaderLeaves(f)); }
      case Wake(_) =>
        if phase.WriterParked? { PutKeepsWakeups(s, tid, (f, WriterAwake(phase.timed))); }
        if phase.ReaderParked? { PutKeepsWakeups(s, tid, (f, ReaderAwake(phase.timed))); }
      case Resume(_, timedOut) =>
        if phase.WriterAwake? && f.waitingWriters > 0 {
          PutKeepsWakeups(s, tid, WriterLooksAgain(f, phase.timed, timedOut));
        }
        if phase.ReaderAwake? { PutKeepsWakeups(s, tid, ReaderLooks(f, phase.timed, timedOut)); }
      case Notify(_, target) =>
        if phase.OwesWriter? { NotifyWriterKeepsWakeups(s, tid, target); }
        if phase.OwesReaders? { NotifyReadersKeepsWakeups(s, tid); }
    }
  }

  // ----- what holds over every schedule -----

  ghost predicate Inv(s: State) {
    Counted(s) && NoLostWakeup(s)
  }

  lemma {:induction false} ReachableInv(tids: set<nat>, schedule: seq<Action>)
    ensures Inv(Execute(Init(tids), schedule))
  {
    var s := Init(tids);
    if schedule == [] {
      assert Readers(s) == {} && Writers(s) == {} && Waiters(s) == {};
    } else {
      var last := |schedule| - 1;
      ReachableInv(tids, schedule[..last]);
      StepKeepsCounts(Execute(s, schedule[..last]), schedule[last]);
      StepKeepsWakeups(Execute(s, schedule[..last]), schedule[last]);
    }
  }

  /** A writer holds the lock alone. */
  lemma WriterExcludesAll(tids: set<nat>, schedule: seq<Action>, writer: nat, other: nat)
    requires var s := Execute(Init(tids), schedule);
             writer in s.threads && s.threads[writer].Writing? && other in s.threads && other != writer
    ensures var s := Execute(Init(tids), schedule);
            !s.threads[other].Writing? && !s.threads[other].Reading?
  {
    ReachableInv(tids, schedule);
    var s := Execute(Init(tids), schedule);
    hide Execute;
    CountsOfThread(s, writer);
    CountsOfThread(s, other);
    if s.threads[other].Writing? {
      assert {writer, other} <= Writers(s);
      SubsetCount({writer, other}, Writers(s));
    }
  }

  /** While a writer waits, no step lets another reader in. */
  lemma WaitingWriterHoldsReadersBack(tids: set<nat>, schedule: seq<Action>, writer: nat, action: Action)
    requires var s := Execute(Init(tids), schedule); writer in s.threads && IsWaiting(s.threads[writer])
    ensures var s := Execute(Init(tids), schedule);
            && Readers(Step(s, action)) <= Readers(s)
            && Step(s, action).fields.activeReaders <= s.fields.activeReaders
  {
    ReachableInv(tids, schedule);
    CountsOfThread(Execute(Init(tids), schedule), writer);
  }

  /** Every schedule, with barging, timeouts and spurious wake-ups, keeps every wake-up. */
  lemma NoWakeupIsEverLost(tids: set<nat>, schedule: seq<Action>)
    ensures NoLostWakeup(Execute(Init(tids), schedule))
  {
    ReachableInv(tids, schedule);
  }

  /**
    The lock never stops by itself: where a thread is parked, some thread holds the lock,
    is awake, or has a notification to send.
  */
  lemma SomebodyCanMove(tids: set<nat>, schedule: seq<Action>, parked: nat)
    requires var s := Execute(Init(tids), schedule);
             parked in s.threads && (s.threads[parked].WriterParked? || s.threads[parked].ReaderParked?)
    ensures var s := Execute(Init(tids), schedule);
            exists t :: t in s.threads && var p := s.threads[t];
              p.Writing? || p.Reading? || p.WriterAwake? || p.ReaderAwake? || p.OwesWriter? || p.OwesReaders?
  {
    ReachableInv(tids, schedule);
    var s := Execute(Init(tids), schedule);
    hide Execute;
    if s.fields.writerActive {
      var t :| t in Writers(s);
    } else if s.fields.activeReaders > 0 {
      var t :| t in Readers(s);
    } else if s.fields.waitingWriters > 0 {
      var t :| t in Waiters(s);
    }
  }

  // ----- the object -----

  /** The three fields, changed in place by the critical sections. */
  class Monitor {
    var activeReaders: nat
    var waitingWriters: nat
    var writerActive: bool

    function View(): Fields
      reads this
    {
      Fields(activeReaders, waitingWriters, writerActive)
    }

    constructor ()
      ensures View() == Init({}).fields
    {
      activeReaders, waitingWriters, writerActive := 0, 0, false;
    }

    /** `lock` and `writer_wait` up to the first wait; the next phase says whether to park. */
    method BeginLock(timed: bool) returns (next: Phase)
      modifies this
      ensures (View(), next) == WriterArrives(old(View()), timed)
      ensures next == if !old(writerActive) && old(activeReaders) == 0 then Writing else WriterParked(timed)
      ensures writerActive == (old(writerActive) || next == Writing) && activeReaders == old(activeReaders)
      ensures waitingWriters == old(waitingWriters) + if next == Writing then 0 else 1
    {
      waitingWriters := waitingWriters + 1;
      if !writerActive && activeReaders == 0 {
        waitingWriters := waitingWriters - 1;
        writerActive := true;
        next := Writing;
      } else {
        next := WriterParked(timed);
      }
    }

    /** A writer woken in its wait: it enters, waits on, or gives up and may owe the readers. */
    method ResumeLock(timed: bool, timedOut: bool) returns (next: Phase)
      requires waitingWriters > 0
      modifies this
      ensures (View(), next) == WriterLooksAgain(old(View()), timed, timedOut)
      ensures next == if !old(writerActive) && old(activeReaders) == 0 then Writing
                      else if !timed || !timedOut then WriterParked(timed)
                      else if old(waitingWriters) == 1 && !old(writerActive) then OwesReaders
                      else Outside
      ensures writerActive == (old(writerActive) || next == Writing) && activeReaders == old(activeReaders)
      ensures waitingWriters == old(waitingWriters) - if next == WriterParked(timed) then 0 else 1
    {
      var acquired := !writerActive && activeReaders == 0;
      if !acquired && !(timed && timedOut) { return WriterParked(timed); }
      waitingWriters := waitingWriters - 1;
      if acquired {
        writerActive := true;
        return Writing;
      }
      var wakeReaders := waitingWriters == 0 && !writerActive;
      next := if wakeReaders then OwesReaders else Outside;
    }

    method TryLock() returns (ok: bool)
      modifies this
      ensures (View(), if ok then Writing else Outside) == WriterTries(old(View()))
      ensures ok <==> !old(writerActive) && old(activeReaders) == 0
      ensures writerActive == (old(writerActive) || ok)
      ensures activeReaders == old(activeReaders) && waitingWriters == old(waitingWriters)
    {
      if writerActive || activeReaders > 0 { return false; }
      writerActive := true;
      ok := true;
    }

    /** `unlock` up to its notification. */
    method Unlock() returns (next: Phase)
      requires writerActive
      modifies this
      ensures (View(), next) == WriterLeaves(old(View()))
      ensures next == if old(waitingWriters) > 0 then OwesWriter else OwesReaders
      ensures !writerActive && activeReaders == old(activeReaders) && waitingWriters == old(waitingWriters)
    {
      writerActive := false;
      var writersWaiting := waitingWriters > 0;
      next := if writersWaiting then OwesWriter else OwesReaders;
    }

    /** The look a reader takes, on arrival and after each wake-up. */
    method LookShared(timed: bool, timedOut: bool) returns (next: Phase)
      modifies this
      ensures (View(), next) == ReaderLooks(old(View()), timed, timedOut)
      ensures next == if !old(writerActive) && old(waitingWriters) == 0 then Reading
                      else if timed && timedOut then Outside
                      else ReaderParked(timed)
      ensures activeReaders == old(activeReaders) + if next == Reading then 1 else 0
      ensures writerActive == old(writerActive) && waitingWriters == old(waitingWriters)
    {
      if !writerActive && waitingWriters == 0 {
        activeReaders := activeReaders + 1;
        next := Reading;
      } else {
        next := if timed && timedOut then Outside else ReaderParked(timed);
      }
    }

    method TryLockShared() returns (ok: bool)
      modifies this
      ensures (View(), if ok then Reading else Outside) == ReaderTries(old(View()))
      ensures ok <==> !old(writerActive) && old(waitingWriters) == 0
      ensures activeReaders == old(activeReaders) + if ok then 1 else 0
      ensures writerActive == old(writerActive) && waitingWriters == old(waitingWriters)
    {
      if writerActive || waitingWriters > 0 { return false; }
      activeReaders := activeReaders + 1;
      ok := true;
    }

    /** `unlock_shared` up to its notification. */
    method UnlockShared() returns (next: Phase)
      requires activeReaders > 0
      modifies this
      ensures (View(), next) == ReaderLeaves(old(View()))
      ensures next == if old(activeReaders) == 1 && old(waitingWriters) > 0 then OwesWriter else Outside
      ensures activeReaders == old(activeReaders) - 1
      ensures writerActive == old(writerActive) && waitingWriters == old(waitingWriters)
    {
      activeReaders := activeReaders - 1;
      var wakeWriter := activeReaders == 0 && waitingWriters > 0;
      next := if wakeWriter then OwesWriter else Outside;
    }
  }
}
