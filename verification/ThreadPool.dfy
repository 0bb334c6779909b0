/**
  The pool as a monitor: any number of threads that submit and shut down, and its workers.
  A step is one critical section, one notification, one wake-up, or one stage of running a
  task outside the mutex.  What a task delivers goes through the hand-off of `TaskFuture`.
*/
module ThreadPool {
  import opened Counting
  import opened Wrappers
  import opened PriorityHeap
  import opened TaskFuture

  /** What a task comes to: it returns a value or throws. */
  datatype Ending = Result(value: int) | Thrown(error: nat)

  datatype Worker =
    | Looks                      // about to take the mutex and look at the heap
    | Parked                     // in the wait set of work_available_
    | Running(task: Task)        // user code, outside the mutex
    | Storing(task: Task, ending: Ending)
    | Releasing(task: Task)      // the task object, and with it its promise, is destroyed
    | Crashed                    // storing an outcome threw out of the task
    | Returned

  datatype Client =
    | Outside
    | Owes          // has queued a task, owes work_available_ a notification
    | OwesStop      // shutdown, before notify_all
    | Joining

  /** `started` and `settled` record sequence numbers in the order tasks started and got an outcome. */
  datatype State = State(
    queued: seq<Task>, nextSequence: nat, stopping: bool,
    workers: map<nat, Worker>, clients: map<nat, Client>,
    shared: map<nat, Shared<int>>, started: seq<nat>, settled: seq<nat>)

  datatype Action =
    | Submit(client: nat, priority: int)
    | Shutdown(client: nat)
    | Notify(client: nat, target: nat)    // the notification owed; notify_one wakes `target`
    | Join(client: nat)
    | Work(worker: nat, ending: Ending)   // the worker's next stage; `ending`: what user code came to
    | Wake(worker: nat)                   // a spurious wake-up

  function Init(workers: set<nat>, clients: set<nat>): State {
    State([], 0, false, map w | w in workers :: Looks, map c | c in clients :: Outside, map[], [], [])
  }

  // ----- the queue -----

  /** Where the task that runs before every other queued task is. */
  function FirstAt(tasks: seq<Task>): (i: nat)
    requires tasks != []
    ensures i < |tasks| && forall k :: 0 <= k < |tasks| ==> !RunsLater(tasks[i], tasks[k])
  {
    if |tasks| == 1 then 0
    else
      var i := FirstAt(tasks[..|tasks| - 1]);
      if RunsLater(tasks[i], tasks[|tasks| - 1]) then |tasks| - 1 else i
  }

  function Without(tasks: seq<Task>, i: nat): seq<Task>
    requires i < |tasks|
  {
    tasks[..i] + tasks[i + 1..]
  }

  // ----- the machine -----

  function SetWorker(s: State, w: nat, phase: Worker): State {
    s.(workers := s.workers[w := phase])
  }

  /** The worker's look at the heap, at the top of its loop. */
  function WorkerLooks(s: State, w: nat): State {
    if s.queued == [] then SetWorker(s, w, if s.stopping then Returned else Parked)
    else
      var i := FirstAt(s.queued);
      SetWorker(s, w, Running(s.queued[i]))
        .(queued := Without(s.queued, i), started := s.started + [s.queued[i].sequence])
  }

  function SharedOf(s: State, n: nat): Shared<int> {
    if n in s.shared then s.shared[n] else Empty
  }

  function Put(s: State, n: nat, write: Write<int>): State {
    s.(shared := s.shared[n := Apply(SharedOf(s, n), write)],
       settled := if HasOutcome(SharedOf(s, n)) then s.settled else s.settled + [n])
  }

  /** set_value, or set_exception where the task threw; a second outcome is refused by throwing. */
  function WorkerStores(s: State, w: nat, task: Task, ending: Ending): State {
    if HasOutcome(SharedOf(s, task.sequence)) then SetWorker(s, w, Crashed)
    else
      var write := match ending case Result(value) => SetValue(value) case Thrown(error) => SetException(error);
      SetWorker(Put(s, task.sequence, write), w, Releasing(task))
  }

  function WorkerStep(s: State, w: nat, ending: Ending): State
    requires w in s.workers
  {
    match s.workers[w]
    case Looks => WorkerLooks(s, w)
    case Running(task) => SetWorker(s, w, Storing(task, ending))
    case Storing(task, came) => WorkerStores(s, w, task, came)
    case Releasing(task) => SetWorker(Put(s, task.sequence, Abandon), w, Looks)
    case _ => s
  }

  function WakeAll(workers: map<nat, Worker>): map<nat, Worker> {
    map w | w in workers :: if workers[w].Parked? then Looks else workers[w]
  }

  function ParkedWorkers(s: State): set<nat> { set w | w in s.workers && s.workers[w].Parked? }
  function LookingWorkers(s: State): set<nat> { set w | w in s.workers && s.workers[w].Looks? }
  function Owing(s: State): set<nat> { set c | c in s.clients && s.clients[c].Owes? }

  function ClientStep(s: State, action: Action): State
    requires !action.Work? && !action.Wake? && action.client in s.clients
  {
    var c, phase := action.client, s.clients[action.client];
    match action
    case Submit(_, priority) =>
      if !phase.Outside? || s.stopping then s  // refused: the caller gets an exception and no future
      else s.(queued := s.queued + [Task(priority, s.nextSequence)], nextSequence := s.nextSequence + 1,
              shared := s.shared[s.nextSequence := Empty], clients := s.clients[c := Owes])
    case Shutdown(_) =>
      if phase.Outside? then s.(stopping := true, clients := s.clients[c := OwesStop]) else s
    case Notify(_, target) =>
      if phase.Owes? then
        if target in ParkedWorkers(s) then SetWorker(s, target, Looks).(clients := s.clients[c := Outside])
        else if ParkedWorkers(s) == {} then s.(clients := s.clients[c := Outside])
        else s
      else if phase.OwesStop? then s.(workers := WakeAll(s.workers), clients := s.clients[c := Joining])
      else s
    case Join(_) =>
      if phase.Joining? && (forall w :: w in s.workers ==> s.workers[w].Returned?)
      then s.(clients := s.clients[c := Outside]) else s
  }

  /** One step; an action that does not apply changes nothing. */
  function Step(s: State, action: Action): State {
    match action
    case Work(w, ending) => if w in s.workers then WorkerStep(s, w, ending) else s
    case Wake(w) => if w in s.workers && s.workers[w].Parked? then SetWorker(s, w, Looks) else s
    case _ => if action.client in s.clients then ClientStep(s, action) else s
  }

  function Execute(s: State, schedule: seq<Action>): State {
    if schedule == [] then s
    else Step(Execute(s, schedule[..|schedule| - 1]), schedule[|schedule| - 1])
  }

  // ----- every accepted task starts once and settles once -----

  predicate Holds(phase: Worker, n: nat) {
    (phase.Running? || phase.Storing?) && phase.task.sequence == n
  }

  predicate Settled(outcome: Shared<int>) {
    outcome.Value? || outcome.Exception?
  }

  ghost predicate NoRepeats(s: seq<nat>) {
    forall i, j :: 0 <= i < j < |s| ==> s[i] != s[j]
  }

  function Sequences(tasks: seq<Task>): set<nat> {
    set i | 0 <= i < |tasks| :: tasks[i].sequence
  }

  /** An accepted task is queued, or with one worker, or settled by a value or an exception. */
  ghost predicate TaskInv(s: State, n: nat) {
    && n in s.shared
    && (n in s.settled <==> HasOutcome(s.shared[n]))
    && (HasOutcome(s.shared[n]) ==> Settled(s.shared[n]) && n in s.started)
    && (n in Sequences(s.queued) <==> n !in s.started)
    && (n in s.started && !HasOutcome(s.shared[n]) ==> exists w :: w in s.workers && Holds(s.workers[w], n))
  }

  ghost predicate WorkerInv(s: State, w: nat)
    requires w in s.workers
  {
    match s.workers[w]
    case Running(task) => task.sequence in s.started && SharedOf(s, task.sequence).Empty?
    case Storing(task, _) => task.sequence in s.started && SharedOf(s, task.sequence).Empty?
    case Releasing(task) => task.sequence in s.started && Settled(SharedOf(s, task.sequence))
    case Crashed => false
    case Returned => s.stopping && s.queued == []
    case _ => true
  }

  ghost predicate QueueInv(s: State) {
    && InSubmissionOrder(s.queued)
    && (forall i :: 0 <= i < |s.queued| ==> s.queued[i].sequence < s.nextSequence)
    && (forall n :: n in s.started ==> n < s.nextSequence)
    && NoRepeats(s.started) && NoRepeats(s.settled)
    && (forall n :: n in s.settled ==> n < s.nextSequence)
  }

  ghost predicate HoldersInv(s: State) {
    forall v, w :: v in s.workers && w in s.workers && v != w && (s.workers[v].Running? || s.workers[v].Storing?) ==>
      !Holds(s.workers[w], s.workers[v].task.sequence)
  }

  ghost predicate TasksInv(s: State) {
    && QueueInv(s) && HoldersInv(s)
    && (forall n :: 0 <= n < s.nextSequence ==> TaskInv(s, n))
    && (forall w :: w in s.workers ==> WorkerInv(s, w))
  }

  lemma WithoutShifts(tasks: seq<Task>, i: nat)
    requires i < |tasks|
    ensures |Without(tasks, i)| == |tasks| - 1
    ensures forall m :: 0 <= m < |tasks| - 1 ==> Without(tasks, i)[m] == tasks[if m < i then m else m + 1]
  {
  }

  lemma WithoutKeepsOrder(tasks: seq<Task>, i: nat)
    requires InSubmissionOrder(tasks) && i < |tasks|
    ensures InSubmissionOrder(Without(tasks, i))
  {
    hide Without;
    WithoutShifts(tasks, i);
  }

  lemma WithoutRemoves(tasks: seq<Task>, i: nat)
    requires InSubmissionOrder(tasks) && i < |tasks|
    ensures InSubmissionOrder(Without(tasks, i))
    ensures Sequences(Without(tasks, i)) == Sequences(tasks) - {tasks[i].sequence}
  {
    hide Without;
    WithoutKeepsOrder(tasks, i);
    WithoutShifts(tasks, i);
    var rest := Without(tasks, i);
    forall n: nat | n in Sequences(tasks) && n != tasks[i].sequence ensures n in Sequences(rest) {
      var k :| 0 <= k < |tasks| && tasks[k].sequence == n;
      assert rest[if k < i then k else k - 1] == tasks[k];
    }
    forall n: nat | n in Sequences(rest) ensures n in Sequences(tasks) && n != tasks[i].sequence {
      var m :| 0 <= m < |rest| && rest[m].sequence == n;
      assert rest[m] == tasks[if m < i then m else m + 1];
    }
  }

  lemma AppendAdds(tasks: seq<Task>, task: Task)
    ensures Sequences(tasks + [task]) == Sequences(tasks) + {task.sequence}
  {
    forall n: nat | n in Sequences(tasks) ensures n in Sequences(tasks + [task]) {
      var k :| 0 <= k < |tasks| && tasks[k].sequence == n;
      assert (tasks + [task])[k] == tasks[k];
    }
    assert (tasks + [task])[|tasks|] == task;
  }

  lemma SubmitKeepsTasks(s: State, action: Action)
    requires TasksInv(s) && action.Submit? && action.client in s.clients
    ensures TasksInv(ClientStep(s, action))
  {
    var s' := ClientStep(s, action);
    if s' != s {
      var task := Task(action.priority, s.nextSequence);
      AppendAdds(s.queued, task);
      assert s'.queued == s.queued + [task];
      hide Sequences;
      forall n | 0 <= n < s'.nextSequence ensures TaskInv(s', n) {
        if n < s.nextSequence {
          assert TaskInv(s, n);
          if n in s.started && !HasOutcome(s.shared[n]) {
            var w :| w in s.workers && Holds(s.workers[w], n);
            assert w in s'.workers && Holds(s'.workers[w], n);
          }
        }
      }
      forall w | w in s'.workers ensures WorkerInv(s', w) { assert WorkerInv(s, w); }
    }
  }

  /** A client's other steps, and wake-ups, change no task. */
  lemma SameTasksKeepTasks(s: State, s': State)
    requires TasksInv(s)
    requires s' == s.(stopping := s'.stopping, clients := s'.clients, workers := s'.workers)
    requires s.stopping ==> s'.stopping
    requires s'.workers.Keys == s.workers.Keys
    requires forall w :: w in s.workers ==>
               s'.workers[w] == s.workers[w] || (s.workers[w].Parked? && s'.workers[w].Looks?)
    ensures TasksInv(s')
  {
    hide Sequences;
    forall n | 0 <= n < s'.nextSequence ensures TaskInv(s', n) {
      assert TaskInv(s, n);
      if n in s.started && !HasOutcome(s.shared[n]) {
        var w :| w in s.workers && Holds(s.workers[w], n);
        assert w in s'.workers && Holds(s'.workers[w], n);
      }
    }
    forall w | w in s'.workers ensures WorkerInv(s', w) { assert WorkerInv(s, w); }
  }

  lemma OthersStillHold(s: State, s': State, w: nat, n: nat)
    requires w in s.workers && w in s'.workers && s'.workers == s.workers[w := s'.workers[w]]
    requires exists v :: v in s.workers && Holds(s.workers[v], n)
    requires Holds(s.workers[w], n) ==> Holds(s'.workers[w], n)
    ensures exists v :: v in s'.workers && Holds(s'.workers[v], n)
  {
    var v :| v in s.workers && Holds(s.workers[v], n);
    assert v in s'.workers && Holds(s'.workers[v], n);
  }

  lemma TakeKeepsTasks(s: State, w: nat)
    requires TasksInv(s) && w in s.workers && s.workers[w].Looks? && s.queued != []
    ensures TasksInv(WorkerLooks(s, w))
  {
    var s' := WorkerLooks(s, w);
    var taken := s.queued[FirstAt(s.queued)];
    WithoutRemoves(s.queued, FirstAt(s.queued));
    assert taken.sequence in Sequences(s.queued);
    TakeKeepsQueue(s, w);
    hide Sequences, QueueInv, HoldersInv;
    assert TaskInv(s, taken.sequence);
    forall n | 0 <= n < s'.nextSequence ensures TaskInv(s', n) {
      assert TaskInv(s, n);
      if n == taken.sequence { assert Holds(s'.workers[w], n); }
      else if n in s.started && !HasOutcome(s.shared[n]) { OthersStillHold(s, s', w, n); }
    }
    forall v | v in s'.workers ensures WorkerInv(s', v) { assert WorkerInv(s, v); }
  }

  lemma TakeKeepsQueue(s: State, w: nat)
    requires TasksInv(s) && w in s.workers && s.workers[w].Looks? && s.queued != []
    ensures QueueInv(WorkerLooks(s, w)) && HoldersInv(WorkerLooks(s, w))
  {
    var taken := s.queued[FirstAt(s.queued)];
    WithoutRemoves(s.queued, FirstAt(s.queued));
    assert taken.sequence in Sequences(s.queued);
    assert TaskInv(s, taken.sequence);
    hide Sequences;
    forall v | v in s.workers && (s.workers[v].Running? || s.workers[v].Storing?)
      ensures s.workers[v].task.sequence != taken.sequence
    {
      assert WorkerInv(s, v);
    }
  }

  /** A worker moves on with the task it holds, or without one. */
  lemma MoveKeepsTasks(s: State, w: nat, phase: Worker)
    requires TasksInv(s) && w in s.workers
    requires || (s.workers[w].Looks? && (phase.Parked? || (phase.Returned? && s.stopping && s.queued == [])))
             || (s.workers[w].Running? && phase.Storing? && phase.task == s.workers[w].task)
    ensures TasksInv(SetWorker(s, w, phase))
  {
    hide Sequences;
    var s' := SetWorker(s, w, phase);
    assert WorkerInv(s, w);
    forall n | 0 <= n < s'.nextSequence ensures TaskInv(s', n) {
      assert TaskInv(s, n);
      if n in s.started && !HasOutcome(s.shared[n]) { OthersStillHold(s, s', w, n); }
    }
    forall v | v in s'.workers ensures WorkerInv(s', v) { assert WorkerInv(s, v); }
  }

  lemma StoreKeepsTasks(s: State, w: nat, ending: Ending)
    requires TasksInv(s) && w in s.workers && s.workers[w].Storing?
    ensures TasksInv(WorkerStep(s, w, ending)) && WorkerStep(s, w, ending).workers[w].Releasing?
  {
    hide Sequences;
    var s', task := WorkerStep(s, w, ending), s.workers[w].task;
    assert WorkerInv(s, w) && TaskInv(s, task.sequence);
    forall n | 0 <= n < s'.nextSequence ensures TaskInv(s', n) {
      assert TaskInv(s, n);
      if n != task.sequence && n in s.started && !HasOutcome(s.shared[n]) { OthersStillHold(s, s', w, n); }
    }
    forall v | v in s'.workers ensures WorkerInv(s', v) { assert WorkerInv(s, v); }
  }

  lemma ReleaseKeepsTasks(s: State, w: nat, ending: Ending)
    requires TasksInv(s) && w in s.workers && s.workers[w].Releasing?
    ensures TasksInv(WorkerStep(s, w, ending)) && WorkerStep(s, w, ending).shared == s.shared
  {
    hide Sequences;
    var s', task := WorkerStep(s, w, ending), s.workers[w].task;
    assert WorkerInv(s, w) && TaskInv(s, task.sequence);
    assert s'.shared == s.shared;
    forall n | 0 <= n < s'.nextSequence ensures TaskInv(s', n) {
      assert TaskInv(s, n);
      if n in s.started && !HasOutcome(s.shared[n]) { OthersStillHold(s, s', w, n); }
    }
    forall v | v in s'.workers ensures WorkerInv(s', v) { assert WorkerInv(s, v); }
  }

  lemma StepKeepsTasks(s: State, action: Action)
    requires TasksInv(s)
    ensures TasksInv(Step(s, action))
  {
    hide QueueInv, HoldersInv, TaskInv, FirstAt, Without;
    var s' := Step(s, action);
    match action
    case Work(w, ending) =>
      if w in s.workers {
        assert WorkerInv(s, w);
        match s.workers[w]
        case Looks =>
          if s.queued != [] { TakeKeepsTasks(s, w); }
          else { MoveKeepsTasks(s, w, if s.stopping then Returned else Parked); }
        case Running(task) => MoveKeepsTasks(s, w, Storing(task, ending));
        case Storing(_, _) => StoreKeepsTasks(s, w, ending);
        case Releasing(_) => ReleaseKeepsTasks(s, w, ending);
        case _ =>
      }
    case Submit(client, _) =>
      if client in s.clients { SubmitKeepsTasks(s, action); }
    case _ =>
      SameTasksKeepTasks(s, s');
  }

  // ----- no wake-up is lost -----

  /**
    If a worker is parked, the queued tasks do not outnumber the notifications on their way
    plus the workers about to look; once stopping, the wake-up of all is still to come.
  */
  ghost predicate WakeupInv(s: State) {
    ParkedWorkers(s) != {} ==>
      if s.stopping then exists c :: c in s.clients && s.clients[c].OwesStop?
      else |s.queued| <= |Owing(s)| + |LookingWorkers(s)|
  }

  lemma LookingCount(s: State, s': State, w: nat)
    requires w in s.workers && w in s'.workers && s'.workers == s.workers[w := s'.workers[w]]
    ensures |LookingWorkers(s')| == |LookingWorkers(s)| - One(s.workers[w].Looks?) + One(s'.workers[w].Looks?)
  {
    var a, b, looks := LookingWorkers(s), LookingWorkers(s'), s'.workers[w].Looks?;
    assert b == if looks then a + {w} else a - {w};
    CountAfter(a, b, w, looks);
  }

  lemma ParkedSet(s: State, s': State, w: nat)
    requires w in s.workers && w in s'.workers && s'.workers == s.workers[w := s'.workers[w]]
    ensures ParkedWorkers(s') == if s'.workers[w].Parked? then ParkedWorkers(s) + {w} else ParkedWorkers(s) - {w}
  {
  }

  lemma ClientCounts(s: State, s': State, c: nat)
    requires c in s.clients && c in s'.clients && s'.clients == s.clients[c := s'.clients[c]]
    ensures |Owing(s')| == |Owing(s)| - One(s.clients[c].Owes?) + One(s'.clients[c].Owes?)
  {
    var a, b, owes := Owing(s), Owing(s'), s'.clients[c].Owes?;
    assert b == if owes then a + {c} else a - {c};
    CountAfter(a, b, c, owes);
  }

  /** What a worker's stage can do to the counts. */
  ghost predicate WorkerEffect(s: State, s': State, w: nat) {
    && w in s.workers && w in s'.workers && s'.workers == s.workers[w := s'.workers[w]]
    && s'.clients == s.clients && s'.stopping == s.stopping
    && var before, after := s.workers[w], s'.workers[w];
       || (after == before && s'.queued == s.queued)
       || (before.Looks? && !after.Parked? && !after.Looks? && |s'.queued| + 1 == |s.queued|)
       || (before.Looks? && !after.Looks? && s'.queued == s.queued == [] && (after.Parked? ==> !s.stopping))
       || (!before.Looks? && !after.Parked? && s'.queued == s.queued)
  }

  lemma WorkerStepEffect(s: State, w: nat, ending: Ending)
    requires w in s.workers
    ensures WorkerEffect(s, WorkerStep(s, w, ending), w)
  {
  }

  lemma WorkerKeepsWakeups(s: State, s': State, w: nat)
    requires WakeupInv(s) && WorkerEffect(s, s', w)
    ensures WakeupInv(s')
  {
    LookingCount(s, s', w);
    ParkedSet(s, s', w);
    assert Owing(s') == Owing(s);
    hide LookingWorkers, ParkedWorkers, Owing;
  }

  lemma ClientKeepsWakeups(s: State, action: Action)
    requires WakeupInv(s) && !action.Work? && !action.Wake? && action.client in s.clients
    ensures WakeupInv(ClientStep(s, action))
  {
    var s', c := ClientStep(s, action), action.client;
    ClientCounts(s, s', c);
    if action.Notify? && s.clients[c].Owes? && action.target in ParkedWorkers(s) {
      LookingCount(s, s', action.target);
      ParkedSet(s, s', action.target);
    } else if action.Notify? && s.clients[c].OwesStop? {
      assert ParkedWorkers(s') == {};
    } else {
      assert ParkedWorkers(s') == ParkedWorkers(s) && LookingWorkers(s') == LookingWorkers(s);
    }
    hide LookingWorkers, ParkedWorkers, Owing;
    if s'.stopping && ParkedWorkers(s') != {} {
      if action.Shutdown? && s.clients[c].Outside? { assert s'.clients[c].OwesStop?; }
      else {
        var owing :| owing in s.clients && s.clients[owing].OwesStop?;
        assert s'.clients[owing].OwesStop?;
      }
    }
  }

  lemma StepKeepsWakeups(s: State, action: Action)
    requires WakeupInv(s)
    ensures WakeupInv(Step(s, action))
  {
    match action
    case Work(w, ending) =>
      if w in s.workers {
        WorkerStepEffect(s, w, ending);
        WorkerKeepsWakeups(s, WorkerStep(s, w, ending), w);
      }
    case Wake(w) =>
      if w in s.workers && s.workers[w].Parked? { WorkerKeepsWakeups(s, SetWorker(s, w, Looks), w); }
    case _ => if action.client in s.clients { ClientKeepsWakeups(s, action); }
  }

  // ----- what holds over every schedule -----

  ghost predicate Inv(s: State) {
    TasksInv(s) && WakeupInv(s)
  }

  lemma {:induction false} ReachableInv(workers: set<nat>, clients: set<nat>, schedule: seq<Action>)
    ensures Inv(Execute(Init(workers, clients), schedule))
  {
    if schedule != [] {
      var last := |schedule| - 1;
      ReachableInv(workers, clients, schedule[..last]);
      StepKeepsTasks(Execute(Init(workers, clients), schedule[..last]), schedule[last]);
      StepKeepsWakeups(Execute(Init(workers, clients), schedule[..last]), schedule[last]);
    }
  }

  /** Every accepted task is queued or has started, never both, and starts at most once. */
  lemma EachTaskStartsOnce(workers: set<nat>, clients: set<nat>, schedule: seq<Action>)
    ensures var s := Execute(Init(workers, clients), schedule);
            && NoRepeats(s.started)
            && (forall n: nat :: n < s.nextSequence <==> n in s.started || n in Sequences(s.queued))
            && (forall n :: n in s.started ==> n !in Sequences(s.queued))
  {
    ReachableInv(workers, clients, schedule);
    var s := Execute(Init(workers, clients), schedule);
    hide Execute;
    forall n: nat | n in s.started ensures n < s.nextSequence && n !in Sequences(s.queued) { assert TaskInv(s, n); }
    forall n: nat | n < s.nextSequence ensures n in s.started || n in Sequences(s.queued) { assert TaskInv(s, n); }
  }

  /** A task's shared state leaves `Empty` at most once, for a value or an exception, never abandoned. */
  lemma EachTaskSettlesOnce(workers: set<nat>, clients: set<nat>, schedule: seq<Action>, n: nat)
    requires n < Execute(Init(workers, clients), schedule).nextSequence
    ensures var s := Execute(Init(workers, clients), schedule);
            && NoRepeats(s.settled) && n in s.shared
            && (s.shared[n] == Empty || Settled(s.shared[n]))
            && (Settled(s.shared[n]) <==> n in s.settled)
            && (n in s.settled ==> n in s.started)
  {
    ReachableInv(workers, clients, schedule);
    assert TaskInv(Execute(Init(workers, clients), schedule), n);
  }

  /** Storing an outcome never throws out of a task, so no worker dies. */
  lemma NoWorkerCrashes(workers: set<nat>, clients: set<nat>, schedule: seq<Action>, w: nat)
    requires w in Execute(Init(workers, clients), schedule).workers
    ensures !Execute(Init(workers, clients), schedule).workers[w].Crashed?
  {
    ReachableInv(workers, clients, schedule);
    assert WorkerInv(Execute(Init(workers, clients), schedule), w);
  }

  /** When all workers have returned, nothing is queued and every accepted task has its outcome. */
  lemma DrainedWhenAllReturned(workers: set<nat>, clients: set<nat>, schedule: seq<Action>)
    requires var s := Execute(Init(workers, clients), schedule);
             s.workers != map[] && forall w :: w in s.workers ==> s.workers[w].Returned?
    ensures var s := Execute(Init(workers, clients), schedule);
            && s.stopping && s.queued == []
            && forall n :: 0 <= n < s.nextSequence ==> n in s.shared && Settled(s.shared[n])
  {
    ReachableInv(workers, clients, schedule);
    var s := Execute(Init(workers, clients), schedule);
    hide Execute;
    var v :| v in s.workers;
    assert WorkerInv(s, v);
    forall n | 0 <= n < s.nextSequence ensures n in s.shared && Settled(s.shared[n]) {
      assert TaskInv(s, n);
    }
  }

  /** No worker sleeps while a task waits for it and no wake-up is coming. */
  lemma NoWakeupIsEverLost(workers: set<nat>, clients: set<nat>, schedule: seq<Action>)
    ensures WakeupInv(Execute(Init(workers, clients), schedule))
  {
    ReachableInv(workers, clients, schedule);
  }

  // ----- the order in which tasks start -----

  lemma WithoutTasks(tasks: seq<Task>, i: nat)
    requires i < |tasks|
    ensures multiset(tasks) == multiset{tasks[i]} + multiset(Without(tasks, i))
  {
    assert tasks == tasks[..i] + [tasks[i]] + tasks[i + 1..];
  }

  /** Taking the first task leaves the rest of the stable sort. */
  lemma TakeIsHeadOfStableSort(tasks: seq<Task>)
    requires InSubmissionOrder(tasks) && tasks != []
    ensures StableSort(tasks) == [tasks[FirstAt(tasks)]] + StableSort(Without(tasks, FirstAt(tasks)))
  {
    var i := FirstAt(tasks);
    var rest := Without(tasks, i);
    WithoutRemoves(tasks, i);
    WithoutTasks(tasks, i);
    StableSortInOrder(rest);
    var order := [tasks[i]] + StableSort(rest);
    forall t | t in multiset(StableSort(rest)) ensures !RunsLater(tasks[i], t) {
      assert t in multiset(tasks);
      var k :| 0 <= k < |tasks| && tasks[k] == t;
    }
    OrderPrepends(tasks[i], StableSort(rest));
    DrainIsStableSort(tasks, order);
  }

  lemma OrderPrepends(task: Task, order: seq<Task>)
    requires InOrder(order) && forall t :: t in multiset(order) ==> !RunsLater(task, t)
    ensures InOrder([task] + order)
  {
    forall i | 0 <= i < |order| ensures !RunsLater(task, order[i]) { assert order[i] in multiset(order); }
  }

  function SequenceOf(tasks: seq<Task>): seq<nat> {
    seq(|tasks|, i requires 0 <= i < |tasks| => tasks[i].sequence)
  }

  /** No action of the schedule submits. */
  predicate NoSubmits(schedule: seq<Action>) {
    forall i :: 0 <= i < |schedule| ==> !schedule[i].Submit?
  }

  /**
    Without new submissions the workers start the queued tasks in the stable sort of their
    submission order by priority, however the workers interleave.
  */
  lemma {:induction false} StartsInStableOrder(s: State, schedule: seq<Action>)
    requires TasksInv(s) && NoSubmits(schedule)
    ensures var s' := Execute(s, schedule);
            TasksInv(s') && s'.started + SequenceOf(StableSort(s'.queued)) == s.started + SequenceOf(StableSort(s.queued))
  {
    if schedule != [] {
      var last := |schedule| - 1;
      StartsInStableOrder(s, schedule[..last]);
      var m := Execute(s, schedule[..last]);
      StepKeepsTasks(m, schedule[last]);
      StepStartsInOrder(m, schedule[last]);
    }
  }

  lemma SequenceOfHead(started: seq<nat>, task: Task, rest: seq<Task>)
    ensures started + SequenceOf([task] + rest) == (started + [task.sequence]) + SequenceOf(rest)
  {
    assert SequenceOf([task] + rest) == [task.sequence] + SequenceOf(rest);
  }

  lemma OtherStepsStartNothing(s: State, action: Action)
    requires !action.Submit?
    requires action.Work? && action.worker in s.workers && s.workers[action.worker].Looks? ==> s.queued == []
    ensures Step(s, action).queued == s.queued && Step(s, action).started == s.started
  {
  }

  lemma StepStartsInOrder(s: State, action: Action)
    requires TasksInv(s) && !action.Submit?
    ensures var s' := Step(s, action);
            s'.started + SequenceOf(StableSort(s'.queued)) == s.started + SequenceOf(StableSort(s.queued))
  {
    hide StableSort, SequenceOf;
    if action.Work? && action.worker in s.workers && s.workers[action.worker].Looks? && s.queued != [] {
      var i := FirstAt(s.queued);
      TakeIsHeadOfStableSort(s.queued);
      SequenceOfHead(s.started, s.queued[i], StableSort(Without(s.queued, i)));
      assert Step(s, action) == WorkerLooks(s, action.worker);
      hide TasksInv, FirstAt, Without, Step;
    } else {
      OtherStepsStartNothing(s, action);
      hide TasksInv, Step;
    }
  }

  // ----- the object -----

  /** The pool's fields, changed in place by its critical sections. */
  class Monitor {
    const heap: Heap
    var nextSequence: nat
    var stopping: bool

    /** The object holds the fields of `s`; the heap arranges what is queued. */
    ghost predicate Represents(s: State)
      reads this, heap
    {
      && IsHeap(heap.tasks) && multiset(heap.tasks) == multiset(s.queued)
      && nextSequence == s.nextSequence && stopping == s.stopping
    }

    constructor (ghost workers: set<nat>, ghost clients: set<nat>)
      ensures Represents(Init(workers, clients)) && fresh(heap)
    {
      heap := new Heap();
      nextSequence, stopping := 0, false;
    }

    /** `submit` under the mutex. */
    method Submit(priority: int, ghost s: State, ghost client: nat) returns (accepted: bool)
      requires Represents(s) && client in s.clients && s.clients[client].Outside?
      modifies this, heap
      ensures Represents(ClientStep(s, Action.Submit(client, priority))) && accepted == !s.stopping
    {
      if stopping { return false; }
      var task := Task(priority, nextSequence);
      heap.Push(task);
      nextSequence := nextSequence + 1;
      accepted := true;
    }

    method Stop(ghost s: State, ghost client: nat)
      requires Represents(s) && client in s.clients && s.clients[client].Outside?
      modifies this
      ensures Represents(ClientStep(s, Shutdown(client)))
    {
      stopping := true;
    }

    /** The worker's critical section: it parks, returns, or takes the task that runs first. */
    method Take(ghost s: State, ghost w: nat) returns (next: Worker)
      requires Represents(s) && w in s.workers && s.workers[w].Looks?
      modifies heap
      ensures Represents(WorkerLooks(s, w)) && next == WorkerLooks(s, w).workers[w]
    {
      SameTasksSameLength(heap.tasks, s.queued);
      if heap.tasks == [] { return if stopping then Returned else Parked; }
      var task := heap.Pop();
      ghost var i := FirstAt(s.queued);
      forall t | t in multiset(s.queued) ensures !RunsLater(s.queued[i], t) {
        var k :| 0 <= k < |s.queued| && s.queued[k] == t;
      }
      FirstIsUnique(task, s.queued[i], multiset(s.queued));
      WithoutTasks(s.queued, i);
      next := Running(task);
    }
  }
}
