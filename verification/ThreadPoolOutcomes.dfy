/**
  What a task comes to is what its future delivers; and what each call to the pool, and each stage
  of a worker, does.
*/
module ThreadPoolOutcomes {
  import opened Wrappers
  import opened PriorityHeap
  import opened TaskFuture
  import opened ThreadPool

  // ----- the history -----

  /**
    What each task that has run came to, read off the schedule: the ending of the stage in which a
    worker was running it.
  */
  function Endings(workers: set<nat>, clients: set<nat>, schedule: seq<Action>): map<nat, Ending> {
    if schedule == [] then map[]
    else
      var front, action := schedule[..|schedule| - 1], schedule[|schedule| - 1];
      var s := Execute(Init(workers, clients), front);
      EndingsAfter(s, Endings(workers, clients, front), action)
  }

  function EndingsAfter(s: State, endings: map<nat, Ending>, action: Action): map<nat, Ending> {
    if action.Work? && action.worker in s.workers && s.workers[action.worker].Running?
    then endings[s.workers[action.worker].task.sequence := action.ending]
    else endings
  }

  /** The outcome a future is to deliver: the value returned, or the exception thrown. */
  function Delivers(ending: Ending): Shared<int> {
    match ending
    case Result(value) => Value(value)
    case Thrown(error) => Exception(error)
  }

  ghost predicate EndingsInv(s: State, endings: map<nat, Ending>) {
    && (forall w :: w in s.workers && s.workers[w].Storing? ==>
          var n := s.workers[w].task.sequence; n in endings && endings[n] == s.workers[w].ending)
    && (forall w :: w in s.workers && s.workers[w].Running? ==> s.workers[w].task.sequence !in endings)
    && (forall n :: n in s.shared && HasOutcome(s.shared[n]) ==> n in endings && s.shared[n] == Delivers(endings[n]))
    && (forall n :: n in endings ==> n in s.started)
  }

  lemma TakeKeepsEndings(s: State, endings: map<nat, Ending>, w: nat)
    requires TasksInv(s) && EndingsInv(s, endings) && w in s.workers && s.workers[w].Looks?
    ensures EndingsInv(WorkerLooks(s, w), endings)
  {
    if s.queued != [] {
      var n := s.queued[FirstAt(s.queued)].sequence;
      assert n in Sequences(s.queued);
      hide QueueInv, HoldersInv, Sequences, FirstAt, Without;
      assert TaskInv(s, n);
    }
  }

  lemma RunKeepsEndings(s: State, endings: map<nat, Ending>, w: nat, ending: Ending)
    requires TasksInv(s) && EndingsInv(s, endings) && w in s.workers && s.workers[w].Running?
    ensures EndingsInv(WorkerStep(s, w, ending), EndingsAfter(s, endings, Work(w, ending)))
  {
    hide QueueInv, TaskInv, WorkerLooks, WorkerStores;
    var n := s.workers[w].task.sequence;
    assert WorkerInv(s, w);
    forall v | v in s.workers && v != w && (s.workers[v].Running? || s.workers[v].Storing?)
      ensures s.workers[v].task.sequence != n
    {
      assert !Holds(s.workers[v], n);
    }
  }

  lemma StoreKeepsEndings(s: State, endings: map<nat, Ending>, w: nat, ending: Ending)
    requires TasksInv(s) && EndingsInv(s, endings) && w in s.workers
    requires s.workers[w].Storing? || s.workers[w].Releasing?
    ensures EndingsInv(WorkerStep(s, w, ending), endings)
  {
    hide QueueInv, TaskInv, HoldersInv, WorkerLooks;
    assert WorkerInv(s, w);
  }

  lemma WorkKeepsEndings(s: State, endings: map<nat, Ending>, w: nat, ending: Ending)
    requires TasksInv(s) && EndingsInv(s, endings) && w in s.workers
    ensures EndingsInv(WorkerStep(s, w, ending), EndingsAfter(s, endings, Work(w, ending)))
  {
    hide TasksInv, EndingsInv, WorkerLooks, WorkerStores;
    match s.workers[w]
    case Looks => TakeKeepsEndings(s, endings, w);
    case Running(_) => RunKeepsEndings(s, endings, w, ending);
    case Storing(_, _) => StoreKeepsEndings(s, endings, w, ending);
    case Releasing(_) => StoreKeepsEndings(s, endings, w, ending);
    case _ =>
  }

  lemma OthersKeepEndings(s: State, endings: map<nat, Ending>, action: Action)
    requires TasksInv(s) && EndingsInv(s, endings) && !action.Work?
    ensures EndingsInv(Step(s, action), endings)
  {
    assert action.Submit? ==> forall n :: n in s.shared && n != s.nextSequence ==> n in Step(s, action).shared;
    hide QueueInv, TaskInv, HoldersInv, WorkerInv, ParkedWorkers;
  }

  lemma {:induction false} EndingsHold(workers: set<nat>, clients: set<nat>, schedule: seq<Action>)
    ensures EndingsInv(Execute(Init(workers, clients), schedule), Endings(workers, clients, schedule))
  {
    hide EndingsInv, EndingsAfter, WorkerStep, TasksInv, ClientStep;
    if schedule == [] {
      NoEndings(workers, clients);
    } else {
      var front, action := schedule[..|schedule| - 1], schedule[|schedule| - 1];
      var s := Execute(Init(workers, clients), front);
      var endings := Endings(workers, clients, front);
      EndingsHold(workers, clients, front);
      ThreadPool.ReachableInv(workers, clients, front);
      if action.Work? && action.worker in s.workers {
        WorkKeepsEndings(s, endings, action.worker, action.ending);
      } else {
        NoNewEnding(s, endings, action);
        if action.Work? { assert Step(s, action) == s; } else { OthersKeepEndings(s, endings, action); }
      }
    }
  }

  lemma NoEndings(workers: set<nat>, clients: set<nat>)
    ensures EndingsInv(Init(workers, clients), map[])
  {
  }

  lemma NoNewEnding(s: State, endings: map<nat, Ending>, action: Action)
    requires !(action.Work? && action.worker in s.workers)
    ensures EndingsAfter(s, endings, action) == endings
  {
  }

  /**
    In every run: once a task has an outcome, its future delivers a value if and only if the task
    returned, and that value; and an exception if and only if the task threw, and that one.
  */
  lemma OutcomeIsWhatTheTaskCameTo(workers: set<nat>, clients: set<nat>, schedule: seq<Action>, n: nat)
    requires n in Execute(Init(workers, clients), schedule).settled
    ensures var s, endings := Execute(Init(workers, clients), schedule), Endings(workers, clients, schedule);
            && n in s.shared && n in endings
            && (forall value :: s.shared[n] == Value(value) <==> endings[n] == Result(value))
            && (forall error :: s.shared[n] == Exception(error) <==> endings[n] == Thrown(error))
  {
    EndingsHold(workers, clients, schedule);
    ThreadPool.ReachableInv(workers, clients, schedule);
    var s := Execute(Init(workers, clients), schedule);
    hide Execute;
    assert n < s.nextSequence && TaskInv(s, n);
  }

  /** When all workers have returned, that is so of every accepted task. */
  lemma EveryOutcomeIsDelivered(workers: set<nat>, clients: set<nat>, schedule: seq<Action>, n: nat)
    requires var s := Execute(Init(workers, clients), schedule);
             && s.workers != map[] && (forall w :: w in s.workers ==> s.workers[w].Returned?)
             && n < s.nextSequence
    ensures var s, endings := Execute(Init(workers, clients), schedule), Endings(workers, clients, schedule);
            && n in s.shared && n in endings
            && match endings[n]
               case Result(value) => s.shared[n] == Value(value)
               case Thrown(error) => s.shared[n] == Exception(error)
  {
    EndingsHold(workers, clients, schedule);
    DrainedWhenAllReturned(workers, clients, schedule);
  }

  // ----- calls and stages -----

  /** A submission is accepted unless the pool is stopping: its own task, with the next sequence number. */
  lemma SubmitAnswers(s: State, client: nat, priority: int)
    requires client in s.clients && s.clients[client].Outside?
    ensures var s' := Step(s, Submit(client, priority));
            if s.stopping then s' == s
            else s' == s.(queued := s.queued + [Task(priority, s.nextSequence)], nextSequence := s.nextSequence + 1,
                          shared := s.shared[s.nextSequence := Empty], clients := s.clients[client := Owes])
  {
  }

  /** A shutdown stops admissions and, having woken every worker, comes back when all have returned. */
  lemma ShutdownAnswers(s: State, client: nat, target: nat)
    requires client in s.clients
    ensures s.clients[client].Outside? ==>
              Step(s, Shutdown(client)) == s.(stopping := true, clients := s.clients[client := OwesStop])
    ensures s.clients[client].OwesStop? ==>
              var s' := Step(s, Notify(client, target));
              && s'.clients == s.clients[client := Joining]
              && forall w :: w in s.workers && s.workers[w].Parked? ==> w in s'.workers && s'.workers[w].Looks?
    ensures s.clients[client].Joining? ==>
              (Step(s, Join(client)).clients[client].Outside? <==> forall w :: w in s.workers ==> s.workers[w].Returned?)
  {
  }

  /**
    A worker that looks takes a task whenever one is queued: the one of highest priority and, among
    equals, submitted first.  On an empty queue it returns if the pool is stopping and sleeps if not.
  */
  lemma WorkerTakes(s: State, w: nat, ending: Ending)
    requires w in s.workers && s.workers[w].Looks?
    ensures var s' := Step(s, Work(w, ending));
            if s.queued == [] then
              s' == s.(workers := s.workers[w := if s.stopping then Returned else Parked])
            else
              && s'.workers[w].Running? && s'.workers == s.workers[w := s'.workers[w]]
              && var task := s'.workers[w].task;
                 && multiset(s.queued) == multiset(s'.queued) + multiset{task}
                 && s'.started == s.started + [task.sequence]
                 && forall k :: 0 <= k < |s.queued| ==>
                      || s.queued[k].priority < task.priority
                      || (s.queued[k].priority == task.priority && s.queued[k].sequence >= task.sequence)
  {
    if s.queued != [] {
      var i := FirstAt(s.queued);
      WithoutTasks(s.queued, i);
      assert forall k :: 0 <= k < |s.queued| ==> !RunsLater(s.queued[i], s.queued[k]);
    }
  }

  /** What it took it runs to its end, stores what that was, drops the promise and looks again. */
  lemma WorkerGoesOn(s: State, w: nat, ending: Ending)
    requires TasksInv(s) && w in s.workers
    ensures var s' := Step(s, Work(w, ending));
            match s.workers[w]
            case Running(task) => s' == s.(workers := s.workers[w := Storing(task, ending)])
            case Storing(task, came) =>
              && s'.workers == s.workers[w := Releasing(task)]
              && s'.shared == s.shared[task.sequence := Delivers(came)]
              && s'.settled == s.settled + [task.sequence]
            case Releasing(task) => s'.workers == s.workers[w := Looks] && s'.shared == s.shared
            case _ => true
  {
    assert WorkerInv(s, w);
    hide QueueInv, HoldersInv, Sequences, FirstAt, Without;
    match s.workers[w]
    case Running(task) =>
    case Storing(task, _) => assert TaskInv(s, task.sequence);
    case Releasing(task) => assert TaskInv(s, task.sequence);
    case _ =>
  }

  // ----- the wrapper round a task -----

  /**
    What a worker calls: the task inside a try, whose catch stores the exception.  On an unset
    promise exactly what the task came to is stored; otherwise both stores throw.
  */
  method RunTask(promise: Promise<int>, ending: Ending) returns (survived: bool)
    requires promise.Valid() && promise.state != null
    modifies promise.state
    ensures promise.Valid() && promise.state == old(promise.state)
    ensures survived <==> old(promise.state.View()).Empty?
    ensures survived ==>
              promise.state.View() == match ending case Result(value) => Value(value) case Thrown(error) => Exception(error)
    ensures !survived ==> promise.state.View() == old(promise.state.View())
  {
    match ending
    case Result(value) =>
      survived := promise.SetValue(value);
      if !survived {
        var alreadySet: nat := 0;
        survived := promise.SetException(Some(alreadySet));
      }
    case Thrown(error) =>
      survived := promise.SetException(Some(error));
  }
}
