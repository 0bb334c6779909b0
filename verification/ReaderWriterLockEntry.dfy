/**
  Who enters, who waits, who gives up and who is notified, told from the threads alone: where they
  are when a call is made decides it, in every run.
*/
module ReaderWriterLockEntry {
  import opened ReaderWriterLock

  /** Some thread reads or writes. */
  ghost predicate Occupied(s: State) {
    exists t :: t in s.threads && (s.threads[t].Reading? || s.threads[t].Writing?)
  }

  ghost predicate Written(s: State) {
    exists t :: t in s.threads && s.threads[t].Writing?
  }

  /** Some writer waits, other than `tid`. */
  ghost predicate Awaited(s: State, tid: nat) {
    exists t :: t in s.threads && t != tid && IsWaiting(s.threads[t])
  }

  ghost predicate ReadBesides(s: State, tid: nat) {
    exists t :: t in s.threads && t != tid && s.threads[t].Reading?
  }

  /** The step of `tid` that ends in `phase` and moves nobody else. */
  ghost predicate Moves(s: State, s': State, tid: nat, phase: Phase) {
    s'.threads == s.threads[tid := phase]
  }

  /** What the fields tell is what the threads do. */
  lemma FieldsTell(s: State, tid: nat)
    requires Counted(s)
    ensures s.fields.writerActive || s.fields.activeReaders > 0 <==> Occupied(s)
    ensures s.fields.writerActive <==> Written(s)
    ensures tid in s.threads && !IsWaiting(s.threads[tid]) ==> (s.fields.waitingWriters > 0 <==> Awaited(s, tid))
    ensures tid in s.threads && IsWaiting(s.threads[tid]) ==> (s.fields.waitingWriters > 1 <==> Awaited(s, tid))
    ensures tid in s.threads && s.threads[tid].Reading? ==> (s.fields.activeReaders > 1 <==> ReadBesides(s, tid))
  {
    ReadersTell(s, tid);
    WaitersTell(s, tid);
    if s.fields.writerActive { var t :| t in Writers(s); }
    if s.fields.activeReaders > 0 { var t :| t in Readers(s); }
    forall t | t in s.threads
      ensures s.threads[t].Writing? ==> s.fields.writerActive
      ensures s.threads[t].Reading? ==> s.fields.activeReaders > 0
    {
      CountsOfThread(s, t);
    }
  }

  /** A set that holds `t` has more than one member exactly when it holds another. */
  lemma OneMore(all: set<nat>, t: nat)
    requires t in all
    ensures |all| > 1 <==> exists u :: u in all && u != t
  {
    var others := all - {t};
    assert all == others + {t};
    if |all| > 1 { var u :| u in others; }
    if others == {} { assert all == {t}; }
  }

  lemma ReadersTell(s: State, tid: nat)
    requires Counted(s)
    ensures tid in s.threads && s.threads[tid].Reading? ==> (s.fields.activeReaders > 1 <==> ReadBesides(s, tid))
  {
    if tid in s.threads && s.threads[tid].Reading? {
      OneMore(Readers(s), tid);
      assert forall t :: t in Readers(s) <==> t in s.threads && s.threads[t].Reading?;
    }
  }

  lemma WaitersTell(s: State, tid: nat)
    requires Counted(s)
    ensures tid in s.threads && !IsWaiting(s.threads[tid]) ==> (s.fields.waitingWriters > 0 <==> Awaited(s, tid))
    ensures tid in s.threads && IsWaiting(s.threads[tid]) ==> (s.fields.waitingWriters > 1 <==> Awaited(s, tid))
  {
    assert forall t :: t in Waiters(s) <==> t in s.threads && IsWaiting(s.threads[t]);
    if tid in s.threads {
      if IsWaiting(s.threads[tid]) {
        OneMore(Waiters(s), tid);
      } else if |Waiters(s)| > 0 {
        var t :| t in Waiters(s);
      }
    }
  }

  /**
    A thread outside that wants to write gets in exactly when nobody reads or writes.  Otherwise
    `try_lock` leaves it outside and `lock` parks it.
  */
  lemma WriterEntersIffFree(tids: set<nat>, schedule: seq<Action>, tid: nat, timed: bool)
    requires var s := Execute(Init(tids), schedule); tid in s.threads && s.threads[tid].Outside?
    ensures var s := Execute(Init(tids), schedule);
            && Moves(s, Step(s, TryLock(tid)), tid, if Occupied(s) then Outside else Writing)
            && Moves(s, Step(s, Lock(tid, timed)), tid, if Occupied(s) then WriterParked(timed) else Writing)
  {
    ReachableInv(tids, schedule);
    FieldsTell(Execute(Init(tids), schedule), tid);
    hide Execute, Occupied, Written, Awaited, ReadBesides;
  }

  /** One that wants to read gets in exactly when no writer holds or awaits the lock. */
  lemma ReaderEntersIffUnclaimed(tids: set<nat>, schedule: seq<Action>, tid: nat, timed: bool)
    requires var s := Execute(Init(tids), schedule); tid in s.threads && s.threads[tid].Outside?
    ensures var s := Execute(Init(tids), schedule);
            var held := Written(s) || Awaited(s, tid);
            && Moves(s, Step(s, TryLockShared(tid)), tid, if held then Outside else Reading)
            && Moves(s, Step(s, LockShared(tid, timed)), tid, if held then ReaderParked(timed) else Reading)
  {
    ReachableInv(tids, schedule);
    FieldsTell(Execute(Init(tids), schedule), tid);
    hide Execute, Occupied, Written, Awaited, ReadBesides;
  }

  /**
    A woken thread looks again by the same rule.  It gives up only when it is out of time, and a
    writer who does so owes the readers a notification exactly when nobody else holds them back.
  */
  lemma WokenLooksAgain(tids: set<nat>, schedule: seq<Action>, tid: nat, timedOut: bool)
    requires var s := Execute(Init(tids), schedule);
             tid in s.threads && (s.threads[tid].WriterAwake? || s.threads[tid].ReaderAwake?)
    ensures var s := Execute(Init(tids), schedule);
            var s', timed := Step(s, Resume(tid, timedOut)), s.threads[tid].timed;
            if s.threads[tid].WriterAwake? then
              Moves(s, s', tid,
                    if !Occupied(s) then Writing
                    else if !timed || !timedOut then WriterParked(timed)
                    else if !Written(s) && !Awaited(s, tid) then OwesReaders
                    else Outside)
            else
              Moves(s, s', tid,
                    if !Written(s) && !Awaited(s, tid) then Reading
                    else if !timed || !timedOut then ReaderParked(timed)
                    else Outside)
  {
    ReachableInv(tids, schedule);
    var s := Execute(Init(tids), schedule);
    FieldsTell(s, tid);
    CountsOfThread(s, tid);
    hide Execute, Occupied, Written, Awaited, ReadBesides;
  }

  /** Who leaves, and whom it owes a notification. */
  lemma LeavingOwes(tids: set<nat>, schedule: seq<Action>, tid: nat)
    requires var s := Execute(Init(tids), schedule);
             tid in s.threads && (s.threads[tid].Writing? || s.threads[tid].Reading?)
    ensures var s := Execute(Init(tids), schedule);
            if s.threads[tid].Writing? then
              Moves(s, Step(s, Unlock(tid)), tid, if Awaited(s, tid) then OwesWriter else OwesReaders)
            else
              Moves(s, Step(s, UnlockShared(tid)), tid,
                    if !ReadBesides(s, tid) && Awaited(s, tid) then OwesWriter else Outside)
  {
    ReachableInv(tids, schedule);
    var s := Execute(Init(tids), schedule);
    FieldsTell(s, tid);
    CountsOfThread(s, tid);
    hide Execute, Occupied, Written, Awaited, ReadBesides;
  }

  /** A notification owed wakes one parked writer, of the scheduler's choice, or all parked readers. */
  lemma NotificationWakes(s: State, tid: nat, target: nat)
    requires tid in s.threads && target in s.threads
    ensures s.threads[tid].OwesWriter? && s.threads[target].WriterParked? ==>
              Step(s, Notify(tid, target)).threads
              == s.threads[target := WriterAwake(s.threads[target].timed)][tid := Outside]
    ensures s.threads[tid].OwesWriter? && (forall t :: t in s.threads ==> !s.threads[t].WriterParked?) ==>
              Moves(s, Step(s, Notify(tid, target)), tid, Outside)
    ensures s.threads[tid].OwesReaders? ==>
              var after := Step(s, Notify(tid, target)).threads;
              && after.Keys == s.threads.Keys && after[tid] == Outside
              && forall t :: t in s.threads && t != tid ==>
                   after[t] == if s.threads[t].ReaderParked? then ReaderAwake(s.threads[t].timed) else s.threads[t]
  {
  }
}
