/**
  What a call may answer, and how it goes on when it does not answer: every way out of the two
  retry loops, over every schedule, and what a call gets done that nobody disturbs.
*/
module LockFreeQueueAnswers {
  import opened Wrappers
  import opened LockFreeQueue
  import opened LockFreeQueueTheorems

  // ----- every answer is right -----

  /** The answer of thread `tid`, at the step that leads from `s` to it. */
  ghost predicate RightAnswer<T>(s: State<T>, tid: nat, outcome: Outcome<T>)
    requires |s.slots| > 0 && tid in s.threads
  {
    var thread := s.threads[tid];
    match outcome
    case NotCalled => false
    case Empty(ticket) => thread.phase == PopSequence(ticket) && !Published(s, ticket)
    case Full(ticket) =>
      && thread.phase.PushSequence? && thread.phase.pos == ticket
      && ticket >= |s.slots| && !Vacated(s, ticket - |s.slots|)
    case Pushed(ticket) =>
      && thread.phase.PushPublish? && thread.phase.pos == ticket < |s.pushed|
      && s.pushed[ticket] == PushClaimed(tid, thread.calls, thread.phase.value)
      && s.slots[Home(s, ticket)] == Slot(ticket, Some(thread.phase.value))
    case Popped(ticket, result) =>
      && thread.phase == PopRelease(ticket, result) && ticket < |s.pushed| && ticket < |s.popped|
      && s.popped[ticket] == PopClaimed(tid, thread.calls)
      && result == Some(s.pushed[ticket].value)
  }

  lemma OnlyItsAdvanceEnds<T>(s: State<T>, action: Action<T>, tid: nat)
    requires |s.slots| > 0 && tid in s.threads && !s.threads[tid].phase.Done?
    requires Step(s, action).threads[tid].phase.Done?
    ensures action == Advance(tid, action.spurious)
    ensures Step(s, action) == AdvanceThread(s, tid, action.spurious)
  {
    if action.Advance? && action.tid in s.threads { OthersStay(s, action.tid, action.spurious, tid); }
    hide AdvanceThread;
  }

  lemma OthersStay<T>(s: State<T>, tid: nat, spurious: bool, other: nat)
    requires |s.slots| > 0 && tid in s.threads && other in s.threads
    ensures other in AdvanceThread(s, tid, spurious).threads
    ensures other != tid ==> AdvanceThread(s, tid, spurious).threads[other] == s.threads[other]
  {
    hide SlotOf, SignedGap, SameWord, PushDecision, PopDecision;
  }

  /** The accesses that can end a push, and what it then answers. */
  lemma PushEndsWhere<T>(s: State<T>, tid: nat, spurious: bool)
    requires |s.slots| > 0 && tid in s.threads && AdvanceThread(s, tid, spurious).threads[tid].phase.Done?
    ensures var outcome := AdvanceThread(s, tid, spurious).threads[tid].phase.outcome;
            match s.threads[tid].phase
            case PushTicket(_) => false
            case PushSequence(_, pos) => outcome == Full(pos)
            case PushClaim(_, _) => false
            case PushStore(_, _) => false
            case PushPublish(_, pos) => outcome == Pushed(pos)
            case _ => true
  {
    hide SlotOf, SignedGap, SameWord;
  }

  lemma PopEndsWhere<T>(s: State<T>, tid: nat, spurious: bool)
    requires |s.slots| > 0 && tid in s.threads && AdvanceThread(s, tid, spurious).threads[tid].phase.Done?
    ensures var outcome := AdvanceThread(s, tid, spurious).threads[tid].phase.outcome;
            match s.threads[tid].phase
            case PopTicket => false
            case PopSequence(pos) => outcome == Empty(pos)
            case PopClaim(_) => false
            case PopTake(_) => false
            case PopRelease(pos, result) => outcome == Popped(pos, result)
            case _ => true
  {
    hide SlotOf, SignedGap, SameWord;
  }

  lemma RightAnswerInState<T>(s: State<T>, action: Action<T>, tid: nat)
    requires Inv(s) && LagBounded(s) && tid in s.threads && !s.threads[tid].phase.Done?
    requires Step(s, action).threads[tid].phase.Done?
    ensures RightAnswer(s, tid, Step(s, action).threads[tid].phase.outcome)
  {
    OnlyItsAdvanceEnds(s, action, tid);
    PushEndsWhere(s, tid, action.spurious);
    PopEndsWhere(s, tid, action.spurious);
    assert ThreadInv(s, tid);
    hide Step, AdvanceThread, Home, SlotInv, CallsInOrder, TicketsInv, Published, Vacated, LagBounded;
    if s.threads[tid].phase.PopSequence? { EmptyIffNotPublished(s, tid, action.spurious); }
    if s.threads[tid].phase.PushSequence? { FullIffLapNotVacated(s, tid, action.spurious); }
  }

  /**
    In every run, whatever step ends a call: it answers full or empty only at its load of a
    sequence, and only if the ticket one lap back is not vacated, or its ticket not published;
    it answers with success only at its last store, for the ticket it claimed.
  */
  lemma AnswersAreRight<T>(capacity: nat, tids: set<nat>, schedule: seq<Action<T>>, action: Action<T>, tid: nat)
    requires capacity >= 2 && LagBoundedRun(Init(capacity, tids), schedule)
    requires var s := Execute(Init<T>(capacity, tids), schedule);
             tid in s.threads && !s.threads[tid].phase.Done? && Step(s, action).threads[tid].phase.Done?
    ensures var s := Execute(Init<T>(capacity, tids), schedule);
            RightAnswer(s, tid, Step(s, action).threads[tid].phase.outcome)
  {
    ReachableInv(capacity, tids, schedule);
    var s := Execute(Init<T>(capacity, tids), schedule);
    hide Execute, Step, RightAnswer;
    assert schedule[..|schedule|] == schedule;
    RightAnswerInState(s, action, tid);
  }

  // ----- a call that does not answer goes on -----

  /** Only the thread's phase differs. */
  ghost predicate OnlyMoved<T>(s: State<T>, s': State<T>, tid: nat, phase: Phase<T>)
    requires tid in s.threads
  {
    s' == s.(threads := s.threads[tid := Thread(s.threads[tid].calls, phase)])
  }

  /**
    A load of the counter gets the current ticket.  A claim succeeds exactly when its ticket is
    current and the compare and swap does not fail spuriously; a lost one goes on with the current
    ticket and changes nothing else.
  */
  lemma PopGoesOn<T>(s: State<T>, tid: nat, spurious: bool)
    requires Inv(s) && LagBounded(s) && tid in s.threads
    ensures var s', thread := Step(s, Advance(tid, spurious)), s.threads[tid];
            match thread.phase
            case PopTicket => OnlyMoved(s, s', tid, PopSequence(s.dequeue))
            case PopSequence(pos) =>
              && (Published(s, pos) ==> OnlyMoved(s, s', tid, PopClaim(pos)) || OnlyMoved(s, s', tid, PopTicket))
              && (Published(s, pos) && pos == s.dequeue ==> OnlyMoved(s, s', tid, PopClaim(pos)))
            case PopClaim(pos) =>
              if pos == s.dequeue && !spurious then
                s' == s.(dequeue := pos + 1, popped := s.popped + [PopClaimed(tid, thread.calls)],
                         threads := s.threads[tid := Thread(thread.calls, PopTake(pos))])
              else OnlyMoved(s, s', tid, PopSequence(s.dequeue))
            case _ => true
  {
    if s.threads[tid].phase.PopClaim? { ClaimTestsAgree(s, tid); }
    if s.threads[tid].phase.PopSequence? {
      var pos := s.threads[tid].phase.pos;
      EmptyIffNotPublished(s, tid, spurious);
      if Published(s, pos) && pos == s.dequeue {
        WaitingHolds(s, pos);
        PopTestsAgree(s, tid);
      }
    }
  }

  lemma PushGoesOn<T>(s: State<T>, tid: nat, spurious: bool)
    requires Inv(s) && LagBounded(s) && tid in s.threads
    ensures var s', thread := Step(s, Advance(tid, spurious)), s.threads[tid];
            match thread.phase
            case PushTicket(value) => OnlyMoved(s, s', tid, PushSequence(value, s.enqueue))
            case PushSequence(value, pos) =>
              var room := pos < |s.slots| || Vacated(s, pos - |s.slots|);
              && (room ==> OnlyMoved(s, s', tid, PushClaim(value, pos)) || OnlyMoved(s, s', tid, PushTicket(value)))
              && (room && pos == s.enqueue ==> OnlyMoved(s, s', tid, PushClaim(value, pos)))
            case PushClaim(value, pos) =>
              if pos == s.enqueue && !spurious then
                s' == s.(enqueue := pos + 1, pushed := s.pushed + [PushClaimed(tid, thread.calls, value)],
                         threads := s.threads[tid := Thread(thread.calls, PushStore(value, pos))])
              else OnlyMoved(s, s', tid, PushSequence(value, s.enqueue))
            case _ => true
  {
    if s.threads[tid].phase.PushClaim? { ClaimTestsAgree(s, tid); }
    if s.threads[tid].phase.PushSequence? {
      var pos := s.threads[tid].phase.pos;
      FullIffLapNotVacated(s, tid, spurious);
      if (pos < |s.slots| || Vacated(s, pos - |s.slots|)) && pos == s.enqueue {
        RoomForNext(s);
        PushTestsAgree(s, tid);
      }
    }
  }

  /** Where the next ticket's slot is vacated, its sequence is that ticket. */
  lemma RoomForNext<T>(s: State<T>)
    requires Inv(s) && (s.enqueue < |s.slots| || Vacated(s, s.enqueue - |s.slots|))
    ensures s.slots[Home(s, s.enqueue)] == Slot(s.enqueue, None)
  {
    var pos, i := s.enqueue, Home(s, s.enqueue);
    assert SlotInv(s, i);
    var c := Serving(s.slots[i].sequence, i, |s.slots|);
    Apart(c, pos, |s.slots|);
    if pos >= |s.slots| {
      var back := pos - |s.slots|;
      NextLapSlot(back, |s.slots|);
      NextSlotDiffers(back, |s.slots|);
      Apart(c, back, |s.slots|);
      assert back < s.dequeue && ReturnedInv(s, back);
    }
  }

  // ----- a pop nobody disturbs -----

  function PopAlone<T>(tid: nat): seq<Action<T>> { [CallPop(tid)] + Moves(tid, 5) }

  lemma PopClaimsAlone<T>(s: State<T>, tid: nat, calls: nat)
    requires |s.slots| > 0 && tid in s.threads && s.threads[tid] == Thread(calls, PopTicket)
    requires s.slots[Home(s, s.dequeue)].sequence == s.dequeue + 1
    ensures Execute(s, Moves(tid, 2)) == s.(threads := s.threads[tid := Thread(calls, PopClaim(s.dequeue))])
  {
    hide Execute, Moves, SlotOf;
    var s1 := s.(threads := s.threads[tid := Thread(calls, PopSequence(s.dequeue))]);
    assert Step(s, Advance(tid, false)) == s1;
    MovesTwice(s, s1, tid);
    MapTwice(s.threads, tid, Thread(calls, PopSequence(s.dequeue)), Thread(calls, PopClaim(s.dequeue)));
  }

  lemma PopTakesAlone<T>(s: State<T>, tid: nat, calls: nat)
    requires |s.slots| > 0 && tid in s.threads && s.threads[tid] == Thread(calls, PopClaim(s.dequeue))
    ensures var i, pos := Home(s, s.dequeue), s.dequeue;
            Execute(s, Moves(tid, 2)) ==
            s.(slots := s.slots[i := s.slots[i].(value := None)], dequeue := pos + 1,
               threads := s.threads[tid := Thread(calls, PopRelease(pos, s.slots[i].value))],
               popped := s.popped + [PopClaimed(tid, calls)])
  {
    var pos := s.dequeue;
    var s1 := s.(dequeue := pos + 1, threads := s.threads[tid := Thread(calls, PopTake(pos))],
                 popped := s.popped + [PopClaimed(tid, calls)]);
    StepClaims1(s, tid, calls);
    StepTakes1(s1, tid, calls, pos);
    SameHome(s, s1, pos);
    hide Execute, Moves, Step, Home;
    MovesTwice(s, s1, tid);
    MapTwice(s.threads, tid, Thread(calls, PopTake(pos)), Thread(calls, PopRelease(pos, s.slots[Home(s, pos)].value)));
  }

  lemma StepClaims1<T>(s: State<T>, tid: nat, calls: nat)
    requires |s.slots| > 0 && tid in s.threads && s.threads[tid] == Thread(calls, PopClaim(s.dequeue))
    ensures Step(s, Advance(tid, false)) ==
            s.(dequeue := s.dequeue + 1, threads := s.threads[tid := Thread(calls, PopTake(s.dequeue))],
               popped := s.popped + [PopClaimed(tid, calls)])
  {
    hide SlotOf, SignedGap;
  }

  lemma StepTakes1<T>(s: State<T>, tid: nat, calls: nat, pos: nat)
    requires |s.slots| > 0 && tid in s.threads && s.threads[tid] == Thread(calls, PopTake(pos))
    ensures var i := Home(s, pos);
            Step(s, Advance(tid, false)) ==
            s.(slots := s.slots[i := s.slots[i].(value := None)],
               threads := s.threads[tid := Thread(calls, PopRelease(pos, s.slots[i].value))])
  {
    hide SlotOf, SignedGap;
  }

  lemma PopReleasesAlone<T>(s: State<T>, tid: nat, calls: nat, pos: nat, result: Option<T>)
    requires |s.slots| > 0 && tid in s.threads && s.threads[tid] == Thread(calls, PopRelease(pos, result))
    ensures Execute(s, Moves(tid, 1)) ==
            s.(slots := s.slots[Home(s, pos) := s.slots[Home(s, pos)].(sequence := pos + |s.slots|)],
               threads := s.threads[tid := Thread(calls, Done(Popped(pos, result)))],
               returned := s.returned[pos := result])
  {
    hide Execute, Moves, SlotOf;
    MovesStart(s, tid);
  }

  lemma PopBeginsAlone<T>(s: State<T>, tid: nat)
    requires |s.slots| > 0 && tid in s.threads && s.threads[tid].phase.Done?
    ensures var s1 := s.(threads := s.threads[tid := Thread(s.threads[tid].calls + 1, PopTicket)]);
            Execute(s, PopAlone(tid)) ==
            Execute(Execute(Execute(s1, Moves(tid, 2)), Moves(tid, 2)), Moves(tid, 1))
  {
    hide Execute, Moves;
    var s1 := s.(threads := s.threads[tid := Thread(s.threads[tid].calls + 1, PopTicket)]);
    var two, one := Moves<T>(tid, 2), Moves<T>(tid, 1);
    assert Step(s, CallPop(tid)) == s1;
    hide Step;
    ExecuteOne(s, CallPop(tid));
    ExecuteConcat(s, [CallPop(tid)], Moves(tid, 5));
    MovesAdd<T>(tid, 2, 2);
    MovesAdd<T>(tid, 4, 1);
    ExecuteConcat(s1, two + two, one);
    ExecuteConcat(s1, two, two);
  }

  /** The state after a pop has taken the ticket at the head, its slot vacated for the next lap. */
  function HeadTaken<T>(s: State<T>, tid: nat, calls: nat): State<T>
    requires |s.slots| > 0
  {
    var pos, i := s.dequeue, Home(s, s.dequeue);
    var value := s.slots[i].value;
    s.(slots := s.slots[i := Slot(pos + |s.slots|, None)], dequeue := pos + 1,
       threads := s.threads[tid := Thread(calls, Done(Popped(pos, value)))],
       popped := s.popped + [PopClaimed(tid, calls)], returned := s.returned[pos := value])
  }

  lemma PopEmptiesSlot<T>(s: State<T>, tid: nat, calls: nat)
    requires |s.slots| > 0 && tid in s.threads && s.threads[tid] == Thread(calls, PopTicket)
    requires s.slots[Home(s, s.dequeue)].sequence == s.dequeue + 1
    ensures Execute(Execute(Execute(s, Moves(tid, 2)), Moves(tid, 2)), Moves(tid, 1)) == HeadTaken(s, tid, calls)
  {
    hide Execute, Step, Home, Moves;
    var pos := s.dequeue;
    SameHome(s, s, pos);
    var i := Home(s, pos);
    var value := s.slots[i].value;
    PopClaimsAlone(s, tid, calls);
    var s2 := s.(threads := s.threads[tid := Thread(calls, PopClaim(pos))]);
    PopTakesAlone(s2, tid, calls);
    SameHome(s, s2, pos);
    MapTwice(s.threads, tid, Thread(calls, PopClaim(pos)), Thread(calls, PopRelease(pos, value)));
    var s3 := s.(slots := s.slots[i := s.slots[i].(value := None)], dequeue := pos + 1,
                 threads := s.threads[tid := Thread(calls, PopRelease(pos, value))],
                 popped := s.popped + [PopClaimed(tid, calls)]);
    assert Execute(s2, Moves(tid, 2)) == s3;
    PopReleasesAlone(s3, tid, calls, pos, value);
    SameHome(s, s3, pos);
    MapTwice(s.threads, tid, Thread(calls, PopRelease(pos, value)), Thread(calls, Done(Popped(pos, value))));
    SeqTwice(s.slots, i, s.slots[i].(value := None), Slot(pos + |s.slots|, None));
  }

  lemma HeadTakenFrom<T>(s: State<T>, tid: nat)
    requires |s.slots| > 0 && tid in s.threads
    ensures var calls := s.threads[tid].calls + 1;
            var s1 := s.(threads := s.threads[tid := Thread(calls, PopTicket)]);
            HeadTaken(s1, tid, calls) == HeadTaken(s, tid, calls)
  {
    hide SlotOf;
    var calls := s.threads[tid].calls + 1;
    MapTwice(s.threads, tid, Thread(calls, PopTicket), Thread(calls, Done(Popped(s.dequeue, s.slots[Home(s, s.dequeue)].value))));
  }

  lemma PopAloneTakesInState<T>(s: State<T>, tid: nat)
    requires |s.slots| > 0 && tid in s.threads && s.threads[tid].phase.Done?
    requires s.slots[Home(s, s.dequeue)].sequence == s.dequeue + 1
    ensures Execute(s, PopAlone(tid)) == HeadTaken(s, tid, s.threads[tid].calls + 1)
  {
    PopBeginsAlone(s, tid);
    var calls := s.threads[tid].calls + 1;
    var s1 := s.(threads := s.threads[tid := Thread(calls, PopTicket)]);
    hide Execute, Step, Home, Moves, PopAlone, HeadTaken;
    SameHome(s, s1, s.dequeue);
    PopEmptiesSlot(s1, tid, calls);
    HeadTakenFrom(s, tid);
  }

  /** The head of a reachable ring, once published, is in its slot with its value. */
  lemma PublishedHead<T>(s: State<T>)
    requires Inv(s) && Published(s, s.dequeue)
    ensures s.dequeue < |s.pushed|
    ensures s.slots[Home(s, s.dequeue)] == Slot(s.dequeue + 1, Some(s.pushed[s.dequeue].value))
  {
    WaitingHolds(s, s.dequeue);
  }

  lemma InitSlots<T>(capacity: nat, tids: set<nat>)
    ensures |Init<T>(capacity, tids).slots| == capacity
  {
  }

  /**
    In every reachable state whose oldest ticket is published, a pop that runs alone takes it in
    six accesses: it returns that ticket's value and vacates the slot for the next lap.
  */
  lemma PopAloneTakes<T>(capacity: nat, tids: set<nat>, schedule: seq<Action<T>>, tid: nat)
    requires capacity >= 2 && LagBoundedRun(Init(capacity, tids), schedule)
    requires var s := Execute(Init<T>(capacity, tids), schedule);
             tid in s.threads && s.threads[tid].phase.Done? && Published(s, s.dequeue)
    ensures var s := Execute(Init<T>(capacity, tids), schedule);
            && s.dequeue < |s.pushed|
            && s.slots[Home(s, s.dequeue)].value == Some(s.pushed[s.dequeue].value)
            && Execute(s, PopAlone(tid)) == HeadTaken(s, tid, s.threads[tid].calls + 1)
  {
    hide *;
    InitSlots<T>(capacity, tids);
    ReachableInv(capacity, tids, schedule);
    var s := Execute(Init<T>(capacity, tids), schedule);
    PublishedHead(s);
    PopAloneTakesInState(s, tid);
  }
}
