/**
  What the ring promises over every schedule of any number of threads: nothing is lost,
  duplicated or invented, tickets are served in order, and a refused call was right.
*/
module LockFreeQueueTheorems {
  import opened Wrappers
  import opened LockFreeQueue

  /** A pushed ticket that no pop has claimed: in its slot, or still with its pusher. */
  ghost predicate Waiting<T>(s: State<T>, ticket: nat)
    requires |s.slots| > 0 && ticket < |s.pushed|
  {
    var entry := s.pushed[ticket];
    || s.slots[Home(s, ticket)] == Slot(ticket + 1, Some(entry.value))
    || (&& entry.tid in s.threads
        && (s.threads[entry.tid].phase == PushStore(entry.value, ticket)
            || s.threads[entry.tid].phase == PushPublish(entry.value, ticket)))
  }

  /** A claimed pop ticket: returned with its push's value, or held by its one popper. */
  ghost predicate Served<T>(s: State<T>, ticket: nat)
    requires |s.slots| > 0 && ticket < |s.pushed| && ticket < |s.popped|
  {
    var value := s.pushed[ticket].value;
    if ticket in s.returned then
      && s.returned[ticket] == Some(value)
      && forall tid :: tid in s.threads ==> !OwnsPop(s, tid, ticket)
    else
      && var holder := s.popped[ticket].tid;
         && OwnsPop(s, holder, ticket)
         && (forall tid :: tid in s.threads && OwnsPop(s, tid, ticket) ==> tid == holder)
         && (s.threads[holder].phase.PopTake? ==> s.slots[Home(s, ticket)].value == Some(value))
         && (s.threads[holder].phase.PopRelease? ==> s.threads[holder].phase.result == Some(value))
  }

  /** Every claimed ticket is accounted for, once, with the value it was pushed with. */
  ghost predicate Conserved<T>(s: State<T>) {
    && |s.slots| > 0
    && |s.popped| <= |s.pushed|
    && (forall t :: 0 <= t < |s.popped| ==> Served(s, t))
    && (forall t :: |s.popped| <= t < |s.pushed| ==> Waiting(s, t))
    && (forall t :: t in s.returned ==> t < |s.popped|)
  }

  lemma WaitingHolds<T>(s: State<T>, ticket: nat)
    requires Inv(s) && s.dequeue <= ticket < s.enqueue
    ensures Waiting(s, ticket)
  {
    var i := Home(s, ticket);
    assert SlotInv(s, i);
    var c := Serving(s.slots[i].sequence, i, |s.slots|);
    SameSlot(c, ticket, |s.slots|);
    if c == s.slots[i].sequence {
      assert ThreadInv(s, s.pushed[ticket].tid);
    }
  }

  lemma ServedHolds<T>(s: State<T>, ticket: nat)
    requires Inv(s) && ticket < s.dequeue
    ensures Served(s, ticket)
  {
    assert ReturnedInv(s, ticket);
    forall tid | tid in s.threads && OwnsPop(s, tid, ticket) ensures tid == s.popped[ticket].tid {
      assert ThreadInv(s, tid);
    }
    assert ticket !in s.returned ==> ThreadInv(s, s.popped[ticket].tid);
  }

  lemma InvConserves<T>(s: State<T>)
    requires Inv(s)
    ensures Conserved(s)
  {
    forall t | 0 <= t < s.dequeue ensures Served(s, t) { ServedHolds(s, t); }
    forall t | s.dequeue <= t < s.enqueue ensures Waiting(s, t) { WaitingHolds(s, t); }
  }

  /** In every interleaving nothing is lost, duplicated or invented. */
  lemma NothingLostOrInvented<T>(capacity: nat, tids: set<nat>, schedule: seq<Action<T>>)
    requires capacity >= 2 && LagBoundedRun(Init(capacity, tids), schedule)
    ensures Conserved(Execute(Init<T>(capacity, tids), schedule))
  {
    hide Execute, Step;
    ReachableInv(capacity, tids, schedule);
    InvConserves(Execute(Init<T>(capacity, tids), schedule));
  }

  /** What the pops have returned so far, in ticket order, when none is in flight. */
  function ReturnedValues<T>(s: State<T>): seq<Option<T>>
    requires forall t :: 0 <= t < s.dequeue ==> t in s.returned
  {
    seq(s.dequeue, t requires 0 <= t < s.dequeue => s.returned[t])
  }

  function PushedValues<T>(s: State<T>): seq<Option<T>> {
    seq(|s.pushed|, t requires 0 <= t < |s.pushed| => Some(s.pushed[t].value))
  }

  ghost predicate NoPopInFlight<T>(s: State<T>) {
    forall tid :: tid in s.threads ==> !s.threads[tid].phase.PopTake? && !s.threads[tid].phase.PopRelease?
  }

  /** Once no pop is in flight, the values returned in ticket order are a prefix of those pushed. */
  lemma ReturnedIsPrefixOfPushed<T>(capacity: nat, tids: set<nat>, schedule: seq<Action<T>>)
    requires capacity >= 2 && LagBoundedRun(Init(capacity, tids), schedule)
    requires NoPopInFlight(Execute(Init<T>(capacity, tids), schedule))
    ensures var s := Execute(Init<T>(capacity, tids), schedule);
            && (forall t :: 0 <= t < s.dequeue ==> t in s.returned)
            && ReturnedValues(s) <= PushedValues(s)
  {
    hide Execute, Step;
    ReachableInv(capacity, tids, schedule);
    var s := Execute(Init<T>(capacity, tids), schedule);
    forall t | 0 <= t < s.dequeue ensures t in s.returned && s.returned[t] == Some(s.pushed[t].value) {
      ServedHolds(s, t);
      assert !OwnsPop(s, s.popped[t].tid, t);
    }
  }

  lemma FifoInState<T>(s: State<T>, i: nat, j: nat)
    requires Inv(s) && i < |s.pushed| && j < |s.pushed| && s.pushed[i].tid == s.pushed[j].tid
    ensures i < j <==> s.pushed[i].call < s.pushed[j].call
    ensures i < |s.popped| && j < |s.popped| && s.popped[i].tid == s.popped[j].tid ==>
              (s.pushed[i].call < s.pushed[j].call <==> s.popped[i].call < s.popped[j].call)
  {
    hide RingInv, TicketsInv;
  }

  /**
    First in, first out for each producer and each consumer: the tickets of one thread are
    in the order of its calls, so what one thread pushed earlier carries the earlier ticket,
    and a thread that pops both receives that one in an earlier call.
  */
  lemma FifoPerThread<T>(capacity: nat, tids: set<nat>, schedule: seq<Action<T>>, i: nat, j: nat)
    requires capacity >= 2 && LagBoundedRun(Init(capacity, tids), schedule)
    requires var s := Execute(Init<T>(capacity, tids), schedule);
             i < |s.pushed| && j < |s.pushed| && s.pushed[i].tid == s.pushed[j].tid
    ensures var s := Execute(Init<T>(capacity, tids), schedule);
            && (i < j <==> s.pushed[i].call < s.pushed[j].call)
            && (i < |s.popped| && j < |s.popped| && s.popped[i].tid == s.popped[j].tid ==>
                  (s.pushed[i].call < s.pushed[j].call <==> s.popped[i].call < s.popped[j].call))
  {
    hide Execute, Step;
    ReachableInv(capacity, tids, schedule);
    FifoInState(Execute(Init<T>(capacity, tids), schedule), i, j);
  }

  /** A thread that has finished a pop holds the value pushed under the ticket it claimed. */
  lemma PopReturnsItsPush<T>(capacity: nat, tids: set<nat>, schedule: seq<Action<T>>, tid: nat)
    requires capacity >= 2 && LagBoundedRun(Init(capacity, tids), schedule)
    requires var s := Execute(Init<T>(capacity, tids), schedule);
             tid in s.threads && s.threads[tid].phase.Done? && s.threads[tid].phase.outcome.Popped?
    ensures var s := Execute(Init<T>(capacity, tids), schedule);
            var outcome := s.threads[tid].phase.outcome;
            outcome.ticket < |s.pushed| && outcome.result == Some(s.pushed[outcome.ticket].value)
  {
    hide Execute, Step;
    ReachableInv(capacity, tids, schedule);
    assert ThreadInv(Execute(Init<T>(capacity, tids), schedule), tid);
  }

  /** In every interleaving a claimed slot has one owner until its sequence is stored. */
  lemma OwnersAreAlone<T>(capacity: nat, tids: set<nat>, schedule: seq<Action<T>>, a: nat, b: nat)
    requires capacity >= 2 && LagBoundedRun(Init(capacity, tids), schedule)
    requires var s := Execute(Init<T>(capacity, tids), schedule); Owns(s, a) && Owns(s, b) && a != b
    ensures var s := Execute(Init<T>(capacity, tids), schedule);
            Home(s, TicketOf(s.threads[a].phase)) != Home(s, TicketOf(s.threads[b].phase))
  {
    hide Execute, Step;
    ReachableInv(capacity, tids, schedule);
    SlotHasOneOwner(Execute(Init<T>(capacity, tids), schedule), a, b);
  }

  // ----- when a call is refused -----

  /** The pop of `ticket` has claimed it, returned and vacated the slot. */
  predicate Vacated<T>(s: State<T>, ticket: nat) {
    ticket in s.returned
  }

  /** The push of `ticket` has claimed it and stored its sequence. */
  ghost predicate Published<T>(s: State<T>, ticket: nat) {
    ticket < |s.pushed| && !OwnsPush(s, s.pushed[ticket].tid, ticket)
  }

  lemma Apart(a: nat, b: nat, capacity: nat)
    requires capacity > 0
    ensures SlotOf(a, capacity) == SlotOf(b, capacity) && a < b + capacity && b < a + capacity ==> a == b
  {
    if SlotOf(a, capacity) == SlotOf(b, capacity) && a < b + capacity && b < a + capacity {
      SameSlot(a, b, capacity);
    }
  }

  /** `try_push` reports full exactly when the ticket one lap back is not vacated at the load. */
  lemma FullIffLapNotVacated<T>(s: State<T>, tid: nat, spurious: bool)
    requires Inv(s) && LagBounded(s) && tid in s.threads && s.threads[tid].phase.PushSequence?
    ensures var pos := s.threads[tid].phase.pos;
            var full := AdvanceThread(s, tid, spurious).threads[tid].phase == Done(Full(pos));
            full <==> pos >= |s.slots| && !Vacated(s, pos - |s.slots|)
  {
    var pos := s.threads[tid].phase.pos;
    var i := Home(s, pos);
    assert ThreadInv(s, tid) && SlotInv(s, i);
    PushTestsAgree(s, tid);
    var c := Serving(s.slots[i].sequence, i, |s.slots|);
    Apart(c, pos, |s.slots|);
    if pos >= |s.slots| {
      var back := pos - |s.slots|;
      NextLapSlot(back, |s.slots|);
      NextSlotDiffers(back, |s.slots|);
      Apart(c, back, |s.slots|);
      assert back < s.dequeue ==> ReturnedInv(s, back);
      assert back < s.dequeue && back !in s.returned ==> ThreadInv(s, s.popped[back].tid);
    }
  }

  /** `try_pop` reports empty exactly when its ticket is not published at the load. */
  lemma EmptyIffNotPublished<T>(s: State<T>, tid: nat, spurious: bool)
    requires Inv(s) && LagBounded(s) && tid in s.threads && s.threads[tid].phase.PopSequence?
    ensures var pos := s.threads[tid].phase.pos;
            AdvanceThread(s, tid, spurious).threads[tid].phase == Done(Empty(pos)) <==> !Published(s, pos)
  {
    var pos := s.threads[tid].phase.pos;
    var i := Home(s, pos);
    assert ThreadInv(s, tid) && SlotInv(s, i);
    PopTestsAgree(s, tid);
    var c := Serving(s.slots[i].sequence, i, |s.slots|);
    Apart(c, pos, |s.slots|);
    assert pos < s.enqueue && OwnsPush(s, s.pushed[pos].tid, pos) ==> ThreadInv(s, s.pushed[pos].tid);
  }

  // ----- the capacity boundary -----

  lemma {:induction false} CountersGrowByOne<T>(s: State<T>, schedule: seq<Action<T>>)
    requires |s.slots| > 0
    ensures var r := Execute(s, schedule);
            r.enqueue <= s.enqueue + |schedule| && r.dequeue <= s.dequeue + |schedule|
  {
    if schedule != [] { CountersGrowByOne(s, schedule[..|schedule| - 1]); }
  }

  /** The lag bound is no restriction on runs of at most 2^63 - capacity accesses. */
  lemma ShortRunsAreLagBounded<T>(capacity: nat, tids: set<nat>, schedule: seq<Action<T>>)
    requires capacity > 0 && |schedule| + capacity <= HALF_WORD
    ensures LagBoundedRun(Init<T>(capacity, tids), schedule)
  {
    var s := Init<T>(capacity, tids);
    forall n | 0 <= n <= |schedule| ensures LagBounded(Execute(s, schedule[..n])) {
      CountersGrowByOne(s, schedule[..n]);
    }
  }

  lemma {:induction false} ExecuteConcat<T>(s: State<T>, a: seq<Action<T>>, b: seq<Action<T>>)
    requires |s.slots| > 0
    ensures Execute(s, a + b) == Execute(Execute(s, a), b)
  {
    if b == [] {
      assert a + b == a;
    } else {
      var last := |b| - 1;
      assert (a + b)[..|a + b| - 1] == a + b[..last];
      ExecuteConcat(s, a, b[..last]);
    }
  }

  lemma ExecuteAppends<T>(s: State<T>, schedule: seq<Action<T>>, action: Action<T>)
    requires |s.slots| > 0
    ensures Execute(s, schedule + [action]) == Step(Execute(s, schedule), action)
  {
    assert (schedule + [action])[..|schedule|] == schedule;
  }

  lemma {:induction false} ExecuteOne<T>(s: State<T>, action: Action<T>)
    requires |s.slots| > 0
    ensures Execute(s, [action]) == Step(s, action)
  {
    hide Step;
    assert [action] == [] + [action];
    ExecuteAppends(s, [], action);
  }

  /** A call of `try_push` in which no other thread moves, access by access. */
  function PushAlone<T>(tid: nat, value: T): seq<Action<T>> {
    [CallPush(tid, value)] + Moves(tid, 5)
  }

  function Moves<T>(tid: nat, n: nat): (moves: seq<Action<T>>)
    ensures |moves| == n
  {
    if n == 0 then [] else Moves(tid, n - 1) + [Advance(tid, false)]
  }

  lemma {:induction false} MovesAdd<T>(tid: nat, m: nat, n: nat)
    ensures Moves<T>(tid, m + n) == Moves(tid, m) + Moves(tid, n)
  {
    if n > 0 { MovesAdd<T>(tid, m, n - 1); }
  }

  lemma MovesOnce<T>(s: State<T>, before: State<T>, tid: nat, n: nat)
    requires |s.slots| > 0 && n > 0 && Execute(s, Moves(tid, n - 1)) == before
    ensures Execute(s, Moves(tid, n)) == Step(before, Advance(tid, false))
  {
    ExecuteAppends(s, Moves(tid, n - 1), Advance(tid, false));
  }

  lemma ClaimsAlone<T>(s: State<T>, tid: nat, calls: nat, value: T)
    requires |s.slots| > 0 && tid in s.threads && s.threads[tid] == Thread(calls, PushTicket(value))
    requires s.slots[Home(s, s.enqueue)].sequence == s.enqueue
    ensures Execute(s, Moves(tid, 2)) == s.(threads := s.threads[tid := Thread(calls, PushClaim(value, s.enqueue))])
  {
    hide Execute, Moves, SlotOf;
    var s1 := s.(threads := s.threads[tid := Thread(calls, PushSequence(value, s.enqueue))]);
    assert Step(s, Advance(tid, false)) == s1;
    MovesTwice(s, s1, tid);
    MapTwice(s.threads, tid, Thread(calls, PushSequence(value, s.enqueue)), Thread(calls, PushClaim(value, s.enqueue)));
  }

  lemma StoresAlone<T>(s: State<T>, tid: nat, calls: nat, value: T)
    requires |s.slots| > 0 && tid in s.threads && s.threads[tid] == Thread(calls, PushClaim(value, s.enqueue))
    ensures Execute(s, Moves(tid, 2)) ==
            s.(slots := s.slots[Home(s, s.enqueue) := s.slots[Home(s, s.enqueue)].(value := Some(value))],
               enqueue := s.enqueue + 1,
               threads := s.threads[tid := Thread(calls, PushPublish(value, s.enqueue))],
               pushed := s.pushed + [PushClaimed(tid, calls, value)])
  {
    hide Execute, Moves, SlotOf, SignedGap;
    var s1 := s.(enqueue := s.enqueue + 1,
                 threads := s.threads[tid := Thread(calls, PushStore(value, s.enqueue))],
                 pushed := s.pushed + [PushClaimed(tid, calls, value)]);
    MovesStart(s, tid);
    assert Step(s, Advance(tid, false)) == s1;
    MovesTwice(s, s1, tid);
    MapTwice(s.threads, tid, Thread(calls, PushStore(value, s.enqueue)), Thread(calls, PushPublish(value, s.enqueue)));
  }

  lemma MovesStart<T>(s: State<T>, tid: nat)
    requires |s.slots| > 0
    ensures Execute(s, Moves(tid, 1)) == Step(s, Advance(tid, false))
  {
    hide Step;
    MovesOnce(s, s, tid, 1);
  }

  lemma MovesTwice<T>(s: State<T>, s1: State<T>, tid: nat)
    requires 0 < |s.slots| && Step(s, Advance(tid, false)) == s1
    ensures |s1.slots| == |s.slots| && Execute(s, Moves(tid, 2)) == Step(s1, Advance(tid, false))
  {
    hide Step;
    MovesStart(s, tid);
    MovesOnce(s, s1, tid, 2);
  }

  lemma PublishesAlone<T>(s: State<T>, tid: nat, calls: nat, value: T, pos: nat)
    requires |s.slots| > 0 && tid in s.threads && s.threads[tid] == Thread(calls, PushPublish(value, pos))
    ensures Execute(s, Moves(tid, 1)) ==
            s.(slots := s.slots[Home(s, pos) := s.slots[Home(s, pos)].(sequence := pos + 1)],
               threads := s.threads[tid := Thread(calls, Done(Pushed(pos)))])
  {
    hide Execute, Moves, SlotOf;
    MovesStart(s, tid);
  }

  lemma CallsAlone<T>(s: State<T>, tid: nat, value: T)
    requires |s.slots| > 0 && tid in s.threads && s.threads[tid].phase.Done?
    ensures Execute(s, PushAlone(tid, value)) ==
            Execute(Execute(Execute(s.(threads := s.threads[tid := Thread(s.threads[tid].calls + 1, PushTicket(value))]),
                                    Moves(tid, 2)), Moves(tid, 2)), Moves(tid, 1))
  {
    hide Execute, Step, Moves;
    var s1 := s.(threads := s.threads[tid := Thread(s.threads[tid].calls + 1, PushTicket(value))]);
    var two, one := Moves<T>(tid, 2), Moves<T>(tid, 1);
    BeginsAlone(s, tid, value);
    ExecuteOne(s, CallPush(tid, value));
    ExecuteConcat(s, [CallPush(tid, value)], Moves(tid, 5));
    MovesAdd<T>(tid, 2, 2);
    MovesAdd<T>(tid, 4, 1);
    ExecuteConcat(s1, two + two, one);
    ExecuteConcat(s1, two, two);
  }

  lemma BeginsAlone<T>(s: State<T>, tid: nat, value: T)
    requires |s.slots| > 0 && tid in s.threads && s.threads[tid].phase.Done?
    ensures Step(s, CallPush(tid, value))
         == s.(threads := s.threads[tid := Thread(s.threads[tid].calls + 1, PushTicket(value))])
  {
  }

  /** A push that runs alone fills the slot whose sequence is its ticket, whatever is in it. */
  lemma PushAloneFills<T>(s: State<T>, tid: nat, value: T)
    requires |s.slots| > 0 && tid in s.threads && s.threads[tid].phase.Done?
    requires s.slots[Home(s, s.enqueue)].sequence == s.enqueue
    ensures Execute(s, PushAlone(tid, value)) ==
            s.(slots := s.slots[Home(s, s.enqueue) := Slot(s.enqueue + 1, Some(value))],
               enqueue := s.enqueue + 1,
               threads := s.threads[tid := Thread(s.threads[tid].calls + 1, Done(Pushed(s.enqueue)))],
               pushed := s.pushed + [PushClaimed(tid, s.threads[tid].calls + 1, value)])
  {
    hide Execute, Step, Home, PushAlone, Moves;
    var calls := s.threads[tid].calls + 1;
    var s1 := s.(threads := s.threads[tid := Thread(calls, PushTicket(value))]);
    CallsAlone(s, tid, value);
    SameHome(s, s1, s.enqueue);
    FillsSlot(s1, tid, calls, value);
    MapTwice(s.threads, tid, Thread(calls, PushTicket(value)), Thread(calls, Done(Pushed(s.enqueue))));
  }

  lemma SameHome<T>(s: State<T>, s': State<T>, ticket: nat)
    requires 0 < |s.slots| == |s'.slots|
    ensures Home(s, ticket) == Home(s', ticket) < |s.slots|
  {
  }

  /** From the first load to the last store. */
  lemma FillsSlot<T>(s: State<T>, tid: nat, calls: nat, value: T)
    requires |s.slots| > 0 && tid in s.threads && s.threads[tid] == Thread(calls, PushTicket(value))
    requires s.slots[Home(s, s.enqueue)].sequence == s.enqueue
    ensures Execute(Execute(Execute(s, Moves(tid, 2)), Moves(tid, 2)), Moves(tid, 1)) ==
            s.(slots := s.slots[Home(s, s.enqueue) := Slot(s.enqueue + 1, Some(value))],
               enqueue := s.enqueue + 1,
               threads := s.threads[tid := Thread(calls, Done(Pushed(s.enqueue)))],
               pushed := s.pushed + [PushClaimed(tid, calls, value)])
  {
    hide Execute, Step, Home, Moves;
    var pos := s.enqueue;
    var i := Home(s, pos);
    ClaimsAlone(s, tid, calls, value);
    var s2 := s.(threads := s.threads[tid := Thread(calls, PushClaim(value, pos))]);
    StoresAlone(s2, tid, calls, value);
    SameHome(s, s2, pos);
    MapTwice(s.threads, tid, Thread(calls, PushClaim(value, pos)), Thread(calls, PushPublish(value, pos)));
    var s3 := s.(slots := s.slots[i := s.slots[i].(value := Some(value))],
                 enqueue := pos + 1,
                 threads := s.threads[tid := Thread(calls, PushPublish(value, pos))],
                 pushed := s.pushed + [PushClaimed(tid, calls, value)]);
    assert Execute(s2, Moves(tid, 2)) == s3;
    PublishesAlone(s3, tid, calls, value, pos);
    SameHome(s, s3, pos);
    MapTwice(s.threads, tid, Thread(calls, PushPublish(value, pos)), Thread(calls, Done(Pushed(pos))));
    SeqTwice(s.slots, i, s.slots[i].(value := Some(value)), Slot(pos + 1, Some(value)));
  }

  lemma MapTwice<V>(m: map<nat, V>, k: nat, v: V, w: V)
    ensures m[k := v][k := w] == m[k := w]
  {
  }

  lemma SeqTwice<V>(s: seq<V>, i: nat, v: V, w: V)
    requires i < |s|
    ensures s[i := v][i := w] == s[i := w] && s[i := v][i] == v
  {
  }

  /** Two pushes into one slot, one after the other. */
  function PushTwice<T>(tid: nat, a: T, b: T): (schedule: seq<Action<T>>)
    ensures |schedule| == 12
  {
    PushAlone(tid, a) + PushAlone(tid, b)
  }

  /**
    With one slot the code of a filled slot is the code of the next vacancy: the second push
    succeeds over the first, whatever the values, and ticket 0 is no longer anywhere.
  */
  lemma CapacityOneOverwrites<T>(tids: set<nat>, tid: nat, a: T, b: T)
    requires tid in tids
    ensures var s := Execute(Init<T>(1, tids), PushTwice(tid, a, b));
            && s.slots == [Slot(2, Some(b))] && s.enqueue == 2 && s.dequeue == 0
            && s.threads.Keys == tids && tid in s.threads && s.threads[tid] == Thread(2, Done(Pushed(1)))
            && (forall t :: t in tids && t != tid ==> s.threads[t] == Thread(0, Done(NotCalled)))
            && s.pushed == [PushClaimed(tid, 1, a), PushClaimed(tid, 2, b)] && s.popped == [] && s.returned == map[]
            && !Conserved(s)
  {
    var s0 := Init<T>(1, tids);
    var s1 := Execute(s0, PushAlone(tid, a));
    var s2 := Execute(s1, PushAlone(tid, b));
    hide Execute, PushAlone;
    PushAloneFills(s0, tid, a);
    assert SlotOf(1, 1) == 0;
    PushAloneFills(s1, tid, b);
    ExecuteConcat(s0, PushAlone(tid, a), PushAlone(tid, b));
    assert !Waiting(s2, 0);
  }

  /** The ring after those pushes, a pop of ticket 0 under way in `popper`. */
  ghost predicate Stuck<T>(s: State<T>, slot: Slot<T>, popper: nat) {
    && s.slots == [slot] && slot.sequence == 2 && s.dequeue == 0
    && popper in s.threads && (s.threads[popper].phase.PopTicket? || s.threads[popper].phase == PopSequence(0))
    && (forall t :: t in s.threads ==>
          s.threads[t].phase.Done? || s.threads[t].phase.PopTicket? || s.threads[t].phase == PopSequence(0))
  }

  lemma StaysStuck<T>(s: State<T>, action: Action<T>, slot: Slot<T>, popper: nat)
    requires Stuck(s, slot, popper) && !action.CallPush?
    ensures Stuck(Step(s, action), slot, popper)
  {
    assert SlotOf(0, 1) == 0;
    assert SignedGap(2, 1) == 1;
  }

  lemma {:induction false} StuckForGood<T>(s: State<T>, schedule: seq<Action<T>>, slot: Slot<T>, popper: nat)
    requires Stuck(s, slot, popper) && forall i :: 0 <= i < |schedule| ==> !schedule[i].CallPush?
    ensures Stuck(Execute(s, schedule), slot, popper)
  {
    hide Step;
    if schedule != [] {
      var last := |schedule| - 1;
      StuckForGood(s, schedule[..last], slot, popper);
      StaysStuck(Execute(s, schedule[..last]), schedule[last], slot, popper);
    }
  }

  /**
    The value that survives is out of reach too.  A pop begun after the two pushes reads a gap of
    one, reloads the same ticket and never returns, however many accesses it and any other poppers
    make, with or without spurious failures.
  */
  lemma CapacityOneWedgesPops<T>(
    tids: set<nat>, tid: nat, a: T, b: T, popper: nat, schedule: seq<Action<T>>)
    requires tid in tids && popper in tids
    requires forall i :: 0 <= i < |schedule| ==> !schedule[i].CallPush?
    ensures var s := Execute(Step(Execute(Init<T>(1, tids), PushTwice(tid, a, b)), CallPop(popper)), schedule);
            && s.slots == [Slot(2, Some(b))] && s.dequeue == 0
            && popper in s.threads && !s.threads[popper].phase.Done?
  {
    hide Execute, PushTwice;
    var s := Execute(Init<T>(1, tids), PushTwice(tid, a, b));
    CapacityOneOverwrites(tids, tid, a, b);
    StuckForGood(Step(s, CallPop(popper)), schedule, Slot(2, Some(b)), popper);
  }

  /** Without a thread nothing happens. */
  lemma {:induction false} NobodyMoves<T>(capacity: nat, schedule: seq<Action<T>>)
    requires capacity > 0
    ensures Execute(Init<T>(capacity, {}), schedule) == Init(capacity, {})
  {
    if schedule != [] { NobodyMoves<T>(capacity, schedule[..|schedule| - 1]); }
  }

  /** Every run that keeps the lag bound conserves what is pushed. */
  ghost predicate AlwaysConserves<T(!new)>(capacity: nat, tids: set<nat>)
    requires capacity > 0
  {
    forall schedule: seq<Action<T>> ::
      LagBoundedRun(Init<T>(capacity, tids), schedule) ==> Conserved(Execute(Init<T>(capacity, tids), schedule))
  }

  /**
    For any set of threads and any type that has a value: the algorithm needs two slots, and two
    are enough.  One slot will do only where nobody uses it.
  */
  lemma CapacityBoundary<T(!new)>(capacity: nat, tids: set<nat>, value: T)
    requires capacity > 0
    ensures AlwaysConserves<T>(capacity, tids) <==> capacity >= 2 || tids == {}
  {
    hide Execute, Conserved, LagBoundedRun;
    if capacity >= 2 {
      forall schedule: seq<Action<T>> | LagBoundedRun(Init<T>(capacity, tids), schedule)
        ensures Conserved(Execute(Init<T>(capacity, tids), schedule))
      {
        NothingLostOrInvented(capacity, tids, schedule);
      }
    } else if tids == {} {
      forall schedule: seq<Action<T>> ensures Conserved(Execute(Init<T>(capacity, tids), schedule)) {
        NobodyMoves<T>(capacity, schedule);
        NothingToConserve<T>(capacity);
      }
    } else {
      var tid :| tid in tids;
      var schedule := PushTwice(tid, value, value);
      ShortRunsAreLagBounded(1, tids, schedule);
      CapacityOneOverwrites(tids, tid, value, value);
    }
  }

  lemma NothingToConserve<T>(capacity: nat)
    requires capacity > 0
    ensures Conserved(Init<T>(capacity, {}))
  {
  }
}
