/**
  The bounded multi-producer/multi-consumer ring of `LockFreeQueue<T>`, as a machine whose
  steps are the single atomic accesses of `try_push` and `try_pop`.  A schedule is any
  sequence of actions of any number of threads, so a statement about every schedule is a
  statement about every interleaving.

  Tickets are kept as unbounded numbers; the words the program stores are these numbers
  modulo 2^64, and every test the program makes is made here on the words.
*/
module LockFreeQueue {
  import opened Wrappers

  const WORD: int := 0x1_0000_0000_0000_0000
  const HALF_WORD: int := 0x8000_0000_0000_0000

  /** The wrapped difference of two words, read as a signed word. */
  function SignedGap(sequence: nat, pos: nat): int {
    var difference := (sequence - pos) % WORD;
    if difference < HALF_WORD then difference else difference - WORD
  }

  /** Whether two tickets are stored as the same word. */
  predicate SameWord(a: nat, b: nat) {
    a % WORD == b % WORD
  }

  datatype Slot<T> = Slot(sequence: nat, value: Option<T>)

  datatype Outcome<T> =
    | NotCalled
    | Pushed(ticket: nat)
    | Full(ticket: nat)
    | Popped(ticket: nat, result: Option<T>)
    | Empty(ticket: nat)

  /** The program point of a thread, with the locals live there. */
  datatype Phase<T> =
    | Done(outcome: Outcome<T>)
    | PushTicket(value: T)              // about to load the enqueue ticket
    | PushSequence(value: T, pos: nat)  // about to load the slot's sequence
    | PushClaim(value: T, pos: nat)     // about to compare and swap the enqueue ticket
    | PushStore(value: T, pos: nat)     // owns the ticket, about to store the payload
    | PushPublish(value: T, pos: nat)   // about to store the sequence
    | PopTicket
    | PopSequence(pos: nat)
    | PopClaim(pos: nat)
    | PopTake(pos: nat)                 // owns the ticket, about to move the payload out
    | PopRelease(pos: nat, result: Option<T>)

  /** A thread and the number of calls it has begun. */
  datatype Thread<T> = Thread(calls: nat, phase: Phase<T>)

  /** Who claimed a ticket, in which of its calls. */
  datatype PushClaimed<T> = PushClaimed(tid: nat, call: nat, value: T)
  datatype PopClaimed = PopClaimed(tid: nat, call: nat)

  /**
    `pushed` and `popped` record, by ticket, the calls whose compare and swap succeeded;
    `returned` what the finished pops have returned.
  */
  datatype State<T> = State(
    slots: seq<Slot<T>>, enqueue: nat, dequeue: nat,
    threads: map<nat, Thread<T>>,
    pushed: seq<PushClaimed<T>>, popped: seq<PopClaimed>, returned: map<nat, Option<T>>)

  datatype Action<T> =
    | CallPush(tid: nat, value: T)
    | CallPop(tid: nat)
    | Advance(tid: nat, spurious: bool)  // `spurious`: a weak compare and swap fails anyway

  function Init<T>(capacity: nat, tids: set<nat>): State<T> {
    State(seq(capacity, i requires 0 <= i => Slot(i, None)), 0, 0,
          map tid | tid in tids :: Thread(0, Done(NotCalled)), [], [], map[])
  }

  /** The slot of a ticket: `ticket & mask`, counted down lap by lap. */
  function SlotOf(ticket: nat, capacity: nat): (i: nat)
    requires capacity > 0
    ensures i < capacity
  {
    if ticket < capacity then ticket else SlotOf(ticket - capacity, capacity)
  }

  function Home<T>(s: State<T>, ticket: nat): nat
    requires |s.slots| > 0
  {
    SlotOf(ticket, |s.slots|)
  }

  function SetPhase<T>(s: State<T>, tid: nat, phase: Phase<T>): State<T>
    requires tid in s.threads
  {
    s.(threads := s.threads[tid := s.threads[tid].(phase := phase)])
  }

  function Begin<T>(s: State<T>, tid: nat, phase: Phase<T>): State<T>
    requires tid in s.threads
  {
    s.(threads := s.threads[tid := Thread(s.threads[tid].calls + 1, phase)])
  }

  function SetSequence<T>(s: State<T>, pos: nat, sequence: nat): State<T>
    requires |s.slots| > 0
  {
    var i := Home(s, pos);
    s.(slots := s.slots[i := s.slots[i].(sequence := sequence)])
  }

  function SetValue<T>(s: State<T>, pos: nat, value: Option<T>): State<T>
    requires |s.slots| > 0
  {
    var i := Home(s, pos);
    s.(slots := s.slots[i := s.slots[i].(value := value)])
  }

  /** Where `try_push` goes after loading the sequence of its slot. */
  function PushDecision<T>(sequence: nat, value: T, pos: nat): Phase<T> {
    var gap := SignedGap(sequence, pos);
    if gap == 0 then PushClaim(value, pos)
    else if gap < 0 then Done(Full(pos))
    else PushTicket(value)
  }

  /** Where `try_pop` goes after loading the sequence of its slot. */
  function PopDecision<T>(sequence: nat, pos: nat): Phase<T> {
    var gap := SignedGap(sequence, pos + 1);
    if gap == 0 then PopClaim(pos)
    else if gap < 0 then Done(Empty(pos))
    else PopTicket
  }

  /** One atomic access of thread `tid`. */
  function AdvanceThread<T>(s: State<T>, tid: nat, spurious: bool): State<T>
    requires |s.slots| > 0 && tid in s.threads
  {
    var thread := s.threads[tid];
    match thread.phase
    case Done(_) => s
    case PushTicket(value) => SetPhase(s, tid, PushSequence(value, s.enqueue))
    case PushSequence(value, pos) =>
      SetPhase(s, tid, PushDecision(s.slots[Home(s, pos)].sequence, value, pos))
    case PushClaim(value, pos) =>
      if !spurious && SameWord(s.enqueue, pos) then
        SetPhase(s, tid, PushStore(value, pos))
          .(enqueue := s.enqueue + 1, pushed := s.pushed + [PushClaimed(tid, thread.calls, value)])
      else
        SetPhase(s, tid, PushSequence(value, s.enqueue))
    case PushStore(value, pos) => SetPhase(SetValue(s, pos, Some(value)), tid, PushPublish(value, pos))
    case PushPublish(_, pos) => SetPhase(SetSequence(s, pos, pos + 1), tid, Done(Pushed(pos)))
    case PopTicket => SetPhase(s, tid, PopSequence(s.dequeue))
    case PopSequence(pos) =>
      SetPhase(s, tid, PopDecision(s.slots[Home(s, pos)].sequence, pos))
    case PopClaim(pos) =>
      if !spurious && SameWord(s.dequeue, pos) then
        SetPhase(s, tid, PopTake(pos))
          .(dequeue := s.dequeue + 1, popped := s.popped + [PopClaimed(tid, thread.calls)])
      else
        SetPhase(s, tid, PopSequence(s.dequeue))
    case PopTake(pos) =>
      SetPhase(SetValue(s, pos, None), tid, PopRelease(pos, s.slots[Home(s, pos)].value))
    case PopRelease(pos, result) =>
      SetPhase(SetSequence(s, pos, pos + |s.slots|), tid, Done(Popped(pos, result)))
        .(returned := s.returned[pos := result])
  }

  /** The machine's step; an action that does not apply leaves the state as it is. */
  function Step<T>(s: State<T>, action: Action<T>): State<T>
    requires |s.slots| > 0
  {
    if action.tid !in s.threads then s
    else match action
      case CallPush(tid, value) =>
        if s.threads[tid].phase.Done? then Begin(s, tid, PushTicket(value)) else s
      case CallPop(tid) =>
        if s.threads[tid].phase.Done? then Begin(s, tid, PopTicket) else s
      case Advance(tid, spurious) => AdvanceThread(s, tid, spurious)
  }

  /** The state after a whole schedule. */
  function Execute<T>(s: State<T>, schedule: seq<Action<T>>): (r: State<T>)
    requires |s.slots| > 0
    ensures |r.slots| == |s.slots|
  {
    if schedule == [] then s
    else
      Step(Execute(s, schedule[..|schedule| - 1]), schedule[|schedule| - 1])
  }

  // ----- the invariant -----

  /** The ticket a slot is serving, read off its sequence. */
  function Serving(sequence: nat, index: nat, capacity: nat): int
    requires capacity > 0
  {
    if SlotOf(sequence, capacity) == index then sequence else sequence - 1
  }

  /** Thread `tid` holds push ticket `pos` between its claim and its sequence store. */
  ghost predicate OwnsPush<T>(s: State<T>, tid: nat, pos: nat) {
    && tid in s.threads
    && var phase := s.threads[tid].phase;
       (phase.PushStore? || phase.PushPublish?) && phase.pos == pos
  }

  /** Thread `tid` holds pop ticket `pos` between its claim and its sequence store. */
  ghost predicate OwnsPop<T>(s: State<T>, tid: nat, pos: nat) {
    && tid in s.threads
    && var phase := s.threads[tid].phase;
       (phase.PopTake? || phase.PopRelease?) && phase.pos == pos
  }

  ghost predicate SlotInv<T>(s: State<T>, i: nat)
    requires |s.slots| >= 2 && i < |s.slots|
    requires |s.pushed| == s.enqueue && |s.popped| == s.dequeue
  {
    var capacity := |s.slots|;
    var q := s.slots[i].sequence;
    var c := Serving(q, i, capacity);
    && 0 <= c && SlotOf(c, capacity) == i
    && s.enqueue <= c + capacity && c < s.dequeue + capacity
    && if c == q then
         // vacant for ticket c, which may be claimed by a pusher but is not published
         && s.dequeue <= c
         && (s.enqueue <= c ==> s.slots[i].value == None)
         && (c < s.enqueue ==> OwnsPush(s, s.pushed[c].tid, c))
       else
         // ticket c is published, and may be claimed by a popper but is not released
         && c < s.enqueue
         && (s.dequeue <= c ==> s.slots[i].value == Some(s.pushed[c].value))
         && (c < s.dequeue ==> OwnsPop(s, s.popped[c].tid, c))
  }

  ghost predicate ThreadInv<T>(s: State<T>, tid: nat)
    requires |s.slots| >= 2 && tid in s.threads
    requires |s.pushed| == s.enqueue && |s.popped| == s.dequeue
  {
    var thread := s.threads[tid];
    match thread.phase
    case Done(outcome) =>
      outcome.Popped? ==>
        && outcome.ticket < s.dequeue && outcome.ticket < s.enqueue
        && outcome.result == Some(s.pushed[outcome.ticket].value)
    case PushTicket(_) => true
    case PushSequence(_, pos) => pos <= s.enqueue
    case PushClaim(_, pos) =>
      pos <= s.enqueue && (pos == s.enqueue ==> s.slots[Home(s, pos)].sequence == pos)
    case PushStore(value, pos) =>
      && pos < s.enqueue && s.slots[Home(s, pos)] == Slot(pos, None)
      && s.pushed[pos] == PushClaimed(tid, thread.calls, value)
    case PushPublish(value, pos) =>
      && pos < s.enqueue && s.slots[Home(s, pos)] == Slot(pos, Some(value))
      && s.pushed[pos] == PushClaimed(tid, thread.calls, value)
    case PopTicket => true
    case PopSequence(pos) => pos <= s.dequeue
    case PopClaim(pos) =>
      pos <= s.dequeue && (pos == s.dequeue ==> s.slots[Home(s, pos)].sequence == pos + 1)
    case PopTake(pos) =>
      && pos < s.dequeue && pos < s.enqueue
      && s.slots[Home(s, pos)] == Slot(pos + 1, Some(s.pushed[pos].value))
      && s.popped[pos] == PopClaimed(tid, thread.calls)
    case PopRelease(pos, result) =>
      && pos < s.dequeue && pos < s.enqueue
      && s.slots[Home(s, pos)] == Slot(pos + 1, None)
      && result == Some(s.pushed[pos].value)
      && s.popped[pos] == PopClaimed(tid, thread.calls)
  }

  /** The thread is in a call that has not claimed its ticket yet. */
  predicate Unclaimed<T>(phase: Phase<T>) {
    || phase.PushTicket? || phase.PushSequence? || phase.PushClaim?
    || phase.PopTicket? || phase.PopSequence? || phase.PopClaim?
  }

  /** The recorded calls have begun, and the current one has claimed if it is recorded. */
  ghost predicate CallsKnown<T>(s: State<T>) {
    && (forall i :: 0 <= i < |s.pushed| ==> CallKnown(s, s.pushed[i].tid, s.pushed[i].call))
    && (forall i :: 0 <= i < |s.popped| ==> CallKnown(s, s.popped[i].tid, s.popped[i].call))
  }

  ghost predicate PushesInOrder<T>(pushed: seq<PushClaimed<T>>) {
    forall i, j :: 0 <= i < j < |pushed| && pushed[i].tid == pushed[j].tid ==> pushed[i].call < pushed[j].call
  }

  ghost predicate PopsInOrder(popped: seq<PopClaimed>) {
    forall i, j :: 0 <= i < j < |popped| && popped[i].tid == popped[j].tid ==> popped[i].call < popped[j].call
  }

  /** Tickets of one thread are claimed in the order of its calls. */
  ghost predicate CallsInOrder<T>(s: State<T>) {
    CallsKnown(s) && PushesInOrder(s.pushed) && PopsInOrder(s.popped)
  }

  /** Call number `call` of `tid` has begun; if it is the current one, it has claimed. */
  ghost predicate CallKnown<T>(s: State<T>, tid: nat, call: nat) {
    && tid in s.threads
    && call <= s.threads[tid].calls
    && (call == s.threads[tid].calls ==> !Unclaimed(s.threads[tid].phase))
  }

  /** A claimed pop ticket is either still with its popper or returned with its push's value. */
  ghost predicate ReturnedInv<T>(s: State<T>, ticket: nat)
    requires |s.pushed| == s.enqueue && |s.popped| == s.dequeue <= s.enqueue && ticket < s.dequeue
  {
    if ticket in s.returned then
      && s.returned[ticket] == Some(s.pushed[ticket].value)
      && !OwnsPop(s, s.popped[ticket].tid, ticket)
    else
      OwnsPop(s, s.popped[ticket].tid, ticket)
  }

  /** The slots, the threads and the ticket counters fit together. */
  ghost predicate RingInv<T>(s: State<T>) {
    && |s.slots| >= 2
    && |s.pushed| == s.enqueue && |s.popped| == s.dequeue && s.dequeue <= s.enqueue
    && (forall i :: 0 <= i < |s.slots| ==> SlotInv(s, i))
    && (forall tid :: tid in s.threads ==> ThreadInv(s, tid))
  }

  ghost predicate TicketsInv<T>(s: State<T>)
    requires |s.pushed| == s.enqueue && |s.popped| == s.dequeue <= s.enqueue
  {
    && (forall t :: 0 <= t < s.dequeue ==> ReturnedInv(s, t))
    && (forall t :: t in s.returned ==> t < s.dequeue)
  }

  ghost predicate Inv<T>(s: State<T>) {
    RingInv(s) && CallsInOrder(s) && TicketsInv(s)
  }

  /** How far behind the counters a thread's loaded ticket may be for 64-bit words to do. */
  ghost predicate LagBounded<T>(s: State<T>) {
    forall tid :: tid in s.threads ==> ThreadLag(s, s.threads[tid].phase)
  }

  ghost predicate ThreadLag<T>(s: State<T>, phase: Phase<T>) {
    && (phase.PushSequence? || phase.PushClaim? ==> s.enqueue - phase.pos + |s.slots| <= HALF_WORD)
    && (phase.PopSequence? || phase.PopClaim? ==> s.dequeue - phase.pos + |s.slots| <= HALF_WORD)
  }

  /** Every state the schedule passes through keeps the lag bound. */
  ghost predicate LagBoundedRun<T>(s: State<T>, schedule: seq<Action<T>>)
    requires |s.slots| > 0
  {
    forall n :: 0 <= n <= |schedule| ==> LagBounded(Execute(s, schedule[..n]))
  }

  // ----- arithmetic of tickets and slots -----

  /** `SlotOf` is the remainder, so the mask of a power-of-two capacity. */
  lemma {:induction false} SlotOfIsRemainder(ticket: nat, capacity: nat)
    requires capacity > 0
    ensures SlotOf(ticket, capacity) == ticket % capacity
  {
    if ticket >= capacity {
      SlotOfIsRemainder(ticket - capacity, capacity);
      RemainderOfLap(ticket - capacity, capacity);
    }
  }

  lemma MultipleApart(c: int, d: int)
    requires c >= 0
    ensures (d >= 1 ==> c * d >= c) && (d <= -1 ==> c * d <= -c)
  {
  }

  lemma RemainderOfLap(a: nat, c: nat)
    requires c > 0
    ensures (a + c) % c == a % c
  {
    var d := (a + c) / c - a / c - 1;
    assert c * d == a % c - (a + c) % c;
    MultipleApart(c, d);
  }

  /** Two tickets of one slot are a whole lap apart. */
  lemma {:induction false} SameSlot(a: nat, b: nat, capacity: nat)
    requires capacity > 0 && SlotOf(a, capacity) == SlotOf(b, capacity)
    requires a < b + capacity && b < a + capacity
    ensures a == b
  {
    if a >= capacity && b >= capacity {
      SameSlot(a - capacity, b - capacity, capacity);
    }
  }

  lemma {:induction false} NextSlotDiffers(ticket: nat, capacity: nat)
    requires capacity >= 2
    ensures SlotOf(ticket + 1, capacity) != SlotOf(ticket, capacity)
  {
    if ticket >= capacity { NextSlotDiffers(ticket - capacity, capacity); }
  }

  lemma NextLapSlot(ticket: nat, capacity: nat)
    requires capacity > 0
    ensures SlotOf(ticket + capacity, capacity) == SlotOf(ticket, capacity)
  {
  }

  /** Two tickets stored as one word are 2^64 apart. */
  lemma SameTicket(a: nat, b: nat)
    requires SameWord(a, b) && a < b + WORD && b < a + WORD
    ensures a == b
  {
  }

  lemma SmallGap(sequence: nat, pos: nat)
    requires -HALF_WORD <= sequence - pos < HALF_WORD
    ensures SignedGap(sequence, pos) == sequence - pos
  {
  }

  // ----- the tests made on words -----

  /** The sequence of a slot stays within a lap of any ticket that can ask for it. */
  lemma SequenceRange<T>(s: State<T>, pos: nat)
    requires RingInv(s) && pos <= s.enqueue
    ensures pos - |s.slots| <= s.slots[Home(s, pos)].sequence <= s.enqueue + |s.slots| - 1
  {
    assert SlotInv(s, Home(s, pos));
  }

  /** The signed word test of a push decides as the unbounded tickets would. */
  lemma PushTestsAgree<T>(s: State<T>, tid: nat)
    requires RingInv(s) && LagBounded(s)
    requires tid in s.threads && s.threads[tid].phase.PushSequence?
    ensures var pos := s.threads[tid].phase.pos;
            SignedGap(s.slots[Home(s, pos)].sequence, pos) == s.slots[Home(s, pos)].sequence - pos
  {
    var pos := s.threads[tid].phase.pos;
    assert ThreadInv(s, tid) && ThreadLag(s, s.threads[tid].phase);
    SequenceRange(s, pos);
    SmallGap(s.slots[Home(s, pos)].sequence, pos);
  }

  /** The same for a pop. */
  lemma PopTestsAgree<T>(s: State<T>, tid: nat)
    requires RingInv(s) && LagBounded(s)
    requires tid in s.threads && s.threads[tid].phase.PopSequence?
    ensures var pos := s.threads[tid].phase.pos;
            SignedGap(s.slots[Home(s, pos)].sequence, pos + 1) == s.slots[Home(s, pos)].sequence - (pos + 1)
  {
    var pos := s.threads[tid].phase.pos;
    assert ThreadInv(s, tid) && ThreadLag(s, s.threads[tid].phase);
    assert SlotInv(s, Home(s, pos));
    SmallGap(s.slots[Home(s, pos)].sequence, pos + 1);
  }

  /** A compare and swap on words succeeds only on the very ticket that was loaded. */
  lemma ClaimTestsAgree<T>(s: State<T>, tid: nat)
    requires RingInv(s) && LagBounded(s) && tid in s.threads
    ensures var phase := s.threads[tid].phase;
            && (phase.PushClaim? ==> (SameWord(s.enqueue, phase.pos) <==> s.enqueue == phase.pos))
            && (phase.PopClaim? ==> (SameWord(s.dequeue, phase.pos) <==> s.dequeue == phase.pos))
  {
    var phase := s.threads[tid].phase;
    assert ThreadInv(s, tid) && ThreadLag(s, phase);
    if phase.PushClaim? && SameWord(s.enqueue, phase.pos) { SameTicket(s.enqueue, phase.pos); }
    if phase.PopClaim? && SameWord(s.dequeue, phase.pos) { SameTicket(s.dequeue, phase.pos); }
  }

  // ----- every step keeps the invariant -----

  lemma BeginKeepsRing<T>(s: State<T>, tid: nat, phase: Phase<T>)
    requires RingInv(s) && tid in s.threads && s.threads[tid].phase.Done?
    requires phase.PushTicket? || phase.PopTicket?
    ensures RingInv(Begin(s, tid, phase))
  {
    var s' := Begin(s, tid, phase);
    forall i | 0 <= i < |s'.slots| ensures SlotInv(s', i) { assert SlotInv(s, i); }
    forall t | t in s'.threads ensures ThreadInv(s', t) { assert ThreadInv(s, t); }
  }

  /** A step that only moves a thread that owns nothing, before and after. */
  lemma MoveKeepsRing<T>(s: State<T>, tid: nat, phase: Phase<T>)
    requires RingInv(s) && tid in s.threads
    requires Unclaimed(s.threads[tid].phase) && (Unclaimed(phase) || phase.Done?)
    requires ThreadInv(SetPhase(s, tid, phase), tid)
    ensures RingInv(SetPhase(s, tid, phase))
  {
    var s' := SetPhase(s, tid, phase);
    forall i | 0 <= i < |s'.slots| ensures SlotInv(s', i) { assert SlotInv(s, i); }
    forall t | t in s'.threads ensures ThreadInv(s', t) { assert ThreadInv(s, t); }
  }

  lemma PushDecisionKeepsRing<T>(s: State<T>, tid: nat)
    requires RingInv(s) && LagBounded(s) && tid in s.threads && s.threads[tid].phase.PushSequence?
    ensures RingInv(AdvanceThread(s, tid, false))
  {
    var phase := s.threads[tid].phase;
    var pos := phase.pos;
    assert ThreadInv(s, tid) && SlotInv(s, Home(s, pos));
    PushTestsAgree(s, tid);
    MoveKeepsRing(s, tid, PushDecision(s.slots[Home(s, pos)].sequence, phase.value, pos));
  }

  lemma PopDecisionKeepsRing<T>(s: State<T>, tid: nat)
    requires RingInv(s) && LagBounded(s) && tid in s.threads && s.threads[tid].phase.PopSequence?
    ensures RingInv(AdvanceThread(s, tid, false))
  {
    var pos := s.threads[tid].phase.pos;
    assert ThreadInv(s, tid) && SlotInv(s, Home(s, pos));
    PopTestsAgree(s, tid);
    MoveKeepsRing(s, tid, PopDecision(s.slots[Home(s, pos)].sequence, pos));
  }

  lemma PushClaimKeepsRing<T>(s: State<T>, tid: nat)
    requires RingInv(s) && tid in s.threads && s.threads[tid].phase.PushClaim?
    requires s.threads[tid].phase.pos == s.enqueue
    ensures RingInv(AdvanceThread(s, tid, false))
  {
    var s' := AdvanceThread(s, tid, false);
    var pos := s.enqueue;
    assert ThreadInv(s, tid) && SlotInv(s, Home(s, pos));
    forall i | 0 <= i < |s'.slots| ensures SlotInv(s', i) {
      assert SlotInv(s, i);
      var c := Serving(s.slots[i].sequence, i, |s.slots|);
    }
    forall t | t in s'.threads ensures ThreadInv(s', t) { assert ThreadInv(s, t); }
  }

  lemma PopClaimKeepsRing<T>(s: State<T>, tid: nat)
    requires RingInv(s) && tid in s.threads && s.threads[tid].phase.PopClaim?
    requires s.threads[tid].phase.pos == s.dequeue
    ensures RingInv(AdvanceThread(s, tid, false))
  {
    var s' := AdvanceThread(s, tid, false);
    var pos := s.dequeue;
    assert ThreadInv(s, tid) && SlotInv(s, Home(s, pos));
    NextSlotDiffers(pos, |s.slots|);
    forall i | 0 <= i < |s'.slots| ensures SlotInv(s', i) {
      assert SlotInv(s, i);
      var c := Serving(s.slots[i].sequence, i, |s.slots|);
      if c < pos + |s.slots| && pos < c + |s.slots| && i == Home(s, pos) { SameSlot(c, pos, |s.slots|); }
    }
    forall t | t in s'.threads ensures ThreadInv(s', t) { assert ThreadInv(s, t); }
  }

  /** The ticket a thread has loaded or claimed; 0 where it has none. */
  function TicketOf<T>(phase: Phase<T>): nat {
    match phase
    case PushSequence(_, pos) => pos
    case PushClaim(_, pos) => pos
    case PushStore(_, pos) => pos
    case PushPublish(_, pos) => pos
    case PopSequence(pos) => pos
    case PopClaim(pos) => pos
    case PopTake(pos) => pos
    case PopRelease(pos, _) => pos
    case _ => 0
  }

  ghost predicate Owns<T>(s: State<T>, tid: nat) {
    tid in s.threads && var pos := TicketOf(s.threads[tid].phase); OwnsPush(s, tid, pos) || OwnsPop(s, tid, pos)
  }

  /** The thread owns its slot, or has read a sequence it still relies on. */
  ghost predicate ReliesOnSlot<T>(s: State<T>, tid: nat) {
    && tid in s.threads
    && var phase := s.threads[tid].phase;
       || Owns(s, tid)
       || (phase.PushClaim? && phase.pos == s.enqueue)
       || (phase.PopClaim? && phase.pos == s.dequeue)
  }

  /**
    Between its claim and its sequence store a thread is alone on its slot: no other thread
    owns the slot, and none can still claim it on the sequence it has read.
  */
  lemma SlotHasOneOwner<T>(s: State<T>, tid: nat, other: nat)
    requires RingInv(s) && Owns(s, tid) && ReliesOnSlot(s, other) && tid != other
    ensures Home(s, TicketOf(s.threads[tid].phase)) != Home(s, TicketOf(s.threads[other].phase))
  {
    assert ThreadInv(s, tid) && ThreadInv(s, other);
    NextSlotDiffers(TicketOf(s.threads[tid].phase), |s.slots|);
    NextSlotDiffers(TicketOf(s.threads[other].phase), |s.slots|);
  }

  /** `s'` differs from `s` only in the slot of the ticket `tid` owns, and in `tid` itself. */
  ghost predicate OwnerStep<T>(s: State<T>, s': State<T>, tid: nat) {
    && Owns(s, tid)
    && |s'.slots| == |s.slots| > 0
    && (forall i :: 0 <= i < |s.slots| && i != Home(s, TicketOf(s.threads[tid].phase)) ==> s'.slots[i] == s.slots[i])
    && s'.threads.Keys == s.threads.Keys
    && (forall t :: t in s.threads && t != tid ==> s'.threads[t] == s.threads[t])
    && s' == s.(slots := s'.slots, threads := s'.threads, returned := s'.returned)
  }

  /** Only the owned slot and its owner have to be looked at again. */
  lemma OwnerStepKeepsRing<T>(s: State<T>, s': State<T>, tid: nat)
    requires RingInv(s) && OwnerStep(s, s', tid)
    requires SlotInv(s', Home(s, TicketOf(s.threads[tid].phase))) && ThreadInv(s', tid)
    ensures RingInv(s')
  {
    forall i | 0 <= i < |s'.slots| ensures SlotInv(s', i) {
      assert SlotInv(s, i) && ThreadInv(s, tid);
    }
    forall t | t in s'.threads ensures ThreadInv(s', t) {
      assert ThreadInv(s, t);
      if t != tid && ReliesOnSlot(s, t) { SlotHasOneOwner(s, tid, t); }
    }
  }

  lemma PushStoreKeepsRing<T>(s: State<T>, tid: nat)
    requires RingInv(s) && tid in s.threads && s.threads[tid].phase.PushStore?
    ensures RingInv(AdvanceThread(s, tid, false))
  {
    assert ThreadInv(s, tid) && SlotInv(s, Home(s, s.threads[tid].phase.pos));
    OwnerStepKeepsRing(s, AdvanceThread(s, tid, false), tid);
  }

  lemma PushPublishKeepsRing<T>(s: State<T>, tid: nat)
    requires RingInv(s) && tid in s.threads && s.threads[tid].phase.PushPublish?
    ensures RingInv(AdvanceThread(s, tid, false))
  {
    var pos := s.threads[tid].phase.pos;
    assert ThreadInv(s, tid) && SlotInv(s, Home(s, pos));
    NextSlotDiffers(pos, |s.slots|);
    OwnerStepKeepsRing(s, AdvanceThread(s, tid, false), tid);
  }

  lemma PopTakeKeepsRing<T>(s: State<T>, tid: nat)
    requires RingInv(s) && tid in s.threads && s.threads[tid].phase.PopTake?
    ensures RingInv(AdvanceThread(s, tid, false))
  {
    var pos := s.threads[tid].phase.pos;
    assert ThreadInv(s, tid) && SlotInv(s, Home(s, pos));
    NextSlotDiffers(pos, |s.slots|);
    OwnerStepKeepsRing(s, AdvanceThread(s, tid, false), tid);
  }

  lemma PopReleaseKeepsRing<T>(s: State<T>, tid: nat)
    requires RingInv(s) && tid in s.threads && s.threads[tid].phase.PopRelease?
    ensures RingInv(AdvanceThread(s, tid, false))
  {
    var pos := s.threads[tid].phase.pos;
    assert ThreadInv(s, tid) && SlotInv(s, Home(s, pos));
    NextSlotDiffers(pos, |s.slots|);
    NextLapSlot(pos, |s.slots|);
    OwnerStepKeepsRing(s, AdvanceThread(s, tid, false), tid);
  }

  lemma StepKeepsRing<T>(s: State<T>, action: Action<T>)
    requires RingInv(s) && LagBounded(s)
    ensures RingInv(Step(s, action))
  {
    if action.tid in s.threads {
      var tid := action.tid;
      var phase := s.threads[tid].phase;
      assert ThreadInv(s, tid);
      if action.Advance? {
        match phase
        case Done(_) =>
        case PushTicket(value) => MoveKeepsRing(s, tid, PushSequence(value, s.enqueue));
        case PushSequence(_, _) => PushDecisionKeepsRing(s, tid);
        case PushClaim(value, pos) =>
          ClaimTestsAgree(s, tid);
          if !action.spurious && s.enqueue == pos { PushClaimKeepsRing(s, tid); }
          else { MoveKeepsRing(s, tid, PushSequence(value, s.enqueue)); }
        case PushStore(_, _) => PushStoreKeepsRing(s, tid);
        case PushPublish(_, _) => PushPublishKeepsRing(s, tid);
        case PopTicket => MoveKeepsRing(s, tid, PopSequence(s.dequeue));
        case PopSequence(_) => PopDecisionKeepsRing(s, tid);
        case PopClaim(pos) =>
          ClaimTestsAgree(s, tid);
          if !action.spurious && s.dequeue == pos { PopClaimKeepsRing(s, tid); }
          else { MoveKeepsRing(s, tid, PopSequence(s.dequeue)); }
        case PopTake(_) => PopTakeKeepsRing(s, tid);
        case PopRelease(_, _) => PopReleaseKeepsRing(s, tid);
      } else if phase.Done? {
        BeginKeepsRing(s, tid, if action.CallPush? then PushTicket(action.value) else PopTicket);
      }
    }
  }

  /** What a step does to the thread that takes it and to the recorded claims. */
  ghost predicate ClaimEffect<T>(s: State<T>, s': State<T>, tid: nat) {
    && tid in s.threads && s'.threads.Keys == s.threads.Keys
    && (forall t :: t in s.threads && t != tid ==> s'.threads[t] == s.threads[t])
    && var before, after := s.threads[tid], s'.threads[tid];
       && (|| after.calls == before.calls + 1
           || (after.calls == before.calls && (Unclaimed(after.phase) ==> Unclaimed(before.phase))))
       && (|| s'.pushed == s.pushed
           || (&& before.phase.PushClaim? && after == Thread(before.calls, PushStore(before.phase.value, before.phase.pos))
               && s'.pushed == s.pushed + [PushClaimed(tid, before.calls, before.phase.value)]))
       && (|| s'.popped == s.popped
           || (&& before.phase.PopClaim? && after == Thread(before.calls, PopTake(before.phase.pos))
               && s'.popped == s.popped + [PopClaimed(tid, before.calls)]))
  }

  lemma StepClaims<T>(s: State<T>, action: Action<T>)
    requires |s.slots| > 0
    ensures Step(s, action) == s || ClaimEffect(s, Step(s, action), action.tid)
  {
    if action.tid in s.threads && action.Advance? {
      AdvanceClaims(s, action.tid, action.spurious);
    } else {
      hide AdvanceThread;
    }
  }

  lemma AdvanceClaims<T>(s: State<T>, tid: nat, spurious: bool)
    requires |s.slots| > 0 && tid in s.threads
    ensures var s' := AdvanceThread(s, tid, spurious); s' == s || ClaimEffect(s, s', tid)
  {
    hide SlotOf, SignedGap, SameWord;
    var s' := AdvanceThread(s, tid, spurious);
    if s'.pushed == s.pushed && s'.popped == s.popped {
      hide ClaimEffect;
      MoveClaims(s, s', tid);
    }
  }

  lemma MoveClaims<T>(s: State<T>, s': State<T>, tid: nat)
    requires tid in s.threads && tid in s'.threads && s'.pushed == s.pushed && s'.popped == s.popped
    requires s'.threads == s.threads[tid := s'.threads[tid]] && s'.threads[tid].calls == s.threads[tid].calls
    requires Unclaimed(s'.threads[tid].phase) ==> Unclaimed(s.threads[tid].phase)
    ensures ClaimEffect(s, s', tid)
  {
  }

  lemma ClaimKeepsCalls<T>(s: State<T>, s': State<T>, tid: nat)
    requires CallsInOrder(s) && ClaimEffect(s, s', tid)
    ensures CallsInOrder(s')
  {
    forall i | 0 <= i < |s'.pushed| ensures CallKnown(s', s'.pushed[i].tid, s'.pushed[i].call) {
      assert i < |s.pushed| ==> CallKnown(s, s.pushed[i].tid, s.pushed[i].call);
    }
    forall i | 0 <= i < |s'.popped| ensures CallKnown(s', s'.popped[i].tid, s'.popped[i].call) {
      assert i < |s.popped| ==> CallKnown(s, s.popped[i].tid, s.popped[i].call);
    }
    forall i, j | 0 <= i < j < |s'.pushed| && s'.pushed[i].tid == s'.pushed[j].tid
      ensures s'.pushed[i].call < s'.pushed[j].call
    {
      assert CallKnown(s, s.pushed[i].tid, s.pushed[i].call);
    }
    forall i, j | 0 <= i < j < |s'.popped| && s'.popped[i].tid == s'.popped[j].tid
      ensures s'.popped[i].call < s'.popped[j].call
    {
      assert CallKnown(s, s.popped[i].tid, s.popped[i].call);
    }
  }

  /** What a step does to the pop tickets. */
  ghost predicate TicketEffect<T>(s: State<T>, s': State<T>, tid: nat) {
    && tid in s.threads && s'.threads.Keys == s.threads.Keys
    && (forall t :: t in s.threads && t != tid ==> s'.threads[t] == s.threads[t])
    && s.pushed <= s'.pushed
    && var before, after := s.threads[tid].phase, s'.threads[tid].phase;
       if before.PopTake? then
         after.PopRelease? && after.pos == before.pos && s'.popped == s.popped && s'.returned == s.returned
       else if before.PopRelease? then
         && (after == before || (!after.PopTake? && !after.PopRelease?))
         && s'.popped == s.popped
         && s'.returned == if after == before then s.returned else s.returned[before.pos := before.result]
       else
         && s'.returned == s.returned
         && (|| (s'.popped == s.popped && !after.PopTake? && !after.PopRelease?)
             || (after == PopTake(s.dequeue) && s'.popped == s.popped + [PopClaimed(tid, s.threads[tid].calls)]))
  }

  lemma PopAdvanceTickets<T>(s: State<T>, tid: nat, spurious: bool)
    requires |s.slots| > 0 && tid in s.threads
    requires var phase := s.threads[tid].phase;
             && (phase.PopClaim? || phase.PopTake? || phase.PopRelease?)
             && (phase.PopClaim? ==> (SameWord(s.dequeue, phase.pos) <==> s.dequeue == phase.pos))
    ensures TicketEffect(s, AdvanceThread(s, tid, spurious), tid)
  {
  }

  lemma OtherAdvanceTickets<T>(s: State<T>, tid: nat, spurious: bool)
    requires |s.slots| > 0 && tid in s.threads
    requires var phase := s.threads[tid].phase; !phase.PopClaim? && !phase.PopTake? && !phase.PopRelease?
    ensures TicketEffect(s, AdvanceThread(s, tid, spurious), tid)
  {
  }

  lemma StepTickets<T>(s: State<T>, action: Action<T>)
    requires |s.slots| > 0
    requires action.tid in s.threads && s.threads[action.tid].phase.PopClaim? ==>
               (SameWord(s.dequeue, s.threads[action.tid].phase.pos) <==> s.dequeue == s.threads[action.tid].phase.pos)
    ensures Step(s, action) == s || TicketEffect(s, Step(s, action), action.tid)
  {
    if action.tid in s.threads && action.Advance? {
      hide AdvanceThread;
      var phase := s.threads[action.tid].phase;
      if phase.PopClaim? || phase.PopTake? || phase.PopRelease? {
        PopAdvanceTickets(s, action.tid, action.spurious);
      } else {
        OtherAdvanceTickets(s, action.tid, action.spurious);
      }
    }
  }

  lemma TicketEffectKeepsTickets<T>(s: State<T>, s': State<T>, tid: nat)
    requires RingInv(s) && TicketsInv(s) && RingInv(s') && TicketEffect(s, s', tid)
    ensures TicketsInv(s')
  {
    assert ThreadInv(s, tid);
    forall t | 0 <= t < s'.dequeue ensures ReturnedInv(s', t) {
      assert t < s.dequeue ==> ReturnedInv(s, t);
    }
  }

  /** One atomic access of any thread keeps the invariant. */
  lemma StepKeepsInv<T>(s: State<T>, action: Action<T>)
    requires Inv(s) && LagBounded(s)
    ensures Inv(Step(s, action))
  {
    StepKeepsRing(s, action);
    StepClaims(s, action);
    if action.tid in s.threads { ClaimTestsAgree(s, action.tid); }
    StepTickets(s, action);
    if Step(s, action) != s {
      ClaimKeepsCalls(s, Step(s, action), action.tid);
      TicketEffectKeepsTickets(s, Step(s, action), action.tid);
    }
  }

  lemma InitInv<T>(capacity: nat, tids: set<nat>)
    requires capacity >= 2
    ensures Inv<T>(Init(capacity, tids))
  {
    var s := Init<T>(capacity, tids);
    forall i | 0 <= i < |s.slots| ensures SlotInv(s, i) { assert SlotOf(i, capacity) == i; }
  }

  /** Every reachable state satisfies the invariant. */
  lemma {:induction false} ReachableInv<T>(capacity: nat, tids: set<nat>, schedule: seq<Action<T>>)
    requires capacity >= 2 && LagBoundedRun(Init(capacity, tids), schedule)
    ensures Inv(Execute(Init<T>(capacity, tids), schedule))
  {
    var s := Init<T>(capacity, tids);
    if schedule == [] {
      InitInv<T>(capacity, tids);
    } else {
      var before := schedule[..|schedule| - 1];
      forall n | 0 <= n <= |before| ensures LagBounded(Execute(s, before[..n])) {
        assert before[..n] == schedule[..n];
      }
      ReachableInv(capacity, tids, before);
      assert LagBounded(Execute(s, before));
      StepKeepsInv(Execute(s, before), schedule[|schedule| - 1]);
    }
  }
}
