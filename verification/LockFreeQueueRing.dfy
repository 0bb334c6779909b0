/**
  The ring as an object: an array of slots and two ticket counters changed in place.
  `Advance` makes one atomic access of one thread and is proved to be the machine's step;
  `TryPush` and `TryPop` are the retry loops, run with no other thread moving.
*/
module LockFreeQueueRing {
  import opened Wrappers
  import opened LockFreeQueue

  // ----- the constructor's rounding -----

  function PowerOfTwo(exponent: nat): (p: nat)
    ensures p >= 1
  {
    if exponent == 0 then 1 else 2 * PowerOfTwo(exponent - 1)
  }

  /** The least power of two that holds the request; none if it is zero or not representable. */
  method RoundedCapacity(minCapacity: nat) returns (r: Option<nat>, ghost exponent: nat)
    ensures r.None? <==> minCapacity == 0 || minCapacity > HALF_WORD
    ensures r.Some? ==>
              && r.value == PowerOfTwo(exponent) && minCapacity <= r.value <= HALF_WORD
              && (forall e: nat :: PowerOfTwo(e) >= minCapacity ==> PowerOfTwo(e) >= r.value)
  {
    exponent := 0;
    if minCapacity == 0 || minCapacity > HALF_WORD { return None, 0; }
    var capacity := 1;
    PowersDoubleTo63();
    while capacity < minCapacity
      invariant capacity == PowerOfTwo(exponent) && capacity <= HALF_WORD && exponent <= 63
      invariant exponent > 0 ==> PowerOfTwo(exponent - 1) < minCapacity
      decreases HALF_WORD - capacity
    {
      if exponent < 63 { PowersMonotone(exponent + 1, 63); }
      capacity := 2 * capacity;
      exponent := exponent + 1;
    }
    forall e: nat | PowerOfTwo(e) >= minCapacity ensures PowerOfTwo(e) >= capacity {
      if e < exponent { PowersMonotone(e, exponent - 1); } else { PowersMonotone(exponent, e); }
    }
    r := Some(capacity);
  }

  lemma {:induction false} PowersMonotone(a: nat, b: nat)
    requires a <= b
    ensures PowerOfTwo(a) <= PowerOfTwo(b)
  {
    if a < b { PowersMonotone(a, b - 1); }
  }

  lemma {:induction false} PowersAdd(a: nat, b: nat)
    ensures PowerOfTwo(a + b) == PowerOfTwo(a) * PowerOfTwo(b)
  {
    if b > 0 { PowersAdd(a, b - 1); }
  }

  lemma PowersDoubleTo63()
    ensures PowerOfTwo(63) == HALF_WORD
  {
    assert PowerOfTwo(1) == 2;
    assert PowerOfTwo(2) == 4;
    hide PowerOfTwo;
    PowersAdd(2, 2);
    assert PowerOfTwo(4) == 16;
    PowersAdd(4, 4);
    assert PowerOfTwo(8) == 256;
    PowersAdd(8, 8);
    assert PowerOfTwo(16) == 65536;
    PowersAdd(16, 16);
    assert PowerOfTwo(32) == 0x1_0000_0000;
    PowersAdd(32, 16);
    assert PowerOfTwo(48) == 0x1_0000_0000_0000;
    PowersAdd(48, 8);
    PowersAdd(56, 4);
    PowersAdd(60, 2);
    PowersAdd(62, 1);
  }

  // ----- the object -----

  class Ring<T> {
    var slots: array<Slot<T>>
    var enqueue: nat
    var dequeue: nat

    /** The object holds the shared part of machine state `s`. */
    ghost predicate Holds(s: State<T>)
      reads this, slots
    {
      slots[..] == s.slots && enqueue == s.enqueue && dequeue == s.dequeue
    }

    constructor (capacity: nat, ghost tids: set<nat>)
      requires capacity > 0
      ensures fresh(slots) && Holds(Init(capacity, tids))
    {
      slots := new Slot<T>[capacity](i requires 0 <= i => Slot(i, None));
      enqueue := 0;
      dequeue := 0;
    }

    /** One atomic access by a thread: exactly the machine's step, made in place. */
    method Advance(thread: Thread<T>, spurious: bool, ghost s: State<T>, ghost tid: nat) returns (after: Thread<T>)
      requires slots.Length > 0 && Holds(s) && tid in s.threads && s.threads[tid] == thread
      modifies this, slots
      ensures slots == old(slots)
      ensures var s' := AdvanceThread(s, tid, spurious);
              Holds(s') && after == s'.threads[tid]
    {
      after := thread;
      match thread.phase
      case Done(_) =>
      case PushTicket(value) => after := thread.(phase := PushSequence(value, enqueue));
      case PushSequence(value, pos) =>
        after := thread.(phase := PushDecision(slots[SlotOf(pos, slots.Length)].sequence, value, pos));
      case PushClaim(value, pos) =>
        if !spurious && SameWord(enqueue, pos) {
          enqueue := enqueue + 1;
          after := thread.(phase := PushStore(value, pos));
        } else {
          after := thread.(phase := PushSequence(value, enqueue));
        }
      case PushStore(value, pos) =>
        var i := SlotOf(pos, slots.Length);
        slots[i] := slots[i].(value := Some(value));
        after := thread.(phase := PushPublish(value, pos));
      case PushPublish(_, pos) =>
        var i := SlotOf(pos, slots.Length);
        slots[i] := slots[i].(sequence := pos + 1);
        after := thread.(phase := Done(Pushed(pos)));
      case PopTicket => after := thread.(phase := PopSequence(dequeue));
      case PopSequence(pos) =>
        after := thread.(phase := PopDecision(slots[SlotOf(pos, slots.Length)].sequence, pos));
      case PopClaim(pos) =>
        if !spurious && SameWord(dequeue, pos) {
          dequeue := dequeue + 1;
          after := thread.(phase := PopTake(pos));
        } else {
          after := thread.(phase := PopSequence(dequeue));
        }
      case PopTake(pos) =>
        var i := SlotOf(pos, slots.Length);
        after := thread.(phase := PopRelease(pos, slots[i].value));
        slots[i] := slots[i].(value := None);
      case PopRelease(pos, result) =>
        var i := SlotOf(pos, slots.Length);
        slots[i] := slots[i].(sequence := pos + slots.Length);
        after := thread.(phase := Done(Popped(pos, result)));
    }

    // ----- the calls, one after the other -----

    ghost predicate Quiet()
      reads this, slots
    {
      QuietRing(slots[..], dequeue, enqueue)
    }

    ghost function Contents(): seq<T>
      requires Quiet()
      reads this, slots
    {
      QuietContents(slots[..], dequeue, enqueue)
    }

    /** A push that meets `failures` spurious compare-and-swap failures. */
    method TryPush(value: T, failures: nat) returns (ok: bool)
      requires Quiet()
      modifies this, slots
      ensures Quiet() && slots == old(slots)
      ensures ok <==> |old(Contents())| < slots.Length
      ensures Contents() == if ok then old(Contents()) + [value] else old(Contents())
    {
      hide QuietRing, QuietContents;
      var left := failures;
      var pos := enqueue;
      QuietBounds(slots[..], dequeue, enqueue);
      QuietSequences(slots[..], dequeue, enqueue);
      while true
        invariant slots == old(slots) && pos == enqueue == old(enqueue)
        invariant dequeue == old(dequeue) && slots[..] == old(slots[..])
        decreases left
      {
        var i := SlotOf(pos, slots.Length);
        var gap := SignedGap(slots[i].sequence, pos);
        if gap == 0 {
          if left == 0 {
            QuietPush(slots[..], dequeue, enqueue, value);
            enqueue := pos + 1;
            slots[i] := slots[i].(value := Some(value));
            slots[i] := slots[i].(sequence := pos + 1);
            assert slots[..] == old(slots[..])[i := Slot(pos + 1, Some(value))];
            return true;
          }
          pos := enqueue;
          left := left - 1;
        } else if gap < 0 {
          return false;
        } else {
          assert false;
        }
      }
    }

    /** A pop that meets `failures` spurious compare-and-swap failures. */
    method TryPop(failures: nat) returns (result: Option<T>)
      requires Quiet()
      modifies this, slots
      ensures Quiet() && slots == old(slots)
      ensures old(Contents()) == [] ==> result == None && Contents() == []
      ensures old(Contents()) != [] ==> result == Some(old(Contents())[0]) && Contents() == old(Contents())[1..]
    {
      hide QuietRing, QuietContents;
      var left := failures;
      var pos := dequeue;
      QuietBounds(slots[..], dequeue, enqueue);
      QuietSequences(slots[..], dequeue, enqueue);
      while true
        invariant slots == old(slots) && pos == dequeue == old(dequeue)
        invariant enqueue == old(enqueue) && slots[..] == old(slots[..])
        decreases left
      {
        var i := SlotOf(pos, slots.Length);
        var gap := SignedGap(slots[i].sequence, pos + 1);
        if gap == 0 {
          if left == 0 {
            QuietPop(slots[..], dequeue, enqueue);
            dequeue := pos + 1;
            result := slots[i].value;
            slots[i] := slots[i].(value := None);
            slots[i] := slots[i].(sequence := pos + slots.Length);
            assert slots[..] == old(slots[..])[i := Slot(pos + slots.Length, None)];
            return;
          }
          pos := dequeue;
          left := left - 1;
        } else if gap < 0 {
          return None;
        } else {
          assert false;
        }
      }
    }
  }

  // ----- a ring in which no call is in flight -----

  /** Tickets [dequeue, enqueue) are filled, and the rest of the lap is vacant. */
  ghost predicate QuietRing<T>(slots: seq<Slot<T>>, dequeue: nat, enqueue: nat) {
    && 2 <= |slots| <= HALF_WORD
    && dequeue <= enqueue <= dequeue + |slots|
    && (forall t :: dequeue <= t < enqueue ==>
          slots[SlotOf(t, |slots|)].sequence == t + 1 && slots[SlotOf(t, |slots|)].value.Some?)
    && (forall t :: enqueue <= t < dequeue + |slots| ==> slots[SlotOf(t, |slots|)] == Slot(t, None))
  }

  /** What a quiet ring holds, oldest first. */
  ghost function QuietContents<T>(slots: seq<Slot<T>>, dequeue: nat, enqueue: nat): (contents: seq<T>)
    requires QuietRing(slots, dequeue, enqueue)
    ensures |contents| == enqueue - dequeue
  {
    seq(enqueue - dequeue, k requires 0 <= k < enqueue - dequeue =>
          slots[SlotOf(dequeue + k, |slots|)].value.value)
  }

  /** The tickets of one lap are in different slots. */
  lemma SlotsOfALap(ticket: nat, from: nat, capacity: nat)
    requires capacity > 0 && from <= ticket < from + capacity
    ensures forall t :: from <= t < from + capacity && t != ticket ==> SlotOf(t, capacity) != SlotOf(ticket, capacity)
  {
    forall t | from <= t < from + capacity && t != ticket ensures SlotOf(t, capacity) != SlotOf(ticket, capacity) {
      if SlotOf(t, capacity) == SlotOf(ticket, capacity) { SameSlot(t, ticket, capacity); }
    }
  }

  lemma QuietBounds<T>(slots: seq<Slot<T>>, dequeue: nat, enqueue: nat)
    requires QuietRing(slots, dequeue, enqueue)
    ensures 2 <= |slots| <= HALF_WORD && dequeue <= enqueue <= dequeue + |slots|
  {
  }

  /** What the next push and the next pop read in a quiet ring. */
  lemma QuietSequences<T>(slots: seq<Slot<T>>, dequeue: nat, enqueue: nat)
    requires QuietRing(slots, dequeue, enqueue)
    ensures SignedGap(slots[SlotOf(enqueue, |slots|)].sequence, enqueue) ==
              if enqueue < dequeue + |slots| then 0 else 1 - |slots|
    ensures SignedGap(slots[SlotOf(dequeue, |slots|)].sequence, dequeue + 1) == if dequeue < enqueue then 0 else -1
  {
    NextLapSlot(dequeue, |slots|);
    SmallGap(slots[SlotOf(enqueue, |slots|)].sequence, enqueue);
    SmallGap(slots[SlotOf(dequeue, |slots|)].sequence, dequeue + 1);
  }

  lemma QuietPush<T>(slots: seq<Slot<T>>, dequeue: nat, enqueue: nat, value: T)
    requires QuietRing(slots, dequeue, enqueue) && enqueue < dequeue + |slots|
    ensures var slots' := slots[SlotOf(enqueue, |slots|) := Slot(enqueue + 1, Some(value))];
            && QuietRing(slots', dequeue, enqueue + 1)
            && QuietContents(slots', dequeue, enqueue + 1) == QuietContents(slots, dequeue, enqueue) + [value]
  {
    SlotsOfALap(enqueue, dequeue, |slots|);
  }

  lemma QuietPop<T>(slots: seq<Slot<T>>, dequeue: nat, enqueue: nat)
    requires QuietRing(slots, dequeue, enqueue) && dequeue < enqueue
    ensures var slots' := slots[SlotOf(dequeue, |slots|) := Slot(dequeue + |slots|, None)];
            && QuietRing(slots', dequeue + 1, enqueue)
            && slots[SlotOf(dequeue, |slots|)].value == Some(QuietContents(slots, dequeue, enqueue)[0])
            && QuietContents(slots', dequeue + 1, enqueue) == QuietContents(slots, dequeue, enqueue)[1..]
  {
    SlotsOfALap(dequeue, dequeue, |slots|);
    NextLapSlot(dequeue, |slots|);
  }
}
