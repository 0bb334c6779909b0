/**
  The single-shot hand-off of a task's outcome: the shared state is assigned once, a promise
  that dies unsatisfied abandons it, and a future delivers it once.
*/
module TaskFuture {
  import opened Wrappers

  /** `result_` and `abandoned_` of the shared state. */
  datatype Shared<T> = Empty | Value(value: T) | Exception(error: nat) | Abandoned

  predicate HasOutcome<T>(s: Shared<T>) { !s.Empty? }

  /** What the three writers ask for. */
  datatype Write<T> = SetValue(value: T) | SetException(error: nat) | Abandon

  function Asked<T>(write: Write<T>): Shared<T> {
    match write
    case SetValue(value) => Value(value)
    case SetException(error) => Exception(error)
    case Abandon => Abandoned
  }

  /** A write takes effect on an empty state only. */
  function Apply<T>(s: Shared<T>, write: Write<T>): Shared<T> {
    if HasOutcome(s) then s else Asked(write)
  }

  function ApplyAll<T>(s: Shared<T>, writes: seq<Write<T>>): Shared<T> {
    if writes == [] then s else Apply(ApplyAll(s, writes[..|writes| - 1]), writes[|writes| - 1])
  }

  /** Over any run of writes, from any promise and from its death, the first one decides for good. */
  lemma {:induction false} FirstWriteDecides<T>(writes: seq<Write<T>>)
    ensures ApplyAll(Empty, writes) == if writes == [] then Empty else Asked(writes[0])
  {
    if writes != [] {
      var front := writes[..|writes| - 1];
      FirstWriteDecides(front);
      if front == [] { assert writes[|writes| - 1] == writes[0]; } else { assert front[0] == writes[0]; }
    }
  }

  // ----- the objects -----

  class SharedTaskState<T> {
    var result: Shared<T>  // never Abandoned: that is the flag's part
    var abandoned: bool

    ghost predicate Valid()
      reads this
    {
      !result.Abandoned? && (abandoned ==> result.Empty?)
    }

    ghost function View(): Shared<T>
      reads this
    {
      if abandoned then Abandoned else result
    }

    constructor ()
      ensures Valid() && View() == Empty
    {
      result, abandoned := Empty, false;
    }

    /** Refused, with nothing changed, once there is an outcome. */
    method SetValue(value: T) returns (ok: bool)
      requires Valid()
      modifies this
      ensures Valid() && View() == Apply(old(View()), Write.SetValue(value))
      ensures View() == if ok then Value(value) else old(View())
      ensures ok <==> old(View()).Empty?
    {
      ok := result.Empty? && !abandoned;
      if ok { result := Value(value); }
    }

    method SetException(error: nat) returns (ok: bool)
      requires Valid()
      modifies this
      ensures Valid() && View() == Apply(old(View()), Write.SetException(error))
      ensures View() == if ok then Exception(error) else old(View())
      ensures ok <==> old(View()).Empty?
    {
      ok := result.Empty? && !abandoned;
      if ok { result := Exception(error); }
    }

    method Abandon()
      requires Valid()
      modifies this
      ensures Valid() && View() == Apply(old(View()), Write.Abandon)
      ensures View() == if old(View()).Empty? then Abandoned else old(View())
    {
      if result.Empty? && !abandoned { abandoned := true; }
    }
  }

  /** What `get` hands to its caller. */
  datatype Delivery<T> = Delivered(value: T) | Rethrown(error: nat) | BrokenPromise | NoState

  class Future<T> {
    var state: SharedTaskState?<T>

    constructor (state: SharedTaskState?<T>)
      ensures this.state == state
    {
      this.state := state;
    }

    /** Called when the wait is over; the future is spent whatever comes out. */
    method Get() returns (d: Delivery<T>)
      requires state != null ==> state.Valid() && HasOutcome(state.View())
      modifies this
      ensures state == null
      ensures old(state) == null ==> d == NoState
      ensures old(state) != null ==>
                && old(state).View() == old(state.View())
                && d == match old(state.View())
                        case Value(value) => Delivered(value)
                        case Exception(error) => Rethrown(error)
                        case _ => BrokenPromise
    {
      var taken := state;
      state := null;
      if taken == null { return NoState; }
      if taken.result.Exception? { return Rethrown(taken.result.error); }
      if taken.abandoned { return BrokenPromise; }
      d := Delivered(taken.result.value);
    }
  }

  class Promise<T> {
    var state: SharedTaskState?<T>
    var futureRetrieved: bool

    ghost predicate Valid()
      reads this, state
    {
      state != null ==> state.Valid()
    }

    constructor ()
      ensures Valid() && state != null && fresh(state) && state.View() == Empty && !futureRetrieved
    {
      state := new SharedTaskState<T>();
      futureRetrieved := false;
    }

    /** The one future of this promise; none on a second call or after a move. */
    method GetFuture() returns (future: Option<Future<T>>)
      requires Valid()
      modifies this
      ensures Valid() && state == old(state)
      ensures future.Some? <==> state != null && !old(futureRetrieved)
      ensures future.Some? ==> futureRetrieved && future.value.state == state && fresh(future.value)
      ensures future.None? ==> futureRetrieved == old(futureRetrieved)
    {
      if state == null || futureRetrieved { return None; }
      futureRetrieved := true;
      var f := new Future<T>(state);
      future := Some(f);
    }

    method SetValue(value: T) returns (ok: bool)
      requires Valid()
      modifies state
      ensures Valid() && (ok <==> state != null && old(state != null && state.View().Empty?))
      ensures state != null ==> state.View() == Apply(old(if state == null then Empty else state.View()), Write.SetValue(value))
      ensures ok ==> state.View() == Value(value)
    {
      if state == null { return false; }
      ok := state.SetValue(value);
    }

    /** A null error is refused before anything else is looked at. */
    method SetException(error: Option<nat>) returns (ok: bool)
      requires Valid()
      modifies state
      ensures Valid() && (ok <==> error.Some? && state != null && old(state != null && state.View().Empty?))
      ensures state != null ==>
                state.View() == if error.None? then old(if state == null then Empty else state.View())
                                else Apply(old(if state == null then Empty else state.View()), Write.SetException(error.value))
      ensures ok ==> state.View() == Exception(error.value)
    {
      if error.None? || state == null { return false; }
      ok := state.SetException(error.value);
    }

    /** Move assignment: what this promise owned and had not satisfied is abandoned. */
    method MoveAssign(other: Promise<T>)
      requires Valid() && other.Valid() && (state != null && other != this ==> state != other.state)
      modifies this, other, state
      ensures Valid() && other.Valid()
      ensures other == this ==> state == old(state) && futureRetrieved == old(futureRetrieved)
      ensures other == this && state != null ==> state.View() == old(if state == null then Empty else state.View())
      ensures other != this ==>
                && state == old(other.state) && futureRetrieved == old(other.futureRetrieved) && other.state == null
                && (state != null ==> state.View() == old(if other.state == null then Empty else other.state.View()))
      ensures other != this && old(state) != null ==>
                old(state).View() == Apply(old(if state == null then Empty else state.View()), Write.Abandon)
    {
      if other != this {
        if state != null { state.Abandon(); }
        state := other.state;
        other.state := null;
        futureRetrieved := other.futureRetrieved;
      }
    }

    /** The destructor. */
    method Destroy()
      requires Valid()
      modifies state
      ensures Valid()
      ensures state != null ==> state.View() == Apply(old(if state == null then Empty else state.View()), Write.Abandon)
    {
      if state != null { state.Abandon(); }
    }
  }
}
