/**
  The pool's queue: a binary heap ordered by (higher priority, then earlier submission), with
  the sift loops of `std::push_heap` and `std::pop_heap` written out.
*/
module PriorityHeap {
  /** A queued task; its sequence number identifies it. */
  datatype Task = Task(priority: int, sequence: nat)

  /** The heap's comparison: lower priority runs later, and so does a later submission. */
  predicate RunsLater(left: Task, right: Task) {
    if left.priority != right.priority then left.priority < right.priority
    else left.sequence > right.sequence
  }

  function Parent(i: nat): (p: nat)
    requires i > 0
    ensures p < i
  {
    (i - 1) / 2
  }

  ghost predicate IsHeap(h: seq<Task>) {
    forall i :: 0 < i < |h| ==> !RunsLater(h[Parent(i)], h[i])
  }

  /** `first` runs before every other task of `tasks`. */
  ghost predicate RunsFirst(first: Task, tasks: multiset<Task>) {
    first in tasks && forall t :: t in tasks ==> !RunsLater(first, t)
  }

  lemma {:induction false} TopIsFirst(h: seq<Task>, i: nat)
    requires IsHeap(h) && i < |h|
    ensures !RunsLater(h[0], h[i])
  {
    if i > 0 { TopIsFirst(h, Parent(i)); }
  }

  lemma HeapRunsFirst(h: seq<Task>)
    requires IsHeap(h) && h != []
    ensures RunsFirst(h[0], multiset(h))
  {
    forall t | t in multiset(h) ensures !RunsLater(h[0], t) {
      var i :| 0 <= i < |h| && h[i] == t;
      TopIsFirst(h, i);
    }
  }

  /** There is only one such task. */
  lemma FirstIsUnique(a: Task, b: Task, tasks: multiset<Task>)
    requires RunsFirst(a, tasks) && RunsFirst(b, tasks)
    ensures a == b
  {
  }

  function Swap(h: seq<Task>, i: nat, j: nat): seq<Task>
    requires i < |h| && j < |h|
  {
    h[i := h[j]][j := h[i]]
  }

  lemma SwapKeepsTasks(h: seq<Task>, i: nat, j: nat)
    requires i < |h| && j < |h|
    ensures multiset(Swap(h, i, j)) == multiset(h)
  {
  }

  // ----- sift up -----

  /** A heap but for what is at `at`, whose children fit under its parent. */
  ghost predicate HeapButUp(h: seq<Task>, at: nat) {
    && at < |h|
    && (forall i :: 0 < i < |h| && i != at ==> !RunsLater(h[Parent(i)], h[i]))
    && (at > 0 ==> forall i :: 0 < i < |h| && Parent(i) == at ==> !RunsLater(h[Parent(at)], h[i]))
  }

  lemma SiftUpStep(h: seq<Task>, at: nat)
    requires HeapButUp(h, at) && at > 0 && RunsLater(h[Parent(at)], h[at])
    ensures HeapButUp(Swap(h, at, Parent(at)), Parent(at))
  {
    hide Parent;
    var p, h' := Parent(at), Swap(h, at, Parent(at));
    forall i | 0 < i < |h| && i != p ensures !RunsLater(h'[Parent(i)], h'[i]) {
      assert i != at ==> !RunsLater(h[Parent(i)], h[i]);
    }
    assert p > 0 ==> !RunsLater(h[Parent(p)], h[p]);
  }

  // ----- sift down -----

  /** A heap but for what is at `at`, whose children fit under its parent. */
  ghost predicate HeapButDown(h: seq<Task>, at: nat) {
    && at < |h|
    && (forall i :: 0 < i < |h| && Parent(i) != at ==> !RunsLater(h[Parent(i)], h[i]))
    && (at > 0 ==> forall i :: 0 < i < |h| && Parent(i) == at ==> !RunsLater(h[Parent(at)], h[i]))
  }

  /** The child of `at` that runs first. */
  function FirstChild(h: seq<Task>, at: nat): (child: nat)
    requires 2 * at + 1 < |h|
    ensures at < child < |h| && Parent(child) == at
    ensures forall i :: 0 < i < |h| && Parent(i) == at ==> !RunsLater(h[child], h[i])
  {
    if 2 * at + 2 < |h| && RunsLater(h[2 * at + 1], h[2 * at + 2]) then 2 * at + 2 else 2 * at + 1
  }

  lemma SiftDownStep(h: seq<Task>, at: nat)
    requires HeapButDown(h, at) && 2 * at + 1 < |h| && RunsLater(h[at], h[FirstChild(h, at)])
    ensures HeapButDown(Swap(h, at, FirstChild(h, at)), FirstChild(h, at))
  {
    hide Parent, FirstChild;
  }

  class Heap {
    var tasks: seq<Task>

    constructor ()
      ensures tasks == []
    {
      tasks := [];
    }

    /** `push_back` and `push_heap`. */
    method Push(task: Task)
      requires IsHeap(tasks)
      modifies this
      ensures IsHeap(tasks) && multiset(tasks) == multiset(old(tasks)) + multiset{task}
    {
      tasks := tasks + [task];
      var at: nat := |tasks| - 1;
      while at > 0 && RunsLater(tasks[Parent(at)], tasks[at])
        invariant HeapButUp(tasks, at)
        invariant multiset(tasks) == multiset(old(tasks)) + multiset{task}
      {
        SiftUpStep(tasks, at);
        SwapKeepsTasks(tasks, at, Parent(at));
        tasks := Swap(tasks, at, Parent(at));
        at := Parent(at);
      }
    }

    /** `pop_heap`, then `pop_back`: the task that runs before every other leaves the queue. */
    method Pop() returns (task: Task)
      requires IsHeap(tasks) && tasks != []
      modifies this
      ensures RunsFirst(task, multiset(old(tasks)))
      ensures IsHeap(tasks) && multiset(tasks) == multiset(old(tasks)) - multiset{task}
    {
      HeapRunsFirst(tasks);
      task := tasks[0];
      var last := tasks[|tasks| - 1];
      assert tasks == tasks[..|tasks| - 1] + [last];
      tasks := tasks[..|tasks| - 1];
      if tasks == [] { return; }
      TopReplaced(old(tasks));
      tasks := tasks[0 := last];
      var at: nat := 0;
      while 2 * at + 1 < |tasks| && RunsLater(tasks[at], tasks[FirstChild(tasks, at)])
        invariant HeapButDown(tasks, at)
        invariant multiset(tasks) == multiset(old(tasks)) - multiset{task}
        decreases |tasks| - at
      {
        var child := FirstChild(tasks, at);
        SiftDownStep(tasks, at);
        SwapKeepsTasks(tasks, at, child);
        tasks := Swap(tasks, at, child);
        at := child;
      }
    }

    /** Popping until the queue is empty: what a drain runs, in order. */
    method Drain() returns (order: seq<Task>)
      requires IsHeap(tasks)
      modifies this
      ensures tasks == [] && InOrder(order) && multiset(order) == multiset(old(tasks))
    {
      order := [];
      while tasks != []
        invariant IsHeap(tasks) && InOrder(order)
        invariant multiset(order) + multiset(tasks) == multiset(old(tasks))
        invariant forall i, t :: 0 <= i < |order| && t in multiset(tasks) ==> !RunsLater(order[i], t)
        decreases |tasks|
      {
        assert |multiset(tasks)| == |tasks|;
        var task := Pop();
        assert |multiset(tasks)| == |tasks|;
        order := order + [task];
      }
    }
  }

  lemma TopReplaced(h: seq<Task>)
    requires IsHeap(h) && |h| > 1
    ensures var rest := h[..|h| - 1][0 := h[|h| - 1]];
            HeapButDown(rest, 0) && multiset(rest) == multiset(h) - multiset{h[0]}
  {
    var rest := h[..|h| - 1];
    assert h == rest + [h[|h| - 1]];
    assert multiset(rest[0 := h[|h| - 1]]) == multiset(rest) - multiset{h[0]} + multiset{h[|h| - 1]};
  }

  // ----- the order of a drain -----

  ghost predicate InOrder(order: seq<Task>) {
    forall i, j :: 0 <= i < j < |order| ==> !RunsLater(order[i], order[j])
  }

  /** Higher priority first, and among equals the earlier submission. */
  lemma InOrderMeans(order: seq<Task>, i: nat, j: nat)
    requires InOrder(order) && i < j < |order|
    ensures order[i].priority > order[j].priority
         || (order[i].priority == order[j].priority && order[i].sequence <= order[j].sequence)
  {
    assert !RunsLater(order[i], order[j]);
  }

  /** Insertion behind every task of at least the same priority. */
  function InsertStable(sorted: seq<Task>, task: Task): seq<Task> {
    if sorted == [] || sorted[|sorted| - 1].priority >= task.priority then sorted + [task]
    else InsertStable(sorted[..|sorted| - 1], task) + [sorted[|sorted| - 1]]
  }

  /** The stable sort of a submission order by descending priority; it never looks at sequence numbers. */
  function StableSort(submitted: seq<Task>): seq<Task> {
    if submitted == [] then []
    else InsertStable(StableSort(submitted[..|submitted| - 1]), submitted[|submitted| - 1])
  }

  /** Tasks in the order they were submitted. */
  ghost predicate InSubmissionOrder(submitted: seq<Task>) {
    forall i, j :: 0 <= i < j < |submitted| ==> submitted[i].sequence < submitted[j].sequence
  }

  lemma OrderExtends(order: seq<Task>, task: Task)
    requires InOrder(order) && forall t :: t in multiset(order) ==> !RunsLater(t, task)
    ensures InOrder(order + [task])
  {
    forall i | 0 <= i < |order| ensures !RunsLater(order[i], task) { assert order[i] in multiset(order); }
  }

  lemma OrderSplits(order: seq<Task>)
    requires InOrder(order) && order != []
    ensures var last := |order| - 1;
            && InOrder(order[..last]) && multiset(order[..last]) == multiset(order) - multiset{order[last]}
            && order[last] in multiset(order)
            && forall t :: t in multiset(order) ==> !RunsLater(t, order[last])
  {
    var last := |order| - 1;
    assert order == order[..last] + [order[last]];
    forall t | t in multiset(order) ensures !RunsLater(t, order[last]) {
      var k :| 0 <= k < |order| && order[k] == t;
    }
  }

  lemma {:induction false} InsertKeepsOrder(sorted: seq<Task>, task: Task)
    requires InOrder(sorted) && forall t :: t in multiset(sorted) ==> t.sequence < task.sequence
    ensures InOrder(InsertStable(sorted, task))
    ensures multiset(InsertStable(sorted, task)) == multiset(sorted) + multiset{task}
  {
    if sorted != [] { OrderSplits(sorted); }
    hide InOrder;
    if sorted == [] || sorted[|sorted| - 1].priority >= task.priority {
      OrderExtends(sorted, task);
    } else {
      var front, last := sorted[..|sorted| - 1], sorted[|sorted| - 1];
      assert multiset(sorted) == multiset(front) + multiset{last};
      InsertKeepsOrder(front, task);
      OrderExtends(InsertStable(front, task), last);
    }
  }

  lemma EarlierSubmissions(submitted: seq<Task>)
    requires InSubmissionOrder(submitted) && submitted != []
    ensures var front, last := submitted[..|submitted| - 1], submitted[|submitted| - 1];
            && multiset(submitted) == multiset(front) + multiset{last}
            && forall t: Task :: t in multiset(front) ==> t.sequence < last.sequence
  {
    var front, last := submitted[..|submitted| - 1], submitted[|submitted| - 1];
    assert submitted == front + [last];
    forall t: Task | t in multiset(front) ensures t.sequence < last.sequence {
      var k :| 0 <= k < |front| && front[k] == t;
    }
  }

  lemma {:induction false} StableSortInOrder(submitted: seq<Task>)
    requires InSubmissionOrder(submitted)
    ensures InOrder(StableSort(submitted)) && multiset(StableSort(submitted)) == multiset(submitted)
  {
    if submitted != [] {
      EarlierSubmissions(submitted);
      var front, last := submitted[..|submitted| - 1], submitted[|submitted| - 1];
      StableSortInOrder(front);
      hide InOrder, InSubmissionOrder, InsertStable;
      InsertKeepsOrder(StableSort(front), last);
    }
  }

  lemma SameTasksSameLength(a: seq<Task>, b: seq<Task>)
    requires multiset(a) == multiset(b)
    ensures |a| == |b|
  {
    assert |multiset(a)| == |a| && |multiset(b)| == |b|;
  }

  lemma LastIsForced(a: seq<Task>, b: seq<Task>)
    requires InOrder(a) && InOrder(b) && multiset(a) == multiset(b) && a != [] && b != []
    ensures a[|a| - 1] == b[|b| - 1]
    ensures InOrder(a[..|a| - 1]) && InOrder(b[..|b| - 1]) && multiset(a[..|a| - 1]) == multiset(b[..|b| - 1])
  {
    OrderSplits(a);
    OrderSplits(b);
  }

  /** The order decides the sequence: there is one sorted arrangement of given tasks. */
  lemma {:induction false} OrderIsUnique(a: seq<Task>, b: seq<Task>)
    requires InOrder(a) && InOrder(b) && multiset(a) == multiset(b)
    ensures a == b
  {
    SameTasksSameLength(a, b);
    if a != [] {
      LastIsForced(a, b);
      OrderIsUnique(a[..|a| - 1], b[..|b| - 1]);
      assert a == a[..|a| - 1] + [a[|a| - 1]] && b == b[..|b| - 1] + [b[|b| - 1]];
    }
  }

  /** Whatever order the heap was built in, a drain is the stable sort of the submissions. */
  lemma DrainIsStableSort(submitted: seq<Task>, order: seq<Task>)
    requires InSubmissionOrder(submitted) && InOrder(order) && multiset(order) == multiset(submitted)
    ensures order == StableSort(submitted)
  {
    StableSortInOrder(submitted);
    OrderIsUnique(order, StableSort(submitted));
  }
}
