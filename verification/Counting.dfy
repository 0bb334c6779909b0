/** Counting the threads in a set when one of them moves. */
module Counting {
  function One(b: bool): nat { if b then 1 else 0 }

  /** One thread joins a set, leaves it, or stays where it is. */
  lemma CountAfter(a: set<nat>, b: set<nat>, tid: nat, member: bool)
    requires b == if member then a + {tid} else a - {tid}
    ensures |b| == |a| - One(tid in a) + One(member)
  {
    assert tid in a ==> |a - {tid}| == |a| - 1 && a == a - {tid} + {tid};
    assert tid !in a ==> a - {tid} == a;
  }

  lemma SubsetCount(a: set<nat>, b: set<nat>)
    requires a <= b
    ensures |a| <= |b|
  {
    assert b == a + (b - a);
  }
}
