/**
  The sorted-vector map under any strict weak order.  What a vector of entries means is what a
  linear scan finds in it; the map, its bounds and both its constructions are measured by that.
*/
module FlatMap {
  import opened Wrappers

  type Less<!K> = (K, K) -> bool

  ghost predicate StrictWeakOrder<K(!new)>(less: Less<K>) {
    && (forall a :: !less(a, a))
    && (forall a, b, c :: less(a, b) && less(b, c) ==> less(a, c))
    && (forall a, b, c :: Same(less, a, b) && Same(less, b, c) ==> Same(less, a, c))
  }

  /** Neither key comes first: they name the same entry. */
  predicate Same<K>(less: Less<K>, a: K, b: K) {
    !less(a, b) && !less(b, a)
  }

  /** A key between two equivalent ones does not separate them. */
  lemma SameOrder<K(!new)>(less: Less<K>, a: K, b: K, c: K)
    requires StrictWeakOrder(less) && Same(less, a, b)
    ensures (less(a, c) <==> less(b, c)) && (less(c, a) <==> less(c, b)) && (Same(less, a, c) <==> Same(less, b, c))
  {
    assert Same(less, a, c) ==> Same(less, b, c);
    assert Same(less, b, c) ==> Same(less, a, c);
    assert less(a, c) && less(c, b) ==> less(a, b);
    assert less(b, c) && less(c, a) ==> less(b, a);
  }

  // ----- the linear scan -----

  /** The first entry for `key`, or the length. */
  function FindAt<K, V>(less: Less<K>, s: seq<(K, V)>, key: K): (i: nat)
    ensures i <= |s|
    ensures forall j :: 0 <= j < i ==> !Same(less, s[j].0, key)
    ensures i < |s| ==> Same(less, s[i].0, key)
  {
    if s == [] then 0
    else
      var i := FindAt(less, s[..|s| - 1], key);
      if i < |s| - 1 || Same(less, s[|s| - 1].0, key) then i else |s|
  }

  function Lookup<K, V>(less: Less<K>, s: seq<(K, V)>, key: K): Option<(K, V)> {
    var i := FindAt(less, s, key);
    if i < |s| then Some(s[i]) else None
  }

  lemma FindsAt<K, V>(less: Less<K>, s: seq<(K, V)>, key: K, i: nat)
    requires i <= |s| && (i < |s| ==> Same(less, s[i].0, key))
    requires forall j :: 0 <= j < i ==> !Same(less, s[j].0, key)
    ensures FindAt(less, s, key) == i
  {
  }

  // ----- sorted vectors -----

  /** Strictly increasing keys. */
  ghost predicate Sorted<K, V>(less: Less<K>, s: seq<(K, V)>) {
    forall i, j :: 0 <= i < j < |s| ==> less(s[i].0, s[j].0)
  }

  /** `p` parts the vector into what comes before `key` and what does not. */
  ghost predicate PartsAt<K, V>(less: Less<K>, s: seq<(K, V)>, key: K, p: nat) {
    && p <= |s|
    && (forall i :: 0 <= i < p ==> less(s[i].0, key))
    && (forall i :: p <= i < |s| ==> !less(s[i].0, key))
  }

  /** In a sorted vector the scan's answer is at the partition point or nowhere. */
  lemma LowerBoundFinds<K(!new), V>(less: Less<K>, s: seq<(K, V)>, key: K, p: nat)
    requires StrictWeakOrder(less) && Sorted(less, s) && PartsAt(less, s, key, p)
    ensures FindAt(less, s, key) == if p < |s| && !less(key, s[p].0) then p else |s|
    ensures forall i :: p < i < |s| ==> less(key, s[i].0)
  {
    forall i | p < i < |s| ensures less(key, s[i].0) {
      if !less(key, s[i].0) {
        SameOrder(less, key, s[i].0, s[p].0);
      }
    }
    FindsAt(less, s, key, if p < |s| && !less(key, s[p].0) then p else |s|);
  }

  /** A sorted vector is determined by what the scan finds in it. */
  lemma {:induction false} LookupDetermines<K(!new), V>(less: Less<K>, a: seq<(K, V)>, b: seq<(K, V)>)
    requires StrictWeakOrder(less) && Sorted(less, a) && Sorted(less, b)
    requires forall key :: Lookup(less, a, key) == Lookup(less, b, key)
    ensures a == b
  {
    if a == [] || b == [] {
      if a != [] { OwnKeyFound(less, a, 0); }
      if b != [] { OwnKeyFound(less, b, 0); }
    } else {
      FirstIsFirst(less, a, b);
      FirstIsFirst(less, b, a);
      assert a[0] == b[0];
      forall key ensures Lookup(less, a[1..], key) == Lookup(less, b[1..], key) {
        LookupOfTail(less, a, key);
        LookupOfTail(less, b, key);
      }
      LookupDetermines(less, a[1..], b[1..]);
    }
  }

  lemma OwnKeyFound<K(!new), V>(less: Less<K>, s: seq<(K, V)>, i: nat)
    requires StrictWeakOrder(less) && Sorted(less, s) && i < |s|
    ensures Lookup(less, s, s[i].0) == Some(s[i])
  {
    FindsAt(less, s, s[i].0, i);
  }

  lemma FirstIsFirst<K(!new), V>(less: Less<K>, a: seq<(K, V)>, b: seq<(K, V)>)
    requires StrictWeakOrder(less) && Sorted(less, a) && Sorted(less, b) && a != [] && b != []
    requires forall key :: Lookup(less, a, key) == Lookup(less, b, key)
    ensures a[0] in b && (a[0] == b[0] || less(b[0].0, a[0].0))
  {
    OwnKeyFound(less, a, 0);
    var j := FindAt(less, b, a[0].0);
    assert Lookup(less, b, a[0].0) == Some(a[0]);
    assert b[j] == a[0];
  }

  lemma LookupOfTail<K(!new), V>(less: Less<K>, s: seq<(K, V)>, key: K)
    requires StrictWeakOrder(less) && Sorted(less, s) && s != []
    ensures Lookup(less, s[1..], key) == if Same(less, s[0].0, key) then None else Lookup(less, s, key)
  {
    var tail := s[1..];
    if Same(less, s[0].0, key) {
      forall j | 0 <= j < |tail| ensures !Same(less, tail[j].0, key) {
        SameOrder(less, s[0].0, key, tail[j].0);
        assert less(s[0].0, s[j + 1].0);
      }
      FindsAt(less, tail, key, |tail|);
    } else {
      var i := FindAt(less, s, key);
      FindsAt(less, tail, key, i - 1);
    }
  }

  // ----- changes to a sorted vector, seen by the scan -----

  function InsertAt<T>(s: seq<T>, p: nat, x: T): seq<T>
    requires p <= |s|
  {
    s[..p] + [x] + s[p..]
  }

  function RemoveAt<T>(s: seq<T>, p: nat): seq<T>
    requires p < |s|
  {
    s[..p] + s[p + 1..]
  }

  lemma InsertKeepsSorted<K(!new), V>(less: Less<K>, s: seq<(K, V)>, p: nat, kv: (K, V))
    requires StrictWeakOrder(less) && Sorted(less, s) && PartsAt(less, s, kv.0, p) && FindAt(less, s, kv.0) == |s|
    ensures Sorted(less, InsertAt(s, p, kv))
  {
    LowerBoundFinds(less, s, kv.0, p);
  }

  lemma InsertFound<K(!new), V>(less: Less<K>, s: seq<(K, V)>, p: nat, kv: (K, V), key: K)
    requires StrictWeakOrder(less) && p <= |s| && FindAt(less, s, kv.0) == |s| && Same(less, kv.0, key)
    ensures Lookup(less, InsertAt(s, p, kv), key) == Some(kv)
  {
    var after := InsertAt(s, p, kv);
    forall j | 0 <= j < p ensures !Same(less, after[j].0, key) {
      SameOrder(less, kv.0, key, s[j].0);
    }
    FindsAt(less, after, key, p);
  }

  lemma InsertMissed<K(!new), V>(less: Less<K>, s: seq<(K, V)>, p: nat, kv: (K, V), key: K)
    requires p <= |s| && !Same(less, kv.0, key)
    ensures Lookup(less, InsertAt(s, p, kv), key) == Lookup(less, s, key)
  {
    var after := InsertAt(s, p, kv);
    var i := FindAt(less, s, key);
    var at := if i < p then i else i + 1;
    assert after[p] == kv;
    assert forall j :: 0 <= j < p ==> after[j] == s[j];
    assert forall j :: p < j < |after| ==> after[j] == s[j - 1];
    FindsAt(less, after, key, at);
  }

  lemma InsertLookup<K(!new), V>(less: Less<K>, s: seq<(K, V)>, p: nat, kv: (K, V), key: K)
    requires StrictWeakOrder(less) && p <= |s| && FindAt(less, s, kv.0) == |s|
    ensures Lookup(less, InsertAt(s, p, kv), key) ==
            if Same(less, kv.0, key) then Some(kv) else Lookup(less, s, key)
  {
    if Same(less, kv.0, key) { InsertFound(less, s, p, kv, key); } else { InsertMissed(less, s, p, kv, key); }
  }

  lemma RemoveLookup<K(!new), V>(less: Less<K>, s: seq<(K, V)>, p: nat, key: K)
    requires StrictWeakOrder(less) && Sorted(less, s) && p < |s|
    ensures Sorted(less, RemoveAt(s, p))
    ensures Lookup(less, RemoveAt(s, p), key) == if Same(less, s[p].0, key) then None else Lookup(less, s, key)
  {
    var after := RemoveAt(s, p);
    if Same(less, s[p].0, key) {
      forall j | 0 <= j < |after| ensures !Same(less, after[j].0, key) {
        SameOrder(less, s[p].0, key, after[j].0);
        assert j < p ==> less(s[j].0, s[p].0);
        assert j >= p ==> less(s[p].0, s[j + 1].0);
      }
      FindsAt(less, after, key, |after|);
    } else {
      var i := FindAt(less, s, key);
      FindsAt(less, after, key, if i < p then i else i - 1);
    }
  }

  lemma UpdateLookup<K(!new), V>(less: Less<K>, s: seq<(K, V)>, p: nat, value: V, key: K)
    requires StrictWeakOrder(less) && p < |s| && FindAt(less, s, s[p].0) == p
    ensures var after := s[p := (s[p].0, value)];
            && (Sorted(less, s) ==> Sorted(less, after))
            && Lookup(less, after, key) == if Same(less, s[p].0, key) then Some((s[p].0, value)) else Lookup(less, s, key)
  {
    var after := s[p := (s[p].0, value)];
    var i := FindAt(less, s, key);
    if Same(less, s[p].0, key) {
      forall j | 0 <= j < p ensures !Same(less, after[j].0, key) { SameOrder(less, s[p].0, key, s[j].0); }
      FindsAt(less, after, key, p);
    } else {
      FindsAt(less, after, key, i);
    }
  }

  /** A sorted vector has one entry at most for a key. */
  lemma OnlyOne<K(!new), V>(less: Less<K>, s: seq<(K, V)>, key: K, p: nat)
    requires StrictWeakOrder(less) && Sorted(less, s) && p < |s| && Same(less, s[p].0, key)
    ensures FindAt(less, s, key) == p
  {
    forall j | 0 <= j < p ensures !Same(less, s[j].0, key) {
      SameOrder(less, s[p].0, key, s[j].0);
      assert less(s[j].0, s[p].0);
    }
    FindsAt(less, s, key, p);
  }

  // ----- the map -----

  class FlatMap<K(!new), V> {
    const less: Less<K>
    var data: seq<(K, V)>

    ghost predicate Valid()
      reads this
    {
      StrictWeakOrder(less) && Sorted(less, data)
    }

    constructor (less: Less<K>)
      requires StrictWeakOrder(less)
      ensures Valid() && this.less == less && data == []
    {
      this.less := less;
      data := [];
    }

    /** `std::lower_bound` over the keys. */
    method LowerBound(key: K) returns (p: nat)
      requires Valid()
      ensures PartsAt(less, data, key, p)
    {
      p := 0;
      var count: nat := |data|;
      while count > 0
        invariant p + count <= |data|
        invariant forall i :: 0 <= i < p ==> less(data[i].0, key)
        invariant forall i :: p + count <= i < |data| ==> !less(data[i].0, key)
      {
        var step := count / 2;
        var mid := p + step;
        if less(data[mid].0, key) {
          p := mid + 1;
          count := count - (step + 1);
        } else {
          forall i | mid < i < |data| ensures !less(data[i].0, key) {
            assert less(data[mid].0, data[i].0);
          }
          count := step;
        }
      }
    }

    /** `std::upper_bound` over the keys: one past the entry for `key`, if there is one. */
    method UpperBound(key: K) returns (p: nat)
      requires Valid()
      ensures p <= |data|
      ensures forall i :: 0 <= i < p ==> !less(key, data[i].0)
      ensures forall i :: p <= i < |data| ==> less(key, data[i].0)
    {
      p := 0;
      var count: nat := |data|;
      while count > 0
        invariant p + count <= |data|
        invariant forall i :: 0 <= i < p ==> !less(key, data[i].0)
        invariant forall i :: p + count <= i < |data| ==> less(key, data[i].0)
      {
        var step := count / 2;
        var mid := p + step;
        if !less(key, data[mid].0) {
          forall i | 0 <= i < mid ensures !less(key, data[i].0) {
            assert less(data[i].0, data[mid].0);
          }
          p := mid + 1;
          count := count - (step + 1);
        } else {
          forall i | mid < i < |data| ensures less(key, data[i].0) {
            assert less(data[mid].0, data[i].0);
          }
          count := step;
        }
      }
    }

    /** `find` and `locate`: the binary search agrees with the linear scan. */
    method Find(key: K) returns (i: nat)
      requires Valid()
      ensures i == FindAt(less, data, key)
    {
      var p := LowerBound(key);
      LowerBoundFinds(less, data, key, p);
      i := if p < |data| && !less(key, data[p].0) then p else |data|;
    }

    /** `at`: the entry the scan finds, or none for out_of_range. */
    method At(key: K) returns (entry: Option<(K, V)>)
      requires Valid()
      ensures entry == Lookup(less, data, key)
    {
      var i := Find(key);
      entry := if i < |data| then Some(data[i]) else None;
    }

    /** Where the entry is, and whether it is new; an entry already there stays. */
    method Insert(kv: (K, V)) returns (pos: nat, inserted: bool)
      requires Valid()
      modifies this
      ensures Valid() && pos < |data| && Same(less, data[pos].0, kv.0)
      ensures inserted <==> old(Lookup(less, data, kv.0)).None?
      ensures !inserted ==> data == old(data)
      ensures inserted ==> data[pos] == kv && |data| == |old(data)| + 1
      ensures inserted ==> forall key ::
                Lookup(less, data, key) == if Same(less, kv.0, key) then Some(kv) else old(Lookup(less, data, key))
    {
      pos := LowerBound(kv.0);
      LowerBoundFinds(less, data, kv.0, pos);
      if pos < |data| && !less(kv.0, data[pos].0) { return pos, false; }
      InsertKeepsSorted(less, data, pos, kv);
      forall key ensures Lookup(less, InsertAt(data, pos, kv), key) ==
                         if Same(less, kv.0, key) then Some(kv) else Lookup(less, data, key) {
        InsertLookup(less, data, pos, kv, key);
      }
      data := InsertAt(data, pos, kv);
      inserted := true;
    }

    /** `operator[]`: the position of the value for `key`, put there with `default` if absent. */
    method Index(key: K, default: V) returns (pos: nat)
      requires Valid()
      modifies this
      ensures Valid() && pos < |data| && FindAt(less, data, key) == pos
      ensures old(Lookup(less, data, key)).Some? ==> data == old(data)
      ensures old(Lookup(less, data, key)).None? ==>
                forall k :: Lookup(less, data, k) == if Same(less, key, k) then Some((key, default)) else old(Lookup(less, data, k))
    {
      var inserted: bool;
      pos, inserted := Insert((key, default));
      OnlyOne(less, data, key, pos);
    }

    /** A write through `operator[]`. */
    method Assign(key: K, default: V, value: V)
      requires Valid()
      modifies this
      ensures Valid()
      ensures forall k :: Lookup(less, data, k) ==
                if !Same(less, key, k) then old(Lookup(less, data, k))
                else match old(Lookup(less, data, key))
                     case Some(entry) => Some((entry.0, value))
                     case None => Some((key, value))
    {
      var pos := Index(key, default);
      ghost var indexed := data;
      OnlyOne(less, data, data[pos].0, pos);
      data := data[pos := (data[pos].0, value)];
      forall k ensures Lookup(less, data, k) ==
        if Same(less, key, k) then Some((indexed[pos].0, value)) else Lookup(less, indexed, k)
      {
        UpdateLookup(less, indexed, pos, value, k);
        SameOrder(less, key, indexed[pos].0, k);
      }
      UpdateLookup(less, indexed, pos, value, key);
    }

    /** How many entries went: none or the one the scan would find. */
    method Erase(key: K) returns (count: nat)
      requires Valid()
      modifies this
      ensures Valid() && |data| == |old(data)| - count
      ensures count == if old(Lookup(less, data, key)).Some? then 1 else 0
      ensures forall k :: Lookup(less, data, k) == if Same(less, key, k) then None else old(Lookup(less, data, k))
    {
      var i := Find(key);
      if i == |data| {
        forall k | Same(less, key, k) ensures Lookup(less, data, k) == None {
          forall j | 0 <= j < |data| ensures !Same(less, data[j].0, k) { SameOrder(less, key, k, data[j].0); }
        }
        return 0;
      }
      forall k ensures Sorted(less, RemoveAt(data, i)) &&
                       Lookup(less, RemoveAt(data, i), k) == if Same(less, key, k) then None else Lookup(less, data, k) {
        RemoveLookup(less, data, i, k);
        SameOrder(less, key, data[i].0, k);
      }
      RemoveLookup(less, data, i, key);
      data := RemoveAt(data, i);
      count := 1;
    }
  }
}
