/**
  The two constructions of the map, by repeated insertion and by a stable sort with duplicates
  dropped, and any run of operations: all are what a linear scan of the input would answer.
*/
module FlatMapBuild {
  import opened Wrappers
  import opened FlatMap

  // ----- what std::stable_sort promises -----

  /** Non-decreasing keys. */
  ghost predicate WeaklySorted<K, V>(less: Less<K>, s: seq<(K, V)>) {
    forall i, j :: 0 <= i < j < |s| ==> !less(s[j].0, s[i].0)
  }

  /** `from` says where each element came from: every index of the input, once. */
  ghost predicate Rearranges<T(!new)>(input: seq<T>, output: seq<T>, from: seq<nat>) {
    && |from| == |output| == |input|
    && (forall i :: 0 <= i < |from| ==> from[i] < |input| && output[i] == input[from[i]])
    && (forall m: nat :: m < |input| ==> m in from)
    && (forall i, j :: 0 <= i < j < |from| ==> from[i] != from[j])
  }

  /** A sorted rearrangement that keeps equivalent elements in their input order. */
  ghost predicate IsStableSort<K(!new), V(!new)>(less: Less<K>, input: seq<(K, V)>, output: seq<(K, V)>, from: seq<nat>) {
    && Rearranges(input, output, from)
    && WeaklySorted(less, output)
    && (forall i, j :: 0 <= i < j < |output| && Same(less, output[i].0, output[j].0) ==> from[i] < from[j])
  }

  /** A stable sort does not change what the scan finds. */
  lemma StableSortKeepsLookup<K(!new), V(!new)>(
    less: Less<K>, input: seq<(K, V)>, output: seq<(K, V)>, from: seq<nat>, key: K)
    requires StrictWeakOrder(less) && IsStableSort(less, input, output, from)
    ensures Lookup(less, output, key) == Lookup(less, input, key)
  {
    var m, i := FindAt(less, input, key), FindAt(less, output, key);
    assert i < |output| ==> output[i] == input[from[i]];
    forall a, b | 0 <= a < b < |output| && Same(less, output[a].0, key) && Same(less, output[b].0, key)
      ensures from[a] < from[b]
    {
      SameOrder(less, key, output[a].0, output[b].0);
    }
    if m < |input| {
      assert m in from;
      var j :| 0 <= j < |from| && from[j] == m;
      assert output[j] == input[m];
    }
  }

  /** `std::unique` with equivalence of keys: each element is compared with the last one kept. */
  function Unique<K, V>(less: Less<K>, s: seq<(K, V)>): (kept: seq<(K, V)>)
    ensures |kept| <= |s| && (s != [] ==> kept != [])
  {
    if s == [] then []
    else
      var kept, last := Unique(less, s[..|s| - 1]), s[|s| - 1];
      if kept != [] && Same(less, kept[|kept| - 1].0, last.0) then kept else kept + [last]
  }

  lemma {:induction false} UniqueKeepsLookup<K(!new), V>(less: Less<K>, s: seq<(K, V)>, key: K)
    requires StrictWeakOrder(less)
    ensures Lookup(less, Unique(less, s), key) == Lookup(less, s, key)
  {
    if s != [] {
      var front, last := s[..|s| - 1], s[|s| - 1];
      UniqueKeepsLookup(less, front, key);
      assert s == front + [last];
      UniqueStepLookup(less, front, Unique(less, front), last, key);
    }
  }

  /** Of a sorted vector `Unique` keeps the first of each class, strictly increasing. */
  lemma {:induction false} UniqueIsSorted<K(!new), V>(less: Less<K>, s: seq<(K, V)>)
    requires StrictWeakOrder(less) && WeaklySorted(less, s)
    ensures Sorted(less, Unique(less, s))
    ensures s != [] ==> Same(less, Unique(less, s)[|Unique(less, s)| - 1].0, s[|s| - 1].0)
  {
    if |s| == 1 {
      assert Unique(less, s[..0]) == [];
    } else if s != [] {
      var front, last := s[..|s| - 1], s[|s| - 1];
      UniqueIsSorted(less, front);
      var kept := Unique(less, front);
      var top := kept[|kept| - 1].0;
      SameOrder(less, top, front[|front| - 1].0, last.0);
      assert !less(last.0, top);
      forall i | 0 <= i < |kept| && !Same(less, top, last.0) ensures less(kept[i].0, last.0) {
        BelowTop(less, kept[i].0, top, last.0);
      }
    }
  }

  lemma BelowTop<K(!new)>(less: Less<K>, a: K, top: K, last: K)
    requires StrictWeakOrder(less) && (a == top || less(a, top)) && !less(last, top) && !Same(less, top, last)
    ensures less(a, last)
  {
  }

  lemma UniqueStepLookup<K(!new), V>(less: Less<K>, front: seq<(K, V)>, kept: seq<(K, V)>, last: (K, V), key: K)
    requires StrictWeakOrder(less) && kept == Unique(less, front)
    requires Lookup(less, kept, key) == Lookup(less, front, key)
    ensures Lookup(less, Unique(less, front + [last]), key) == Lookup(less, front + [last], key)
  {
    var s := front + [last];
    assert s[..|s| - 1] == front;
    AppendLookup(less, front, last, key);
    AppendLookup(less, kept, last, key);
    if kept != [] && Same(less, kept[|kept| - 1].0, last.0) {
      SameOrder(less, kept[|kept| - 1].0, last.0, key);
    }
  }

  lemma AppendLookup<K, V>(less: Less<K>, s: seq<(K, V)>, kv: (K, V), key: K)
    ensures Lookup(less, s + [kv], key) ==
            if Lookup(less, s, key).Some? then Lookup(less, s, key)
            else if Same(less, kv.0, key) then Some(kv) else None
  {
    assert (s + [kv])[..|s|] == s;
  }

  /** What both constructions are to produce: sorted, answering as a scan of the input does. */
  ghost predicate Builds<K(!new), V>(less: Less<K>, input: seq<(K, V)>, data: seq<(K, V)>) {
    Sorted(less, data) && forall key :: Lookup(less, data, key) == Lookup(less, input, key)
  }

  /**
    The runtime construction and the constant-evaluation one yield the identical vector, for
    every strict weak order, every input, and every output std::stable_sort may return.
  */
  lemma ConstructionsAgree<K(!new), V(!new)>(
    less: Less<K>, input: seq<(K, V)>, inserted: seq<(K, V)>, sorted: seq<(K, V)>, from: seq<nat>)
    requires StrictWeakOrder(less) && Builds(less, input, inserted) && IsStableSort(less, input, sorted, from)
    ensures Unique(less, sorted) == inserted && Builds(less, input, Unique(less, sorted))
  {
    UniqueIsSorted(less, sorted);
    forall key ensures Lookup(less, Unique(less, sorted), key) == Lookup(less, input, key) {
      UniqueKeepsLookup(less, sorted, key);
      StableSortKeepsLookup(less, input, sorted, from, key);
    }
    LookupDetermines(less, Unique(less, sorted), inserted);
  }

  /** `build_from` in constant evaluation: insertion, entry by entry. */
  method BuildByInsertion<K(!new), V>(flat: FlatMap<K, V>, input: seq<(K, V)>)
    requires flat.Valid() && flat.data == []
    modifies flat
    ensures flat.Valid() && Builds(flat.less, input, flat.data)
  {
    for k := 0 to |input|
      invariant flat.Valid() && Builds(flat.less, input[..k], flat.data)
    {
      ghost var before := flat.data;
      var pos, inserted := flat.Insert(input[k]);
      assert input[..k + 1] == input[..k] + [input[k]];
      forall key ensures Lookup(flat.less, flat.data, key) == Lookup(flat.less, input[..k + 1], key) {
        AppendLookup(flat.less, input[..k], input[k], key);
        assert Lookup(flat.less, before, key) == Lookup(flat.less, input[..k], key);
        LookupOfSame(flat.less, before, input[k].0, key);
      }
    }
    assert input[..|input|] == input;
  }

  lemma LookupOfSame<K(!new), V>(less: Less<K>, s: seq<(K, V)>, a: K, b: K)
    requires StrictWeakOrder(less)
    ensures Same(less, a, b) ==> Lookup(less, s, a) == Lookup(less, s, b)
  {
    if Same(less, a, b) {
      forall j | 0 <= j < |s| ensures Same(less, s[j].0, a) <==> Same(less, s[j].0, b) {
        SameOrder(less, a, b, s[j].0);
      }
      FindsAt(less, s, b, FindAt(less, s, a));
    }
  }

  lemma RearrangesInsert<T(!new)>(input: seq<T>, output: seq<T>, from: seq<nat>, x: T, p: nat)
    requires Rearranges(input, output, from) && p <= |output|
    ensures Rearranges(input + [x], InsertAt(output, p, x), InsertAt(from, p, |input|))
  {
    var from' := InsertAt(from, p, |input|);
    forall m: nat | m < |input| + 1 ensures m in from' {
      if m == |input| { assert from'[p] == m; }
      else {
        assert m in from;
        var j :| 0 <= j < |from| && from[j] == m;
        assert from'[if j < p then j else j + 1] == m;
      }
    }
  }

  /** A stable sort by insertion: `std::stable_sort` with its promise, and where each element came from. */
  method StableSort<K(!new), V(!new)>(less: Less<K>, input: seq<(K, V)>) returns (output: seq<(K, V)>, ghost from: seq<nat>)
    requires StrictWeakOrder(less)
    ensures IsStableSort(less, input, output, from)
  {
    output, from := [], [];
    for k := 0 to |input|
      invariant IsStableSort(less, input[..k], output, from)
    {
      var p: nat := |output|;
      while p > 0 && less(input[k].0, output[p - 1].0)
        invariant p <= |output|
        invariant forall i :: p <= i < |output| ==> less(input[k].0, output[i].0)
      {
        p := p - 1;
      }
      assert input[..k + 1] == input[..k] + [input[k]];
      StableInsert(less, input[..k], output, from, input[k], p);
      output, from := InsertAt(output, p, input[k]), InsertAt(from, p, k);
    }
    assert input[..|input|] == input;
  }

  lemma StableInsert<K(!new), V(!new)>(
    less: Less<K>, input: seq<(K, V)>, output: seq<(K, V)>, from: seq<nat>, x: (K, V), p: nat)
    requires StrictWeakOrder(less) && IsStableSort(less, input, output, from)
    requires p <= |output| && (p > 0 ==> !less(x.0, output[p - 1].0))
    requires forall i :: p <= i < |output| ==> less(x.0, output[i].0)
    ensures IsStableSort(less, input + [x], InsertAt(output, p, x), InsertAt(from, p, |input|))
  {
    RearrangesInsert(input, output, from, x, p);
    forall i | 0 <= i < p ensures !less(x.0, output[i].0) {
      if i < p - 1 { NotBelow(less, output[i].0, output[p - 1].0, x.0); }
    }
    InsertKeepsWeak(less, output, x, p);
    InsertKeepsStable(less, input, output, from, x, p);
    hide Rearranges, WeaklySorted;
  }

  lemma InsertKeepsWeak<K(!new), V>(less: Less<K>, output: seq<(K, V)>, x: (K, V), p: nat)
    requires StrictWeakOrder(less) && WeaklySorted(less, output) && p <= |output|
    requires forall i :: 0 <= i < p ==> !less(x.0, output[i].0)
    requires forall i :: p <= i < |output| ==> less(x.0, output[i].0)
    ensures WeaklySorted(less, InsertAt(output, p, x))
  {
    var output' := InsertAt(output, p, x);
    forall i, j | 0 <= i < j < |output'| ensures !less(output'[j].0, output'[i].0) {
      assert i < p ==> output'[i] == output[i];
      assert i > p ==> output'[i] == output[i - 1];
      assert j > p ==> output'[j] == output[j - 1];
      assert j < p ==> output'[j] == output[j];
    }
  }

  lemma InsertKeepsStable<K(!new), V(!new)>(
    less: Less<K>, input: seq<(K, V)>, output: seq<(K, V)>, from: seq<nat>, x: (K, V), p: nat)
    requires StrictWeakOrder(less) && IsStableSort(less, input, output, from) && p <= |output|
    requires forall i :: p <= i < |output| ==> less(x.0, output[i].0)
    ensures var output', from' := InsertAt(output, p, x), InsertAt(from, p, |input|);
            forall i, j :: 0 <= i < j < |output'| && Same(less, output'[i].0, output'[j].0) ==> from'[i] < from'[j]
  {
    var output', from' := InsertAt(output, p, x), InsertAt(from, p, |input|);
    forall i, j | 0 <= i < j < |output'| && Same(less, output'[i].0, output'[j].0) ensures from'[i] < from'[j] {
      assert i < p ==> output'[i] == output[i] && from'[i] == from[i];
      assert i > p ==> output'[i] == output[i - 1] && from'[i] == from[i - 1];
      assert j > p ==> output'[j] == output[j - 1] && from'[j] == from[j - 1];
      assert j < p ==> output'[j] == output[j] && from'[j] == from[j];
    }
  }

  lemma NotBelow<K(!new)>(less: Less<K>, a: K, b: K, x: K)
    requires StrictWeakOrder(less) && !less(b, a) && !less(x, b)
    ensures !less(x, a)
  {
    assert less(x, a) && less(a, b) ==> less(x, b);
    if !less(a, b) { SameOrder(less, a, b, x); }
  }

  /** `build_from` at run time: sort, then drop what follows an equivalent key. */
  method BuildBySorting<K(!new), V(!new)>(flat: FlatMap<K, V>, input: seq<(K, V)>)
    requires flat.Valid() && flat.data == []
    modifies flat
    ensures flat.Valid() && Builds(flat.less, input, flat.data)
  {
    hide Builds, IsStableSort;
    var sorted;
    ghost var from;
    sorted, from := StableSort(flat.less, input);
    var kept := [];
    for k := 0 to |sorted|
      invariant kept == Unique(flat.less, sorted[..k])
    {
      assert sorted[..k + 1][..k] == sorted[..k];
      if kept == [] || !Same(flat.less, kept[|kept| - 1].0, sorted[k].0) { kept := kept + [sorted[k]]; }
    }
    assert sorted[..|sorted|] == sorted;
    flat.data := kept;
    SortingBuilds(flat.less, input, sorted, from);
  }

  lemma SortingBuilds<K(!new), V(!new)>(less: Less<K>, input: seq<(K, V)>, sorted: seq<(K, V)>, from: seq<nat>)
    requires StrictWeakOrder(less) && IsStableSort(less, input, sorted, from)
    ensures Builds(less, input, Unique(less, sorted))
  {
    UniqueIsSorted(less, sorted);
    forall key ensures Lookup(less, Unique(less, sorted), key) == Lookup(less, input, key) {
      UniqueKeepsLookup(less, sorted, key);
      StableSortKeepsLookup(less, input, sorted, from, key);
    }
  }

  // ----- any run of operations -----

  datatype Operation<K, V> = Insert(kv: (K, V)) | Assign(key: K, value: V) | Erase(key: K)

  /** The map as an unsorted list, every operation by linear scan. */
  function Naive<K, V>(less: Less<K>, s: seq<(K, V)>, op: Operation<K, V>): seq<(K, V)> {
    match op
    case Insert(kv) => if Lookup(less, s, kv.0).Some? then s else s + [kv]
    case Assign(key, value) =>
      var i := FindAt(less, s, key);
      if i < |s| then s[i := (s[i].0, value)] else s + [(key, value)]
    case Erase(key) => Others(less, s, key)
  }

  function Others<K, V>(less: Less<K>, s: seq<(K, V)>, key: K): seq<(K, V)> {
    if s == [] then []
    else Others(less, s[..|s| - 1], key) + if Same(less, s[|s| - 1].0, key) then [] else [s[|s| - 1]]
  }

  function NaiveRun<K, V>(less: Less<K>, ops: seq<Operation<K, V>>): seq<(K, V)> {
    if ops == [] then [] else Naive(less, NaiveRun(less, ops[..|ops| - 1]), ops[|ops| - 1])
  }

  lemma {:induction false} OthersLookup<K(!new), V>(less: Less<K>, s: seq<(K, V)>, key: K, k: K)
    requires StrictWeakOrder(less)
    ensures Lookup(less, Others(less, s, key), k) == if Same(less, key, k) then None else Lookup(less, s, k)
  {
    if s != [] {
      var front, last := s[..|s| - 1], s[|s| - 1];
      OthersLookup(less, front, key, k);
      SameIfSame(less, key, last.0, k);
      SameIfSame(less, key, k, last.0);
      assert s == front + [last];
      assert Others(less, front, key) + [] == Others(less, front, key);
      AppendLookup(less, front, last, k);
      AppendLookup(less, Others(less, front, key), last, k);
    }
  }

  lemma SameIfSame<K(!new)>(less: Less<K>, a: K, b: K, c: K)
    requires StrictWeakOrder(less)
    ensures Same(less, a, b) ==> (Same(less, a, c) <==> Same(less, b, c))
  {
    if Same(less, a, b) { SameOrder(less, a, b, c); }
  }

  /** What the naive list finds after an operation. */
  lemma NaiveLookup<K(!new), V>(less: Less<K>, s: seq<(K, V)>, op: Operation<K, V>, k: K)
    requires StrictWeakOrder(less)
    ensures Lookup(less, Naive(less, s, op), k) ==
            match op
            case Insert(kv) =>
              if Lookup(less, s, kv.0).None? && Same(less, kv.0, k) then Some(kv) else Lookup(less, s, k)
            case Assign(key, value) =>
              if !Same(less, key, k) then Lookup(less, s, k)
              else (match Lookup(less, s, key)
                    case Some(entry) => Some((entry.0, value))
                    case None => Some((key, value)))
            case Erase(key) => if Same(less, key, k) then None else Lookup(less, s, k)
  {
    match op
    case Insert(kv) =>
      AppendLookup(less, s, kv, k);
      LookupOfSame(less, s, kv.0, k);
    case Assign(key, value) =>
      AppendLookup(less, s, (key, value), k);
      LookupOfSame(less, s, key, k);
      var i := FindAt(less, s, key);
      if i < |s| {
        SameOrder(less, key, s[i].0, k);
        LookupOfSame(less, s, key, s[i].0);
        FirstOfItsKey(less, s, key);
        UpdateLookup(less, s, i, value, k);
      }
    case Erase(key) => OthersLookup(less, s, key, k);
  }

  lemma FirstOfItsKey<K(!new), V>(less: Less<K>, s: seq<(K, V)>, key: K)
    requires StrictWeakOrder(less) && FindAt(less, s, key) < |s|
    ensures FindAt(less, s, s[FindAt(less, s, key)].0) == FindAt(less, s, key)
  {
    var i := FindAt(less, s, key);
    forall j | 0 <= j < i ensures !Same(less, s[j].0, s[i].0) { SameOrder(less, s[i].0, key, s[j].0); }
    FindsAt(less, s, s[i].0, i);
  }

  /** After any run of insert, `operator[]` and erase, lookups are those of the naive list. */
  method RunAll<K(!new), V>(flat: FlatMap<K, V>, ops: seq<Operation<K, V>>, default: V)
    requires flat.Valid() && flat.data == []
    modifies flat
    ensures flat.Valid() && forall k :: Lookup(flat.less, flat.data, k) == Lookup(flat.less, NaiveRun(flat.less, ops), k)
  {
    for n := 0 to |ops|
      invariant flat.Valid()
      invariant forall k :: Lookup(flat.less, flat.data, k) == Lookup(flat.less, NaiveRun(flat.less, ops[..n]), k)
    {
      ghost var before, list := flat.data, NaiveRun(flat.less, ops[..n]);
      assert ops[..n + 1][..n] == ops[..n];
      match ops[n] {
        case Insert(kv) => var pos, inserted := flat.Insert(kv);
        case Assign(key, value) => flat.Assign(key, default, value);
        case Erase(key) => var count := flat.Erase(key);
      }
      forall k ensures Lookup(flat.less, flat.data, k) == Lookup(flat.less, Naive(flat.less, list, ops[n]), k) {
        NaiveLookup(flat.less, list, ops[n], k);
        assert Lookup(flat.less, before, k) == Lookup(flat.less, list, k);
      }
    }
    assert ops[..|ops|] == ops;
  }
}
