/** LABOR sampling: keeping the smallest random keys of a column with a bounded
    heap, without and with replacement.

    Source: graphbolt/src/fused_csc_sampling_graph.cc. */
module Labor {
  import opened Collections
  import opened Sampling

  /** A float key; the source uses infinity for edges of zero weight. */
  datatype Key = Fin(value: real) | Infinity

  predicate Less(a: Key, b: Key) {
    a.Fin? && (b == Infinity || a.value < b.value)
  }

  /** `safe_divide`. */
  function Divide(a: real, b: real): Key {
    if b > 0.0 then Fin(a / b) else Infinity
  }

  /** A heap entry, ordered as `std::pair`: by key, then by neighbour. */
  datatype Entry = Entry(key: Key, i: nat)

  predicate EntryLess(a: Entry, b: Entry) {
    Less(a.key, b.key) || (a.key == b.key && a.i < b.i)
  }

  /** The greatest entry of a heap, its front. */
  method Greatest(heap: array<Entry>) returns (top: nat)
    requires heap.Length > 0
    ensures top < heap.Length && forall x :: 0 <= x < heap.Length ==> !EntryLess(heap[top], heap[x])
  {
    top := 0;
    for x := 1 to heap.Length
      invariant top < heap.Length && forall y :: 0 <= y < x ==> !EntryLess(heap[top], heap[y])
    {
      if EntryLess(heap[top], heap[x]) { top := x; }
    }
  }

  // ------------------------------------------------------------------
  // Without replacement

  function At(keys: seq<Key>, i: nat): Entry
    requires i < |keys|
  {
    Entry(keys[i], i)
  }

  /** The neighbours that come before neighbour i. */
  function Below(keys: seq<Key>, i: nat): set<nat>
    requires i < |keys|
  {
    set j: nat | j < |keys| && EntryLess(At(keys, j), At(keys, i))
  }

  /** The neighbours `idx` come before all others among the first m. */
  ghost predicate Smallest(idx: seq<int>, keys: seq<Key>, m: nat) {
    && m <= |keys| && Distinct(idx) && (forall x :: 0 <= x < |idx| ==> 0 <= idx[x] < m)
    && forall j: nat, x: nat :: j < m && j !in idx && x < |idx| ==> EntryLess(At(keys, idx[x]), At(keys, j))
  }

  /** The heap holds the entries of the neighbours `idx`. */
  ghost predicate Holds(heap: seq<Entry>, idx: seq<int>, keys: seq<Key>) {
    |heap| == |idx| && forall x :: 0 <= x < |idx| ==> 0 <= idx[x] < |keys| && heap[x] == At(keys, idx[x])
  }

  lemma SmallestKeep(idx: seq<int>, keys: seq<Key>, m: nat, top: nat)
    requires Smallest(idx, keys, m) && m < |keys| && top < |idx|
    requires forall x :: 0 <= x < |idx| ==> !EntryLess(At(keys, idx[top]), At(keys, idx[x]))
    requires !Less(keys[m], keys[idx[top]])
    ensures Smallest(idx, keys, m + 1)
  {
  }

  lemma SmallestReplace(idx: seq<int>, keys: seq<Key>, m: nat, top: nat)
    requires Smallest(idx, keys, m) && m < |keys| && top < |idx|
    requires forall x :: 0 <= x < |idx| ==> !EntryLess(At(keys, idx[top]), At(keys, idx[x]))
    requires Less(keys[m], keys[idx[top]])
    ensures Smallest(idx[top := m], keys, m + 1)
  {
    var idx' := idx[top := m];
    forall y | 0 <= y < |idx| && y != top ensures idx[y] in idx' { assert idx'[y] == idx[y]; }
    forall j: nat, x: nat | j < m + 1 && j !in idx' && x < |idx'| ensures EntryLess(At(keys, idx'[x]), At(keys, j)) {
      assert idx'[top] == m;
    }
  }

  lemma KeptDistinct(idx: seq<int>, keys: seq<Key>)
    requires Smallest(idx, keys, |keys|)
    ensures |Elements(idx)| == |idx|
  {
    DistinctSize(idx);
  }

  lemma KeptBelow(idx: seq<int>, keys: seq<Key>, i: nat)
    requires Smallest(idx, keys, |keys|) && i < |keys| && i in idx
    ensures |Below(keys, i)| < |idx|
  {
    hide Smallest, Below;
    KeptDistinct(idx, keys);
    var below := IntsOf(Below(keys, i));
    forall j | j in below ensures j in idx && j != i {
      BelowKept(idx, keys, i, j);
    }
    SubsetSize(below, Elements(idx) - {i});
  }

  /** What comes before a kept neighbour is kept. */
  lemma BelowKept(idx: seq<int>, keys: seq<Key>, i: nat, j: nat)
    requires Smallest(idx, keys, |keys|) && i < |keys| && i in idx && j in Below(keys, i)
    ensures j in idx && j != i
  {
    hide Distinct;
    var x: nat :| x < |idx| && idx[x] == i;
    assert EntryLess(At(keys, j), At(keys, idx[x]));
  }

  lemma DroppedBelow(idx: seq<int>, keys: seq<Key>, i: nat)
    requires Smallest(idx, keys, |keys|) && i < |keys| && i !in idx
    ensures |Below(keys, i)| >= |idx|
  {
    DistinctSize(idx);
    var below := IntsOf(Below(keys, i));
    forall j | j in Elements(idx) ensures j in below {
      var x :| 0 <= x < |idx| && idx[x] == j;
      assert EntryLess(At(keys, idx[x]), At(keys, i));
    }
    SubsetSize(Elements(idx), below);
  }

  /** Keeping the smallest: a neighbour is kept exactly when fewer than k come before it. */
  lemma SmallestRank(idx: seq<int>, keys: seq<Key>, i: nat)
    requires Smallest(idx, keys, |keys|) && i < |keys|
    ensures i in idx <==> |Below(keys, i)| < |idx|
  {
    hide Smallest, Below;
    if i in idx { KeptBelow(idx, keys, i); } else { DroppedBelow(idx, keys, i); }
  }

  function IntsOf(s: set<nat>): (r: set<int>)
    ensures r == s && |r| == |s|
  {
    s
  }

  /** The keys of a column: the random number of each neighbour over its weight. */
  ghost predicate KeysOf(keys: seq<Key>, uniform: int -> real, indices: seq<int>, offset: nat,
                         probs: Option<seq<real>>, n: nat)
    requires offset + n <= |indices| && HasColumn(probs, offset, n)
  {
    && |keys| == n
    && forall i :: 0 <= i < n ==> keys[i] == Divide(uniform(indices[offset + i]), Local(probs, offset, n)[i])
  }

  ghost predicate SmallestPicked(picks: seq<int>, keys: seq<Key>, fanout: int, offset: int) {
    && Distinct(picks) && (forall k :: 0 <= k < |picks| ==> offset <= picks[k] < offset + |keys|)
    && forall i: nat :: i < |keys| ==> (offset + i in picks <==> keys[i].Fin? && |Below(keys, i)| < fanout)
  }

  /** No neighbour left out has a smaller random number over its weight than one picked,
      here multiplied out, and none of weight 0 is picked. */
  ghost predicate TakesSmallest(picks: seq<int>, uniform: int -> real, indices: seq<int>, offset: nat, w: seq<real>)
    requires offset + |w| <= |indices|
  {
    && (forall i: nat :: i < |w| && offset + i in picks ==> w[i] > 0.0)
    && forall i: nat, j: nat ::
      i < |w| && j < |w| && offset + i in picks && offset + j !in picks && w[j] > 0.0 ==>
        uniform(indices[offset + i]) * w[j] <= uniform(indices[offset + j]) * w[i]
  }

  /** What is smaller has no more before it. */
  lemma BelowGrows(keys: seq<Key>, i: nat, j: nat)
    requires i < |keys| && j < |keys| && |Below(keys, i)| < |Below(keys, j)|
    ensures !EntryLess(At(keys, j), At(keys, i))
  {
    if EntryLess(At(keys, j), At(keys, i)) {
      SubsetSize(IntsOf(Below(keys, j)), IntsOf(Below(keys, i)));
    }
  }

  lemma KeysCompare(a: real, d: real, b: real, e: real)
    requires d > 0.0 && e > 0.0 && !Less(Divide(b, e), Divide(a, d))
    ensures a * e <= b * d
  {
    CrossMultiply(b, e, a, d);
  }

  lemma SmallestTaken(picks: seq<int>, keys: seq<Key>, fanout: int, uniform: int -> real, indices: seq<int>,
                      offset: nat, w: seq<real>)
    requires offset + |w| <= |indices| && |keys| == |w|
    requires forall i :: 0 <= i < |w| ==> keys[i] == Divide(uniform(indices[offset + i]), w[i])
    requires SmallestPicked(picks, keys, fanout, offset)
    ensures TakesSmallest(picks, uniform, indices, offset, w)
  {
    hide Below;
    forall i: nat, j: nat | i < |w| && j < |w| && offset + i in picks && offset + j !in picks && w[j] > 0.0
      ensures uniform(indices[offset + i]) * w[j] <= uniform(indices[offset + j]) * w[i]
    {
      BelowGrows(keys, i, j);
      KeysCompare(uniform(indices[offset + i]), w[i], uniform(indices[offset + j]), w[j]);
    }
  }

  /** The neighbours of the heap's finite entries. */
  function FiniteOf(heap: seq<Entry>, offset: int): (r: seq<int>)
    ensures |r| <= |heap|
  {
    if heap == [] then []
    else
      var last := heap[|heap| - 1];
      FiniteOf(heap[..|heap| - 1], offset) + if last.key.Fin? then [offset + last.i] else []
  }

  /** r lists the finite keys among the neighbours idx. */
  ghost predicate FiniteOnly(r: seq<int>, idx: seq<int>, keys: seq<Key>, offset: int) {
    && Distinct(r)
    && (forall k :: 0 <= k < |r| ==> offset <= r[k] < offset + |keys|)
    && forall i: nat :: i < |keys| ==> (offset + i in r <==> i in idx && keys[i].Fin?)
  }

  lemma {:induction false} FiniteMembers(heap: seq<Entry>, idx: seq<int>, keys: seq<Key>, offset: int)
    requires Holds(heap, idx, keys) && Distinct(idx)
    ensures FiniteOnly(FiniteOf(heap, offset), idx, keys, offset)
  {
    hide FiniteOnly, FiniteOf;
    if heap == [] {
      EmptyHeap(heap, idx, keys, offset);
    } else {
      var n := |heap| - 1;
      FiniteMembers(heap[..n], idx[..n], keys, offset);
      assert idx == idx[..n] + [idx[n]];
      assert idx[n] !in idx[..n];
      assert heap[n] == At(keys, idx[n]);
      LastMember(FiniteOf(heap[..n], offset), idx[..n], idx[n], keys, offset);
      FiniteLast(heap, offset);
    }
  }

  lemma EmptyHeap(heap: seq<Entry>, idx: seq<int>, keys: seq<Key>, offset: int)
    requires heap == [] && idx == []
    ensures FiniteOnly(FiniteOf(heap, offset), idx, keys, offset)
  {
  }

  lemma FiniteLast(heap: seq<Entry>, offset: int)
    requires |heap| > 0
    ensures var n := |heap| - 1;
      FiniteOf(heap, offset) == FiniteOf(heap[..n], offset) + if heap[n].key.Fin? then [offset + heap[n].i] else []
  {
  }

  lemma LastMember(r: seq<int>, idx: seq<int>, last: nat, keys: seq<Key>, offset: int)
    requires FiniteOnly(r, idx, keys, offset) && last < |keys| && last !in idx
    ensures FiniteOnly(r + if keys[last].Fin? then [offset + last] else [], idx + [last], keys, offset)
  {
    assert offset + last !in r;
  }

  method KeepFinite(heap: array<Entry>, offset: int) returns (picks: seq<int>)
    ensures picks == FiniteOf(heap[..], offset)
  {
    picks := [];
    for i := 0 to heap.Length
      invariant picks == FiniteOf(heap[..i], offset)
    {
      assert heap[..i + 1][..i] == heap[..i];
      if heap[i].key.Fin? { picks := picks + [offset + heap[i].i]; }
    }
    assert heap[..heap.Length] == heap[..];
  }

  /** A key is finite exactly for the edges that may be picked. */
  ghost predicate FiniteValid(keys: seq<Key>, w: seq<real>) {
    |keys| == |w| && forall i :: 0 <= i < |w| ==> (keys[i].Fin? <==> w[i] != 0.0)
  }

  /** Either every kept key is finite, or every finite key is kept. */
  lemma KeptOrValid(idx: seq<int>, keys: seq<Key>, kept: set<int>, valid: set<int>)
    requires Smallest(idx, keys, |keys|)
    requires (forall i :: i in kept <==> i in idx) && (forall i :: i in valid <==> 0 <= i < |keys| && keys[i].Fin?)
    ensures kept <= valid || valid < kept
  {
    hide Smallest;
    SmallestRange(idx, keys);
    if !(forall i :: i in kept ==> i in valid) {
      var i :| i in kept && i !in valid;
      InfiniteKept(idx, keys, i);
      forall j | j in valid ensures j in kept { assert j in idx; }
    }
  }

  lemma KeptSizes(kept: set<int>, valid: set<int>, picked: set<int>)
    requires picked == kept * valid && (kept <= valid || valid < kept)
    ensures |picked| == if |kept| <= |valid| then |kept| else |valid|
  {
    if kept <= valid {
      SubsetSize(kept, valid);
      assert picked == kept;
    } else {
      assert picked == valid;
      assert kept == valid + (kept - valid);
      SubsetSize(valid, kept);
    }
  }

  /** How many finite keys are among the smallest. */
  lemma SmallestCount(idx: seq<int>, keys: seq<Key>, w: seq<real>, local: seq<int>, fanout: nat)
    requires Smallest(idx, keys, |keys|) && FiniteValid(keys, w)
    requires fanout > 0 && |keys| > 0 && |idx| == if fanout < |keys| then fanout else |keys|
    requires Distinct(local) && forall i :: i in local <==> i in idx && 0 <= i < |keys| && keys[i].Fin?
    ensures |local| == PickCount(fanout, false, |Nonzero(w)|)
  {
    hide Nonzero, Smallest, Distinct;
    NonzeroOrdered(w);
    SmallestDistinct(idx, keys);
    DistinctSize(idx);
    DistinctSize(local);
    DistinctSize(Nonzero(w));
    ValidSet(keys, w);
    KeptOrValid(idx, keys, Elements(idx), Elements(Nonzero(w)));
    PickedBoth(local, idx, keys, Nonzero(w));
    KeptSizes(Elements(idx), Elements(Nonzero(w)), Elements(local));
  }

  lemma PickedBoth(local: seq<int>, idx: seq<int>, keys: seq<Key>, valid: seq<int>)
    requires forall i :: i in valid <==> 0 <= i < |keys| && keys[i].Fin?
    requires forall i :: i in local <==> i in idx && 0 <= i < |keys| && keys[i].Fin?
    ensures Elements(local) == Elements(idx) * Elements(valid)
  {
    hide Elements;
    var a, b := Elements(local), Elements(idx) * Elements(valid);
    assert forall i :: i in a <==> i in b;
  }

  lemma SmallestRange(idx: seq<int>, keys: seq<Key>)
    requires Smallest(idx, keys, |keys|)
    ensures forall i :: i in idx ==> 0 <= i < |keys|
  {
  }

  lemma ValidSet(keys: seq<Key>, w: seq<real>)
    requires FiniteValid(keys, w)
    ensures forall i :: i in Nonzero(w) <==> 0 <= i < |keys| && keys[i].Fin?
  {
    NonzeroOrdered(w);
  }

  /** A kept infinite key means that all finite ones are kept. */
  lemma InfiniteKept(idx: seq<int>, keys: seq<Key>, i: nat)
    requires Smallest(idx, keys, |keys|) && i in idx && i < |keys| && keys[i] == Infinity
    ensures forall j :: 0 <= j < |keys| && keys[j].Fin? ==> j in idx
  {
    var x :| 0 <= x < |idx| && idx[x] == i;
    forall j: nat | j < |keys| && j !in idx ensures !keys[j].Fin? { assert EntryLess(At(keys, idx[x]), At(keys, j)); }
  }

  /** `LaborPick` without replacement: exactly the finite keys among the smallest `fanout`. */
  method LaborPickDistinct(offset: nat, n: nat, fanout: nat, probs: Option<seq<real>>, uniform: int -> real,
                           indices: seq<int>, ghost keys: seq<Key>)
    returns (picks: seq<int>)
    requires offset + n <= |indices| && fanout > 0 && n > 0 && HasColumn(probs, offset, n)
    requires forall i :: 0 <= i < n ==> Local(probs, offset, n)[i] >= 0.0
    requires KeysOf(keys, uniform, indices, offset, probs, n)
    ensures SmallestPicked(picks, keys, fanout, offset)
    ensures TakesSmallest(picks, uniform, indices, offset, Local(probs, offset, n))
    ensures GoodPicks(picks, fanout, false, Local(probs, offset, n), offset)
  {
    hide Nonzero, Smallest, FiniteOf, SmallestPicked, GoodPicks, TakesSmallest, Divide;
    var k := if fanout < n then fanout else n;
    if probs.None? && k >= n {
      picks := Iota(offset, n);
      EverythingSmallest(keys, uniform, indices, offset, n, fanout);
      SmallestTaken(picks, keys, fanout, uniform, indices, offset, Local(probs, offset, n));
      return;
    }
    var local := Local(probs, offset, n);
    var heap := new Entry[k];
    FillHeap(heap, offset, local, uniform, indices, keys);
    ghost var idx := ReplaceGreatest(heap, offset, local, uniform, indices, keys);
    picks := KeepFinite(heap, offset);
    KeysFinite(keys, uniform, indices, offset, local);
    LaborDone(heap[..], idx, keys, local, offset, fanout, picks);
    SmallestTaken(picks, keys, fanout, uniform, indices, offset, local);
  }

  lemma KeysFinite(keys: seq<Key>, uniform: int -> real, indices: seq<int>, offset: nat, w: seq<real>)
    requires offset + |w| <= |indices| && |keys| == |w| && forall i :: 0 <= i < |w| ==> w[i] >= 0.0
    requires forall i :: 0 <= i < |w| ==> keys[i] == Divide(uniform(indices[offset + i]), w[i])
    ensures FiniteValid(keys, w)
  {
  }

  /** The first neighbours fill the heap. */
  method FillHeap(heap: array<Entry>, offset: nat, local: seq<real>, uniform: int -> real, indices: seq<int>,
                  ghost keys: seq<Key>)
    requires heap.Length <= |local| == |keys| && offset + |local| <= |indices|
    requires forall i :: 0 <= i < |keys| ==> keys[i] == Divide(uniform(indices[offset + i]), local[i])
    modifies heap
    ensures Holds(heap[..], Iota(0, heap.Length), keys)
  {
    for i := 0 to heap.Length
      invariant forall x :: 0 <= x < i ==> heap[x] == At(keys, x)
    {
      heap[i] := Entry(Divide(uniform(indices[offset + i]), local[i]), i);
    }
  }

  /** Every further neighbour replaces the greatest entry if its key is smaller. */
  method ReplaceGreatest(heap: array<Entry>, offset: nat, local: seq<real>, uniform: int -> real, indices: seq<int>,
                         ghost keys: seq<Key>)
    returns (ghost idx: seq<int>)
    requires 0 < heap.Length <= |local| == |keys| && offset + |local| <= |indices|
    requires forall i :: 0 <= i < |keys| ==> keys[i] == Divide(uniform(indices[offset + i]), local[i])
    requires Holds(heap[..], Iota(0, heap.Length), keys)
    modifies heap
    ensures |idx| == heap.Length && Holds(heap[..], idx, keys) && Smallest(idx, keys, |keys|)
  {
    hide Smallest, Divide;
    idx := Iota(0, heap.Length);
    FirstSmallest(idx, keys);
    for i := heap.Length to |local|
      invariant Holds(heap[..], idx, keys) && |idx| == heap.Length && Smallest(idx, keys, i)
    {
      var key := Divide(uniform(indices[offset + i]), local[i]);
      var top := Greatest(heap);
      assert forall x :: 0 <= x < heap.Length ==> heap[x] == heap[..][x];
      if Less(key, heap[top].key) {
        SmallestReplace(idx, keys, i, top);
        heap[top] := Entry(key, i);
        idx := idx[top := i];
      } else {
        SmallestKeep(idx, keys, i, top);
      }
    }
  }

  lemma FirstSmallest(idx: seq<int>, keys: seq<Key>)
    requires |idx| <= |keys| && idx == Iota(0, |idx|)
    ensures Smallest(idx, keys, |idx|)
  {
    forall j | 0 <= j < |idx| ensures j in idx { assert idx[j] == j; }
  }

  lemma EverythingSmallest(keys: seq<Key>, uniform: int -> real, indices: seq<int>, offset: nat, n: nat, fanout: nat)
    requires offset + n <= |indices| && fanout >= n > 0 && KeysOf(keys, uniform, indices, offset, None, n)
    ensures SmallestPicked(Iota(offset, n), keys, fanout, offset)
    ensures GoodPicks(Iota(offset, n), fanout, false, Local(None, offset, n), offset)
  {
    NonzeroOnes(n);
    var idx := Iota(0, n);
    FirstSmallest(idx, keys);
    forall i: nat | i < n ensures offset + i in Iota(offset, n) && |Below(keys, i)| < n {
      assert idx[i] == i && Iota(offset, n)[i] == offset + i;
      SmallestRank(idx, keys, i);
    }
  }

  lemma LaborDone(heap: seq<Entry>, idx: seq<int>, keys: seq<Key>, w: seq<real>, offset: int, fanout: nat,
                  picks: seq<int>)
    requires Holds(heap, idx, keys) && Smallest(idx, keys, |keys|) && FiniteValid(keys, w)
    requires fanout > 0 && |keys| > 0 && |idx| == if fanout < |keys| then fanout else |keys|
    requires picks == FiniteOf(heap, offset)
    ensures SmallestPicked(picks, keys, fanout, offset) && GoodPicks(picks, fanout, false, w, offset)
  {
    hide Nonzero, FiniteOf, Smallest, Holds, Below;
    SmallestDistinct(idx, keys);
    FiniteMembers(heap, idx, keys, offset);
    SmallestRange(idx, keys);
    forall i: nat | i < |keys| ensures offset + i in picks <==> keys[i].Fin? && |Below(keys, i)| < fanout {
      SmallestRank(idx, keys, i);
      BelowBound(keys, i);
    }
    BackMembers(picks, offset);
    SmallestCount(idx, keys, w, Back(picks, offset), fanout);
  }

  lemma SmallestDistinct(idx: seq<int>, keys: seq<Key>)
    requires Smallest(idx, keys, |keys|)
    ensures Distinct(idx)
  {
  }

  lemma BackMembers(picks: seq<int>, offset: int)
    requires Distinct(picks)
    ensures Distinct(Back(picks, offset)) && forall i :: i in Back(picks, offset) <==> offset + i in picks
  {
    var b := Back(picks, offset);
    forall i | offset + i in picks ensures i in b {
      var k :| 0 <= k < |picks| && picks[k] == offset + i;
      assert b[k] == i;
    }
    forall i | i in b ensures offset + i in picks {
      var k :| 0 <= k < |b| && b[k] == i;
      assert picks[k] == offset + i;
    }
  }

  lemma BelowBound(keys: seq<Key>, i: nat)
    requires i < |keys|
    ensures |Below(keys, i)| < |keys|
  {
    forall j | j in IntsOf(Below(keys, i)) ensures j in Interval(0, |keys|) - {i} { }
    SubsetSize(IntsOf(Below(keys, i)), Interval(0, |keys|) - {i});
  }

  // ------------------------------------------------------------------
  // With replacement

  function Product(a: real, b: real): real { a * b }

  /** A column in the race: every neighbour has `fanout` random numbers, generated in
      ascending order; shrink(i, j) is the factor by which draw j narrows what is left. */
  datatype Race = Race(fanout: nat, w: seq<real>, shrink: (nat, nat) -> real)
  {
    ghost predicate Valid() {
      && fanout > 0 && |w| > 0 && (forall i :: 0 <= i < |w| ==> w[i] >= 0.0)
      && forall i, j :: 0.0 <= shrink(i, j) <= 1.0
    }

    /** What is left above the first j numbers of neighbour i. */
    function Remaining(i: nat, j: nat): real {
      if j == 0 then 1.0 else Product(Remaining(i, j - 1), shrink(i, j - 1))
    }

    function Draw(i: nat, j: nat): Key
      requires i < |w|
    {
      Divide(1.0 - Remaining(i, j + 1), w[i])
    }
  }

  predicate AtMost(a: Key, b: Key) {
    !Less(b, a)
  }

  lemma DivideMonotone(a: real, b: real, d: real)
    requires a <= b
    ensures AtMost(Divide(a, d), Divide(b, d))
  {
    if d > 0.0 { assert a / d <= b / d; }
  }

  lemma {:induction false} RemainingRange(race: Race, i: nat, j: nat)
    requires race.Valid()
    ensures 0.0 <= race.Remaining(i, j + 1) <= race.Remaining(i, j) <= 1.0
  {
    hide Race.Remaining, Product;
    RemainingStep(race, i, j);
    if j > 0 { RemainingRange(race, i, j - 1); }
    ProductRange(race.Remaining(i, j), race.shrink(i, j));
  }

  lemma RemainingStep(race: Race, i: nat, j: nat)
    requires race.Valid()
    ensures race.Remaining(i, 0) == 1.0 && 0.0 <= race.shrink(i, j) <= 1.0
    ensures race.Remaining(i, j + 1) == Product(race.Remaining(i, j), race.shrink(i, j))
  {
  }

  lemma ProductRange(a: real, b: real)
    requires 0.0 <= a && 0.0 <= b <= 1.0
    ensures 0.0 <= Product(a, b) <= a
  {
    assert a * b <= a * 1.0;
  }

  /** Later numbers of a neighbour are not smaller, and none exceeds the bound 1 / weight. */
  lemma {:induction false} DrawMonotone(race: Race, i: nat, j: nat, k: nat)
    requires race.Valid() && i < |race.w| && j <= k
    ensures AtMost(race.Draw(i, j), race.Draw(i, k)) && AtMost(race.Draw(i, k), Divide(1.0, race.w[i]))
    decreases k
  {
    RemainingRange(race, i, k);
    DivideMonotone(1.0 - race.Remaining(i, k + 1), 1.0, race.w[i]);
    if j < k {
      DrawMonotone(race, i, j, k - 1);
      DivideMonotone(1.0 - race.Remaining(i, k), 1.0 - race.Remaining(i, k + 1), race.w[i]);
    }
  }

  /** Which draws are in the heap, how many of each neighbour were considered, and
      which neighbours are out of the race. */
  datatype Track = Track(pairs: seq<(nat, nat)>, seen: seq<nat>, out: seq<bool>)

  ghost predicate Capped(heap: seq<Entry>, key: Key) {
    forall x :: 0 <= x < |heap| ==> AtMost(heap[x].key, key)
  }

  ghost predicate InHeap(race: Race, heap: seq<Entry>, tr: Track) {
    && |heap| == |tr.pairs| <= race.fanout && Distinct(tr.pairs) && |tr.seen| == |race.w|
    && forall x :: 0 <= x < |heap| ==>
      var p := tr.pairs[x]; p.0 < |race.w| && p.1 < tr.seen[p.0] && heap[x] == Entry(race.Draw(p.0, p.1), p.0)
  }

  ghost predicate NeighbourOk(race: Race, heap: seq<Entry>, rem: real, i: nat, seen: nat, out: bool)
    requires i < |race.w|
  {
    && seen <= race.fanout
    && (if out then seen == race.fanout == |heap| && rem == -1.0 && Capped(heap, Divide(1.0, race.w[i]))
        else rem == race.Remaining(i, seen))
  }

  ghost predicate DroppedOk(race: Race, heap: seq<Entry>, tr: Track)
    requires |tr.seen| == |race.w|
  {
    forall i: nat, j: nat :: i < |race.w| && j < tr.seen[i] && (i, j) !in tr.pairs ==>
      |heap| == race.fanout && Capped(heap, race.Draw(i, j))
  }

  ghost predicate RaceOk(race: Race, heap: seq<Entry>, rem: seq<real>, tr: Track) {
    && race.Valid() && |rem| == |tr.out| == |race.w| && InHeap(race, heap, tr)
    && (forall i :: 0 <= i < |race.w| ==> NeighbourOk(race, heap, rem[i], i, tr.seen[i], tr.out[i]))
    && DroppedOk(race, heap, tr)
  }

  /** The next draw of neighbour i is put into a heap with space left. */
  lemma PushDraw(race: Race, heap: seq<Entry>, rem: seq<real>, tr: Track, i: nat)
    requires RaceOk(race, heap, rem, tr) && |heap| < race.fanout && i < |race.w| && tr.seen[i] < race.fanout
    ensures !tr.out[i] && rem[i] == race.Remaining(i, tr.seen[i])
    ensures var j := tr.seen[i];
      RaceOk(race, heap + [Entry(race.Draw(i, j), i)], rem[i := race.Remaining(i, j + 1)],
             Track(tr.pairs + [(i, j)], tr.seen[i := j + 1], tr.out))
  {
    assert NeighbourOk(race, heap, rem[i], i, tr.seen[i], tr.out[i]);
  }

  /** Replacing the greatest entry by a smaller key only lowers the heap. */
  lemma CappedReplace(heap: seq<Entry>, top: nat, e: Entry, key: Key)
    requires top < |heap| && Less(e.key, heap[top].key) && Capped(heap, key)
    ensures Capped(heap[top := e], key)
  {
    assert AtMost(heap[top].key, key);
  }

  lemma ReplacedCap(heap: seq<Entry>, top: nat, e: Entry)
    requires top < |heap| && Less(e.key, heap[top].key)
    requires forall x :: 0 <= x < |heap| ==> !EntryLess(heap[top], heap[x])
    ensures Capped(heap[top := e], heap[top].key)
  {
  }

  ghost predicate TopOf(heap: seq<Entry>, top: nat) {
    top < |heap| && forall x :: 0 <= x < |heap| ==> !EntryLess(heap[top], heap[x])
  }

  lemma ReplaceInHeap(race: Race, heap: seq<Entry>, tr: Track, i: nat, top: nat)
    requires InHeap(race, heap, tr) && i < |race.w| && top < |heap|
    ensures var j := tr.seen[i];
      InHeap(race, heap[top := Entry(race.Draw(i, j), i)], Track(tr.pairs[top := (i, j)], tr.seen[i := j + 1], tr.out))
  {
    hide Race.Draw;
  }

  lemma ReplaceDropped(race: Race, heap: seq<Entry>, tr: Track, i: nat, top: nat)
    requires InHeap(race, heap, tr) && DroppedOk(race, heap, tr) && |heap| == race.fanout
    requires i < |race.w| && TopOf(heap, top) && Less(race.Draw(i, tr.seen[i]), heap[top].key)
    ensures var j := tr.seen[i];
      DroppedOk(race, heap[top := Entry(race.Draw(i, j), i)],
                Track(tr.pairs[top := (i, j)], tr.seen[i := j + 1], tr.out))
  {
    hide Race.Draw, Capped, Less;
    var j := tr.seen[i];
    var e := Entry(race.Draw(i, j), i);
    var tr' := Track(tr.pairs[top := (i, j)], tr.seen[i := j + 1], tr.out);
    forall y | 0 <= y < |tr.pairs| && y != top ensures tr.pairs[y] in tr'.pairs { assert tr'.pairs[y] == tr.pairs[y]; }
    assert tr'.pairs[top] == (i, j);
    ReplacedCap(heap, top, e);
    forall a: nat, b: nat | a < |race.w| && b < tr'.seen[a] && (a, b) !in tr'.pairs
      ensures Capped(heap[top := e], race.Draw(a, b))
    {
      if (a, b) !in tr.pairs {
        CappedReplace(heap, top, e, race.Draw(a, b));
      } else {
        assert (a, b) == tr.pairs[top];
      }
    }
  }

  lemma ReplaceDraw(race: Race, heap: seq<Entry>, rem: seq<real>, tr: Track, i: nat, top: nat)
    requires RaceOk(race, heap, rem, tr) && |heap| == race.fanout && i < |race.w| && !tr.out[i]
    requires tr.seen[i] < race.fanout
    requires TopOf(heap, top) && Less(race.Draw(i, tr.seen[i]), heap[top].key)
    ensures rem[i] == race.Remaining(i, tr.seen[i])
    ensures var j := tr.seen[i];
      RaceOk(race, heap[top := Entry(race.Draw(i, j), i)], rem[i := race.Remaining(i, j + 1)],
             Track(tr.pairs[top := (i, j)], tr.seen[i := j + 1], tr.out))
  {
    hide Race.Draw, Race.Remaining, InHeap, DroppedOk, Capped, Less;
    SeenSize(race, heap, tr);
    var j := tr.seen[i];
    var e := Entry(race.Draw(i, j), i);
    ReplaceInHeap(race, heap, tr, i, top);
    ReplaceDropped(race, heap, tr, i, top);
    forall a | 0 <= a < |race.w|
      ensures NeighbourOk(race, heap[top := e], rem[i := race.Remaining(i, j + 1)][a], a, tr.seen[i := j + 1][a],
                          tr.out[a])
    {
      assert NeighbourOk(race, heap, rem[a], a, tr.seen[a], tr.out[a]);
      if tr.out[a] { CappedReplace(heap, top, e, Divide(1.0, race.w[a])); }
    }
  }

  lemma SeenSize(race: Race, heap: seq<Entry>, tr: Track)
    requires InHeap(race, heap, tr)
    ensures |tr.seen| == |race.w| && |tr.pairs| == |heap|
  {
  }

  lemma CappedByTop(heap: seq<Entry>, top: nat, key: Key)
    requires TopOf(heap, top) && !Less(key, heap[top].key)
    ensures Capped(heap, key)
  {
  }

  lemma CappedFurther(heap: seq<Entry>, a: Key, b: Key)
    requires Capped(heap, a) && AtMost(a, b)
    ensures Capped(heap, b)
  {
    forall x | 0 <= x < |heap| ensures AtMost(heap[x].key, b) { assert AtMost(heap[x].key, a); }
  }

  /** A draw that is not below the heap puts its neighbour out of the race: none of
      its later draws can be below the heap either. */
  lemma RejectDraw(race: Race, heap: seq<Entry>, rem: seq<real>, tr: Track, i: nat, top: nat)
    requires RaceOk(race, heap, rem, tr) && |heap| == race.fanout && i < |race.w| && !tr.out[i]
    requires tr.seen[i] < race.fanout
    requires TopOf(heap, top) && !Less(race.Draw(i, tr.seen[i]), heap[top].key)
    ensures rem[i] == race.Remaining(i, tr.seen[i])
    ensures RaceOk(race, heap, rem[i := -1.0], Track(tr.pairs, tr.seen[i := race.fanout], tr.out[i := true]))
  {
    hide Race.Draw, Race.Remaining, Capped, Less;
    var j := tr.seen[i];
    var tr' := Track(tr.pairs, tr.seen[i := race.fanout], tr.out[i := true]);
    CappedByTop(heap, top, race.Draw(i, j));
    DrawMonotone(race, i, j, j);
    CappedFurther(heap, race.Draw(i, j), Divide(1.0, race.w[i]));
    forall b: nat | j <= b ensures Capped(heap, race.Draw(i, b)) {
      DrawMonotone(race, i, j, b);
      CappedFurther(heap, race.Draw(i, j), race.Draw(i, b));
    }
    assert DroppedOk(race, heap, tr');
  }

  /** A neighbour that is out stays out, whatever is computed for it again. */
  lemma OutStays(race: Race, heap: seq<Entry>, rem: seq<real>, tr: Track, i: nat, j: nat, top: nat)
    requires RaceOk(race, heap, rem, tr) && i < |race.w| && tr.out[i] && TopOf(heap, top)
    ensures rem[i] == -1.0 && |heap| == race.fanout && rem[i := -1.0] == rem
    ensures !Less(Divide(1.0 - rem[i] * race.shrink(i, j), race.w[i]), heap[top].key)
  {
    hide DroppedOk, InHeap, Less;
    SeenSize(race, heap, tr);
    assert NeighbourOk(race, heap, rem[i], i, tr.seen[i], tr.out[i]);
    DivideMonotone(1.0, 1.0 + race.shrink(i, j), race.w[i]);
    CappedFurther(heap, Divide(1.0, race.w[i]), Divide(1.0 + race.shrink(i, j), race.w[i]));
  }

  /** Draws number j of neighbour i into the heap if it belongs there; `full` says
      that the neighbour is out of the race. */
  method Sample(race: Race, heap: array<Entry>, size: nat, rem: array<real>, i: nat, j: nat, ghost tr: Track)
    returns (size': nat, full: bool, ghost tr': Track)
    requires size <= heap.Length == race.fanout && RaceOk(race, heap[..size], rem[..], tr)
    requires i < |race.w| && j < race.fanout && |tr.out| == |race.w| == |tr.seen| == rem.Length
    requires (tr.out[i] || tr.seen[i] == j)
    modifies heap, rem
    ensures size' <= heap.Length && RaceOk(race, heap[..size'], rem[..], tr')
    ensures size' == if size < race.fanout then size + 1 else size
    ensures |tr'.out| == |race.w| == |tr'.seen| && full == tr'.out[i] && (full || tr'.seen[i] == j + 1)
    ensures tr'.out == tr.out[i := tr'.out[i]] && tr'.seen == tr.seen[i := tr'.seen[i]] && (tr.out[i] ==> full)
  {
    hide RaceOk, Race.Draw, Divide, Less, EntryLess;
    ghost var h, r := heap[..size], rem[..];
    StepOk(race, h, r, tr, i, j);
    var left := rem[i] - rem[i] * (1.0 - race.shrink(i, j));
    assert left == r[i] - r[i] * (1.0 - race.shrink(i, j)) == r[i] * race.shrink(i, j);
    rem[i] := left;
    assert rem[..] == r[i := left];
    var key := Divide(1.0 - rem[i], race.w[i]);
    size', full, tr' := size, false, tr;
    if size < race.fanout {
      heap[size] := Entry(key, i);
      size' := size + 1;
      tr' := Track(tr.pairs + [(i, j)], tr.seen[i := j + 1], tr.out);
      assert heap[..size'] == h + [Entry(key, i)];
      assert RaceOk(race, heap[..size'], rem[..], tr');
    } else {
      var top := Greatest(heap);
      assert h == heap[..] && TopOf(h, top);
      OutNotBelow(race, h, r, tr, i, j, top, key);
      PairSize(race, h, r, tr);
      if Less(key, heap[top].key) {
        ReplaceDraw(race, h, r, tr, i, top);
        heap[top] := Entry(key, i);
        tr' := Track(tr.pairs[top := (i, j)], tr.seen[i := j + 1], tr.out);
        assert heap[..size'] == h[top := Entry(key, i)];
        assert RaceOk(race, heap[..size'], rem[..], tr');
      } else {
        rem[i] := -1.0;
        full := true;
        if tr.out[i] {
          OutStays(race, h, r, tr, i, j, top);
          assert rem[..] == r;
        } else {
          RejectDraw(race, h, r, tr, i, top);
          tr' := Track(tr.pairs, tr.seen[i := race.fanout], tr.out[i := true]);
          assert rem[..] == r[i := -1.0];
        }
        assert heap[..size'] == h;
      }
    }
  }

  lemma OutNotBelow(race: Race, heap: seq<Entry>, rem: seq<real>, tr: Track, i: nat, j: nat, top: nat, key: Key)
    requires RaceOk(race, heap, rem, tr) && i < |race.w| == |tr.out| == |rem| && TopOf(heap, top)
    requires key == Divide(1.0 - rem[i] * race.shrink(i, j), race.w[i])
    ensures tr.out[i] ==> !Less(key, heap[top].key)
  {
    hide RaceOk, Divide, Less, EntryLess;
    if tr.out[i] {
      OutStays(race, heap, rem, tr, i, j, top);
    }
  }

  lemma PairSize(race: Race, heap: seq<Entry>, rem: seq<real>, tr: Track)
    requires RaceOk(race, heap, rem, tr)
    ensures |tr.pairs| == |heap| <= race.fanout
  {
  }

  /** What one draw computes while its neighbour is in the race. */
  lemma StepOk(race: Race, heap: seq<Entry>, rem: seq<real>, tr: Track, i: nat, j: nat)
    requires RaceOk(race, heap, rem, tr) && i < |race.w| && j < race.fanout && (tr.out[i] || tr.seen[i] == j)
    ensures |tr.seen| == |tr.out| == |rem| == |race.w|
    ensures var left := rem[i] - rem[i] * (1.0 - race.shrink(i, j));
      && left == rem[i] * race.shrink(i, j)
      && (!tr.out[i] ==> left == race.Remaining(i, j + 1) && Divide(1.0 - left, race.w[i]) == race.Draw(i, j))
      && (|heap| < race.fanout ==>
        RaceOk(race, heap + [Entry(race.Draw(i, j), i)], rem[i := left],
               Track(tr.pairs + [(i, j)], tr.seen[i := j + 1], tr.out)))
    ensures |heap| < race.fanout ==> !tr.out[i]
  {
    hide InHeap, DroppedOk, Divide;
    SeenSize(race, heap, tr);
    assert NeighbourOk(race, heap, rem[i], i, tr.seen[i], tr.out[i]);
    if |heap| < race.fanout { PushDraw(race, heap, rem, tr, i); }
  }

  lemma NothingDrawn(race: Race, tr: Track, rem: seq<real>)
    requires race.Valid() && |tr.seen| == |tr.out| == |rem| == |race.w| && tr.pairs == []
    requires forall i :: 0 <= i < |race.w| ==> tr.seen[i] == 0 && !tr.out[i] && rem[i] == 1.0
    ensures RaceOk(race, [], rem, tr)
  {
  }

  /** The test the source uses to see that a neighbour is out of the race. */
  lemma RemTells(race: Race, heap: seq<Entry>, rem: seq<real>, tr: Track, i: nat)
    requires RaceOk(race, heap, rem, tr) && i < |race.w|
    ensures |tr.seen| == |tr.out| == |rem| == |race.w|
    ensures rem[i] == -1.0 <==> tr.out[i]
    ensures tr.out[i] ==> tr.seen[i] == race.fanout
  {
    hide InHeap, DroppedOk;
    SeenSize(race, heap, tr);
    assert NeighbourOk(race, heap, rem[i], i, tr.seen[i], tr.out[i]);
    RemainingRange(race, i, tr.seen[i]);
  }

  /** How far the draws have come: `done` for neighbours before i, `now` for i, `todo` after. */
  ghost predicate Progress(tr: Track, n: nat, i: nat, done: nat, now: nat, todo: nat) {
    && |tr.out| == |tr.seen| == n
    && forall a :: 0 <= a < n ==> tr.out[a] || tr.seen[a] == if a < i then done else if a == i then now else todo
  }

  lemma InitialCount(n: nat, fanout: nat)
    requires n > 0 && fanout > 0
    ensures var c := (n + fanout - 1) / n; 0 < c <= fanout && n * c >= fanout
  {
    var c: nat := (n + fanout - 1) / n;
    var p: int := n * c;
    DivisionFacts(n + fanout - 1, n);
    assert p >= fanout;
    assert c > 0 by { ZeroProduct(n, c); }
    LeastProduct(n, c - 1);
    assert n * (c - 1) == p - n;
  }

  lemma DivisionFacts(x: nat, n: nat)
    requires n > 0
    ensures n * (x / n) <= x < n * (x / n) + n
  {
  }

  lemma ZeroProduct(n: nat, c: nat)
    ensures c == 0 ==> n * c == 0
  {
  }

  lemma Grows(n: nat, a: nat, b: nat)
    requires a <= b
    ensures n * a <= n * b
  {
    assert n * b == n * a + n * (b - a);
  }

  lemma LeastProduct(n: nat, f: nat)
    requires n >= 1
    ensures n * f >= f
  {
    Grows(f, 1, n);
  }

  /** The first round: every neighbour draws equally often, often enough to fill the heap. */
  method FirstRound(race: Race, heap: array<Entry>, rem: array<real>, init: nat) returns (ghost tr: Track)
    requires race.Valid() && heap.Length == race.fanout && rem.Length == |race.w| && init <= race.fanout
    requires |race.w| * init >= race.fanout
    requires forall i :: 0 <= i < rem.Length ==> rem[i] == 1.0
    modifies heap, rem
    ensures RaceOk(race, heap[..], rem[..], tr) && Progress(tr, |race.w|, |race.w|, init, 0, 0)
  {
    hide RaceOk, Race.Valid;
    var n := |race.w|;
    tr := Track([], seq(n, _ => 0), seq(n, _ => false));
    NothingDrawn(race, tr, rem[..]);
    var size := 0;
    ghost var drawn := 0;
    assert heap[..0] == [];
    for i := 0 to n
      invariant size <= heap.Length && RaceOk(race, heap[..size], rem[..], tr) && Progress(tr, n, i, init, 0, 0)
      invariant drawn == i * init && size == if drawn < race.fanout then drawn else race.fanout
    {
      for j := 0 to init
        invariant size <= heap.Length && RaceOk(race, heap[..size], rem[..], tr) && Progress(tr, n, i, init, j, 0)
        invariant drawn == i * init + j && size == if drawn < race.fanout then drawn else race.fanout
      {
        var full;
        size, full, tr := Sample(race, heap, size, rem, i, j, tr);
        drawn := drawn + 1;
      }
      assert (i + 1) * init == i * init + init;
    }
    assert heap[..size] == heap[..];
  }

  /** The second round: neighbours still in the race draw until they are out. */
  method SecondRound(race: Race, heap: array<Entry>, rem: array<real>, init: nat, ghost tr0: Track)
    returns (ghost tr: Track)
    requires heap.Length == race.fanout && rem.Length == |race.w| && init <= race.fanout
    requires RaceOk(race, heap[..], rem[..], tr0) && Progress(tr0, |race.w|, |race.w|, init, 0, 0)
    modifies heap, rem
    ensures RaceOk(race, heap[..], rem[..], tr) && |tr.seen| == |race.w|
    ensures forall i :: 0 <= i < |race.w| ==> tr.seen[i] == race.fanout
  {
    hide RaceOk, Race.Valid;
    var n := |race.w|;
    tr := tr0;
    assert heap[..heap.Length] == heap[..];
    for i := 0 to n
      invariant RaceOk(race, heap[..heap.Length], rem[..], tr) && Progress(tr, n, i, race.fanout, init, init)
    {
      RemTells(race, heap[..heap.Length], rem[..], tr, i);
      if rem[i] != -1.0 {
        var j := init;
        var full := false;
        while j < race.fanout && !full
          invariant init <= j <= race.fanout && RaceOk(race, heap[..heap.Length], rem[..], tr)
          invariant Progress(tr, n, i, race.fanout, j, init) && full == tr.out[i]
        {
          var size;
          size, full, tr := Sample(race, heap, heap.Length, rem, i, j, tr);
          j := j + 1;
        }
      }
    }
    forall i: nat | i < n
      ensures |tr.seen| == n && tr.seen[i] == race.fanout
    {
      RemTells(race, heap[..heap.Length], rem[..], tr, i);
    }
    assert heap[..heap.Length] == heap[..];
  }

  // ------------------------------------------------------------------
  // The winners

  /** The entries of some draws. */
  function Entries(race: Race, pairs: seq<(nat, nat)>): (r: seq<Entry>)
    requires forall x :: 0 <= x < |pairs| ==> pairs[x].0 < |race.w|
    ensures |r| == |pairs|
    ensures forall x :: 0 <= x < |pairs| ==> r[x] == Entry(race.Draw(pairs[x].0, pairs[x].1), pairs[x].0)
  {
    seq(|pairs|, x requires 0 <= x < |pairs| => Entry(race.Draw(pairs[x].0, pairs[x].1), pairs[x].0))
  }

  /** `fanout` different draws out of the fanout of every neighbour, none of the others smaller. */
  ghost predicate Winners(race: Race, pairs: seq<(nat, nat)>) {
    && |pairs| == race.fanout && Distinct(pairs)
    && (forall x :: 0 <= x < |pairs| ==> pairs[x].0 < |race.w| && pairs[x].1 < race.fanout)
    && forall i: nat, j: nat :: i < |race.w| && j < race.fanout && (i, j) !in pairs ==>
      Capped(Entries(race, pairs), race.Draw(i, j))
  }

  lemma RaceWinners(race: Race, heap: seq<Entry>, rem: seq<real>, tr: Track)
    requires RaceOk(race, heap, rem, tr) && |heap| == race.fanout
    requires |tr.seen| == |race.w| && forall i :: 0 <= i < |race.w| ==> tr.seen[i] == race.fanout
    ensures Winners(race, tr.pairs) && heap == Entries(race, tr.pairs)
  {
    hide Race.Draw, NeighbourOk;
  }

  function Row(i: nat, m: nat): (s: set<(nat, nat)>)
    ensures |s| == m && forall p :: p in s <==> p.0 == i && p.1 < m
  {
    if m == 0 then {} else Row(i, m - 1) + {(i, m - 1)}
  }

  /** A full row of draws leaves no place for others. */
  lemma RowFills(pairs: seq<(nat, nat)>, i: nat)
    requires forall j: nat :: j < |pairs| ==> (i, j) in pairs
    ensures forall x :: 0 <= x < |pairs| ==> pairs[x].0 == i
  {
    var row, all := Row(i, |pairs|), Elements(pairs);
    assert row <= all;
    assert all == row + (all - row);
    forall x | 0 <= x < |pairs| ensures pairs[x].0 == i { assert pairs[x] in all; }
  }

  lemma DrawFinite(race: Race, i: nat, j: nat)
    requires race.Valid() && i < |race.w|
    ensures race.Draw(i, j).Fin? <==> race.w[i] != 0.0
  {
  }

  /** If some neighbour may be picked, every winner may. */
  lemma WinnerFinite(race: Race, pairs: seq<(nat, nat)>, i: nat, x: nat)
    requires race.Valid() && Winners(race, pairs) && i < |race.w| && race.w[i] != 0.0 && x < |pairs|
    ensures race.w[pairs[x].0] != 0.0
  {
    hide Race.Draw;
    var p := pairs[x];
    DrawFinite(race, p.0, p.1);
    if forall j: nat :: j < |pairs| ==> (i, j) in pairs {
      RowFills(pairs, i);
    } else {
      var j: nat :| j < |pairs| && (i, j) !in pairs;
      DrawFinite(race, i, j);
      assert AtMost(Entries(race, pairs)[x].key, race.Draw(i, j));
    }
  }

  lemma {:induction false} AllFinite(heap: seq<Entry>, offset: int)
    requires forall x :: 0 <= x < |heap| ==> heap[x].key.Fin?
    ensures |FiniteOf(heap, offset)| == |heap|
    ensures forall x :: 0 <= x < |heap| ==> FiniteOf(heap, offset)[x] == offset + heap[x].i
  {
    if heap != [] { AllFinite(heap[..|heap| - 1], offset); }
  }

  lemma {:induction false} NoneFinite(heap: seq<Entry>, offset: int)
    requires forall x :: 0 <= x < |heap| ==> !heap[x].key.Fin?
    ensures FiniteOf(heap, offset) == []
  {
    if heap != [] { NoneFinite(heap[..|heap| - 1], offset); }
  }

  lemma {:induction false} FiniteFrom(heap: seq<Entry>, offset: int, k: nat)
    requires k < |FiniteOf(heap, offset)|
    ensures exists x :: 0 <= x < |heap| && heap[x].key.Fin? && FiniteOf(heap, offset)[k] == offset + heap[x].i
  {
    var n := |heap| - 1;
    var before := FiniteOf(heap[..n], offset);
    if k < |before| {
      FiniteFrom(heap[..n], offset, k);
      var x :| 0 <= x < |heap[..n]| && heap[..n][x].key.Fin? && before[k] == offset + heap[..n][x].i;
      assert heap[x] == heap[..n][x];
    } else {
      assert heap[n].key.Fin?;
    }
  }

  lemma WinnersGood(race: Race, pairs: seq<(nat, nat)>, offset: int)
    requires race.Valid() && Winners(race, pairs)
    ensures GoodPicks(FiniteOf(Entries(race, pairs), offset), race.fanout, true, race.w, offset)
  {
    hide Race.Draw, FiniteOf, Nonzero;
    var heap := Entries(race, pairs);
    var picks := FiniteOf(heap, offset);
    NonzeroOrdered(race.w);
    forall x | 0 <= x < |pairs|
      ensures heap[x].key.Fin? <==> race.w[pairs[x].0] != 0.0
    {
      DrawFinite(race, pairs[x].0, pairs[x].1);
    }
    forall k | 0 <= k < |picks| ensures offset <= picks[k] < offset + |race.w| && race.w[picks[k] - offset] != 0.0 {
      FiniteFrom(heap, offset, k);
    }
    if |Nonzero(race.w)| == 0 {
      NoneFinite(heap, offset);
    } else {
      var i := Nonzero(race.w)[0];
      forall x | 0 <= x < |pairs| ensures heap[x].key.Fin? { WinnerFinite(race, pairs, i, x); }
      AllFinite(heap, offset);
    }
  }

  /** No draw left out is smaller than a winner, here multiplied out by the weights. */
  ghost predicate RaceWon(race: Race, pairs: seq<(nat, nat)>) {
    && (forall x :: 0 <= x < |pairs| ==> pairs[x].0 < |race.w| && pairs[x].1 < race.fanout)
    && forall x: nat, a: nat, b: nat :: x < |pairs| && a < |race.w| && b < race.fanout && (a, b) !in pairs ==>
      Beats(race, pairs[x].0, pairs[x].1, a, b)
  }

  ghost predicate Beats(race: Race, i: nat, j: nat, a: nat, b: nat)
    requires i < |race.w| && a < |race.w|
  {
    race.w[a] > 0.0 ==>
      race.w[i] > 0.0 && (1.0 - race.Remaining(i, j + 1)) * race.w[a] <= (1.0 - race.Remaining(a, b + 1)) * race.w[i]
  }

  /** Each winner is picked; nothing is if all weights are 0. */
  ghost predicate PicksWinners(picks: seq<int>, pairs: seq<(nat, nat)>, w: seq<real>, offset: int) {
    && ((exists i :: 0 <= i < |w| && w[i] != 0.0) ==>
        |picks| == |pairs| && forall x :: 0 <= x < |pairs| ==> picks[x] == offset + pairs[x].0)
    && ((forall i :: 0 <= i < |w| ==> w[i] == 0.0) ==> picks == [])
  }

  lemma DrawsCompare(race: Race, i: nat, j: nat, a: nat, b: nat)
    requires race.Valid() && i < |race.w| && a < |race.w| && AtMost(race.Draw(i, j), race.Draw(a, b))
    ensures Beats(race, i, j, a, b)
  {
    hide Race.Remaining;
    if race.w[a] > 0.0 {
      KeysCompare(1.0 - race.Remaining(i, j + 1), race.w[i], 1.0 - race.Remaining(a, b + 1), race.w[a]);
    }
  }

  lemma WinnersWon(race: Race, pairs: seq<(nat, nat)>, offset: int)
    requires race.Valid() && Winners(race, pairs)
    ensures RaceWon(race, pairs) && PicksWinners(FiniteOf(Entries(race, pairs), offset), pairs, race.w, offset)
  {
    hide Race.Draw, Beats, FiniteOf;
    var heap := Entries(race, pairs);
    forall x: nat, a: nat, b: nat | x < |pairs| && a < |race.w| && b < race.fanout && (a, b) !in pairs
      ensures Beats(race, pairs[x].0, pairs[x].1, a, b)
    {
      assert AtMost(heap[x].key, race.Draw(a, b));
      DrawsCompare(race, pairs[x].0, pairs[x].1, a, b);
    }
    forall x | 0 <= x < |pairs|
      ensures heap[x].key.Fin? <==> race.w[pairs[x].0] != 0.0
    {
      DrawFinite(race, pairs[x].0, pairs[x].1);
    }
    if i :| 0 <= i < |race.w| && race.w[i] != 0.0 {
      forall x | 0 <= x < |pairs| ensures heap[x].key.Fin? { WinnerFinite(race, pairs, i, x); }
      AllFinite(heap, offset);
    } else {
      NoneFinite(heap, offset);
    }
  }

  /** `LaborPick` with replacement: the neighbours of the smallest `fanout` numbers
      among all n * fanout, of which only some are ever generated. */
  method LaborPickReplace(offset: nat, n: nat, fanout: nat, probs: Option<seq<real>>, shrink: (nat, nat) -> real)
    returns (picks: seq<int>, ghost pairs: seq<(nat, nat)>)
    requires fanout > 0 && n > 0 && HasColumn(probs, offset, n)
    requires Race(fanout, Local(probs, offset, n), shrink).Valid()
    ensures var race := Race(fanout, Local(probs, offset, n), shrink);
      Winners(race, pairs) && RaceWon(race, pairs) && PicksWinners(picks, pairs, race.w, offset)
    ensures GoodPicks(picks, fanout, true, Local(probs, offset, n), offset)
  {
    hide RaceOk, Race.Valid, Winners, FiniteOf, Nonzero, RaceWon, PicksWinners;
    var race := Race(fanout, Local(probs, offset, n), shrink);
    var heap := new Entry[fanout];
    var rem := new real[n](_ => 1.0);
    InitialCount(n, fanout);
    var init := (n + fanout - 1) / n;
    ghost var tr := FirstRound(race, heap, rem, init);
    tr := SecondRound(race, heap, rem, init, tr);
    RaceWinners(race, heap[..], rem[..], tr);
    pairs := tr.pairs;
    picks := KeepFinite(heap, offset);
    WinnersGood(race, pairs, offset);
    WinnersWon(race, pairs, offset);
  }

  /** `Pick` of the LABOR samplers: agrees with `NumPick`, whatever the random numbers. */
  method LaborPick(offset: nat, n: nat, fanout: int, replace: bool, probs: Option<seq<real>>, exponential: nat -> real,
                   rng: Rng, uniform: int -> real, indices: seq<int>, shrink: (nat, nat) -> real, ghost keys: seq<Key>)
    returns (picks: seq<int>, ghost pairs: seq<(nat, nat)>)
    requires Fair(rng) && fanout >= -1 && offset + n <= |indices|
    requires HasColumn(probs, offset, n) && (probs.Some? ==> Usable(probs.value, exponential))
    requires forall i, j :: 0.0 <= shrink(i, j) <= 1.0
    requires KeysOf(keys, uniform, indices, offset, probs, n)
    ensures GoodPicks(picks, fanout, replace, Local(probs, offset, n), offset)
    ensures fanout > 0 && !replace ==> SmallestPicked(picks, keys, fanout, offset)
    ensures fanout > 0 && !replace ==> TakesSmallest(picks, uniform, indices, offset, Local(probs, offset, n))
    ensures fanout > 0 && replace && n > 0 ==>
      var race := Race(fanout, Local(probs, offset, n), shrink);
      Winners(race, pairs) && RaceWon(race, pairs) && PicksWinners(picks, pairs, race.w, offset)
  {
    hide Nonzero, Winners, RaceWon, PicksWinners, Appears, Below;
    pairs := [];
    if fanout == 0 || n == 0 { return [], []; }
    if fanout < 0 {
      var all := Pick(offset, n, fanout, replace, probs, exponential, _ => 0.0, rng);
      picks := all.value;
    } else if replace {
      picks, pairs := LaborPickReplace(offset, n, fanout, probs, shrink);
    } else {
      picks := LaborPickDistinct(offset, n, fanout, probs, uniform, indices, keys);
    }
  }
}
