/** The partitioned cache front end: capacity split, the parallel stable counting
    sort of keys into partitions, and its specification by ranks.

    Source: graphbolt/src/partitioned_cache_policy.cc. */
module Partitioning {
  import opened Arithmetic
  import opened Collections

  // ------------------------------------------------------------------
  // Counting

  /** How often p occurs among the first i elements. */
  function Count(parts: seq<int>, i: nat, p: int): (c: nat)
    requires i <= |parts|
    ensures c <= i
  {
    if i == 0 then 0 else Count(parts, i - 1, p) + if parts[i - 1] == p then 1 else 0
  }

  /** How many elements are below p, for elements that are at least 0. */
  function Start(parts: seq<int>, p: nat): nat {
    if p == 0 then 0 else Start(parts, p - 1) + Count(parts, |parts|, p - 1)
  }

  /** The final position of element i: after everything in lower parts, and after
      the earlier elements of its own part. */
  function Rank(parts: seq<int>, i: nat): nat
    requires i < |parts| && parts[i] >= 0
  {
    Start(parts, parts[i]) + Count(parts, i, parts[i])
  }

  ghost predicate InParts(parts: seq<int>, num: nat) {
    forall i :: 0 <= i < |parts| ==> 0 <= parts[i] < num
  }

  lemma {:induction false} CountMonotone(parts: seq<int>, i: nat, j: nat, p: int)
    requires i <= j <= |parts|
    ensures Count(parts, i, p) <= Count(parts, j, p)
    ensures i < j && parts[i] == p ==> Count(parts, i, p) < Count(parts, j, p)
    decreases j
  {
    if i < j { CountMonotone(parts, i, j - 1, p); }
  }

  lemma {:induction false} StartMonotone(parts: seq<int>, p: nat, q: nat)
    requires p <= q
    ensures Start(parts, p) <= Start(parts, q)
    decreases q
  {
    if p < q { StartMonotone(parts, p, q - 1); }
  }

  /** The number of elements among the first i that are below p. */
  function Below(parts: seq<int>, i: nat, p: nat): nat
    requires i <= |parts|
  {
    if p == 0 then 0 else Below(parts, i, p - 1) + Count(parts, i, p - 1)
  }

  lemma {:induction false} BelowStep(parts: seq<int>, i: nat, p: nat)
    requires i < |parts| && parts[i] >= 0
    ensures Below(parts, i + 1, p) == Below(parts, i, p) + if parts[i] < p then 1 else 0
  {
    if p > 0 { BelowStep(parts, i, p - 1); }
  }

  lemma {:induction false} BelowAll(parts: seq<int>, i: nat, num: nat)
    requires InParts(parts, num) && i <= |parts|
    ensures Below(parts, i, num) == i
  {
    if i == 0 {
      BelowNone(parts, num);
    } else {
      BelowAll(parts, i - 1, num);
      BelowStep(parts, i - 1, num);
    }
  }

  lemma {:induction false} BelowNone(parts: seq<int>, p: nat)
    ensures Below(parts, 0, p) == 0
  {
    if p > 0 { BelowNone(parts, p - 1); }
  }

  lemma {:induction false} StartIsBelow(parts: seq<int>, p: nat)
    ensures Start(parts, p) == Below(parts, |parts|, p)
  {
    if p > 0 { StartIsBelow(parts, p - 1); }
  }

  /** The parts together hold everything. */
  lemma StartTotal(parts: seq<int>, num: nat)
    requires InParts(parts, num)
    ensures Start(parts, num) == |parts|
  {
    StartIsBelow(parts, num);
    BelowAll(parts, |parts|, num);
  }

  /** Element i lands inside the slice of its part. */
  lemma RankInSlice(parts: seq<int>, num: nat, i: nat)
    requires InParts(parts, num) && i < |parts|
    ensures Start(parts, parts[i]) <= Rank(parts, i) < Start(parts, parts[i] + 1) <= |parts|
  {
    CountMonotone(parts, i, |parts|, parts[i]);
    StartMonotone(parts, parts[i] + 1, num);
    StartTotal(parts, num);
  }

  /** Ranks order by part first and by input position within a part; in particular
      no two elements get the same cell. */
  lemma RankOrder(parts: seq<int>, num: nat, i: nat, j: nat)
    requires InParts(parts, num) && i < |parts| && j < |parts|
    ensures Rank(parts, i) < Rank(parts, j) <==> parts[i] < parts[j] || (parts[i] == parts[j] && i < j)
  {
    RankInSlice(parts, num, i);
    RankInSlice(parts, num, j);
    if parts[i] < parts[j] {
      StartMonotone(parts, parts[i] + 1, parts[j]);
    } else if parts[j] < parts[i] {
      StartMonotone(parts, parts[j] + 1, parts[i]);
    } else if i < j {
      CountMonotone(parts, i, j, parts[i]);
    } else {
      CountMonotone(parts, j, i, parts[i]);
    }
  }

  // ------------------------------------------------------------------
  // The result

  /** `indices` is a permutation that takes the keys to `permuted`. */
  ghost predicate Permutes(keys: seq<int>, indices: seq<int>, permuted: seq<int>) {
    && |keys| == |indices| == |permuted|
    && (forall j :: 0 <= j < |keys| ==> 0 <= indices[j] < |keys| && permuted[j] == keys[indices[j]])
    && (forall k :: 0 <= k < |keys| ==> k in indices)
  }

  /** Cell j of the output lies in the slice of its part. */
  ghost predicate InSlice(parts: seq<int>, num: nat, offsets: seq<int>, indices: seq<int>, j: nat)
    requires j < |indices|
  {
    && |offsets| == num + 1 && 0 <= indices[j] < |parts|
    && var p := parts[indices[j]]; 0 <= p < num && offsets[p] <= j < offsets[p + 1]
  }

  /** The slices cover the output in order. */
  ghost predicate Boundaries(offsets: seq<int>, num: nat, n: nat) {
    && |offsets| == num + 1 && offsets[0] == 0 && offsets[num] == n
    && forall p, q :: 0 <= p <= q <= num ==> offsets[p] <= offsets[q]
  }

  ghost predicate Stable(parts: seq<int>, indices: seq<int>) {
    && |indices| == |parts| && (forall j :: 0 <= j < |indices| ==> 0 <= indices[j] < |parts|)
    && forall i, j :: 0 <= i < j < |indices| && parts[indices[i]] == parts[indices[j]] ==> indices[i] < indices[j]
  }

  /** The documented result of `Partition`, and its stability. */
  ghost predicate StablePartition(keys: seq<int>, parts: seq<int>, num: nat, offsets: seq<int>, indices: seq<int>,
                                  permuted: seq<int>) {
    && |parts| == |keys| && Permutes(keys, indices, permuted) && Boundaries(offsets, num, |keys|)
    && (forall j: nat :: j < |indices| ==> InSlice(parts, num, offsets, indices, j))
    && Stable(parts, indices)
  }

  /** `indices` undoes the ranks. */
  ghost predicate Unranks(parts: seq<int>, num: nat, indices: seq<int>) {
    && InParts(parts, num) && |indices| == |parts|
    && forall j :: 0 <= j < |parts| ==> 0 <= indices[j] < |parts| && Rank(parts, indices[j]) == j
  }

  /** Every element is written at its rank. */
  ghost predicate Ranked(parts: seq<int>, indices: seq<int>) {
    && |indices| == |parts|
    && forall i :: 0 <= i < |parts| ==> parts[i] >= 0 && Rank(parts, i) < |parts| && indices[Rank(parts, i)] == i
  }

  /** Every cell is the rank of some element. */
  lemma RankOnto(parts: seq<int>, num: nat, indices: seq<int>)
    requires InParts(parts, num) && Ranked(parts, indices)
    ensures Unranks(parts, num, indices)
  {
    hide Rank;
    var ranks := seq(|parts|, i requires 0 <= i < |parts| => Rank(parts, i));
    forall i, j | 0 <= i < j < |ranks|
      ensures ranks[i] != ranks[j]
    {
      RankOrder(parts, num, i, j);
      RankOrder(parts, num, j, i);
    }
    InjectiveOnto(ranks, |parts|);
    forall j | 0 <= j < |parts| ensures 0 <= indices[j] < |parts| && Rank(parts, indices[j]) == j {
      assert j in ranks;
      var i :| 0 <= i < |ranks| && ranks[i] == j;
      assert Rank(parts, i) == j;
    }
  }

  lemma UnranksSlices(parts: seq<int>, num: nat, offsets: seq<int>, indices: seq<int>, j: nat)
    requires Unranks(parts, num, indices) && j < |indices|
    requires |offsets| == num + 1 && forall p :: 0 <= p <= num ==> offsets[p] == Start(parts, p)
    ensures InSlice(parts, num, offsets, indices, j)
  {
    hide Rank, Start;
    RankInSlice(parts, num, indices[j]);
  }

  lemma UnranksStable(parts: seq<int>, num: nat, indices: seq<int>)
    requires Unranks(parts, num, indices)
    ensures Stable(parts, indices)
  {
    hide Rank;
    forall i, j | 0 <= i < j < |indices| && parts[indices[i]] == parts[indices[j]] ensures indices[i] < indices[j] {
      RankOrder(parts, num, indices[i], indices[j]);
    }
  }

  lemma RanksPermute(keys: seq<int>, parts: seq<int>, num: nat, indices: seq<int>, permuted: seq<int>)
    requires |keys| == |permuted| == |parts| && Unranks(parts, num, indices) && Ranked(parts, indices)
    requires forall i :: 0 <= i < |parts| ==> permuted[Rank(parts, i)] == keys[i]
    ensures Permutes(keys, indices, permuted)
  {
    hide Rank;
    forall k | 0 <= k < |keys| ensures k in indices { assert indices[Rank(parts, k)] == k; }
    forall j | 0 <= j < |keys| ensures permuted[j] == keys[indices[j]] { assert Rank(parts, indices[j]) == j; }
  }

  lemma StartsBound(parts: seq<int>, num: nat, offsets: seq<int>)
    requires InParts(parts, num) && |offsets| == num + 1 && forall p :: 0 <= p <= num ==> offsets[p] == Start(parts, p)
    ensures Boundaries(offsets, num, |parts|)
  {
    StartTotal(parts, num);
    forall p, q | 0 <= p <= q <= num ensures offsets[p] <= offsets[q] { StartMonotone(parts, p, q); }
  }

  /** Writing every element at its rank is a stable partition. */
  lemma RanksPartition(keys: seq<int>, parts: seq<int>, num: nat, offsets: seq<int>, indices: seq<int>,
                       permuted: seq<int>)
    requires |keys| == |parts| == |permuted| && |offsets| == num + 1 && InParts(parts, num) && Ranked(parts, indices)
    requires forall p :: 0 <= p <= num ==> offsets[p] == Start(parts, p)
    requires forall i :: 0 <= i < |parts| ==> permuted[Rank(parts, i)] == keys[i]
    ensures StablePartition(keys, parts, num, offsets, indices, permuted)
  {
    hide Rank, Start, Permutes, InSlice, Boundaries, Stable;
    RankOnto(parts, num, indices);
    RanksPermute(keys, parts, num, indices, permuted);
    StartsBound(parts, num, offsets);
    UnranksStable(parts, num, indices);
    forall j: nat | j < |indices|
      ensures InSlice(parts, num, offsets, indices, j)
    {
      UnranksSlices(parts, num, offsets, indices, j);
    }
  }

  /** Slice p of the permuted keys holds exactly the keys of part p. */
  lemma SliceExact(keys: seq<int>, parts: seq<int>, num: nat, offsets: seq<int>, indices: seq<int>, permuted: seq<int>,
                   p: nat, j: nat)
    requires StablePartition(keys, parts, num, offsets, indices, permuted) && p < num && j < |keys|
    ensures offsets[p] <= j < offsets[p + 1] <==> parts[indices[j]] == p
  {
    var q := parts[indices[j]];
    assert InSlice(parts, num, offsets, indices, j);
    assert q < p ==> offsets[q + 1] <= offsets[p];
    assert p < q ==> offsets[p + 1] <= offsets[q];
  }

  // ------------------------------------------------------------------
  // Index arithmetic

  /** Row-major cell (a, b) of a table with `num` columns. */
  function Cell(a: nat, b: nat, num: nat): nat {
    a * num + b
  }

  lemma CellOrder(a: nat, b: nat, c: nat, d: nat, num: nat)
    requires b < num && d < num
    ensures Cell(a, b, num) < Cell(c, d, num) <==> a < c || (a == c && b < d)
    ensures Cell(a, b, num) == Cell(c, d, num) <==> a == c && b == d
  {
    var p, q := a * num, c * num;
    assert a < c ==> p + num <= q by { if a < c { LessScaled(a, c, num); } }
    assert c < a ==> q + num <= p by { if c < a { LessScaled(c, a, num); } }
    assert Cell(a, b, num) == p + b && Cell(c, d, num) == q + d;
  }

  lemma CellDistinct(num: nat)
    ensures forall a: nat, b: nat, c: nat, d: nat :: b < num && d < num && Cell(a, b, num) == Cell(c, d, num) ==>
      a == c && b == d
  {
    forall a: nat, b: nat, c: nat, d: nat | b < num && d < num && Cell(a, b, num) == Cell(c, d, num)
      ensures a == c && b == d
    {
      CellOrder(a, b, c, d, num);
    }
  }

  lemma CellBound(num: nat)
    ensures forall a: nat, b: nat :: a < num && b < num ==> Cell(a, b, num) < Cell(num, 0, num)
  {
    forall a: nat, b: nat | a < num && b < num
      ensures Cell(a, b, num) < Cell(num, 0, num)
    {
      CellOrder(a, b, num, 0, num);
    }
  }

  lemma CellNext(a: nat, b: nat, num: nat)
    requires b < num
    ensures Cell(a, b, num) + 1 == if b + 1 < num then Cell(a, b + 1, num) else Cell(a + 1, 0, num)
  {
  }

  /** Where worker t's chunk of n keys begins. */
  function ChunkBegin(t: nat, n: nat, num: nat): (b: nat)
    requires num >= 1
  {
    t * n / num
  }

  /** The chunks share the keys in proportion. */
  lemma ChunkIs(t: nat, n: nat, num: nat)
    requires num >= 1
    ensures ChunkBegin(t, n, num) * num <= t * n < (ChunkBegin(t, n, num) + 1) * num
  {
  }

  lemma ChunkOrder(t: nat, u: nat, n: nat, num: nat)
    requires num >= 1 && t <= u
    ensures ChunkBegin(t, n, num) <= ChunkBegin(u, n, num)
  {
    assert t * n <= u * n by { if t < u { LessScaled(t, u, n); } }
    DivMonotone(t * n, u * n, num);
  }

  lemma ChunkEnds(n: nat, num: nat)
    requires num >= 1
    ensures ChunkBegin(0, n, num) == 0 && ChunkBegin(num, n, num) == n
  {
    assert num * n == n * num;
    QuotientIs(num * n, num, n);
    QuotientIs(0 * n, num, 0);
  }

  /** The capacity ranges of the partitions tile [0, capacity): partition i gets
      [i * capacity / num, (i + 1) * capacity / num). */
  lemma {:induction false} CapacityTiles(capacity: nat, num: nat, x: nat, m: nat)
    requires num >= 1 && m <= num && x < ChunkBegin(m, capacity, num)
    ensures exists i: nat :: i < m && ChunkBegin(i, capacity, num) <= x < ChunkBegin(i + 1, capacity, num)
  {
    hide ChunkBegin;
    ChunkEnds(capacity, num);
    if m > 0 && x < ChunkBegin(m - 1, capacity, num) {
      CapacityTiles(capacity, num, x, m - 1);
    } else {
      assert m > 0;
      assert ChunkBegin(m - 1, capacity, num) <= x < ChunkBegin((m - 1) + 1, capacity, num);
    }
  }

  // ------------------------------------------------------------------
  // The parallel counting sort

  /** The part of every key. */
  function Assigned(keys: seq<int>, assign: int -> nat): (parts: seq<int>)
    ensures |parts| == |keys| && forall i :: 0 <= i < |keys| ==> parts[i] == assign(keys[i])
  {
    seq(|keys|, i requires 0 <= i < |keys| => assign(keys[i]))
  }

  /** How many elements of part p come before worker t's chunk. */
  function Prior(parts: seq<int>, num: nat, t: nat, p: nat): nat
    requires t <= num && num >= 1
  {
    ChunkOrder(t, num, |parts|, num);
    ChunkEnds(|parts|, num);
    Count(parts, ChunkBegin(t, |parts|, num), p)
  }

  /** Where worker t writes its first element of part p. */
  function Target(parts: seq<int>, num: nat, p: nat, t: nat): nat
    requires t <= num && num >= 1
  {
    Start(parts, p) + Prior(parts, num, t, p)
  }

  /** Row t of the table holds worker t's number of elements of each part. */
  ghost predicate Counted(c: seq<int>, parts: seq<int>, num: nat) {
    && num >= 1 && |c| == Cell(num, 0, num) + 1
    && forall t: nat, p: nat :: t < num && p < num ==>
      Cell(t, p, num) < |c| && c[Cell(t, p, num)] == Prior(parts, num, t + 1, p) - Prior(parts, num, t, p)
  }

  /** Cell (p, t), and the one-past-the-end cell, hold the first write positions. */
  ghost predicate Scanned(o: seq<int>, parts: seq<int>, num: nat) {
    && num >= 1 && |o| == Cell(num, 0, num) + 1
    && (forall p: nat, t: nat :: p < num && t < num ==>
      Cell(p, t, num) < |o| && o[Cell(p, t, num)] == Target(parts, num, p, t))
    && (forall p: nat :: p <= num ==> Cell(p, 0, num) < |o| && o[Cell(p, 0, num)] == Start(parts, p))
  }

  lemma TargetStep(parts: seq<int>, num: nat, p: nat)
    requires num >= 1
    ensures Target(parts, num, p, 0) == Start(parts, p) && Target(parts, num, p, num) == Start(parts, p + 1)
  {
    ChunkEnds(|parts|, num);
  }

  lemma TableSize(num: nat)
    ensures Cell(num, 0, num) == num * num
  {
  }

  lemma CellAt(i: nat, num: nat)
    requires num >= 1 && i < num * num
    ensures i / num < num && i % num < num && i == Cell(i / num, i % num, num)
  {
    var q := i / num;
    assert i == q * num + i % num;
    assert q >= num ==> num * num <= q * num by { if q > num { LessScaled(num, q, num); } }
  }

  lemma CountStep(parts: seq<int>, i: nat, p: int)
    requires i < |parts|
    ensures Count(parts, i + 1, p) == Count(parts, i, p) + if parts[i] == p then 1 else 0
  {
  }

  /** What cell (t, p) holds when worker `tid` has counted up to element i. */
  function Tally(parts: seq<int>, num: nat, tid: nat, i: nat, t: nat, p: nat): int
    requires num >= 1 && t < num && i <= |parts|
  {
    if t < tid then Prior(parts, num, t + 1, p) - Prior(parts, num, t, p)
    else if t == tid then Count(parts, i, p) - Prior(parts, num, t, p)
    else 0
  }

  ghost predicate Tallied(c: seq<int>, parts: seq<int>, num: nat, tid: nat, i: nat) {
    && num >= 1 && |c| == Cell(num, 0, num) + 1 && i <= |parts|
    && forall t: nat, p: nat :: t < num && p < num ==>
      Cell(t, p, num) < |c| && c[Cell(t, p, num)] == Tally(parts, num, tid, i, t, p)
  }

  lemma TallyElement(c: seq<int>, parts: seq<int>, num: nat, tid: nat, i: nat)
    requires Tallied(c, parts, num, tid, i) && InParts(parts, num) && tid < num && i < |parts|
    ensures Cell(tid, parts[i], num) < |c|
    ensures Tallied(c[Cell(tid, parts[i], num) := c[Cell(tid, parts[i], num)] + 1], parts, num, tid, i + 1)
  {
    hide Cell, ChunkBegin, Count, Prior;
    var x := Cell(tid, parts[i], num);
    var d := c[x := c[x] + 1];
    forall t: nat, p: nat | t < num && p < num
      ensures Cell(t, p, num) < |d| && d[Cell(t, p, num)] == Tally(parts, num, tid, i + 1, t, p)
    {
      CellOrder(t, p, tid, parts[i], num);
      CountStep(parts, i, p);
    }
  }

  lemma TallyChunk(c: seq<int>, parts: seq<int>, num: nat, tid: nat)
    requires tid < num && num >= 1 && ChunkBegin(tid + 1, |parts|, num) <= |parts|
    requires Tallied(c, parts, num, tid, ChunkBegin(tid + 1, |parts|, num))
    ensures Tallied(c, parts, num, tid + 1, ChunkBegin(tid + 1, |parts|, num))
  {
    hide Cell, ChunkBegin, Count;
  }

  method CountParts(keys: seq<int>, assign: int -> nat, num: nat, offsets: array<int>, partId: array<int>)
    requires num >= 1 && offsets.Length == Cell(num, 0, num) + 1 && partId.Length == |keys| && offsets != partId
    requires forall i :: 0 <= i < |keys| ==> assign(keys[i]) < num
    requires forall i :: 0 <= i < offsets.Length ==> offsets[i] == 0
    modifies offsets, partId
    ensures partId[..] == Assigned(keys, assign) && Counted(offsets[..], partId[..], num)
  {
    hide Cell, ChunkBegin, Tallied;
    ghost var parts := Assigned(keys, assign);
    var n := |keys|;
    ChunkEnds(n, num);
    NothingTallied(offsets[..], parts, num);
    var tid := 0;
    while tid < num
      invariant 0 <= tid <= num && ChunkBegin(tid, n, num) <= n
      invariant forall i :: 0 <= i < ChunkBegin(tid, n, num) ==> partId[i] == parts[i]
      invariant Tallied(offsets[..], parts, num, tid, ChunkBegin(tid, n, num))
    {
      var begin, end := ChunkBegin(tid, n, num), ChunkBegin(tid + 1, n, num);
      ChunkOrder(tid, tid + 1, n, num);
      ChunkOrder(tid + 1, num, n, num);
      var i := begin;
      while i < end
        invariant begin <= i <= end
        invariant forall k :: 0 <= k < i ==> partId[k] == parts[k]
        invariant Tallied(offsets[..], parts, num, tid, i)
      {
        TallyElement(offsets[..], parts, num, tid, i);
        var part := assign(keys[i]);
        var x := Cell(tid, part, num);
        offsets[x] := offsets[x] + 1;
        partId[i] := part;
        i := i + 1;
      }
      TallyChunk(offsets[..], parts, num, tid);
      tid := tid + 1;
    }
    assert partId[..] == parts;
    TalliedCounted(offsets[..], parts, num);
  }

  lemma NothingTallied(c: seq<int>, parts: seq<int>, num: nat)
    requires num >= 1 && |c| == Cell(num, 0, num) + 1 && (forall i :: 0 <= i < |c| ==> c[i] == 0)
    ensures ChunkBegin(0, |parts|, num) == 0 && Tallied(c, parts, num, 0, 0)
  {
    hide Cell, ChunkBegin;
    ChunkEnds(|parts|, num);
    CellBound(num);
  }

  lemma TalliedCounted(c: seq<int>, parts: seq<int>, num: nat)
    requires Tallied(c, parts, num, num, |parts|)
    ensures Counted(c, parts, num)
  {
    hide Cell, ChunkBegin, Count, Prior;
  }

  /** The table transposed, shifted by one cell so that an inclusive scan of it is
      an exclusive scan of the counts. */
  ghost predicate Transposed(m: seq<int>, parts: seq<int>, num: nat) {
    && num >= 1 && |m| == Cell(num, 0, num) + 1 && m[0] == 0
    && forall t: nat, p: nat :: t < num && p < num ==>
      Cell(p, t, num) + 1 < |m| && m[Cell(p, t, num) + 1] == Prior(parts, num, t + 1, p) - Prior(parts, num, t, p)
  }

  ghost predicate TransposedTo(m: seq<int>, c: seq<int>, num: nat, i: int) {
    && |m| == |c| == Cell(num, 0, num) + 1
    && forall t: nat, p: nat :: t < num && p < num && Cell(t, p, num) < i ==>
      Cell(p, t, num) + 1 < |m| && Cell(t, p, num) < |c| && m[Cell(p, t, num) + 1] == c[Cell(t, p, num)]
  }

  lemma TransposeCell(m: seq<int>, c: seq<int>, num: nat, t: nat, p: nat)
    requires TransposedTo(m, c, num, Cell(t, p, num)) && t < num && p < num
    ensures Cell(p, t, num) + 1 < |m| && Cell(t, p, num) < |c|
    ensures TransposedTo(m[Cell(p, t, num) + 1 := c[Cell(t, p, num)]], c, num, Cell(t, p, num) + 1)
  {
    hide Cell;
    CellOrder(p, t, num, 0, num);
    CellOrder(t, p, num, 0, num);
    var d := m[Cell(p, t, num) + 1 := c[Cell(t, p, num)]];
    forall u: nat, q: nat | u < num && q < num && Cell(u, q, num) < Cell(t, p, num) + 1
      ensures Cell(q, u, num) + 1 < |d| && Cell(u, q, num) < |c| && d[Cell(q, u, num) + 1] == c[Cell(u, q, num)]
    {
      CellOrder(q, u, num, 0, num);
      CellOrder(q, u, p, t, num);
      CellOrder(u, q, t, p, num);
    }
  }

  lemma TransposeDone(m: seq<int>, c: seq<int>, parts: seq<int>, num: nat)
    requires Counted(c, parts, num) && TransposedTo(m, c, num, |m| - 1)
    ensures Transposed(m[0 := 0], parts, num)
  {
    hide Cell, Prior;
    CellBound(num);
  }

  method TransposeCounts(offsets: array<int>, permuted: array<int>, num: nat, ghost parts: seq<int>)
    requires Counted(offsets[..], parts, num) && permuted.Length == offsets.Length && permuted != offsets
    modifies permuted
    ensures Transposed(permuted[..], parts, num)
  {
    hide Cell, Counted, TransposedTo, Transposed;
    TableSize(num);
    CountedSize(offsets[..], parts, num);
    NothingTransposed(permuted[..], offsets[..], num);
    var i := 0;
    while i < num * num
      invariant 0 <= i <= num * num
      invariant TransposedTo(permuted[..], offsets[..], num, i)
    {
      CellAt(i, num);
      var part, tid := i % num, i / num;
      TransposeCell(permuted[..], offsets[..], num, tid, part);
      permuted[Cell(part, tid, num) + 1] := offsets[i];
      i := i + 1;
    }
    TransposeDone(permuted[..], offsets[..], parts, num);
    permuted[0] := 0;
  }

  lemma CountedSize(c: seq<int>, parts: seq<int>, num: nat)
    requires Counted(c, parts, num)
    ensures num >= 1 && |c| == Cell(num, 0, num) + 1
  {
  }

  lemma NothingTransposed(m: seq<int>, c: seq<int>, num: nat)
    requires |m| == |c| == Cell(num, 0, num) + 1
    ensures TransposedTo(m, c, num, 0)
  {
    hide Cell;
  }

  /** The cells of the table and the cell after its last one. */
  predicate InTable(p: nat, t: nat, num: nat) {
    p <= num && t < num && (p == num ==> t == 0)
  }

  ghost predicate ScannedTo(o: seq<int>, parts: seq<int>, num: nat, i: int) {
    && num >= 1 && |o| == Cell(num, 0, num) + 1
    && forall p: nat, t: nat :: InTable(p, t, num) && Cell(p, t, num) <= i ==>
      Cell(p, t, num) < |o| && o[Cell(p, t, num)] == Target(parts, num, p, t)
  }

  /** Adding one shifted count moves from one first write position to the next. */
  lemma ScanStep(m: seq<int>, o: seq<int>, parts: seq<int>, num: nat, p: nat, t: nat)
    requires Transposed(m, parts, num) && p < num && t < num && ScannedTo(o, parts, num, Cell(p, t, num))
    ensures var x := Cell(p, t, num);
      && x + 1 < |o| && x + 1 == (if t + 1 < num then Cell(p, t + 1, num) else Cell(p + 1, 0, num))
      && ScannedTo(o[x + 1 := o[x] + m[x + 1]], parts, num, x + 1)
  {
    hide Cell, Prior;
    var x := Cell(p, t, num);
    CellNext(p, t, num);
    TargetStep(parts, num, p);
    TargetStep(parts, num, p + 1);
    var q: nat, u: nat := if t + 1 < num then p else p + 1, if t + 1 < num then t + 1 else 0;
    assert o[x] == Target(parts, num, p, t);
    assert o[x] + m[x + 1] == Target(parts, num, q, u);
    var e := o[x + 1 := o[x] + m[x + 1]];
    forall r: nat, v: nat | InTable(r, v, num) && Cell(r, v, num) <= x + 1
      ensures Cell(r, v, num) < |e| && e[Cell(r, v, num)] == Target(parts, num, r, v)
    {
      CellOrder(r, v, q, u, num);
      assert x + 1 == Cell(q, u, num);
    }
  }

  lemma ScanFirst(o: seq<int>, parts: seq<int>, num: nat)
    requires num >= 1 && |o| == Cell(num, 0, num) + 1 && o[0] == 0
    ensures Cell(0, 0, num) == 0 && ScannedTo(o, parts, num, 0)
  {
    hide Prior;
    TargetStep(parts, num, 0);
    forall p: nat, t: nat | InTable(p, t, num) && Cell(p, t, num) <= 0
      ensures Cell(p, t, num) < |o| && o[Cell(p, t, num)] == Target(parts, num, p, t)
    {
      CellOrder(0, 0, p, t, num);
    }
  }

  lemma ScanLast(o: seq<int>, parts: seq<int>, num: nat)
    requires ScannedTo(o, parts, num, |o| - 1)
    ensures Scanned(o, parts, num)
  {
    hide Cell, Prior;
    CellBound(num);
    forall p: nat | p <= num
      ensures Cell(p, 0, num) < |o| && o[Cell(p, 0, num)] == Start(parts, p)
    {
      CellOrder(p, 0, num, 0, num);
      TargetStep(parts, num, p);
      assert InTable(p, 0, num);
    }
    forall p: nat, t: nat | p < num && t < num
      ensures Cell(p, t, num) < |o| && o[Cell(p, t, num)] == Target(parts, num, p, t)
    {
      CellOrder(p, t, num, 0, num);
      assert InTable(p, t, num);
    }
  }

  method InclusiveScan(permuted: array<int>, offsets: array<int>, num: nat, ghost parts: seq<int>)
    requires Transposed(permuted[..], parts, num) && permuted.Length == offsets.Length && permuted != offsets
    modifies offsets
    ensures Scanned(offsets[..], parts, num)
  {
    hide Cell, Prior, ScannedTo;
    offsets[0] := permuted[0];
    var i := 0;
    ghost var p: nat, t: nat := 0, 0;
    ScanFirst(offsets[..], parts, num);
    while i + 1 < offsets.Length
      invariant 0 <= i < offsets.Length
      invariant InTable(p, t, num) && i == Cell(p, t, num)
      invariant ScannedTo(offsets[..], parts, num, i)
    {
      CellOrder(p, t, num, 0, num);
      ScanStep(permuted[..], offsets[..], parts, num, p, t);
      offsets[i + 1] := offsets[i] + permuted[i + 1];
      i := i + 1;
      if t + 1 < num { t := t + 1; } else { p, t := p + 1, 0; }
    }
    ScanLast(offsets[..], parts, num);
  }

  lemma ScannedSize(o: seq<int>, parts: seq<int>, num: nat)
    requires Scanned(o, parts, num)
    ensures num >= 1 && |o| == Cell(num, 0, num) + 1
  {
  }

  lemma ScannedCell(o: seq<int>, parts: seq<int>, num: nat, p: nat, t: nat)
    requires Scanned(o, parts, num) && p < num && t < num
    ensures Cell(p, t, num) < |o| && o[Cell(p, t, num)] == Target(parts, num, p, t)
  {
    hide Cell, Target;
  }

  /** The cells before `end` hold the first write positions of the workers. */
  ghost predicate Transported(c: seq<int>, parts: seq<int>, num: nat, end: int) {
    forall t: nat, p: nat :: t < num && p < num && Cell(t, p, num) < end ==>
      Cell(t, p, num) < |c| && c[Cell(t, p, num)] == Target(parts, num, p, t)
  }

  lemma TransportNext(c: seq<int>, parts: seq<int>, num: nat, t: nat, p: nat)
    requires t < num && p < num && Cell(t, p, num) < |c| && Transported(c, parts, num, Cell(t, p, num))
    ensures Transported(c[Cell(t, p, num) := Target(parts, num, p, t)], parts, num, Cell(t, p, num) + 1)
  {
    hide Cell, Target;
    forall u: nat, q: nat | u < num && q < num ensures Cell(u, q, num) == Cell(t, p, num) ==> u == t && q == p {
      CellOrder(t, p, u, q, num);
    }
  }

  lemma TransportDone(c: seq<int>, parts: seq<int>, num: nat)
    requires Transported(c, parts, num, num * num)
    ensures forall t: nat, p: nat :: t < num && p < num ==>
      Cell(t, p, num) < |c| && c[Cell(t, p, num)] == Target(parts, num, p, t)
  {
    hide Cell, Target;
    CellBound(num);
    TableSize(num);
  }

  method TransposeBack(offsets: array<int>, permuted: array<int>, num: nat, ghost parts: seq<int>)
    requires Scanned(offsets[..], parts, num) && permuted.Length == offsets.Length && permuted != offsets
    modifies permuted
    ensures forall t: nat, p: nat :: t < num && p < num ==>
      Cell(t, p, num) < permuted.Length && permuted[Cell(t, p, num)] == Target(parts, num, p, t)
  {
    hide Cell, Prior, Target, Scanned, Transported;
    ScannedSize(offsets[..], parts, num);
    TableSize(num);
    NothingTransported(permuted[..], parts, num);
    var i := 0;
    while i < num * num
      invariant 0 <= i <= num * num && offsets[..] == old(offsets[..])
      invariant Transported(permuted[..], parts, num, i)
    {
      CellAt(i, num);
      var part, tid := i % num, i / num;
      ScannedCell(offsets[..], parts, num, part, tid);
      TransportNext(permuted[..], parts, num, tid, part);
      permuted[i] := offsets[Cell(part, tid, num)];
      i := i + 1;
    }
    TransportDone(permuted[..], parts, num);
  }

  lemma NothingTransported(c: seq<int>, parts: seq<int>, num: nat)
    ensures Transported(c, parts, num, 0)
  {
  }

  /** What is left of the write positions when worker `tid` has reached element i. */
  ghost predicate Pending(c: seq<int>, parts: seq<int>, num: nat, tid: nat, i: nat) {
    && num >= 1 && i <= |parts|
    && forall t: nat, p: nat :: tid <= t < num && p < num ==>
      && Cell(t, p, num) < |c|
      && c[Cell(t, p, num)] == if t == tid then Start(parts, p) + Count(parts, i, p) else Target(parts, num, p, t)
  }

  ghost predicate Placed(keys: seq<int>, parts: seq<int>, indices: seq<int>, permuted: seq<int>, i: nat) {
    && |keys| == |parts| == |indices| == |permuted| && i <= |keys|
    && forall k: nat :: k < i ==>
      parts[k] >= 0 && Rank(parts, k) < |parts| && indices[Rank(parts, k)] == k && permuted[Rank(parts, k)] == keys[k]
  }

  lemma PendingElement(c: seq<int>, parts: seq<int>, num: nat, tid: nat, i: nat)
    requires Pending(c, parts, num, tid, i) && InParts(parts, num) && tid < num && i < |parts|
    ensures Cell(tid, parts[i], num) < |c| && c[Cell(tid, parts[i], num)] == Rank(parts, i)
    ensures Pending(c[Cell(tid, parts[i], num) := c[Cell(tid, parts[i], num)] + 1], parts, num, tid, i + 1)
  {
    hide Cell, Count, Target;
    var x := Cell(tid, parts[i], num);
    var d := c[x := c[x] + 1];
    forall t: nat, p: nat | tid <= t < num && p < num
      ensures Cell(t, p, num) < |d|
      ensures d[Cell(t, p, num)] ==
        if t == tid then Start(parts, p) + Count(parts, i + 1, p) else Target(parts, num, p, t)
    {
      CellOrder(t, p, tid, parts[i], num);
      CountStep(parts, i, p);
    }
  }

  lemma PendingChunk(c: seq<int>, parts: seq<int>, num: nat, tid: nat, i: nat)
    requires tid < num && i == ChunkBegin(tid + 1, |parts|, num) && Pending(c, parts, num, tid, i)
    ensures Pending(c, parts, num, tid + 1, i)
  {
    hide Cell, ChunkBegin, Count, Start;
  }

  lemma PlacedElement(keys: seq<int>, parts: seq<int>, num: nat, indices: seq<int>, permuted: seq<int>, i: nat)
    requires Placed(keys, parts, indices, permuted, i) && InParts(parts, num) && i < |keys|
    ensures var r := Rank(parts, i);
      r < |keys| && Placed(keys, parts, indices[r := i], permuted[r := keys[i]], i + 1)
  {
    hide Rank;
    RankInSlice(parts, num, i);
    forall k: nat | k < i
      ensures Rank(parts, k) != Rank(parts, i)
    {
      RankOrder(parts, num, k, i);
      RankOrder(parts, num, i, k);
    }
  }

  /** Worker tid scatters its chunk. */
  method ScatterChunk(keys: seq<int>, partId: array<int>, num: nat, tid: nat, cursors: array<int>, indices: array<int>,
                      permuted: array<int>)
    requires InParts(partId[..], num) && |keys| == partId.Length && tid < num
    requires Pending(cursors[..], partId[..], num, tid, ChunkBegin(tid, |keys|, num))
    requires Placed(keys, partId[..], indices[..], permuted[..], ChunkBegin(tid, |keys|, num))
    requires indices != permuted && cursors !in {partId, indices, permuted} && partId !in {indices, permuted}
    modifies cursors, indices, permuted
    ensures Pending(cursors[..], partId[..], num, tid, ChunkBegin(tid + 1, |keys|, num))
    ensures Placed(keys, partId[..], indices[..], permuted[..], ChunkBegin(tid + 1, |keys|, num))
  {
    hide Cell, ChunkBegin, Pending, Placed, Count, Rank, Target, InParts;
    ghost var parts := partId[..];
    var n := |keys|;
    var begin, end := ChunkBegin(tid, n, num), ChunkBegin(tid + 1, n, num);
    ChunkOrder(tid, tid + 1, n, num);
    ChunkOrder(tid + 1, num, n, num);
    ChunkEnds(n, num);
    PlacedSizes(keys, parts, indices[..], permuted[..], begin);
    var i := begin;
    while i < end
      invariant begin <= i <= end
      invariant partId[..] == parts
      invariant Pending(cursors[..], parts, num, tid, i)
      invariant Placed(keys, parts, indices[..], permuted[..], i)
    {
      PendingElement(cursors[..], parts, num, tid, i);
      PlacedElement(keys, parts, num, indices[..], permuted[..], i);
      PartAt(parts, num, i);
      var x := Cell(tid, partId[i], num);
      var offset := cursors[x];
      indices[offset] := i;
      permuted[offset] := keys[i];
      cursors[x] := offset + 1;
      i := i + 1;
    }
  }

  lemma PlacedSizes(keys: seq<int>, parts: seq<int>, indices: seq<int>, permuted: seq<int>, i: nat)
    requires Placed(keys, parts, indices, permuted, i)
    ensures |keys| == |parts| == |indices| == |permuted|
  {
  }

  lemma PartAt(parts: seq<int>, num: nat, i: nat)
    requires InParts(parts, num) && i < |parts|
    ensures 0 <= parts[i] < num
  {
  }

  method Scatter(keys: seq<int>, partId: array<int>, num: nat, offsets: array<int>, cursors: array<int>,
                 indices: array<int>, permuted: array<int>, sliced: array<int>)
    requires InParts(partId[..], num) && |keys| == partId.Length == indices.Length == permuted.Length
    requires sliced.Length == num + 1 && Scanned(offsets[..], partId[..], num)
    requires Pending(cursors[..], partId[..], num, 0, 0)
    requires indices != permuted && cursors !in {partId, offsets, indices, permuted, sliced}
    requires {indices, permuted, sliced} !! {partId, offsets} && sliced !in {indices, permuted}
    modifies cursors, indices, permuted, sliced
    ensures Placed(keys, partId[..], indices[..], permuted[..], |keys|)
    ensures forall p :: 0 <= p <= num ==> sliced[p] == Start(partId[..], p)
  {
    hide Cell, ChunkBegin, Pending, Placed, Count, Rank, Target, InParts, Start;
    ghost var parts := partId[..];
    var n := |keys|;
    ChunkEnds(n, num);
    sliced[0] := 0;
    StartZero(parts);
    NothingPlaced(keys, parts, indices[..], permuted[..]);
    var tid := 0;
    while tid < num
      invariant 0 <= tid <= num && ChunkBegin(tid, n, num) <= n
      invariant partId[..] == parts && offsets[..] == old(offsets[..])
      invariant Pending(cursors[..], parts, num, tid, ChunkBegin(tid, n, num))
      invariant Placed(keys, parts, indices[..], permuted[..], ChunkBegin(tid, n, num))
      invariant forall p :: 0 <= p <= tid ==> sliced[p] == Start(parts, p)
    {
      ScatterChunk(keys, partId, num, tid, cursors, indices, permuted);
      ChunkOrder(tid + 1, num, n, num);
      PendingChunk(cursors[..], parts, num, tid, ChunkBegin(tid + 1, n, num));
      assert offsets[..][Cell(tid + 1, 0, num)] == Start(parts, tid + 1);
      sliced[tid + 1] := offsets[Cell(tid + 1, 0, num)];
      tid := tid + 1;
    }
  }

  lemma StartZero(parts: seq<int>)
    ensures Start(parts, 0) == 0
  {
  }

  lemma NothingPlaced(keys: seq<int>, parts: seq<int>, indices: seq<int>, permuted: seq<int>)
    requires |keys| == |parts| == |indices| == |permuted|
    ensures Placed(keys, parts, indices, permuted, 0)
  {
  }

  /** Splits the keys by part: the slice boundaries, the input index of every
      output key, and the output keys. */
  method Partition(keys: seq<int>, assign: int -> nat, num: nat)
    returns (slices: array<int>, indices: array<int>, permuted: array<int>)
    requires num >= 1 && forall i :: 0 <= i < |keys| ==> assign(keys[i]) < num
    ensures fresh(slices) && fresh(indices) && fresh(permuted)
    ensures StablePartition(keys, Assigned(keys, assign), num, slices[..], indices[..], permuted[..])
    ensures slices.Length == num + 1 && forall p :: 0 <= p <= num ==> slices[p] == Start(Assigned(keys, assign), p)
  {
    hide Cell, Placed, Pending, Start, StablePartition, Scanned, Counted, Count, Target;
    var cells := num * num + 1;
    TableSize(num);
    var offsets := new int[cells](_ => 0);
    indices := new int[|keys|];
    var partId := new int[|keys|];
    CountParts(keys, assign, num, offsets, partId);
    ghost var parts := partId[..];
    var cursors := new int[cells];
    TransposeCounts(offsets, cursors, num, parts);
    InclusiveScan(cursors, offsets, num, parts);
    TransposeBack(offsets, cursors, num, parts);
    permuted := new int[|keys|];
    slices := new int[num + 1];
    PendingFirst(cursors[..], parts, num);
    Scatter(keys, partId, num, offsets, cursors, indices, permuted, slices);
    PlacedPartition(keys, parts, num, slices[..], indices[..], permuted[..]);
  }

  lemma PendingFirst(c: seq<int>, parts: seq<int>, num: nat)
    requires num >= 1
    requires forall t: nat, p: nat :: t < num && p < num ==>
      Cell(t, p, num) < |c| && c[Cell(t, p, num)] == Target(parts, num, p, t)
    ensures Pending(c, parts, num, 0, 0)
  {
    hide Cell, ChunkBegin;
    ChunkEnds(|parts|, num);
  }

  lemma PlacedPartition(keys: seq<int>, parts: seq<int>, num: nat, offsets: seq<int>, indices: seq<int>,
                        permuted: seq<int>)
    requires Placed(keys, parts, indices, permuted, |keys|) && InParts(parts, num)
    requires |offsets| == num + 1 && forall p :: 0 <= p <= num ==> offsets[p] == Start(parts, p)
    ensures StablePartition(keys, parts, num, offsets, indices, permuted)
  {
    hide Rank, StablePartition;
    RanksPartition(keys, parts, num, offsets, indices, permuted);
  }
}
