/** Heterogeneous neighbour sampling: counting, scanning and filling one segment per
    edge type and seed.

    Source: graphbolt/src/fused_csc_sampling_graph.cc. */
module HeteroSampling {
  import opened Collections
  import opened Sampling

  /** The first position in [lo, hi) whose type is at least e, else hi (`upper_bound` of e - 1). */
  function LowerBound(types: seq<int>, lo: nat, hi: nat, e: int): (b: nat)
    requires lo <= hi <= |types|
    ensures lo <= b <= hi && (b < hi ==> types[b] >= e) && forall k :: lo <= k < b ==> types[k] < e
    decreases hi - lo
  {
    if lo == hi || types[lo] >= e then lo else LowerBound(types, lo + 1, hi, e)
  }

  ghost predicate SortedTypes(types: seq<int>, lo: nat, hi: nat)
    requires lo <= hi <= |types|
  {
    forall a, b :: lo <= a <= b < hi ==> types[a] <= types[b]
  }

  /** In a sorted column the bounds are exact: type e sits in [bound(e), bound(e + 1)). */
  lemma BoundExact(types: seq<int>, lo: nat, hi: nat, e: int, k: nat)
    requires lo <= hi <= |types| && SortedTypes(types, lo, hi) && lo <= k < hi
    ensures types[k] == e <==> LowerBound(types, lo, hi, e) <= k < LowerBound(types, lo, hi, e + 1)
  {
    hide LowerBound;
    var a, b := LowerBound(types, lo, hi, e), LowerBound(types, lo, hi, e + 1);
    assert a <= k ==> types[k] >= e;
    assert b <= k ==> types[k] >= e + 1;
  }

  lemma {:induction false} BoundOrder(types: seq<int>, lo: nat, hi: nat, e: int, f: int)
    requires lo <= hi <= |types| && e <= f
    ensures LowerBound(types, lo, hi, e) <= LowerBound(types, lo, hi, f)
    decreases hi - lo
  {
    if lo < hi && types[lo] < e { BoundOrder(types, lo + 1, hi, e, f); }
  }

  datatype Job = Job(indptr: seq<int>, indices: seq<int>, types: seq<int>, dst: seq<int>, src: seq<int>,
                     typeOffset: Option<seq<int>>, seeds: seq<int>, seedOffsets: seq<int>, fanouts: seq<int>,
                     replace: bool, probs: Option<seq<real>>)
  {
    /** A well-formed graph and request. */
    ghost predicate Valid() {
      && |fanouts| == |dst| == |src| >= 1 && |seedOffsets| >= 2
      && (forall e :: 0 <= e < |dst| ==> 0 <= dst[e] < |seedOffsets| - 1 && fanouts[e] >= -1)
      && seedOffsets[0] == 0 && seedOffsets[|seedOffsets| - 1] == |seeds|
      && (forall a, b :: 0 <= a <= b < |seedOffsets| ==> seedOffsets[a] <= seedOffsets[b])
      && |indptr| >= 1 && |types| == |indices| && (probs.Some? ==> |probs.value| == |indices|)
      && (forall a, b :: 0 <= a <= b < |indptr| ==> 0 <= indptr[a] <= indptr[b] <= |indices|)
      && (typeOffset.Some? ==> forall e :: 0 <= e < |src| ==> 0 <= src[e] < |typeOffset.value|)
    }

    /** The seeds are nodes of the graph; the source refuses others. */
    predicate SeedsOk() {
      forall i :: 0 <= i < |seeds| ==> 0 <= seeds[i] < |indptr| - 1
    }

    /** Seed s of the group that edge type e points into. */
    function Seed(e: nat, s: int): int
      requires Valid() && e < |dst|
    {
      seedOffsets[dst[e]] + s
    }

    function GroupSize(e: nat): (n: nat)
      requires Valid() && e < |dst|
    {
      seedOffsets[dst[e] + 1] - seedOffsets[dst[e]]
    }

    ghost predicate InGroup(e: nat, i: int)
      requires Valid() && e < |dst|
    {
      seedOffsets[dst[e]] <= i < seedOffsets[dst[e] + 1]
    }

    function Lo(i: nat): nat
      requires Valid() && SeedsOk() && i < |seeds|
    {
      indptr[seeds[i]]
    }

    function Hi(i: nat): (h: nat)
      requires Valid() && SeedsOk() && i < |seeds|
      ensures Lo(i) <= h <= |indices|
    {
      indptr[seeds[i] + 1]
    }

    /** Edges are sorted by type in every column, and their types point into the seed's group. */
    ghost predicate Typed()
      requires Valid() && SeedsOk()
    {
      && (forall i: nat :: i < |seeds| ==> SortedTypes(types, Lo(i), Hi(i)))
      && (forall i: nat, k: nat :: i < |seeds| && Lo(i) <= k < Hi(i) ==> 0 <= types[k] < |dst| && InGroup(types[k], i))
    }

    ghost predicate Ready() {
      Valid() && SeedsOk() && Typed()
    }

    function Begin(i: nat, e: nat): (b: nat)
      requires Valid() && SeedsOk() && i < |seeds|
      ensures Lo(i) <= b <= Hi(i)
    {
      LowerBound(types, Lo(i), Hi(i), e)
    }

    /** How many edges of type e are picked for seed i. */
    ghost function Width(i: nat, e: nat): (n: int)
      requires Ready() && i < |seeds| && e < |dst|
    {
      BoundOrder(types, Lo(i), Hi(i), e, e + 1);
      PickCount(fanouts[e], replace, |Nonzero(Local(probs, Begin(i, e), Begin(i, e + 1) - Begin(i, e)))|)
    }

    /** Where the rows of edge type e begin. */
    function Off(e: nat): nat
      requires Valid() && e <= |dst|
    {
      if e == 0 then 0 else Off(e - 1) + GroupSize(e - 1) + 1
    }
  }

  lemma WidthFacts(j: Job, i: nat, e: nat)
    requires j.Ready() && i < |j.seeds| && e < |j.dst|
    ensures j.Begin(i, e) <= j.Begin(i, e + 1) && j.Width(i, e) >= 0
    ensures j.Begin(i, e) == j.Begin(i, e + 1) ==> j.Width(i, e) == 0
  {
    BoundOrder(j.types, j.Lo(i), j.Hi(i), e, e + 1);
  }

  lemma {:induction false} OffOrder(j: Job, e: nat, f: nat)
    requires j.Valid() && e < f <= |j.dst|
    ensures j.Off(e) + j.GroupSize(e) + 1 <= j.Off(f)
    decreases f
  {
    if e + 1 < f { OffOrder(j, e, f - 1); }
  }

  /** Rows of different types or seeds are different. */
  lemma RowDistinct(j: Job, e: nat, s: int, f: nat, u: int)
    requires j.Valid() && e < |j.dst| && f < |j.dst| && 0 <= s <= j.GroupSize(e) && 0 <= u <= j.GroupSize(f)
    ensures j.Off(e) + s == j.Off(f) + u <==> e == f && s == u
    ensures j.Off(e) + s < j.Off(f) + u <==> e < f || (e == f && s < u)
    ensures j.Off(e) + s < j.Off(|j.dst|)
  {
    if e < f { OffOrder(j, e, f); }
    if f < e { OffOrder(j, f, e); }
    OffOrder(j, e, |j.dst|);
  }

  // ------------------------------------------------------------------
  // Step 1: how many edges each row gets

  /** The counts when the seeds before i, and the types before cur of seed i, are done. */
  ghost predicate CountsAt(j: Job, c: seq<int>, i: int, cur: int)
    requires j.Ready()
  {
    && |c| == j.Off(|j.dst|)
    && (forall e: nat :: e < |j.dst| ==> j.Off(e) < |c| && c[j.Off(e)] == 0)
    && (forall e: nat, s: nat :: e < |j.dst| && s < j.GroupSize(e) ==> CountRight(j, c, e, s, i, cur))
  }

  ghost predicate CountRight(j: Job, c: seq<int>, e: nat, s: nat, i: int, cur: int)
    requires j.Ready() && e < |j.dst| && s < j.GroupSize(e)
  {
    var seed := j.Seed(e, s);
    j.Off(e) + s + 1 < |c| && c[j.Off(e) + s + 1] == if seed < i || (seed == i && e < cur) then j.Width(seed, e) else 0
  }

  lemma SeedRange(j: Job, e: nat, s: nat)
    requires j.Valid() && e < |j.dst| && s < j.GroupSize(e)
    ensures 0 <= j.Seed(e, s) < |j.seeds|
  {
  }

  /** Types without edges in the column need no visit. */
  lemma SkipTypes(j: Job, c: seq<int>, i: nat, cur: nat, next: nat)
    requires j.Ready() && i < |j.seeds| && CountsAt(j, c, i, cur) && cur <= next <= |j.dst|
    requires j.Begin(i, cur) == j.Begin(i, next)
    ensures CountsAt(j, c, i, next)
  {
    hide Job.Width, Job.Begin, Job.Off, Job.Valid, Job.Typed, Job.SeedsOk;
    forall e: nat | cur <= e < next ensures j.Width(i, e) == 0 {
      BeginOrder(j, i, cur, e);
      BeginOrder(j, i, e + 1, next);
      WidthFacts(j, i, e);
    }
    forall e: nat, s: nat | e < |j.dst| && s < j.GroupSize(e) ensures CountRight(j, c, e, s, i, next) {
      assert CountRight(j, c, e, s, i, cur);
    }
  }

  lemma BeginOrder(j: Job, i: nat, e: nat, f: nat)
    requires j.Ready() && i < |j.seeds| && e <= f
    ensures j.Begin(i, e) <= j.Begin(i, f)
  {
    BoundOrder(j.types, j.Lo(i), j.Hi(i), e, f);
  }

  /** All types of a seed done is the next seed not started. */
  lemma SeedDone(j: Job, c: seq<int>, i: nat)
    requires j.Ready() && CountsAt(j, c, i, |j.dst|)
    ensures CountsAt(j, c, i + 1, 0)
  {
    hide Job.Width, Job.Begin, Job.Off;
    var next := i + 1;
    forall e: nat, s: nat | e < |j.dst| && s < j.GroupSize(e) ensures CountRight(j, c, e, s, next, 0) {
      assert CountRight(j, c, e, s, i, |j.dst|);
    }
  }

  /** One row is written. */
  lemma CountRow(j: Job, c: seq<int>, i: nat, e: nat)
    requires j.Ready() && i < |j.seeds| && e < |j.dst| && j.InGroup(e, i) && CountsAt(j, c, i, e)
    ensures var row := j.Off(e) + (i - j.seedOffsets[j.dst[e]]) + 1;
      0 <= row < |c| && CountsAt(j, c[row := j.Width(i, e)], i, e + 1)
  {
    hide Job.Width, Job.Begin, Job.Off, CountRight;
    var s := i - j.seedOffsets[j.dst[e]];
    RowDistinct(j, e, s + 1, e, 0);
    var d := c[j.Off(e) + s + 1 := j.Width(i, e)];
    forall f: nat | f < |j.dst| ensures j.Off(f) < |d| && d[j.Off(f)] == 0 { RowDistinct(j, e, s + 1, f, 0); }
    var next := e + 1;
    forall f: nat, u: nat | f < |j.dst| && u < j.GroupSize(f) ensures CountRight(j, d, f, u, i, next) {
      CountKept(j, c, i, e, s, f, u);
    }
  }

  /** The other rows keep their count. */
  lemma CountKept(j: Job, c: seq<int>, i: nat, e: nat, s: nat, f: nat, u: nat)
    requires j.Ready() && i < |j.seeds| && e < |j.dst| && j.InGroup(e, i) && s == i - j.seedOffsets[j.dst[e]]
    requires j.Off(e) + s + 1 < |c| && f < |j.dst| && u < j.GroupSize(f) && CountRight(j, c, f, u, i, e)
    ensures CountRight(j, c[j.Off(e) + s + 1 := j.Width(i, e)], f, u, i, e + 1)
  {
    hide Job.Width, Job.Begin, Job.Off;
    RowDistinct(j, e, s + 1, f, u + 1);
  }

  lemma NothingCounted(j: Job, c: seq<int>)
    requires j.Ready() && |c| == j.Off(|j.dst|) && forall r :: 0 <= r < |c| ==> c[r] == 0
    ensures CountsAt(j, c, 0, 0)
  {
    hide Job.Off;
    forall e: nat | e < |j.dst| ensures j.Off(e) < |c| { RowDistinct(j, e, 0, e, 0); }
    forall e: nat, s: nat | e < |j.dst| && s < j.GroupSize(e) ensures CountRight(j, c, e, s, 0, 0) {
      RowDistinct(j, e, s + 1, e, 0);
      SeedRange(j, e, s);
    }
  }

  /** The group of a seed (`upper_bound` of the seed, minus one). */
  method GroupOf(j: Job, i: nat) returns (t: nat)
    requires j.Valid() && i < |j.seeds|
    ensures t < |j.seedOffsets| - 1 && j.seedOffsets[t] <= i < j.seedOffsets[t + 1]
  {
    t := 0;
    while j.seedOffsets[t + 1] <= i
      invariant t < |j.seedOffsets| - 1 && j.seedOffsets[t] <= i
      decreases |j.seedOffsets| - t
    {
      t := t + 1;
    }
  }

  lemma GroupUnique(j: Job, e: nat, i: nat, t: nat)
    requires j.Valid() && e < |j.dst| && j.InGroup(e, i) && t < |j.seedOffsets| - 1
    requires j.seedOffsets[t] <= i < j.seedOffsets[t + 1]
    ensures j.dst[e] == t
  {
    GroupOrder(j, j.dst[e], t);
    GroupOrder(j, t, j.dst[e]);
  }

  lemma GroupOrder(j: Job, a: nat, b: nat)
    requires j.Valid() && a < |j.seedOffsets| && b < |j.seedOffsets|
    ensures a < b ==> j.seedOffsets[a + 1] <= j.seedOffsets[b]
  {
  }

  ghost predicate OffTable(j: Job, off: seq<int>)
    requires j.Valid()
  {
    |off| == |j.dst| + 1 && forall e :: 0 <= e <= |j.dst| ==> off[e] == j.Off(e)
  }

  /** The position of seed i within its group. */
  ghost predicate IndexInGroup(j: Job, i: nat, seedIndex: nat) {
    exists t: nat ::
      t < |j.seedOffsets| - 1 && j.seedOffsets[t] <= i < j.seedOffsets[t + 1] && seedIndex == i - j.seedOffsets[t]
  }

  /** The row of one seed for one type. */
  method NumPickRow(j: Job, i: nat, e: nat, begin: nat, n: nat, seedIndex: nat, off: seq<int>, counts: array<int>)
    requires j.Ready() && i < |j.seeds| && e < |j.dst| && j.InGroup(e, i) && CountsAt(j, counts[..], i, e)
    requires OffTable(j, off)
    requires seedIndex == i - j.seedOffsets[j.dst[e]] && begin == j.Begin(i, e) && begin + n == j.Begin(i, e + 1)
    modifies counts
    ensures CountsAt(j, counts[..], i, e + 1)
  {
    hide Job.Width, Job.Off, Job.Begin, CountsAt, Job.InGroup;
    CountRow(j, counts[..], i, e);
    WidthIs(j, i, e);
    var picked := NumPick(j.fanouts[e], j.replace, j.probs, begin, n);
    counts[1 + off[e] + seedIndex] := picked;
  }

  /** `NumPickByEtype` with seed offsets: one segment of the column per type. */
  method NumPickByEtype(j: Job, i: nat, seedIndex: nat, off: seq<int>, counts: array<int>)
    requires j.Ready() && i < |j.seeds| && CountsAt(j, counts[..], i, 0)
    requires OffTable(j, off)
    requires IndexInGroup(j, i, seedIndex)
    modifies counts
    ensures CountsAt(j, counts[..], i + 1, 0)
  {
    hide Job.Width, Job.Off, Job.Begin, CountsAt, LowerBound, Job.InGroup, Job.Ready, IndexInGroup, OffTable;
    ReadyFacts(j);
    var begin, end := j.Lo(i), j.Hi(i);
    ghost var cur: nat := 0;
    FirstBegin(j, i);
    while begin < end
      invariant j.Lo(i) <= begin <= end && cur <= |j.dst| && begin == j.Begin(i, cur) && CountsAt(j, counts[..], i, cur)
      decreases end - begin
    {
      var etype := j.types[begin];
      NextType(j, i, cur, begin);
      var stop := LowerBound(j.types, j.Lo(i), end, etype + 1);
      SkipTypes(j, counts[..], i, cur, etype);
      GroupIndex(j, i, etype, seedIndex);
      BeginIs(j, i, etype);
      NumPickRow(j, i, etype, begin, stop - begin, seedIndex, off, counts);
      cur := etype + 1;
      begin := stop;
    }
    LastBegin(j, i);
    SkipTypes(j, counts[..], i, cur, |j.dst|);
    SeedDone(j, counts[..], i);
  }

  lemma ReadyFacts(j: Job)
    requires j.Ready()
    ensures j.Valid() && j.SeedsOk() && |j.types| == |j.indices|
  {
  }

  lemma FirstBegin(j: Job, i: nat)
    requires j.Ready() && i < |j.seeds|
    ensures j.Begin(i, 0) == j.Lo(i)
  {
    if j.Lo(i) < j.Hi(i) { assert j.types[j.Lo(i)] >= 0; }
  }

  lemma LastBegin(j: Job, i: nat)
    requires j.Ready() && i < |j.seeds|
    ensures j.Begin(i, |j.dst|) == j.Hi(i)
  {
  }

  /** The type at the start of what is left comes next, and its segment starts here. */
  lemma NextType(j: Job, i: nat, cur: nat, begin: nat)
    requires j.Ready() && i < |j.seeds| && begin == j.Begin(i, cur) && begin < j.Hi(i)
    ensures var e := j.types[begin];
      && cur <= e < |j.dst| && j.InGroup(e, i) && j.Begin(i, e) == begin < j.Begin(i, e + 1)
  {
    var e := j.types[begin];
    BeginOrder(j, i, cur, e);
    BoundExact(j.types, j.Lo(i), j.Hi(i), e, begin);
  }

  lemma GroupIndex(j: Job, i: nat, e: nat, seedIndex: nat)
    requires j.Ready() && i < |j.seeds| && e < |j.dst| && j.InGroup(e, i)
    requires IndexInGroup(j, i, seedIndex)
    ensures seedIndex == i - j.seedOffsets[j.dst[e]]
  {
    var t: nat :|
      t < |j.seedOffsets| - 1 && j.seedOffsets[t] <= i < j.seedOffsets[t + 1] && seedIndex == i - j.seedOffsets[t];
    GroupUnique(j, e, i, t);
  }

  lemma WidthIs(j: Job, i: nat, e: nat)
    requires j.Ready() && i < |j.seeds| && e < |j.dst|
    ensures var b, n := j.Begin(i, e), j.Begin(i, e + 1) - j.Begin(i, e);
      n >= 0 && HasColumn(j.probs, b, n) && b + n <= |j.indices|
      && j.Begin(i, e + 1) == LowerBound(j.types, j.Lo(i), j.Hi(i), e + 1)
      && j.Width(i, e) == PickCount(j.fanouts[e], j.replace, |Nonzero(Local(j.probs, b, n))|)
  {
    BeginOrder(j, i, e, e + 1);
  }

  // ------------------------------------------------------------------
  // Step 2: the scan

  function SumTo(c: seq<int>, r: nat): int
    requires r <= |c|
  {
    if r == 0 then 0 else SumTo(c, r - 1) + c[r - 1]
  }

  lemma {:induction false} SumMonotone(c: seq<int>, a: nat, b: nat)
    requires a <= b <= |c| && forall r :: 0 <= r < |c| ==> c[r] >= 0
    ensures 0 <= SumTo(c, a) <= SumTo(c, b)
    decreases b
  {
    if a < b { SumMonotone(c, a, b - 1); } else if a > 0 { SumMonotone(c, a - 1, a - 1); }
  }

  method CumSum(counts: array<int>) returns (p: seq<int>)
    ensures |p| == counts.Length && forall r :: 0 <= r < |p| ==> p[r] == SumTo(counts[..], r + 1)
  {
    p := [];
    var sum := 0;
    for r := 0 to counts.Length
      invariant |p| == r && sum == SumTo(counts[..], r) && forall k :: 0 <= k < r ==> p[k] == SumTo(counts[..], k + 1)
    {
      sum := sum + counts[r];
      p := p + [sum];
    }
  }

  /** The scanned rows: every block starts where the one before ends, and row s of
      block e is as long as the number of edges to pick. */
  ghost predicate Scanned(j: Job, p: seq<int>)
    requires j.Ready()
  {
    && |p| == j.Off(|j.dst|) && (forall a, b :: 0 <= a <= b < |p| ==> 0 <= p[a] <= p[b])
    && (forall e: nat :: e < |j.dst| ==> BlockStart(j, p, e))
    && (forall e: nat, s: nat :: e < |j.dst| && s < j.GroupSize(e) ==> RowWidth(j, p, e, s))
  }

  ghost predicate BlockStart(j: Job, p: seq<int>, e: nat)
    requires j.Ready() && e < |j.dst|
  {
    j.Off(e) < |p| && p[j.Off(e)] == if j.Off(e) == 0 then 0 else p[j.Off(e) - 1]
  }

  ghost predicate RowWidth(j: Job, p: seq<int>, e: nat, s: nat)
    requires j.Ready() && e < |j.dst| && s < j.GroupSize(e)
  {
    SeedRange(j, e, s);
    j.Off(e) + s + 1 < |p| && p[j.Off(e) + s + 1] - p[j.Off(e) + s] == j.Width(j.Seed(e, s), e)
  }

  lemma CountsNonnegative(j: Job, c: seq<int>, r: nat)
    requires j.Ready() && CountsAt(j, c, |j.seeds|, 0) && r < |c|
    ensures c[r] >= 0
  {
    hide Job.Width, Job.Off, Job.GroupSize, Job.Begin;
    var e, s := RowOf(j, r, |j.dst|);
    if s > 0 {
      assert CountRight(j, c, e, s - 1, |j.seeds|, 0);
      SeedRange(j, e, s - 1);
      WidthFacts(j, j.Seed(e, s - 1), e);
    }
  }

  /** Every row belongs to one type. */
  lemma {:induction false} RowOf(j: Job, r: nat, m: nat) returns (e: nat, s: nat)
    requires j.Valid() && m <= |j.dst| && r < j.Off(m)
    ensures e < m && s <= j.GroupSize(e) && r == j.Off(e) + s
  {
    if r < j.Off(m - 1) { e, s := RowOf(j, r, m - 1); } else { e, s := m - 1, r - j.Off(m - 1); }
  }

  lemma CountsScanned(j: Job, c: seq<int>, p: seq<int>)
    requires j.Ready() && CountsAt(j, c, |j.seeds|, 0)
    requires |p| == |c| && forall r :: 0 <= r < |p| ==> p[r] == SumTo(c, r + 1)
    ensures Scanned(j, p)
  {
    hide Job.Width, Job.Off, Job.Begin;
    forall r: nat | r < |c| ensures c[r] >= 0 { CountsNonnegative(j, c, r); }
    forall a, b | 0 <= a <= b < |p| ensures 0 <= p[a] <= p[b] { SumMonotone(c, a + 1, b + 1); }
    forall e: nat | e < |j.dst| ensures BlockStart(j, p, e) { StartScanned(j, c, p, e); }
    forall e: nat, s: nat | e < |j.dst| && s < j.GroupSize(e) ensures RowWidth(j, p, e, s) {
      assert CountRight(j, c, e, s, |j.seeds|, 0);
      SeedRange(j, e, s);
      WidthScanned(c, p, j.Off(e) + s);
    }
  }

  lemma WidthScanned(c: seq<int>, p: seq<int>, r: nat)
    requires |p| == |c| && r + 1 < |p| && forall q :: 0 <= q < |p| ==> p[q] == SumTo(c, q + 1)
    ensures p[r + 1] - p[r] == c[r + 1]
  {
  }

  lemma StartScanned(j: Job, c: seq<int>, p: seq<int>, e: nat)
    requires j.Ready() && CountsAt(j, c, |j.seeds|, 0) && e < |j.dst|
    requires |p| == |c| && forall r :: 0 <= r < |p| ==> p[r] == SumTo(c, r + 1)
    ensures BlockStart(j, p, e)
  {
    hide Job.Width, Job.Begin;
    assert j.Off(e) < |c| && c[j.Off(e)] == 0;
    assert p[j.Off(e)] == SumTo(c, j.Off(e)) + c[j.Off(e)];
    if j.Off(e) > 0 {
      assert p[j.Off(e) - 1] == SumTo(c, j.Off(e));
    }
  }

  // ------------------------------------------------------------------
  // Step 4 and 5: filling the segments

  /** Any picker that meets the contract of `Pick` for every stretch of a column. It is
      called once for every seed and type, and equal columns need not get equal picks. */
  ghost predicate Picker(j: Job, pick: (int, int, int, int) -> seq<int>)
    requires j.Valid()
  {
    forall i: nat, b: nat, n: nat, e: nat :: e < |j.dst| && b + n <= |j.indices| ==> PickOk(j, pick, i, b, n, e)
  }

  ghost predicate PickOk(j: Job, pick: (int, int, int, int) -> seq<int>, i: nat, b: nat, n: nat, e: nat)
    requires j.Valid() && e < |j.dst| && b + n <= |j.indices|
  {
    GoodPicks(pick(i, b, n, e), j.fanouts[e], j.replace, Local(j.probs, b, n), b)
  }

  /** The edges picked for type e and seed i. */
  ghost function Picked(j: Job, pick: (int, int, int, int) -> seq<int>, i: nat, e: nat): seq<int>
    requires j.Ready() && i < |j.seeds| && e < |j.dst|
  {
    pick(i, j.Begin(i, e), j.Begin(i, e + 1) - j.Begin(i, e), e)
  }

  /** A picker that takes the first edges of nonzero weight, or the first one over and over. */
  function FirstPicks(fanout: int, replace: bool, w: seq<real>, offset: int): seq<int>
    requires fanout >= -1
  {
    var some := Nonzero(w);
    var count := PickCount(fanout, replace, |some|);
    if count <= |some| then Moved(some[..count], offset) else seq(count, k requires 0 < |some| => some[0] + offset)
  }

  function Moved(s: seq<int>, offset: int): (r: seq<int>)
    ensures |r| == |s| && forall k :: 0 <= k < |s| ==> r[k] == s[k] + offset
  {
    seq(|s|, k requires 0 <= k < |s| => s[k] + offset)
  }

  lemma FirstPicksGood(fanout: int, replace: bool, w: seq<real>, offset: int)
    requires fanout >= -1
    ensures GoodPicks(FirstPicks(fanout, replace, w, offset), fanout, replace, w, offset)
  {
    hide Nonzero, Moved;
    NonzeroOrdered(w);
  }

  /** There are pickers for every request. */
  lemma PickerExists(j: Job)
    requires j.Valid()
    ensures exists pick: (int, int, int, int) -> seq<int> :: Picker(j, pick)
  {
    hide FirstPicks, GoodPicks;
    var pick := (i: int, b: int, n: int, e: int) =>
      if 0 <= b && 0 <= n && 0 <= e < |j.fanouts| && j.fanouts[e] >= -1 && HasColumn(j.probs, b, n)
      then FirstPicks(j.fanouts[e], j.replace, Local(j.probs, b, n), b) else [];
    forall i: nat, b: nat, n: nat, e: nat | e < |j.dst| && b + n <= |j.indices| ensures PickOk(j, pick, i, b, n, e) {
      FirstPicksGood(j.fanouts[e], j.replace, Local(j.probs, b, n), b);
    }
    assert Picker(j, pick);
  }

  /** A picker that may fail, as a weighted draw does that finds no neighbour. What it
      does return meets the contract of `Pick`. */
  ghost predicate MayPick(j: Job, tries: (int, int, int, int) -> Option<seq<int>>)
    requires j.Valid()
  {
    forall i: nat, b: nat, n: nat, e: nat :: e < |j.dst| && b + n <= |j.indices| ==> TryOk(j, tries, i, b, n, e)
  }

  ghost predicate TryOk(j: Job, tries: (int, int, int, int) -> Option<seq<int>>, i: nat, b: nat, n: nat, e: nat)
    requires j.Valid() && e < |j.dst| && b + n <= |j.indices|
  {
    tries(i, b, n, e).Some? ==>
      GoodPicks(tries(i, b, n, e).value, j.fanouts[e], j.replace, Local(j.probs, b, n), b)
  }

  /** `pick` returns what `tries` returns when it does not fail. */
  ghost predicate Follows(tries: (int, int, int, int) -> Option<seq<int>>, pick: (int, int, int, int) -> seq<int>) {
    forall i, b, n, e :: tries(i, b, n, e).Some? ==> pick(i, b, n, e) == tries(i, b, n, e).value
  }

  lemma PickerFollows(j: Job, tries: (int, int, int, int) -> Option<seq<int>>)
    returns (pick: (int, int, int, int) -> seq<int>)
    requires j.Valid() && MayPick(j, tries)
    ensures Picker(j, pick) && Follows(tries, pick)
  {
    hide GoodPicks;
    PickerExists(j);
    var some: (int, int, int, int) -> seq<int> :| Picker(j, some);
    pick := (i: int, b: int, n: int, e: int) =>
      if tries(i, b, n, e).Some? then tries(i, b, n, e).value else some(i, b, n, e);
    forall i: nat, b: nat, n: nat, e: nat | e < |j.dst| && b + n <= |j.indices| ensures PickOk(j, pick, i, b, n, e) {
      assert TryOk(j, tries, i, b, n, e) && PickOk(j, some, i, b, n, e);
    }
  }

  /** The picker is asked for the types in the column whose fanout is not 0, and answers. */
  ghost predicate Answers(j: Job, tries: (int, int, int, int) -> Option<seq<int>>, i: nat, e: nat)
    requires j.Ready() && i < |j.seeds| && e < |j.dst|
  {
    var b, n := j.Begin(i, e), j.Begin(i, e + 1) - j.Begin(i, e);
    j.fanouts[e] != 0 && n > 0 ==> tries(i, b, n, e).Some?
  }

  ghost predicate SeedAnswers(j: Job, tries: (int, int, int, int) -> Option<seq<int>>, i: nat, cur: nat)
    requires j.Ready() && i < |j.seeds| && cur <= |j.dst|
  {
    forall e: nat :: e < cur ==> Answers(j, tries, i, e)
  }

  lemma AnswersSkipped(j: Job, tries: (int, int, int, int) -> Option<seq<int>>, i: nat, cur: nat, next: nat)
    requires j.Ready() && i < |j.seeds| && cur <= next <= |j.dst| && j.Begin(i, cur) == j.Begin(i, next)
    ensures SeedAnswers(j, tries, i, next) <==> SeedAnswers(j, tries, i, cur)
  {
    hide Job.Begin;
    forall e: nat | cur <= e < next ensures Answers(j, tries, i, e) {
      BeginOrder(j, i, cur, e);
      BeginOrder(j, i, e, e + 1);
      BeginOrder(j, i, e + 1, next);
    }
  }

  /** The neighbours at the end of those edges, numbered within their node type. */
  ghost function Neighbours(j: Job, edges: seq<int>, e: nat): (r: seq<int>)
    requires j.Valid() && e < |j.dst|
    ensures |r| == |edges|
    ensures forall k :: 0 <= k < |edges| && 0 <= edges[k] < |j.indices| ==>
      r[k] == j.indices[edges[k]] - if j.typeOffset.Some? then j.typeOffset.value[j.src[e]] else 0
  {
    seq(|edges|, k requires 0 <= k < |edges| =>
      if 0 <= edges[k] < |j.indices|
      then j.indices[edges[k]] - (if j.typeOffset.Some? then j.typeOffset.value[j.src[e]] else 0) else 0)
  }

  /** What a picked segment holds: edges of its type, out of the seed's column. */
  lemma PickedRight(j: Job, pick: (int, int, int, int) -> seq<int>, i: nat, e: nat)
    requires j.Ready() && Picker(j, pick) && i < |j.seeds| && e < |j.dst|
    ensures |Picked(j, pick, i, e)| == j.Width(i, e)
    ensures forall k :: 0 <= k < |Picked(j, pick, i, e)| ==>
      j.Lo(i) <= Picked(j, pick, i, e)[k] < j.Hi(i) && j.types[Picked(j, pick, i, e)[k]] == e
    ensures !j.replace || j.fanouts[e] == -1 ==> Distinct(Picked(j, pick, i, e))
  {
    hide Nonzero, LowerBound, Job.Begin;
    WidthIs(j, i, e);
    var b, n := j.Begin(i, e), j.Begin(i, e + 1) - j.Begin(i, e);
    assert PickOk(j, pick, i, b, n, e);
    var picks := Picked(j, pick, i, e);
    BeginIs(j, i, e);
    forall k | 0 <= k < |picks| ensures j.Lo(i) <= picks[k] < j.Hi(i) && j.types[picks[k]] == e {
      BoundExact(j.types, j.Lo(i), j.Hi(i), e, picks[k]);
    }
  }

  lemma BeginIs(j: Job, i: nat, e: nat)
    requires j.Ready() && i < |j.seeds|
    ensures j.Begin(i, e) == LowerBound(j.types, j.Lo(i), j.Hi(i), e)
    ensures j.Begin(i, e + 1) == LowerBound(j.types, j.Lo(i), j.Hi(i), e + 1)
  {
  }

  /** The contents of the segment of type e and seed i: picked edges, or their neighbours. */
  ghost function Content(j: Job, pick: (int, int, int, int) -> seq<int>, ends: bool, i: nat, e: nat): seq<int>
    requires j.Ready() && i < |j.seeds| && e < |j.dst|
  {
    if ends then Neighbours(j, Picked(j, pick, i, e), e) else Picked(j, pick, i, e)
  }

  /** The segments of all seeds before i, and of the types before cur of seed i, are filled. */
  ghost predicate FilledAt(j: Job, pick: (int, int, int, int) -> seq<int>, ends: bool, p: seq<int>, out: seq<int>,
                           i: int, cur: int)
    requires j.Ready() && Scanned(j, p)
  {
    && |out| == p[|p| - 1]
    && forall e: nat, s: nat :: e < |j.dst| && s < j.GroupSize(e) ==> SegmentRight(j, pick, ends, p, out, e, s, i, cur)
  }

  ghost predicate SegmentRight(j: Job, pick: (int, int, int, int) -> seq<int>, ends: bool, p: seq<int>, out: seq<int>,
                               e: nat, s: nat, i: int, cur: int)
    requires j.Ready() && Scanned(j, p) && e < |j.dst| && s < j.GroupSize(e)
  {
    SeedRange(j, e, s);
    var seed := j.Seed(e, s);
    assert RowWidth(j, p, e, s);
    (seed < i || (seed == i && e < cur)) ==>
      Holds(out, p[j.Off(e) + s], p[j.Off(e) + s + 1], Content(j, pick, ends, seed, e))
  }

  ghost predicate Holds(out: seq<int>, from: int, to: int, content: seq<int>) {
    0 <= from <= to <= |out| && out[from..to] == content
  }

  /** Writing one segment leaves the others alone. */
  lemma FillSegment(j: Job, pick: (int, int, int, int) -> seq<int>, ends: bool, p: seq<int>, out: seq<int>,
                    out': seq<int>, i: nat, e: nat)
    requires j.Ready() && Picker(j, pick) && Scanned(j, p) && i < |j.seeds| && e < |j.dst| && j.InGroup(e, i)
    requires FilledAt(j, pick, ends, p, out, i, e)
    requires var row := j.Off(e) + (i - j.seedOffsets[j.dst[e]]); var c := Content(j, pick, ends, i, e);
      row < |p| && 0 <= p[row] <= p[row] + |c| <= |out| && out' == out[..p[row]] + c + out[p[row] + |c|..]
    ensures FilledAt(j, pick, ends, p, out', i, e + 1)
  {
    hide Job.Width, Job.Off, Job.Begin, Content, Holds;
    var s := i - j.seedOffsets[j.dst[e]];
    var next := e + 1;
    assert RowWidth(j, p, e, s);
    ContentSize(j, pick, ends, i, e);
    forall f: nat, u: nat | f < |j.dst| && u < j.GroupSize(f)
      ensures SegmentRight(j, pick, ends, p, out', f, u, i, next)
    {
      assert SegmentRight(j, pick, ends, p, out, f, u, i, e);
      assert RowWidth(j, p, f, u);
      SeedRange(j, f, u);
      RowDistinct(j, e, s, f, u);
      RowDistinct(j, e, s, f, u + 1);
      RowDistinct(j, e, s + 1, f, u);
      OverlayHolds(out, p[j.Off(e) + s], Content(j, pick, ends, i, e), p[j.Off(f) + u], p[j.Off(f) + u + 1],
                   Content(j, pick, ends, j.Seed(f, u), f));
    }
  }

  lemma ContentSize(j: Job, pick: (int, int, int, int) -> seq<int>, ends: bool, i: nat, e: nat)
    requires j.Ready() && Picker(j, pick) && i < |j.seeds| && e < |j.dst|
    ensures |Content(j, pick, ends, i, e)| == j.Width(i, e) == |Picked(j, pick, i, e)|
  {
    PickedRight(j, pick, i, e);
  }

  lemma OverlayHolds(out: seq<int>, at: nat, c: seq<int>, from: int, to: int, d: seq<int>)
    requires at + |c| <= |out|
    ensures var out' := out[..at] + c + out[at + |c|..];
      && Holds(out', at, at + |c|, c)
      && (Holds(out, from, to, d) && (to <= at || at + |c| <= from) ==> Holds(out', from, to, d))
  {
    var out' := out[..at] + c + out[at + |c|..];
    assert 0 <= from <= to <= at ==> out'[from..to] == out[from..to];
    assert at + |c| <= from <= to <= |out| ==> out'[from..to] == out[from..to];
  }

  /** Types without edges have empty segments. */
  lemma SkipSegments(j: Job, pick: (int, int, int, int) -> seq<int>, ends: bool, p: seq<int>, out: seq<int>, i: nat,
                     cur: nat, next: nat)
    requires j.Ready() && Picker(j, pick) && Scanned(j, p) && i < |j.seeds| && cur <= next <= |j.dst|
    requires forall e: nat :: cur <= e < next && j.InGroup(e, i) ==> j.Width(i, e) == 0
    requires FilledAt(j, pick, ends, p, out, i, cur)
    ensures FilledAt(j, pick, ends, p, out, i, next)
  {
    hide Job.Width, Job.Off, Job.Begin, Content;
    forall f: nat, u: nat | f < |j.dst| && u < j.GroupSize(f)
      ensures SegmentRight(j, pick, ends, p, out, f, u, i, next)
    {
      assert SegmentRight(j, pick, ends, p, out, f, u, i, cur);
      assert RowWidth(j, p, f, u);
      SeedRange(j, f, u);
      ContentSize(j, pick, ends, j.Seed(f, u), f);
      RowDistinct(j, f, u + 1, f, u);
    }
  }

  lemma SegmentsDone(j: Job, pick: (int, int, int, int) -> seq<int>, ends: bool, p: seq<int>, out: seq<int>, i: nat)
    requires j.Ready() && Scanned(j, p) && FilledAt(j, pick, ends, p, out, i, |j.dst|)
    ensures FilledAt(j, pick, ends, p, out, i + 1, 0)
  {
    hide Job.Width, Job.Off, Job.Begin, Content, Scanned, Holds;
    var next := i + 1;
    forall f: nat, u: nat | f < |j.dst| && u < j.GroupSize(f)
      ensures SegmentRight(j, pick, ends, p, out, f, u, next, 0)
    {
      assert SegmentRight(j, pick, ends, p, out, f, u, i, |j.dst|);
    }
  }

  /** The row of seed i for type e has room for exactly what is picked: the source's
      check of the two counts cannot fail. */
  lemma SegmentBounds(j: Job, pick: (int, int, int, int) -> seq<int>, ends: bool, p: seq<int>, i: nat, e: nat)
    requires j.Ready() && Picker(j, pick) && Scanned(j, p) && i < |j.seeds| && e < |j.dst| && j.InGroup(e, i)
    ensures var row := j.Off(e) + (i - j.seedOffsets[j.dst[e]]);
      && 0 <= row < row + 1 < |p| && |p| > 0
      && 0 <= p[row] <= p[row] + |Content(j, pick, ends, i, e)| == p[row + 1] <= p[|p| - 1]
  {
    hide Job.Width, Job.Off, Job.Begin, Content;
    assert RowWidth(j, p, e, i - j.seedOffsets[j.dst[e]]);
    ContentSize(j, pick, ends, i, e);
    RowDistinct(j, e, 0, e, 0);
  }

  lemma ZeroFanout(j: Job, i: nat, e: nat)
    requires j.Ready() && i < |j.seeds| && e < |j.dst| && j.fanouts[e] == 0
    ensures j.Width(i, e) == 0
  {
  }

  /** One segment: nothing is picked for a fanout of 0. */
  method PickSegment(j: Job, tries: (int, int, int, int) -> Option<seq<int>>,
                     ghost pick: (int, int, int, int) -> seq<int>, i: nat, e: nat, begin: nat, n: nat, seedIndex: nat,
                     off: seq<int>, p: seq<int>, picked: array<int>) returns (ok: bool, count: nat)
    requires j.Ready() && Picker(j, pick) && Scanned(j, p) && i < |j.seeds| && OffTable(j, off) && e < |j.dst|
    requires j.InGroup(e, i) && Follows(tries, pick)
    requires seedIndex == i - j.seedOffsets[j.dst[e]] && begin == j.Begin(i, e) && begin + n == j.Begin(i, e + 1)
    requires FilledAt(j, pick, false, p, picked[..], i, e) && n > 0
    modifies picked
    ensures ok <==> Answers(j, tries, i, e)
    ensures ok ==> FilledAt(j, pick, false, p, picked[..], i, e + 1) && count == j.Width(i, e)
  {
    hide Job.Width, Job.Off, Job.Begin, FilledAt, Content, Scanned, Picker;
    if j.fanouts[e] == 0 {
      ZeroFanout(j, i, e);
      SkipSegments(j, pick, false, p, picked[..], i, e, e + 1);
      return true, 0;
    }
    SegmentBounds(j, pick, false, p, i, e);
    FilledSize(j, pick, false, p, picked[..], i, e);
    ContentIs(j, pick, i, e);
    var edges := tries(i, begin, n, e);
    if edges.None? { return false, 0; }
    ghost var before := picked[..];
    CopyInto(edges.value, picked, p[off[e] + seedIndex]);
    FillSegment(j, pick, false, p, before, picked[..], i, e);
    ok, count := true, |edges.value|;
  }

  /** `PickByEtype` with seed offsets; it fails if a pick does. */
  method PickByEtype(j: Job, tries: (int, int, int, int) -> Option<seq<int>>,
                     ghost pick: (int, int, int, int) -> seq<int>, i: nat, seedIndex: nat, off: seq<int>,
                     p: seq<int>, picked: array<int>)
    returns (ok: bool, total: nat)
    requires j.Ready() && Picker(j, pick) && Scanned(j, p) && i < |j.seeds| && OffTable(j, off)
    requires IndexInGroup(j, i, seedIndex) && Follows(tries, pick)
    requires FilledAt(j, pick, false, p, picked[..], i, 0)
    modifies picked
    ensures ok <==> SeedAnswers(j, tries, i, |j.dst|)
    ensures ok ==> FilledAt(j, pick, false, p, picked[..], i + 1, 0)
    ensures ok ==> forall e: nat :: e < |j.dst| && j.InGroup(e, i) ==> j.Width(i, e) <= total
  {
    hide Job.Width, Job.Off, Job.Begin, FilledAt, LowerBound, Job.InGroup, Content, Scanned, Picker, Answers, Follows;
    var begin, end := j.Lo(i), j.Hi(i);
    ghost var cur: nat := 0;
    ok, total := true, 0;
    FirstBegin(j, i);
    while begin < end
      invariant j.Lo(i) <= begin <= end && cur <= |j.dst| && begin == j.Begin(i, cur)
      invariant FilledAt(j, pick, false, p, picked[..], i, cur) && SeedAnswers(j, tries, i, cur)
      invariant forall e: nat :: e < cur && j.InGroup(e, i) ==> j.Width(i, e) <= total
      decreases end - begin
    {
      var etype := j.types[begin];
      NextType(j, i, cur, begin);
      var stop := LowerBound(j.types, j.Lo(i), end, etype + 1);
      WidthsSkipped(j, i, cur, etype);
      AnswersSkipped(j, tries, i, cur, etype);
      SkipSegments(j, pick, false, p, picked[..], i, cur, etype);
      WidthIs(j, i, etype);
      GroupIndex(j, i, etype, seedIndex);
      var count;
      ok, count := PickSegment(j, tries, pick, i, etype, begin, stop - begin, seedIndex, off, p, picked);
      if !ok { return; }
      total := total + count;
      cur := etype + 1;
      begin := stop;
    }
    LastBegin(j, i);
    WidthsSkipped(j, i, cur, |j.dst|);
    AnswersSkipped(j, tries, i, cur, |j.dst|);
    SkipSegments(j, pick, false, p, picked[..], i, cur, |j.dst|);
    SegmentsDone(j, pick, false, p, picked[..], i);
  }

  lemma WidthsSkipped(j: Job, i: nat, cur: nat, next: nat)
    requires j.Ready() && i < |j.seeds| && cur <= next <= |j.dst| && j.Begin(i, cur) == j.Begin(i, next)
    ensures forall e: nat :: cur <= e < next ==> j.Width(i, e) == 0
  {
    hide Job.Width, Job.Begin;
    forall e: nat | cur <= e < next ensures j.Width(i, e) == 0 {
      BeginOrder(j, i, cur, e);
      BeginOrder(j, i, e + 1, next);
      WidthFacts(j, i, e);
    }
  }

  lemma FilledSize(j: Job, pick: (int, int, int, int) -> seq<int>, ends: bool, p: seq<int>, out: seq<int>, i: int,
                   cur: int)
    requires j.Ready() && Scanned(j, p) && FilledAt(j, pick, ends, p, out, i, cur)
    ensures |out| == p[|p| - 1]
  {
  }

  lemma ContentIs(j: Job, pick: (int, int, int, int) -> seq<int>, i: nat, e: nat)
    requires j.Ready() && Picker(j, pick) && i < |j.seeds| && e < |j.dst|
    ensures Content(j, pick, false, i, e) == Picked(j, pick, i, e)
    ensures Picked(j, pick, i, e) == pick(i, j.Begin(i, e), j.Begin(i, e + 1) - j.Begin(i, e), e)
    ensures Content(j, pick, true, i, e) == Neighbours(j, Picked(j, pick, i, e), e)
    ensures |Picked(j, pick, i, e)| == j.Width(i, e)
  {
    PickedRight(j, pick, i, e);
  }

  /** The neighbours of one segment. */
  method FillEnds(j: Job, e: nat, picked: seq<int>, ends: array<int>, from: nat)
    requires j.Valid() && e < |j.dst| && from + |picked| <= ends.Length
    requires forall k :: 0 <= k < |picked| ==> 0 <= picked[k] < |j.indices|
    modifies ends
    ensures ends[..] == old(ends[..from]) + Neighbours(j, picked, e) + old(ends[from + |picked|..])
  {
    for k := 0 to |picked|
      invariant forall x :: 0 <= x < k ==> ends[from + x] == Neighbours(j, picked, e)[x]
      invariant forall x :: 0 <= x < from || from + k <= x < ends.Length ==> ends[x] == old(ends[x])
    {
      ends[from + k] := j.indices[picked[k]];
      if j.typeOffset.Some? { ends[from + k] := ends[from + k] - j.typeOffset.value[j.src[e]]; }
    }
  }

  /** The neighbours of the edges picked for one seed and type. */
  method FillSeedType(j: Job, ghost pick: (int, int, int, int) -> seq<int>, i: nat, e: nat, seedIndex: nat,
                      off: seq<int>, p: seq<int>, picked: array<int>, ends: array<int>)
    requires j.Ready() && Picker(j, pick) && Scanned(j, p) && i < |j.seeds| && OffTable(j, off) && picked != ends
    requires e < |j.dst| && j.InGroup(e, i) && seedIndex == i - j.seedOffsets[j.dst[e]]
    requires FilledAt(j, pick, false, p, picked[..], i + 1, 0) && FilledAt(j, pick, true, p, ends[..], i, e)
    modifies ends
    ensures FilledAt(j, pick, true, p, ends[..], i, e + 1)
  {
    hide Job.Width, Job.Off, Job.Begin, FilledAt, Content, Scanned, Picker, Neighbours;
    SegmentBounds(j, pick, true, p, i, e);
    SegmentBounds(j, pick, false, p, i, e);
    FilledSize(j, pick, true, p, ends[..], i, e);
    FilledSize(j, pick, false, p, picked[..], i + 1, 0);
    SegmentHolds(j, pick, p, picked[..], i, e);
    ContentIs(j, pick, i, e);
    PickedInside(j, pick, i, e);
    var from, to := p[off[e] + seedIndex], p[off[e] + seedIndex + 1];
    ghost var before := ends[..];
    FillEnds(j, e, picked[from..to], ends, from);
    FillSegment(j, pick, true, p, before, ends[..], i, e);
  }

  /** Step 5: for the edge types into the seed's node type, the neighbours picked for the seed. */
  method FillNeighbours(j: Job, ghost pick: (int, int, int, int) -> seq<int>, i: nat, t: nat, seedIndex: nat,
                        off: seq<int>, p: seq<int>, picked: array<int>, ends: array<int>)
    requires j.Ready() && Picker(j, pick) && Scanned(j, p) && i < |j.seeds| && OffTable(j, off) && picked != ends
    requires t < |j.seedOffsets| - 1 && j.seedOffsets[t] <= i < j.seedOffsets[t + 1]
    requires seedIndex == i - j.seedOffsets[t]
    requires FilledAt(j, pick, false, p, picked[..], i + 1, 0) && FilledAt(j, pick, true, p, ends[..], i, 0)
    modifies ends
    ensures FilledAt(j, pick, true, p, ends[..], i + 1, 0)
  {
    hide Job.Width, Job.Off, Job.Begin, FilledAt, Content, Scanned, Picker;
    for e := 0 to |j.dst|
      invariant FilledAt(j, pick, true, p, ends[..], i, e)
    {
      if j.dst[e] != t {
        OtherGroup(j, i, t, e);
        SkipSegments(j, pick, true, p, ends[..], i, e, e + 1);
      } else {
        FillSeedType(j, pick, i, e, seedIndex, off, p, picked, ends);
      }
    }
    SegmentsDone(j, pick, true, p, ends[..], i);
  }

  lemma OtherGroup(j: Job, i: nat, t: nat, e: nat)
    requires j.Valid() && e < |j.dst| && t < |j.seedOffsets| - 1 && j.seedOffsets[t] <= i < j.seedOffsets[t + 1]
    ensures j.dst[e] != t <==> !j.InGroup(e, i)
  {
    GroupOrder(j, j.dst[e], t);
    GroupOrder(j, t, j.dst[e]);
  }

  lemma SegmentHolds(j: Job, pick: (int, int, int, int) -> seq<int>, p: seq<int>, out: seq<int>, i: nat, e: nat)
    requires j.Ready() && Scanned(j, p) && i < |j.seeds| && e < |j.dst| && j.InGroup(e, i)
    requires FilledAt(j, pick, false, p, out, i + 1, 0)
    ensures var row := j.Off(e) + (i - j.seedOffsets[j.dst[e]]);
      0 <= row < row + 1 < |p| && Holds(out, p[row], p[row + 1], Content(j, pick, false, i, e))
  {
    hide Job.Width, Job.Off, Job.Begin, Content;
    var s := i - j.seedOffsets[j.dst[e]];
    assert SegmentRight(j, pick, false, p, out, e, s, i + 1, 0);
    assert RowWidth(j, p, e, s);
  }

  lemma PickedInside(j: Job, pick: (int, int, int, int) -> seq<int>, i: nat, e: nat)
    requires j.Ready() && Picker(j, pick) && i < |j.seeds| && e < |j.dst|
    ensures forall k :: 0 <= k < |Picked(j, pick, i, e)| ==> 0 <= Picked(j, pick, i, e)[k] < |j.indices|
  {
    hide Job.Begin;
    PickedRight(j, pick, i, e);
  }

  // ------------------------------------------------------------------
  // The whole

  /** The sampled subgraph: rows of all types one after the other, starting again at 0
      for every type; the picked edges and their ends; and where each type begins. */
  datatype Subgraph = Subgraph(indptr: seq<int>, edges: seq<int>, ends: seq<int>, edgeOffsets: seq<int>)

  /** Each type's block is an index pointer of its own, from 0 to the number of its edges. */
  ghost predicate BlockOk(j: Job, g: Subgraph, e: nat)
    requires j.Valid() && e < |j.dst| && |g.edgeOffsets| == |j.dst| + 1
  {
    && j.Off(e) + j.GroupSize(e) < |g.indptr|
    && g.indptr[j.Off(e)] == 0 && g.indptr[j.Off(e) + j.GroupSize(e)] == g.edgeOffsets[e + 1] - g.edgeOffsets[e]
    && forall a, b :: j.Off(e) <= a <= b <= j.Off(e) + j.GroupSize(e) ==> g.indptr[a] <= g.indptr[b]
  }

  /** The edges between two neighbouring row pointers are those picked for the type and
      the seed: edges of the type, from the seed's column, with their ends beside them. */
  ghost predicate RowOk(j: Job, pick: (int, int, int, int) -> seq<int>, g: Subgraph, e: nat, s: nat)
    requires j.Ready() && e < |j.dst| && s < j.GroupSize(e) && |g.edgeOffsets| == |j.dst| + 1
  {
    SeedRange(j, e, s);
    var seed := j.Seed(e, s);
    j.Off(e) + s + 1 < |g.indptr| &&
    var from, to := g.edgeOffsets[e] + g.indptr[j.Off(e) + s], g.edgeOffsets[e] + g.indptr[j.Off(e) + s + 1];
    && Holds(g.edges, from, to, Picked(j, pick, seed, e))
    && Holds(g.ends, from, to, Neighbours(j, Picked(j, pick, seed, e), e))
    && to - from == j.Width(seed, e)
    && forall k :: from <= k < to ==> j.Lo(seed) <= g.edges[k] < j.Hi(seed) && j.types[g.edges[k]] == e
  }

  ghost predicate SubgraphOk(j: Job, pick: (int, int, int, int) -> seq<int>, g: Subgraph)
    requires j.Ready()
  {
    && |g.indptr| == j.Off(|j.dst|) && |g.edgeOffsets| == |j.dst| + 1
    && g.edgeOffsets[0] == 0 && g.edgeOffsets[|j.dst|] == |g.edges| == |g.ends|
    && (forall e: nat :: e < |j.dst| ==> g.edgeOffsets[e] <= g.edgeOffsets[e + 1] && BlockOk(j, g, e))
    && (forall e: nat, s: nat :: e < |j.dst| && s < j.GroupSize(e) ==> RowOk(j, pick, g, e, s))
  }

  /** The edges of type e that may be picked for the seed at place x. */
  ghost function Choices(j: Job, x: nat, e: nat): set<int>
    requires j.Valid() && j.SeedsOk() && x < |j.seeds|
  {
    set k: int | j.indptr[j.seeds[x]] <= k < j.indptr[j.seeds[x] + 1] && j.types[k] == e
      && (j.probs.Some? ==> j.probs.value[k] != 0.0)
  }

  /** A row said of the graph alone: as many edges as asked for, out of those that may be
      picked for its seed and type, each with its end, and none twice without replacement. */
  ghost predicate RowOfSeed(j: Job, g: Subgraph, e: nat, s: nat)
    requires j.Valid() && j.SeedsOk() && e < |j.dst| && |g.edgeOffsets| == |j.dst| + 1
    requires s < j.seedOffsets[j.dst[e] + 1] - j.seedOffsets[j.dst[e]]
  {
    j.Off(e) + s + 1 < |g.indptr| &&
    var from, to := g.edgeOffsets[e] + g.indptr[j.Off(e) + s], g.edgeOffsets[e] + g.indptr[j.Off(e) + s + 1];
    0 <= from <= to <= |g.edges| == |g.ends| && RowHolds(j, g, e, j.seedOffsets[j.dst[e]] + s, from, to)
  }

  ghost predicate RowHolds(j: Job, g: Subgraph, e: nat, x: nat, from: nat, to: nat)
    requires j.Valid() && j.SeedsOk() && e < |j.dst| && from <= to <= |g.edges| == |g.ends|
  {
    x < |j.seeds| &&
    var row, choices := g.edges[from..to], Choices(j, x, e);
    && |row| == PickCount(j.fanouts[e], j.replace, |choices|)
    && (!j.replace || j.fanouts[e] == -1 ==> Distinct(row))
    && (forall k :: from <= k < to ==> g.edges[k] in choices)
    && (forall k :: from <= k < to ==> 0 <= g.edges[k] < |j.indices|)
    && (forall k :: from <= k < to ==>
      g.ends[k] == j.indices[g.edges[k]] - if j.typeOffset.Some? then j.typeOffset.value[j.src[e]] else 0)
    && (j.fanouts[e] == -1 ==> forall edge :: edge in choices ==> edge in row)
  }

  ghost predicate RowsOk(j: Job, g: Subgraph)
    requires j.Valid() && j.SeedsOk()
  {
    |g.edgeOffsets| == |j.dst| + 1 &&
    forall e: nat, s: nat :: e < |j.dst| && s < j.seedOffsets[j.dst[e] + 1] - j.seedOffsets[j.dst[e]] ==>
      RowOfSeed(j, g, e, s)
  }

  /** The weight of an edge in its column. */
  lemma WeightAt(j: Job, b: nat, n: nat, k: nat)
    requires j.Valid() && b + n <= |j.indices| && b <= k < b + n
    ensures Local(j.probs, b, n)[k - b] == if j.probs.Some? then j.probs.value[k] else 1.0
  {
  }

  /** The segment between the bounds holds exactly the edges that may be picked. */
  lemma ChoicesAt(j: Job, x: nat, e: nat, k: int)
    requires j.Ready() && x < |j.seeds| && e < |j.dst|
    ensures var b, n := j.Begin(x, e), j.Begin(x, e + 1) - j.Begin(x, e);
      && n >= 0 && b + n <= |j.indices|
      && (k in Choices(j, x, e) <==> b <= k < b + n && Local(j.probs, b, n)[k - b] != 0.0)
  {
    hide LowerBound, Job.Begin;
    WidthIs(j, x, e);
    BeginIs(j, x, e);
    if j.Lo(x) <= k < j.Hi(x) { BoundExact(j.types, j.Lo(x), j.Hi(x), e, k); }
    var b, n := j.Begin(x, e), j.Begin(x, e + 1) - j.Begin(x, e);
    if b <= k < b + n { WeightAt(j, b, n, k); }
  }

  lemma ChoicePlace(j: Job, x: nat, e: nat, k: int)
    requires j.Ready() && x < |j.seeds| && e < |j.dst|
    ensures var b, n := j.Begin(x, e), j.Begin(x, e + 1) - j.Begin(x, e);
      && n >= 0 && HasColumn(j.probs, b, n)
      && (k in Choices(j, x, e) <==> k in Elements(Moved(Nonzero(Local(j.probs, b, n)), b)))
  {
    hide LowerBound, Job.Begin, Job.Width, Nonzero, Choices, Local, Elements, Moved;
    WidthIs(j, x, e);
    var b, n := j.Begin(x, e), j.Begin(x, e + 1) - j.Begin(x, e);
    ChoicesAt(j, x, e, k);
    NonzeroOrdered(Local(j.probs, b, n));
    MovedMember(Nonzero(Local(j.probs, b, n)), b, k);
  }

  lemma MovedSize(w: seq<real>, offset: int)
    ensures |Elements(Moved(Nonzero(w), offset))| == |Nonzero(w)|
  {
    hide Nonzero, Elements;
    NonzeroOrdered(w);
    DistinctSize(Moved(Nonzero(w), offset));
  }

  lemma ChoicesCounted(j: Job, x: nat, e: nat)
    requires j.Ready() && x < |j.seeds| && e < |j.dst|
    ensures j.Width(x, e) == PickCount(j.fanouts[e], j.replace, |Choices(j, x, e)|)
  {
    hide LowerBound, Job.Begin, Job.Width, Nonzero, Choices, Local, Elements, Moved;
    WidthIs(j, x, e);
    var b, n := j.Begin(x, e), j.Begin(x, e + 1) - j.Begin(x, e);
    MovedSize(Local(j.probs, b, n), b);
    forall k ensures k in Choices(j, x, e) <==> k in Elements(Moved(Nonzero(Local(j.probs, b, n)), b)) {
      ChoicePlace(j, x, e, k);
    }
    assert Choices(j, x, e) == Elements(Moved(Nonzero(Local(j.probs, b, n)), b));
  }

  lemma MovedMember(s: seq<int>, offset: int, x: int)
    ensures x in Moved(s, offset) <==> x - offset in s
  {
    var m := Moved(s, offset);
    if x - offset in s {
      var k :| 0 <= k < |s| && s[k] == x - offset;
      assert m[k] == x;
    }
  }

  lemma RowsOfSeeds(j: Job, pick: (int, int, int, int) -> seq<int>, g: Subgraph, e: nat, s: nat)
    requires j.Ready() && Picker(j, pick) && e < |j.dst| && s < j.GroupSize(e) && |g.edgeOffsets| == |j.dst| + 1
    requires RowOk(j, pick, g, e, s) && |g.edges| == |g.ends|
    ensures RowOfSeed(j, g, e, s)
  {
    hide Job.Width, Job.Begin, Job.Off, Picked, Neighbours, Choices;
    SeedRange(j, e, s);
    var x := j.Seed(e, s);
    var from, to := g.edgeOffsets[e] + g.indptr[j.Off(e) + s], g.edgeOffsets[e] + g.indptr[j.Off(e) + s + 1];
    RowHeld(j, pick, g, e, x, from, to);
  }

  lemma RowHeld(j: Job, pick: (int, int, int, int) -> seq<int>, g: Subgraph, e: nat, x: nat, from: nat, to: nat)
    requires j.Ready() && Picker(j, pick) && x < |j.seeds| && e < |j.dst| && |g.edges| == |g.ends|
    requires Holds(g.edges, from, to, Picked(j, pick, x, e))
    requires Holds(g.ends, from, to, Neighbours(j, Picked(j, pick, x, e), e))
    ensures RowHolds(j, g, e, x, from, to)
  {
    hide Job.Width, Job.Begin, Picked, Choices, Nonzero, Local;
    var picks := Picked(j, pick, x, e);
    PickedRight(j, pick, x, e);
    ChoicesCounted(j, x, e);
    PickedChoices(j, pick, x, e);
    forall k | from <= k < to
      ensures g.edges[k] == picks[k - from] && g.ends[k] == Neighbours(j, picks, e)[k - from]
    {
      assert g.edges[k] == g.edges[from..to][k - from];
      assert g.ends[k] == g.ends[from..to][k - from];
    }
  }

  lemma PickedChoices(j: Job, pick: (int, int, int, int) -> seq<int>, x: nat, e: nat)
    requires j.Ready() && Picker(j, pick) && x < |j.seeds| && e < |j.dst|
    ensures forall k :: 0 <= k < |Picked(j, pick, x, e)| ==> Picked(j, pick, x, e)[k] in Choices(j, x, e)
    ensures j.fanouts[e] == -1 ==> forall edge :: edge in Choices(j, x, e) ==> edge in Picked(j, pick, x, e)
  {
    hide LowerBound, Job.Begin, Job.Width, Choices, Nonzero, Local;
    WidthIs(j, x, e);
    var b, n := j.Begin(x, e), j.Begin(x, e + 1) - j.Begin(x, e);
    assert PickOk(j, pick, x, b, n, e);
    var picks := Picked(j, pick, x, e);
    forall k | 0 <= k < |picks| ensures picks[k] in Choices(j, x, e) { ChoicesAt(j, x, e, picks[k]); }
    if j.fanouts[e] == -1 {
      forall edge | edge in Choices(j, x, e) ensures edge in picks {
        ChoicesAt(j, x, e, edge);
        AllPicked(picks, -1, j.replace, Local(j.probs, b, n), b, edge);
      }
    }
  }

  /** The rows after the start of each block is subtracted. */
  ghost predicate Subtracted(j: Job, p: seq<int>, q: seq<int>)
    requires j.Valid()
  {
    && |q| == |p| == j.Off(|j.dst|)
    && forall e: nat, s: nat :: e < |j.dst| && s <= j.GroupSize(e) ==> RowSubtracted(j, p, q, e, s)
  }

  ghost predicate RowSubtracted(j: Job, p: seq<int>, q: seq<int>, e: nat, s: nat)
    requires j.Valid() && e < |j.dst| && s <= j.GroupSize(e)
  {
    j.Off(e) + s < |p| == |q| && q[j.Off(e) + s] == p[j.Off(e) + s] - p[j.Off(e)]
  }

  ghost predicate Ends(j: Job, p: seq<int>, offsets: seq<int>)
    requires j.Valid()
  {
    |offsets| == |j.dst| + 1 && offsets[0] == 0 && forall e: nat :: e < |j.dst| ==> EndAt(j, p, offsets, e)
  }

  ghost predicate EndAt(j: Job, p: seq<int>, offsets: seq<int>, e: nat)
    requires j.Valid() && e < |j.dst| && |offsets| == |j.dst| + 1
  {
    j.Off(e) + j.GroupSize(e) < |p| && offsets[e + 1] == p[j.Off(e) + j.GroupSize(e)]
  }

  /** Blocks follow each other without a gap: each starts at its edge offset. */
  lemma BlockAtOffset(j: Job, p: seq<int>, offsets: seq<int>, e: nat)
    requires j.Ready() && Scanned(j, p) && Ends(j, p, offsets) && e < |j.dst|
    ensures j.Off(e) < |p| && p[j.Off(e)] == offsets[e]
  {
    hide Job.Width, Job.Begin;
    assert BlockStart(j, p, e);
    if e > 0 {
      assert EndAt(j, p, offsets, e - 1);
      assert j.Off(e) == j.Off(e - 1) + j.GroupSize(e - 1) + 1;
    }
  }

  lemma BlockIsOk(j: Job, p: seq<int>, g: Subgraph, e: nat)
    requires j.Ready() && Scanned(j, p) && Ends(j, p, g.edgeOffsets) && Subtracted(j, p, g.indptr) && e < |j.dst|
    ensures BlockOk(j, g, e) && g.edgeOffsets[e] <= g.edgeOffsets[e + 1]
  {
    hide Job.Width, Job.Begin, Job.Off, Job.GroupSize;
    BlockAtOffset(j, p, g.edgeOffsets, e);
    assert EndAt(j, p, g.edgeOffsets, e);
    assert RowSubtracted(j, p, g.indptr, e, 0);
    assert RowSubtracted(j, p, g.indptr, e, j.GroupSize(e));
    forall a, b | j.Off(e) <= a <= b <= j.Off(e) + j.GroupSize(e) ensures g.indptr[a] <= g.indptr[b] {
      assert RowSubtracted(j, p, g.indptr, e, a - j.Off(e));
      assert RowSubtracted(j, p, g.indptr, e, b - j.Off(e));
    }
  }

  lemma RowIsOk(j: Job, pick: (int, int, int, int) -> seq<int>, p: seq<int>, g: Subgraph, e: nat, s: nat)
    requires j.Ready() && Picker(j, pick) && Scanned(j, p) && Ends(j, p, g.edgeOffsets) && Subtracted(j, p, g.indptr)
    requires e < |j.dst| && s < j.GroupSize(e)
    requires FilledAt(j, pick, false, p, g.edges, |j.seeds|, 0) && FilledAt(j, pick, true, p, g.ends, |j.seeds|, 0)
    ensures RowOk(j, pick, g, e, s)
  {
    hide Job.Width, Job.Begin, Job.Off, Picked, Neighbours;
    SeedRange(j, e, s);
    var seed := j.Seed(e, s);
    BlockAtOffset(j, p, g.edgeOffsets, e);
    assert RowWidth(j, p, e, s);
    assert RowSubtracted(j, p, g.indptr, e, s);
    assert RowSubtracted(j, p, g.indptr, e, s + 1);
    assert SegmentRight(j, pick, false, p, g.edges, e, s, |j.seeds|, 0);
    assert SegmentRight(j, pick, true, p, g.ends, e, s, |j.seeds|, 0);
    PickedRight(j, pick, seed, e);
    var from, to := p[j.Off(e) + s], p[j.Off(e) + s + 1];
    forall k | from <= k < to ensures j.Lo(seed) <= g.edges[k] < j.Hi(seed) && j.types[g.edges[k]] == e {
      assert g.edges[k] == g.edges[from..to][k - from];
    }
  }

  lemma OffFirst(j: Job)
    requires j.Valid()
    ensures j.Off(0) == 0
  {
  }

  lemma OffNext(j: Job, e: nat)
    requires j.Valid() && e < |j.dst|
    ensures j.Off(e + 1) == j.Off(e) + (j.seedOffsets[j.dst[e] + 1] - j.seedOffsets[j.dst[e]] + 1)
    ensures j.Off(e + 1) == j.Off(e) + j.GroupSize(e) + 1
  {
  }

  /** The offsets of the blocks (`partial_sum`). */
  method BlockOffsets(j: Job) returns (off: seq<int>)
    requires j.Valid()
    ensures OffTable(j, off)
  {
    hide Job.Off;
    off := [0];
    OffFirst(j);
    for e := 0 to |j.dst|
      invariant |off| == e + 1 && forall f :: 0 <= f <= e ==> off[f] == j.Off(f)
    {
      OffNext(j, e);
      off := off + [off[e] + (j.seedOffsets[j.dst[e] + 1] - j.seedOffsets[j.dst[e]] + 1)];
    }
  }

  method EdgeOffsets(j: Job, off: seq<int>, p: seq<int>) returns (offsets: seq<int>)
    requires j.Ready() && OffTable(j, off) && Scanned(j, p)
    ensures Ends(j, p, offsets)
  {
    hide Job.Width, Job.Begin, Job.GroupSize, Job.Off, Scanned;
    ScannedSize(j, p);
    offsets := seq(|j.dst| + 1, _ => 0);
    for e := 0 to |j.dst|
      invariant EndsTo(j, p, offsets, e)
    {
      RowDistinct(j, e, j.GroupSize(e), e, 0);
      OffNext(j, e);
      EndsStep(j, p, offsets, e);
      offsets := offsets[e + 1 := p[off[e + 1] - 1]];
    }
  }

  ghost predicate EndsTo(j: Job, p: seq<int>, offsets: seq<int>, m: nat)
    requires j.Valid() && m <= |j.dst|
  {
    |offsets| == |j.dst| + 1 && offsets[0] == 0 && forall e: nat :: e < m ==> EndAt(j, p, offsets, e)
  }

  lemma EndsStep(j: Job, p: seq<int>, offsets: seq<int>, e: nat)
    requires j.Valid() && e < |j.dst| && EndsTo(j, p, offsets, e) && j.Off(e) + j.GroupSize(e) < |p|
    ensures EndsTo(j, p, offsets[e + 1 := p[j.Off(e) + j.GroupSize(e)]], e + 1)
  {
    hide Job.Off, Job.GroupSize;
    var after := offsets[e + 1 := p[j.Off(e) + j.GroupSize(e)]];
    var next := e + 1;
    forall f: nat | f < next ensures EndAt(j, p, after, f) {
      assert f < e ==> EndAt(j, p, offsets, f);
    }
  }

  lemma ScannedSize(j: Job, p: seq<int>)
    requires j.Ready() && Scanned(j, p)
    ensures |p| == j.Off(|j.dst|) && |p| > 0 && p[|p| - 1] >= 0
  {
  }

  /** The index pointer minus the expanded block starts (`ExpandIndptr`, then `-=`). */
  method Subtract(j: Job, off: seq<int>, p: seq<int>) returns (q: seq<int>)
    requires j.Ready() && OffTable(j, off) && Scanned(j, p)
    ensures Subtracted(j, p, q)
  {
    hide Job.Width, Job.Begin, Job.GroupSize, Scanned;
    ScannedSize(j, p);
    q := [];
    for e := 0 to |j.dst|
      invariant |q| == off[e] <= |p|
      invariant forall f: nat, s: nat :: f < e && s <= j.GroupSize(f) ==> RowSubtracted(j, p, q + p[|q|..], f, s)
    {
      OffOrder(j, e, e + 1);
      RowDistinct(j, e, j.GroupSize(e), e, 0);
      assert off[e + 1] == off[e] + j.GroupSize(e) + 1;
      ghost var before := q;
      var start := p[off[e]];
      for r := off[e] to off[e + 1]
        invariant |q| == r && q[..off[e]] == before && forall x :: off[e] <= x < r ==> q[x] == p[x] - start
      {
        q := q + [p[r] - start];
      }
      SubtractedMore(j, p, before, q, e);
    }
    assert q + p[|q|..] == q;
  }

  lemma SubtractedMore(j: Job, p: seq<int>, before: seq<int>, q: seq<int>, e: nat)
    requires j.Ready() && e < |j.dst| && |before| == j.Off(e) && |q| == j.Off(e + 1) <= |p|
    requires |q| == j.Off(e) + j.GroupSize(e) + 1
    requires q[..|before|] == before && forall x :: |before| <= x < |q| ==> q[x] == p[x] - p[|before|]
    requires forall f: nat, s: nat :: f < e && s <= j.GroupSize(f) ==> RowSubtracted(j, p, before + p[|before|..], f, s)
    ensures forall f: nat, s: nat :: f < e + 1 && s <= j.GroupSize(f) ==> RowSubtracted(j, p, q + p[|q|..], f, s)
  {
    hide Job.Width, Job.Begin, Job.GroupSize, Job.Off;
    forall f: nat, s: nat | f < e + 1 && s <= j.GroupSize(f) ensures RowSubtracted(j, p, q + p[|q|..], f, s) {
      if f < e {
        assert RowSubtracted(j, p, before + p[|before|..], f, s);
        OffOrder(j, f, e);
        assert q[j.Off(f) + s] == before[j.Off(f) + s];
      }
    }
  }

  lemma NothingFilled(j: Job, pick: (int, int, int, int) -> seq<int>, ends: bool, p: seq<int>, out: seq<int>)
    requires j.Ready() && Scanned(j, p) && |out| == p[|p| - 1]
    ensures FilledAt(j, pick, ends, p, out, 0, 0)
  {
    hide Job.Width, Job.Begin, Job.Off, Content;
    forall e: nat, s: nat | e < |j.dst| && s < j.GroupSize(e) ensures SegmentRight(j, pick, ends, p, out, e, s, 0, 0) {
      SeedRange(j, e, s);
      assert RowWidth(j, p, e, s);
    }
  }

  /** Step 1 for all seeds. */
  method CountAll(j: Job, off: seq<int>) returns (p: seq<int>)
    requires j.Ready() && OffTable(j, off)
    ensures Scanned(j, p)
  {
    hide Job.Width, Job.Begin, CountsAt, Job.Off;
    var counts := new int[off[|j.dst|]](_ => 0);
    NothingCounted(j, counts[..]);
    for i := 0 to |j.seeds|
      invariant CountsAt(j, counts[..], i, 0)
    {
      var t := GroupOf(j, i);
      NumPickByEtype(j, i, i - j.seedOffsets[t], off, counts);
    }
    p := CumSum(counts);
    CountsScanned(j, counts[..], p);
  }

  /** `SampleNeighborsImpl` with seed offsets and several edge types; refused if a seed
      is not a node. It fails exactly if one of the picks it asks for fails. */
  method SampleNeighbors(j: Job, tries: (int, int, int, int) -> Option<seq<int>>)
    returns (r: Option<Subgraph>, ghost pick: (int, int, int, int) -> seq<int>)
    requires j.Valid() && (j.SeedsOk() ==> j.Typed()) && MayPick(j, tries)
    ensures r.Some? <==>
      && (forall i :: 0 <= i < |j.seeds| ==> 0 <= j.seeds[i] < |j.indptr| - 1)
      && forall i: nat :: i < |j.seeds| ==> SeedAnswers(j, tries, i, |j.dst|)
    ensures r.Some? ==> Picker(j, pick) && Follows(tries, pick) && SubgraphOk(j, pick, r.value)
    ensures r.Some? ==> RowsOk(j, r.value)
  {
    hide RowsOk;
    hide Job.Width, Job.Begin, CountsAt, Job.Off, Scanned, FilledAt, Picker, Job.Typed, Subtracted, Ends;
    hide SubgraphOk, Job.GroupSize, SeedAnswers, MayPick, Follows;
    pick := PickerFollows(j, tries);
    if !j.SeedsOk() { return None, pick; }
    var off := BlockOffsets(j);
    var p := CountAll(j, off);
    var edgeOffsets := EdgeOffsets(j, off, p);
    ScannedSize(j, p);
    var total := p[|p| - 1];
    var picked, ends := new int[total], new int[total];
    NothingFilled(j, pick, false, p, picked[..]);
    NothingFilled(j, pick, true, p, ends[..]);
    for i := 0 to |j.seeds|
      invariant FilledAt(j, pick, false, p, picked[..], i, 0) && FilledAt(j, pick, true, p, ends[..], i, 0)
      invariant forall k: nat :: k < i ==> SeedAnswers(j, tries, k, |j.dst|)
    {
      var t := GroupOf(j, i);
      var ok, number := PickByEtype(j, tries, pick, i, i - j.seedOffsets[t], off, p, picked);
      if !ok { return None, pick; }
      if number > 0 {
        FillNeighbours(j, pick, i, t, i - j.seedOffsets[t], off, p, picked, ends);
      } else {
        NoWidths(j, i, number);
        SkipSegments(j, pick, true, p, ends[..], i, 0, |j.dst|);
        SegmentsDone(j, pick, true, p, ends[..], i);
      }
    }
    var indptr := Subtract(j, off, p);
    var g := Subgraph(indptr, picked[..], ends[..], edgeOffsets);
    SampledOk(j, pick, p, g);
    SampledRows(j, pick, g);
    r := Some(g);
  }

  lemma NoWidths(j: Job, i: nat, total: nat)
    requires j.Ready() && i < |j.seeds| && total == 0
    requires forall e: nat :: e < |j.dst| && j.InGroup(e, i) ==> j.Width(i, e) <= total
    ensures forall e: nat :: e < |j.dst| && j.InGroup(e, i) ==> j.Width(i, e) == 0
  {
    hide Job.Width, Job.Begin;
    forall e: nat | e < |j.dst| && j.InGroup(e, i) ensures j.Width(i, e) == 0 { WidthFacts(j, i, e); }
  }

  lemma SampledOk(j: Job, pick: (int, int, int, int) -> seq<int>, p: seq<int>, g: Subgraph)
    requires j.Ready() && Picker(j, pick) && Scanned(j, p) && Ends(j, p, g.edgeOffsets) && Subtracted(j, p, g.indptr)
    requires FilledAt(j, pick, false, p, g.edges, |j.seeds|, 0) && FilledAt(j, pick, true, p, g.ends, |j.seeds|, 0)
    ensures SubgraphOk(j, pick, g)
  {
    hide Job.Width, Job.Begin, Job.Off, Scanned, RowOk, BlockOk, Picker;
    FilledSize(j, pick, false, p, g.edges, |j.seeds|, 0);
    FilledSize(j, pick, true, p, g.ends, |j.seeds|, 0);
    ScannedSize(j, p);
    forall e: nat | e < |j.dst|
      ensures g.edgeOffsets[e] <= g.edgeOffsets[e + 1] && BlockOk(j, g, e)
    {
      BlockIsOk(j, p, g, e);
    }
    forall e: nat, s: nat | e < |j.dst| && s < j.GroupSize(e)
      ensures RowOk(j, pick, g, e, s)
    {
      RowIsOk(j, pick, p, g, e, s);
    }
    LastEnd(j, p, g.edgeOffsets);
  }

  lemma SampledRows(j: Job, pick: (int, int, int, int) -> seq<int>, g: Subgraph)
    requires j.Ready() && Picker(j, pick) && SubgraphOk(j, pick, g)
    ensures RowsOk(j, g)
  {
    hide Job.Width, Job.Begin, Job.Off, RowOk, BlockOk, Picker, RowOfSeed;
    forall e: nat, s: nat | e < |j.dst| && s < j.seedOffsets[j.dst[e] + 1] - j.seedOffsets[j.dst[e]]
      ensures RowOfSeed(j, g, e, s)
    {
      assert RowOk(j, pick, g, e, s);
      RowsOfSeeds(j, pick, g, e, s);
    }
  }

  lemma LastEnd(j: Job, p: seq<int>, offsets: seq<int>)
    requires j.Ready() && Scanned(j, p) && Ends(j, p, offsets)
    ensures |p| > 0 && offsets[|j.dst|] == p[|p| - 1]
  {
    hide Job.Width, Job.Begin;
    var last := |j.dst| - 1;
    assert EndAt(j, p, offsets, last);
    assert j.Off(last + 1) == j.Off(last) + j.GroupSize(last) + 1;
  }
}
