/** Merging the answers that the partitions give for their slices into one answer
    for the whole batch.

    Source: graphbolt/src/partitioned_cache_policy.cc. */
module Merging {
  import opened Collections
  import opened Partitioning
  import opened CacheEviction
  import opened Policies
  import opened CacheBatch

  /** The four tensors a partition returns; the first `found` indices are hits. */
  datatype LocalAnswer<P(0)> = LocalAnswer(found: nat, indices: seq<int>, positions: seq<int>, pointers: seq<P>,
                                           missing: seq<int>)

  /** The contract of a partition of the given capacity on its slice of the keys.
      `full` says that positions and pointers cover the missing keys too. */
  ghost predicate LocalOk<P(0)>(slice: seq<int>, capacity: int, full: bool, a: LocalAnswer<P>) {
    && a.found <= |slice| == |a.indices| && |a.missing| == |slice| - a.found
    && (forall i :: 0 <= i < |slice| ==> 0 <= a.indices[i] < |slice|)
    && (forall l :: 0 <= l < |slice| ==> l in a.indices)
    && (forall j :: 0 <= j < |a.missing| ==> a.missing[j] == slice[a.indices[a.found + j]])
    && |a.positions| == |a.pointers| == (if full then |slice| else a.found)
    && (forall i :: 0 <= i < a.found ==> 0 <= a.positions[i] < capacity)
    && (forall i :: a.found <= i < |a.positions| ==> 0 <= a.positions[i] < capacity || a.positions[i] == UNSET_POS)
  }

  /** What `QueryAndReplaceImpl` returns meets the contract. */
  lemma BatchIsLocal(keys: seq<int>, a: Answer, before: Store, beforeIndex: map<int, Ptr>, nodes: Store,
                     index: map<int, Ptr>, usage: int, capacity: int)
    requires BatchOk(keys, |keys|, a, before, beforeIndex, nodes, index) && Slotted(nodes, usage, capacity)
    ensures LocalOk(keys, capacity, true,
                    LocalAnswer(|a.found|, a.found + a.missingAt, a.foundPos + a.missPos,
                                Pointers(a.foundPtr) + a.missPtr, a.missing))
  {
    hide Split, WritersKnown, Pinned, NullsExplained, PointersDistinct, WrittenBefore;
    SplitRange(a.found, a.missingAt, |keys|);
    SplitPermutation(a.found, a.missingAt, |keys|);
    PositionsDistinct(keys, |keys|, a, before, beforeIndex, nodes, index, usage, capacity);
  }

  /** What `QueryImpl` returns meets the contract. */
  lemma QueryIsLocal(keys: seq<int>, nodes: Store, index: map<int, Ptr>, positions: seq<int>, found: seq<int>,
                     missingAt: seq<int>, missing: seq<int>, pointers: seq<Ptr>, usage: int, capacity: int)
    requires QueryAnswer(keys, |keys|, nodes, index, positions, found, missingAt, missing, pointers)
    requires Slotted(nodes, usage, capacity) && Indexed(nodes, index)
    ensures LocalOk(keys, capacity, false,
                    LocalAnswer(|found|, found + missingAt, positions, Pointers(pointers), missing))
  {
    SplitRange(found, missingAt, |keys|);
    SplitPermutation(found, missingAt, |keys|);
  }

  // ------------------------------------------------------------------
  // Concatenated columns

  function Concat<T>(cols: seq<seq<T>>, t: nat): seq<T>
    requires t <= |cols|
  {
    if t == 0 then [] else Concat(cols, t - 1) + cols[t - 1]
  }

  lemma {:induction false} ConcatMonotone<T>(cols: seq<seq<T>>, t: nat, u: nat)
    requires t <= u <= |cols|
    ensures |Concat(cols, t)| <= |Concat(cols, u)| && Concat(cols, u)[..|Concat(cols, t)|] == Concat(cols, t)
    decreases u
  {
    if t < u { ConcatMonotone(cols, t, u - 1); }
  }

  lemma ConcatAt<T>(cols: seq<seq<T>>, t: nat, m: nat, i: nat)
    requires t < m <= |cols| && i < |cols[t]|
    ensures |Concat(cols, t)| + i < |Concat(cols, t + 1)| <= |Concat(cols, m)|
    ensures Concat(cols, m)[|Concat(cols, t)| + i] == cols[t][i]
  {
    ConcatMonotone(cols, t + 1, m);
    var g := |Concat(cols, t)| + i;
    assert Concat(cols, m)[g] == Concat(cols, m)[..|Concat(cols, t + 1)|][g];
  }

  /** Every cell of the concatenation comes from one column. */
  lemma {:induction false} ConcatLocate<T>(cols: seq<seq<T>>, m: nat, g: nat)
    requires m <= |cols| && g < |Concat(cols, m)|
    ensures exists t: nat :: t < m && |Concat(cols, t)| <= g < |Concat(cols, t + 1)|
  {
    if g < |Concat(cols, m - 1)| {
      ConcatLocate(cols, m - 1, g);
    } else {
      assert |Concat(cols, m - 1)| <= g < |Concat(cols, (m - 1) + 1)|;
    }
  }

  lemma {:induction false} ConcatSize<T>(cols: seq<seq<T>>, sizes: seq<nat>, t: nat)
    requires |cols| == |sizes| && t <= |cols| && forall u :: 0 <= u < t ==> |cols[u]| == sizes[u]
    ensures |Concat(cols, t)| == Sum(sizes, t)
  {
    if t > 0 { ConcatSize(cols, sizes, t - 1); }
  }

  function Sum(s: seq<nat>, t: nat): nat
    requires t <= |s|
  {
    if t == 0 then 0 else Sum(s, t - 1) + s[t - 1]
  }

  lemma {:induction false} SumMonotone(s: seq<nat>, t: nat, u: nat)
    requires t <= u <= |s|
    ensures Sum(s, t) <= Sum(s, u)
    decreases u
  {
    if t < u { SumMonotone(s, t, u - 1); }
  }

  /** The scan of an appended table continues from the total of the first. */
  lemma {:induction false} SumAppend(a: seq<nat>, b: seq<nat>, t: nat)
    requires t <= |b|
    ensures Sum(a + b, |a| + t) == Sum(a, |a|) + Sum(b, t)
  {
    if t == 0 {
      SumPrefix(a, b, |a|);
    } else {
      SumAppend(a, b, t - 1);
    }
  }

  lemma {:induction false} SumPrefix(a: seq<nat>, b: seq<nat>, t: nat)
    requires t <= |a|
    ensures Sum(a + b, t) == Sum(a, t)
  {
    if t > 0 { SumPrefix(a, b, t - 1); }
  }

  // ------------------------------------------------------------------
  // The copying loops

  /** s with the cells from `at` on replaced by the cells of `piece`. */
  function Overlay<T>(s: seq<T>, at: nat, piece: seq<T>): (r: seq<T>)
    requires at + |piece| <= |s|
    ensures |r| == |s|
  {
    s[..at] + piece + s[at + |piece|..]
  }

  function Shifted(s: seq<int>, offset: int): (r: seq<int>)
    ensures |r| == |s| && forall i :: 0 <= i < |s| ==> r[i] == s[i] + offset
  {
    seq(|s|, i requires 0 <= i < |s| => s[i] + offset)
  }

  ghost predicate Within(local: seq<int>, n: nat) {
    forall i :: 0 <= i < |local| ==> 0 <= local[i] < n
  }

  function Gathered(indices: seq<int>, local: seq<int>): (r: seq<int>)
    requires Within(local, |indices|)
    ensures |r| == |local| && forall i :: 0 <= i < |local| ==> r[i] == indices[local[i]]
  {
    seq(|local|, i requires 0 <= i < |local| => indices[local[i]])
  }

  method ShiftInto(piece: seq<int>, offset: int, out: array<int>, at: nat)
    requires at + |piece| <= out.Length
    modifies out
    ensures out[..] == Overlay(old(out[..]), at, Shifted(piece, offset))
  {
    for i := 0 to |piece|
      invariant forall k :: 0 <= k < i ==> out[at + k] == piece[k] + offset
      invariant forall k :: 0 <= k < at || at + i <= k < out.Length ==> out[k] == old(out[k])
    {
      out[at + i] := piece[i] + offset;
    }
  }

  method GatherInto(indices: seq<int>, base: nat, width: nat, local: seq<int>, out: array<int>, at: nat)
    requires at + |local| <= out.Length && base + width <= |indices| && Within(local, width)
    modifies out
    ensures out[..] == Overlay(old(out[..]), at, Gathered(indices[base..base + width], local))
  {
    for i := 0 to |local|
      invariant forall k :: 0 <= k < i ==> out[at + k] == indices[base + local[k]]
      invariant forall k :: 0 <= k < at || at + i <= k < out.Length ==> out[k] == old(out[k])
    {
      out[at + i] := indices[base + local[i]];
    }
  }

  lemma SumStep(s: seq<nat>)
    ensures Sum(s, 0) == 0 && forall t: nat :: t < |s| ==> Sum(s, t + 1) == Sum(s, t) + s[t]
  {
  }

  /** `std::exclusive_scan` in place. */
  method ExclusiveScan(a: array<int>, ghost sizes: seq<nat>)
    requires a.Length == |sizes| + 1 && forall i :: 0 <= i < |sizes| ==> a[i] == sizes[i]
    modifies a
    ensures forall i :: 0 <= i <= |sizes| ==> a[i] == Sum(sizes, i)
  {
    hide Sum;
    SumStep(sizes);
    var acc := 0;
    for i := 0 to a.Length
      invariant i <= |sizes| ==> acc == Sum(sizes, i)
      invariant forall k :: 0 <= k < i ==> a[k] == Sum(sizes, k)
      invariant forall k :: i <= k < |sizes| ==> a[k] == sizes[k]
    {
      var x := a[i];
      a[i] := acc;
      acc := acc + x;
    }
  }

  // ------------------------------------------------------------------
  // The merge

  /** The capacity of partition t. */
  function Share(t: nat, capacity: nat, num: nat): int
    requires num >= 1
  {
    ChunkBegin(t + 1, capacity, num) - ChunkBegin(t, capacity, num)
  }

  lemma ShareIs(t: nat, capacity: nat, num: nat)
    requires num >= 1
    ensures Share(t, capacity, num) == (t + 1) * capacity / num - t * capacity / num
  {
  }

  /** What the partitions worked on and what they answered. */
  datatype Job<P(0)> = Job(num: nat, capacity: nat, full: bool, slices: seq<int>, indices: seq<int>, permuted: seq<int>,
                           answers: seq<LocalAnswer<P>>)
  {
    ghost predicate Shaped() {
      && num >= 1 && |answers| == num && Boundaries(slices, num, |indices|) && |permuted| == |indices|
    }

    ghost predicate SliceOk(t: nat)
      requires Shaped() && t < num
    {
      && 0 <= slices[t] <= slices[t + 1] <= |indices|
      && LocalOk(permuted[slices[t]..slices[t + 1]], Share(t, capacity, num), full, answers[t])
    }

    ghost predicate Ready() {
      Shaped() && forall t: nat :: t < num ==> SliceOk(t)
    }

    /** The five pieces that partition t contributes. */
    ghost function FoundAt(t: nat): (r: seq<int>)
      requires Ready() && t < num
      ensures |r| == answers[t].found
    {
      assert SliceOk(t);
      Gathered(indices[slices[t]..slices[t + 1]], answers[t].indices[..answers[t].found])
    }

    ghost function MissingAt(t: nat): (r: seq<int>)
      requires Ready() && t < num
      ensures |r| == |answers[t].missing|
    {
      assert SliceOk(t);
      Gathered(indices[slices[t]..slices[t + 1]], answers[t].indices[answers[t].found..])
    }

    ghost function FoundPos(t: nat): (r: seq<int>)
      requires Ready() && t < num
      ensures |r| == answers[t].found
    {
      assert SliceOk(t);
      Shifted(answers[t].positions[..answers[t].found], ChunkBegin(t, capacity, num))
    }

    ghost function MissingPos(t: nat): (r: seq<int>)
      requires Ready() && t < num
      ensures |r| == if full then |answers[t].missing| else 0
    {
      assert SliceOk(t);
      Shifted(answers[t].positions[answers[t].found..], ChunkBegin(t, capacity, num))
    }

    ghost function FoundPtr(t: nat): (r: seq<P>)
      requires Ready() && t < num
      ensures |r| == answers[t].found
    {
      assert SliceOk(t);
      answers[t].pointers[..answers[t].found]
    }

    ghost function MissingPtr(t: nat): (r: seq<P>)
      requires Ready() && t < num
      ensures |r| == if full then |answers[t].missing| else 0
    {
      assert SliceOk(t);
      answers[t].pointers[answers[t].found..]
    }

    ghost function FoundAts(): seq<seq<int>>
      requires Ready()
    {
      seq(num, t requires 0 <= t < num => FoundAt(t))
    }

    ghost function MissingAts(): seq<seq<int>>
      requires Ready()
    {
      seq(num, t requires 0 <= t < num => MissingAt(t))
    }

    ghost function FoundPositions(): seq<seq<int>>
      requires Ready()
    {
      seq(num, t requires 0 <= t < num => FoundPos(t))
    }

    ghost function MissingPositions(): seq<seq<int>>
      requires Ready()
    {
      seq(num, t requires 0 <= t < num => MissingPos(t))
    }

    ghost function FoundPointers(): seq<seq<P>>
      requires Ready()
    {
      seq(num, t requires 0 <= t < num => FoundPtr(t))
    }

    ghost function MissingPointers(): seq<seq<P>>
      requires Ready()
    {
      seq(num, t requires 0 <= t < num => MissingPtr(t))
    }

    ghost function MissingKeys(): seq<seq<int>> {
      seq(|answers|, t requires 0 <= t < |answers| => answers[t].missing)
    }

    /** How many keys each partition found and missed. */
    function FoundSizes(): (r: seq<nat>)
      ensures |r| == |answers| && forall t :: 0 <= t < |answers| ==> r[t] == answers[t].found
    {
      seq(|answers|, t requires 0 <= t < |answers| => answers[t].found)
    }

    function MissedSizes(): (r: seq<nat>)
      ensures |r| == |answers| && forall t :: 0 <= t < |answers| ==> r[t] == |answers[t].missing|
    {
      seq(|answers|, t requires 0 <= t < |answers| => |answers[t].missing|)
    }
  }

  /** The first t pieces of F are laid out from 0, those of M from the end of all of F. */
  ghost predicate Laid<T>(out: seq<T>, F: seq<seq<T>>, M: seq<seq<T>>, t: nat) {
    && |F| == |M| && t <= |F| && |out| == |Concat(F, |F|)| + |Concat(M, |M|)|
    && |Concat(F, t)| <= |Concat(F, |F|)| && |Concat(M, t)| <= |Concat(M, |M|)|
    && out[..|Concat(F, t)|] == Concat(F, t)
    && out[|Concat(F, |F|)|..|Concat(F, |F|)| + |Concat(M, t)|] == Concat(M, t)
  }

  lemma ConcatStep<T>(cols: seq<seq<T>>, t: nat)
    requires t < |cols|
    ensures Concat(cols, t + 1) == Concat(cols, t) + cols[t]
  {
  }

  lemma LaidFits<T>(F: seq<seq<T>>, M: seq<seq<T>>, t: nat)
    requires t < |F| == |M|
    ensures |Concat(F, t)| + |F[t]| <= |Concat(F, |F|)| && |Concat(M, t)| + |M[t]| <= |Concat(M, |M|)|
  {
    hide Concat;
    ConcatStep(F, t);
    ConcatStep(M, t);
    ConcatMonotone(F, t + 1, |F|);
    ConcatMonotone(M, t + 1, |M|);
  }

  /** Two pieces written beyond what is there extend both laid out parts. */
  lemma OverlayBoth<T>(out: seq<T>, f: nat, x: seq<T>, n: nat, g: nat, y: seq<T>)
    requires f + |x| <= n && n + g + |y| <= |out|
    ensures var b := Overlay(Overlay(out, f, x), n + g, y);
      b[..f + |x|] == out[..f] + x && b[n..n + g + |y|] == out[n..n + g] + y
  {
  }

  lemma LaidStep<T>(out: seq<T>, F: seq<seq<T>>, M: seq<seq<T>>, t: nat)
    requires Laid(out, F, M, t) && t < |F|
    requires |Concat(F, t)| + |F[t]| <= |Concat(F, |F|)| && |Concat(M, t)| + |M[t]| <= |Concat(M, |M|)|
    ensures Laid(Overlay(Overlay(out, |Concat(F, t)|, F[t]), |Concat(F, |F|)| + |Concat(M, t)|, M[t]), F, M, t + 1)
  {
    hide Concat, Overlay;
    ConcatStep(F, t);
    ConcatStep(M, t);
    OverlayBoth(out, |Concat(F, t)|, F[t], |Concat(F, |F|)|, |Concat(M, t)|, M[t]);
  }

  lemma LaidDone<T>(out: seq<T>, F: seq<seq<T>>, M: seq<seq<T>>)
    requires Laid(out, F, M, |F|)
    ensures out == Concat(F, |F|) + Concat(M, |M|)
  {
    hide Concat;
    TwoParts(out, Concat(F, |F|), Concat(M, |M|));
  }

  lemma TwoParts<T>(out: seq<T>, a: seq<T>, b: seq<T>)
    requires |out| == |a| + |b| && out[..|a|] == a && out[|a|..|a| + |b|] == b
    ensures out == a + b
  {
  }

  lemma ColumnSizes<P(0)>(j: Job<P>, t: nat)
    requires j.Ready() && t <= j.num
    ensures |Concat(j.FoundAts(), t)| == |Concat(j.FoundPositions(), t)| == Sum(j.FoundSizes(), t)
    ensures |Concat(j.FoundPointers(), t)| == Sum(j.FoundSizes(), t)
    ensures |Concat(j.MissingAts(), t)| == |Concat(j.MissingKeys(), t)| == Sum(j.MissedSizes(), t)
    ensures |Concat(j.MissingPositions(), t)| == |Concat(j.MissingPointers(), t)|
    ensures |Concat(j.MissingPointers(), t)| == if j.full then Sum(j.MissedSizes(), t) else 0
  {
    var none := seq(j.num, _ => 0);
    ConcatSize(j.FoundAts(), j.FoundSizes(), t);
    ConcatSize(j.FoundPositions(), j.FoundSizes(), t);
    ConcatSize(j.FoundPointers(), j.FoundSizes(), t);
    ConcatSize(j.MissingAts(), j.MissedSizes(), t);
    ConcatSize(j.MissingKeys(), j.MissedSizes(), t);
    ConcatSize(j.MissingPositions(), if j.full then j.MissedSizes() else none, t);
    ConcatSize(j.MissingPointers(), if j.full then j.MissedSizes() else none, t);
    SumZero(none, t);
  }

  lemma {:induction false} SumZero(s: seq<nat>, t: nat)
    requires t <= |s| && forall i :: 0 <= i < |s| ==> s[i] == 0
    ensures Sum(s, t) == 0
  {
    if t > 0 { SumZero(s, t - 1); }
  }

  /** Everything asked is either found or missed. */
  lemma {:induction false} SizesTile<P(0)>(j: Job<P>, t: nat)
    requires j.Ready() && t <= j.num
    ensures Sum(j.FoundSizes(), t) + Sum(j.MissedSizes(), t) == j.slices[t]
  {
    if t > 0 {
      SizesTile(j, t - 1);
      assert j.SliceOk(t - 1);
    }
  }

  /** The answers side by side: all hits by partition, then all misses by partition. */
  ghost predicate Merged<P(0)>(j: Job<P>, indices: seq<int>, positions: seq<int>, pointers: seq<P>, missing: seq<int>,
                               foundOffsets: seq<int>, missingOffsets: seq<int>)
    requires j.Ready()
  {
    && indices == Concat(j.FoundAts(), j.num) + Concat(j.MissingAts(), j.num)
    && positions == Concat(j.FoundPositions(), j.num) + Concat(j.MissingPositions(), j.num)
    && pointers == Concat(j.FoundPointers(), j.num) + Concat(j.MissingPointers(), j.num)
    && missing == Concat(j.MissingKeys(), j.num)
    && |foundOffsets| == |missingOffsets| == j.num + 1
    && (forall t :: 0 <= t <= j.num ==>
      foundOffsets[t] == Sum(j.FoundSizes(), t) && missingOffsets[t] == Sum(j.MissedSizes(), t))
  }

  lemma LaidSize<T>(out: seq<T>, F: seq<seq<T>>, M: seq<seq<T>>, t: nat)
    requires Laid(out, F, M, t)
    ensures |F| == |M| && |out| == |Concat(F, |F|)| + |Concat(M, |M|)|
  {
  }

  method MergeIndices(indices: seq<int>, base: nat, width: nat, local: seq<int>, found: nat, out: array<int>,
                      begin: nat, missBegin: nat, ghost F: seq<seq<int>>, ghost M: seq<seq<int>>, ghost t: nat)
    requires Laid(out[..], F, M, t) && t < |F| && found <= |local| && Within(local, width) && base + width <= |indices|
    requires F[t] == Gathered(indices[base..base + width], local[..found])
    requires M[t] == Gathered(indices[base..base + width], local[found..])
    requires begin == |Concat(F, t)| && missBegin == |Concat(F, |F|)| + |Concat(M, t)|
    modifies out
    ensures Laid(out[..], F, M, t + 1)
  {
    hide Laid, Concat, Overlay, Gathered;
    LaidSize(out[..], F, M, t);
    LaidFits(F, M, t);
    LaidStep(out[..], F, M, t);
    GatherInto(indices, base, width, local[..found], out, begin);
    GatherInto(indices, base, width, local[found..], out, missBegin);
  }

  method MergePositions(local: seq<int>, found: nat, offset: int, out: array<int>,
                        begin: nat, missBegin: nat, ghost F: seq<seq<int>>, ghost M: seq<seq<int>>, ghost t: nat)
    requires Laid(out[..], F, M, t) && t < |F| && found <= |local|
    requires F[t] == Shifted(local[..found], offset) && M[t] == Shifted(local[found..], offset)
    requires begin == |Concat(F, t)| && missBegin == |Concat(F, |F|)| + |Concat(M, t)|
    modifies out
    ensures Laid(out[..], F, M, t + 1)
  {
    hide Laid, Concat, Overlay, Shifted;
    LaidSize(out[..], F, M, t);
    LaidFits(F, M, t);
    LaidStep(out[..], F, M, t);
    ShiftInto(local[..found], offset, out, begin);
    ShiftInto(local[found..], offset, out, missBegin);
  }

  method MergePointers<P>(local: seq<P>, found: nat, out: array<P>,
                          begin: nat, missBegin: nat, ghost F: seq<seq<P>>, ghost M: seq<seq<P>>, ghost t: nat)
    requires Laid(out[..], F, M, t) && t < |F| && found <= |local|
    requires F[t] == local[..found] && M[t] == local[found..]
    requires begin == |Concat(F, t)| && missBegin == |Concat(F, |F|)| + |Concat(M, t)|
    modifies out
    ensures Laid(out[..], F, M, t + 1)
  {
    hide Laid, Concat;
    LaidSize(out[..], F, M, t);
    LaidFits(F, M, t);
    LaidStep(out[..], F, M, t);
    CopyInto(local[..found], out, begin);
    CopyInto(local[found..], out, missBegin);
  }

  lemma SliceFacts<P(0)>(j: Job<P>, t: nat)
    requires j.Ready() && t < j.num
    ensures var a := j.answers[t]; var w := j.slices[t + 1] - j.slices[t];
      && 0 <= j.slices[t] <= j.slices[t] + w <= |j.indices| && a.found <= |a.indices| == w && |a.missing| == w - a.found
      && Within(a.indices, w)
      && |a.positions| == |a.pointers| == (if j.full then w else a.found)
  {
    assert j.SliceOk(t);
  }

  lemma Pieces<P(0)>(j: Job<P>, t: nat)
    requires j.Ready() && t < j.num
    ensures var a := j.answers[t];
      var base, w := j.slices[t], j.slices[t + 1] - j.slices[t]; var off := ChunkBegin(t, j.capacity, j.num);
      && Within(a.indices, w) && a.found <= |a.indices| && a.found <= |a.positions| == |a.pointers|
      && 0 <= base <= base + w <= |j.indices|
      && j.FoundAts()[t] == Gathered(j.indices[base..base + w], a.indices[..a.found])
      && j.MissingAts()[t] == Gathered(j.indices[base..base + w], a.indices[a.found..])
      && j.FoundPositions()[t] == Shifted(a.positions[..a.found], off)
      && j.MissingPositions()[t] == Shifted(a.positions[a.found..], off)
      && j.FoundPointers()[t] == a.pointers[..a.found] && j.MissingPointers()[t] == a.pointers[a.found..]
  {
    SliceFacts(j, t);
  }

  /** Where the pieces of partition t go. */
  lemma Places<P(0)>(j: Job<P>, t: nat)
    requires j.Ready() && t < j.num
    ensures |j.FoundAts()| == |j.MissingAts()| == |j.FoundPositions()| == |j.MissingPositions()|
         == |j.FoundPointers()| == |j.MissingPointers()| == |j.MissingKeys()| == j.num
    ensures var f, m := Sum(j.FoundSizes(), t), Sum(j.FoundSizes(), j.num) + Sum(j.MissedSizes(), t);
      var p := if j.full then m else Sum(j.FoundSizes(), j.num);
      && f == |Concat(j.FoundAts(), t)| && m == |Concat(j.FoundAts(), j.num)| + |Concat(j.MissingAts(), t)|
      && f == |Concat(j.FoundPositions(), t)|
      && p == |Concat(j.FoundPositions(), j.num)| + |Concat(j.MissingPositions(), t)|
      && f == |Concat(j.FoundPointers(), t)|
      && p == |Concat(j.FoundPointers(), j.num)| + |Concat(j.MissingPointers(), t)|
      && Sum(j.MissedSizes(), t) == |Concat(j.MissingKeys(), t)|
  {
    ColumnSizes(j, t);
    ColumnSizes(j, j.num);
  }

  function Empties<T>(n: nat): (r: seq<seq<T>>)
    ensures |r| == n && forall i :: 0 <= i < n ==> r[i] == []
  {
    seq(n, _ => [])
  }

  lemma {:induction false} EmptiesConcat<T>(n: nat, t: nat)
    requires t <= n
    ensures Concat(Empties<T>(n), t) == []
  {
    if t > 0 { EmptiesConcat<T>(n, t - 1); }
  }

  /** Nothing placed yet in arrays of the right size. */
  lemma LaidNone<T>(out: seq<T>, F: seq<seq<T>>, M: seq<seq<T>>)
    requires |F| == |M| && |out| == |Concat(F, |F|)| + |Concat(M, |M|)|
    ensures Laid(out, F, M, 0)
  {
  }

  lemma FinalSizes<P(0)>(j: Job<P>)
    requires j.Ready()
    ensures var f, m := Sum(j.FoundSizes(), j.num), Sum(j.MissedSizes(), j.num);
      && f + m == |j.indices|
      && f == |Concat(j.FoundAts(), j.num)| == |Concat(j.FoundPositions(), j.num)| == |Concat(j.FoundPointers(), j.num)|
      && m == |Concat(j.MissingAts(), j.num)| == |Concat(j.MissingKeys(), j.num)|
      && |Concat(j.MissingPositions(), j.num)| == |Concat(j.MissingPointers(), j.num)| == (if j.full then m else 0)
  {
    ColumnSizes(j, j.num);
    SizesTile(j, j.num);
  }

  lemma ShapeOf<P(0)>(j: Job<P>)
    requires j.Ready()
    ensures j.num >= 1 && |j.answers| == j.num && |j.slices| == j.num + 1
  {
  }

  /** Partition t copies its pieces into place. */
  method MergePart<P(0)>(j: Job<P>, t: nat, indices: array<int>, positions: array<int>, pointers: array<P>,
                         missing: array<int>, begin: nat, missBegin: nat, found: nat)
    requires j.Ready() && t < j.num
    requires indices != positions && indices != missing && positions != missing
    requires (pointers as object) !in {indices as object, positions as object, missing as object}
    requires begin == Sum(j.FoundSizes(), t) && missBegin == found + Sum(j.MissedSizes(), t)
    requires found == Sum(j.FoundSizes(), j.num)
    requires Laid(indices[..], j.FoundAts(), j.MissingAts(), t)
    requires Laid(positions[..], j.FoundPositions(), j.MissingPositions(), t)
    requires Laid(pointers[..], j.FoundPointers(), j.MissingPointers(), t)
    requires Laid(missing[..], j.MissingKeys(), Empties<int>(j.num), t)
    modifies indices, positions, pointers, missing
    ensures Laid(indices[..], j.FoundAts(), j.MissingAts(), t + 1)
    ensures Laid(positions[..], j.FoundPositions(), j.MissingPositions(), t + 1)
    ensures Laid(pointers[..], j.FoundPointers(), j.MissingPointers(), t + 1)
    ensures Laid(missing[..], j.MissingKeys(), Empties<int>(j.num), t + 1)
  {
    hide *;
    ShapeOf(j);
    SliceFacts(j, t);
    Pieces(j, t);
    Places(j, t);
    FinalSizes(j);
    EmptiesConcat<int>(j.num, t);
    KeysPiece(j, t);
    var a, base, width := j.answers[t], j.slices[t], j.slices[t + 1] - j.slices[t];
    var tail := if j.full then missBegin else found;
    MergeIndices(j.indices, base, width, a.indices, a.found, indices, begin, missBegin, j.FoundAts(), j.MissingAts(),
                 t);
    MergePositions(a.positions, a.found, ChunkBegin(t, j.capacity, j.num), positions, begin, tail, j.FoundPositions(),
                   j.MissingPositions(), t);
    MergePointers(a.pointers, a.found, pointers, begin, tail, j.FoundPointers(), j.MissingPointers(), t);
    MergePointers(a.missing, |a.missing|, missing, missBegin - found, |j.indices| - found, j.MissingKeys(),
                  Empties<int>(j.num), t);
  }

  lemma KeysPiece<P(0)>(j: Job<P>, t: nat)
    requires j.Ready() && t < j.num
    ensures var a := j.answers[t];
      j.MissingKeys()[t] == a.missing == a.missing[..|a.missing|] && a.missing[|a.missing|..] == []
  {
  }

  lemma NothingMerged<P(0)>(j: Job<P>, indices: seq<int>, positions: seq<int>, pointers: seq<P>, missing: seq<int>)
    requires j.Ready() && |indices| == |j.indices| && |missing| == |j.indices| - Sum(j.FoundSizes(), j.num)
    requires |positions| == |pointers| == if j.full then |j.indices| else Sum(j.FoundSizes(), j.num)
    ensures Laid(indices, j.FoundAts(), j.MissingAts(), 0)
    ensures Laid(positions, j.FoundPositions(), j.MissingPositions(), 0)
    ensures Laid(pointers, j.FoundPointers(), j.MissingPointers(), 0)
    ensures Laid(missing, j.MissingKeys(), Empties<int>(j.num), 0)
  {
    hide *;
    ShapeOf(j);
    FinalSizes(j);
    Places(j, 0);
    EmptiesConcat<int>(j.num, j.num);
    LaidNone(indices, j.FoundAts(), j.MissingAts());
    LaidNone(positions, j.FoundPositions(), j.MissingPositions());
    LaidNone(pointers, j.FoundPointers(), j.MissingPointers());
    LaidNone(missing, j.MissingKeys(), Empties<int>(j.num));
  }

  /** The merge loops of `Query` and `QueryAndReplace`. */
  method Merge<P(0)>(j: Job<P>)
    returns (indices: array<int>, positions: array<int>, pointers: array<P>, missing: array<int>,
             foundOffsets: seq<int>, missingOffsets: array<int>)
    requires j.Ready()
    ensures fresh(indices) && fresh(positions) && fresh(pointers) && fresh(missing)
    ensures Merged(j, indices[..], positions[..], pointers[..], missing[..], foundOffsets, missingOffsets[..])
  {
    hide *;
    ShapeOf(j);
    var offsets := ResultOffsets(j);
    var found: int := offsets[j.num];
    FinalSizes(j);
    indices := new int[|j.indices|];
    positions := new int[if j.full then |j.indices| else found];
    pointers := new P[if j.full then |j.indices| else found];
    missing := new int[|j.indices| - found];
    missingOffsets := new int[j.num + 1];
    missingOffsets[0] := 0;
    NothingMerged(j, indices[..], positions[..], pointers[..], missing[..]);
    SumStep(j.MissedSizes());
    for t := 0 to j.num
      invariant Laid(indices[..], j.FoundAts(), j.MissingAts(), t)
      invariant Laid(positions[..], j.FoundPositions(), j.MissingPositions(), t)
      invariant Laid(pointers[..], j.FoundPointers(), j.MissingPointers(), t)
      invariant Laid(missing[..], j.MissingKeys(), Empties<int>(j.num), t)
      invariant forall u :: 0 <= u <= t ==> missingOffsets[u] == Sum(j.MissedSizes(), u)
    {
      MergePart(j, t, indices, positions, pointers, missing, offsets[t], offsets[j.num + t], found);
      var end: int := offsets[j.num + (t + 1)];
      missingOffsets[t + 1] := end - found;
    }
    foundOffsets := offsets[..j.num + 1];
    MergedNow(j, indices[..], positions[..], pointers[..], missing[..], foundOffsets, missingOffsets[..]);
  }

  lemma MergedNow<P(0)>(j: Job<P>, indices: seq<int>, positions: seq<int>, pointers: seq<P>, missing: seq<int>,
                        foundOffsets: seq<int>, missingOffsets: seq<int>)
    requires j.Ready() && |foundOffsets| == |missingOffsets| == j.num + 1
    requires forall t :: 0 <= t <= j.num ==>
      foundOffsets[t] == Sum(j.FoundSizes(), t) && missingOffsets[t] == Sum(j.MissedSizes(), t)
    requires Laid(indices, j.FoundAts(), j.MissingAts(), j.num)
    requires Laid(positions, j.FoundPositions(), j.MissingPositions(), j.num)
    requires Laid(pointers, j.FoundPointers(), j.MissingPointers(), j.num)
    requires Laid(missing, j.MissingKeys(), Empties<int>(j.num), j.num)
    ensures Merged(j, indices, positions, pointers, missing, foundOffsets, missingOffsets)
  {
    hide Laid, Concat, Sum, LocalOk;
    EmptiesConcat<int>(j.num, j.num);
    LaidDone(indices, j.FoundAts(), j.MissingAts());
    LaidDone(positions, j.FoundPositions(), j.MissingPositions());
    LaidDone(pointers, j.FoundPointers(), j.MissingPointers());
    LaidDone(missing, j.MissingKeys(), Empties<int>(j.num));
  }

  /** The sizes of all hits and all misses, scanned. */
  method ResultOffsets<P(0)>(j: Job<P>) returns (offsets: seq<nat>)
    requires j.Ready()
    ensures |offsets| == 2 * j.num + 1
    ensures forall t :: 0 <= t <= j.num ==> offsets[t] == Sum(j.FoundSizes(), t)
    ensures forall t :: 0 <= t <= j.num ==> offsets[j.num + t] == Sum(j.FoundSizes(), j.num) + Sum(j.MissedSizes(), t)
  {
    hide *;
    ShapeOf(j);
    var sizes := new int[2 * j.num + 1];
    ghost var all := j.FoundSizes() + j.MissedSizes();
    for t := 0 to j.num
      invariant forall u :: 0 <= u < t ==> sizes[u] == all[u]
      invariant forall u :: j.num <= u < j.num + t ==> sizes[u] == all[u]
    {
      sizes[t], sizes[j.num + t] := j.answers[t].found, |j.answers[t].missing|;
    }
    ExclusiveScan(sizes, all);
    forall t | 0 <= t <= j.num
      ensures sizes[t] == Sum(j.FoundSizes(), t)
    {
      SumPrefix(j.FoundSizes(), j.MissedSizes(), t);
    }
    forall t | 0 <= t <= j.num ensures sizes[j.num + t] == Sum(j.FoundSizes(), j.num) + Sum(j.MissedSizes(), t) {
      SumAppend(j.FoundSizes(), j.MissedSizes(), t);
    }
    offsets := Naturals(sizes[..]);
  }

  function Naturals(s: seq<int>): (r: seq<nat>)
    requires forall i :: 0 <= i < |s| ==> s[i] >= 0
    ensures r == s
  {
    s
  }

  // ------------------------------------------------------------------
  // What the merged answer means

  /** The cell that holds the i-th answer of partition t. */
  ghost function At<P(0)>(j: Job<P>, t: nat, i: nat): int
    requires j.Ready() && t < j.num
  {
    if i < j.answers[t].found then Sum(j.FoundSizes(), t) + i
    else Sum(j.FoundSizes(), j.num) + Sum(j.MissedSizes(), t) + (i - j.answers[t].found)
  }

  lemma ConcatBoth<T>(F: seq<seq<T>>, M: seq<seq<T>>, t: nat, i: nat)
    requires t < |F| == |M| && i < |F[t]| + |M[t]|
    ensures var out := Concat(F, |F|) + Concat(M, |M|);
      i < |F[t]| ==> |Concat(F, t)| + i < |Concat(F, |F|)| && out[|Concat(F, t)| + i] == F[t][i]
    ensures var out, m := Concat(F, |F|) + Concat(M, |M|), |Concat(F, |F|)| + |Concat(M, t)| - |F[t]|;
      i >= |F[t]| ==> 0 <= m + i < |out| && out[m + i] == M[t][i - |F[t]|]
  {
    if i < |F[t]| { ConcatAt(F, t, |F|, i); } else { ConcatAt(M, t, |M|, i - |F[t]|); }
  }

  lemma MergedIndex<P(0)>(j: Job<P>, indices: seq<int>, positions: seq<int>, pointers: seq<P>, missing: seq<int>,
                          foundOffsets: seq<int>, missingOffsets: seq<int>, t: nat, i: nat)
    requires j.Ready() && Merged(j, indices, positions, pointers, missing, foundOffsets, missingOffsets)
    requires t < j.num && i < |j.answers[t].indices|
    ensures var a := j.answers[t]; var g := At(j, t, i);
      && 0 <= g < |indices| == |j.indices| && 0 <= a.indices[i] < j.slices[t + 1] - j.slices[t]
      && 0 <= j.slices[t] + a.indices[i] < |j.indices| && indices[g] == j.indices[j.slices[t] + a.indices[i]]
      && (g < Sum(j.FoundSizes(), j.num) <==> i < a.found)
  {
    hide LocalOk, Concat, Sum, Gathered, Shifted;
    SliceFacts(j, t);
    Pieces(j, t);
    Places(j, t);
    FinalSizes(j);
    ConcatBoth(j.FoundAts(), j.MissingAts(), t, i);
  }

  lemma MergedPosition<P(0)>(j: Job<P>, indices: seq<int>, positions: seq<int>, pointers: seq<P>, missing: seq<int>,
                             foundOffsets: seq<int>, missingOffsets: seq<int>, t: nat, i: nat)
    requires j.Ready() && Merged(j, indices, positions, pointers, missing, foundOffsets, missingOffsets)
    requires t < j.num && i < |j.answers[t].positions|
    ensures var a := j.answers[t]; var g := At(j, t, i);
      && i < |a.indices| && i < |a.pointers| && 0 <= g < |positions| && 0 <= g < |pointers|
      && |positions| == |pointers| == (if j.full then |j.indices| else Sum(j.FoundSizes(), j.num))
      && positions[g] == a.positions[i] + ChunkBegin(t, j.capacity, j.num) && pointers[g] == a.pointers[i]
  {
    hide LocalOk, Concat, Sum, Gathered, Shifted;
    SliceFacts(j, t);
    Pieces(j, t);
    Places(j, t);
    FinalSizes(j);
    ConcatBoth(j.FoundPositions(), j.MissingPositions(), t, i);
    ConcatBoth(j.FoundPointers(), j.MissingPointers(), t, i);
    ShiftSplit(j.answers[t].positions, j.answers[t].found, ChunkBegin(t, j.capacity, j.num), i);
  }

  lemma ShiftSplit(s: seq<int>, f: nat, offset: int, i: nat)
    requires f <= |s| && i < |s|
    ensures (if i < f then Shifted(s[..f], offset)[i] else Shifted(s[f..], offset)[i - f]) == s[i] + offset
  {
  }

  lemma MergedMissing<P(0)>(j: Job<P>, indices: seq<int>, positions: seq<int>, pointers: seq<P>, missing: seq<int>,
                            foundOffsets: seq<int>, missingOffsets: seq<int>, t: nat, i: nat)
    requires j.Ready() && Merged(j, indices, positions, pointers, missing, foundOffsets, missingOffsets)
    requires t < j.num && j.answers[t].found <= i < |j.answers[t].indices|
    ensures var a := j.answers[t]; var m := At(j, t, i) - Sum(j.FoundSizes(), j.num);
      0 <= m < |missing| && i - a.found < |a.missing| && missing[m] == a.missing[i - a.found]
  {
    hide LocalOk, Concat, Sum, Gathered, Shifted;
    SliceFacts(j, t);
    KeysPiece(j, t);
    Places(j, t);
    FinalSizes(j);
    ConcatAt(j.MissingKeys(), t, j.num, i - j.answers[t].found);
  }

  /** Every cell holds one answer of one partition. */
  lemma MergedLocate<P(0)>(j: Job<P>, g: nat) returns (t: nat, i: nat)
    requires j.Ready() && g < |j.indices|
    ensures t < j.num && i < |j.answers[t].indices| && g == At(j, t, i)
    ensures g < Sum(j.FoundSizes(), j.num) <==> i < j.answers[t].found
    ensures g < Sum(j.FoundSizes(), j.num) ==> Sum(j.FoundSizes(), t) <= g < Sum(j.FoundSizes(), t + 1)
    ensures g >= Sum(j.FoundSizes(), j.num) ==>
      Sum(j.MissedSizes(), t) <= g - Sum(j.FoundSizes(), j.num) < Sum(j.MissedSizes(), t + 1)
  {
    hide LocalOk;
    SizesTile(j, j.num);
    var found := Sum(j.FoundSizes(), j.num);
    if g < found {
      t := SumLocate(j.FoundSizes(), j.num, g);
      i := g - Sum(j.FoundSizes(), t);
    } else {
      t := SumLocate(j.MissedSizes(), j.num, g - found);
      i := j.answers[t].found + (g - found - Sum(j.MissedSizes(), t));
    }
    SliceFacts(j, t);
  }

  lemma {:induction false} SumLocate(s: seq<nat>, m: nat, g: nat) returns (t: nat)
    requires m <= |s| && g < Sum(s, m)
    ensures t < m && Sum(s, t) <= g < Sum(s, t + 1)
  {
    if g < Sum(s, m - 1) { t := SumLocate(s, m - 1, g); } else { t := m - 1; }
  }

  /** The documented contract of the merged `Query` and `QueryAndReplace`. */
  ghost predicate BatchContract(keys: seq<int>, parts: seq<int>, num: nat, capacity: nat, full: bool,
                                indices: seq<int>, positions: seq<int>, missing: seq<int>, foundOffsets: seq<int>,
                                missingOffsets: seq<int>)
  {
    && num >= 1 && |missing| <= |keys| && Boundaries(missingOffsets, num, |missing|)
    && Boundaries(foundOffsets, num, |keys| - |missing|)
    && |indices| == |keys| == |parts| && (forall k :: 0 <= k < |keys| ==> k in indices)
    && |positions| == (if full then |keys| else |keys| - |missing|)
    && (forall g :: 0 <= g < |indices| ==> 0 <= indices[g] < |keys|)
    && (forall g: nat :: g < |indices| ==>
      CellContract(keys[indices[g]], parts[indices[g]], num, capacity, g, positions, missing, foundOffsets,
                   missingOffsets))
  }

  /** Cell g answers `key` of part p: in p's block of hits, or of misses beside the
      key itself, with a position in p's range of the cache or a negative one. */
  ghost predicate CellContract(key: int, p: int, num: nat, capacity: nat, g: nat, positions: seq<int>,
                               missing: seq<int>, foundOffsets: seq<int>, missingOffsets: seq<int>)
  {
    && num >= 1 && 0 <= p < num && |foundOffsets| == |missingOffsets| == num + 1
    && var found := foundOffsets[num];
    && (g < found ==> foundOffsets[p] <= g < foundOffsets[p + 1])
    && (g >= found ==>
      missingOffsets[p] <= g - found < missingOffsets[p + 1] && g - found < |missing| && missing[g - found] == key)
    && (g < |positions| ==>
      ChunkBegin(p, capacity, num) <= positions[g] < ChunkBegin(p + 1, capacity, num)
      || (g >= found && positions[g] < 0))
  }

  lemma MergedCell<P(0)>(keys: seq<int>, parts: seq<int>, j: Job<P>, indices: seq<int>, positions: seq<int>,
                         pointers: seq<P>, missing: seq<int>, foundOffsets: seq<int>, missingOffsets: seq<int>, g: nat)
    requires StablePartition(keys, parts, j.num, j.slices, j.indices, j.permuted)
    requires j.Ready() && Merged(j, indices, positions, pointers, missing, foundOffsets, missingOffsets)
    requires j.capacity < 0x8000_0000_0000_0000 && g < |indices|
    ensures 0 <= indices[g] < |keys|
    ensures CellContract(keys[indices[g]], parts[indices[g]], j.num, j.capacity, g, positions, missing, foundOffsets,
                         missingOffsets)
  {
    hide Concat, Sum, Gathered, Shifted, InSlice, Boundaries, Stable, ChunkBegin;
    FinalSizes(j);
    var t, i := MergedLocate(j, g);
    MergedIndex(j, indices, positions, pointers, missing, foundOffsets, missingOffsets, t, i);
    SliceFacts(j, t);
    ShapeOf(j);
    var a := j.answers[t];
    var at := j.slices[t] + a.indices[i];
    SliceExact(keys, parts, j.num, j.slices, j.indices, j.permuted, t, at);
    assert j.SliceOk(t);
    if g < |positions| {
      MergedPosition(j, indices, positions, pointers, missing, foundOffsets, missingOffsets, t, i);
      ChunkOrder(t, j.num, j.capacity, j.num);
      ChunkEnds(j.capacity, j.num);
    }
    if i >= a.found {
      MergedMissing(j, indices, positions, pointers, missing, foundOffsets, missingOffsets, t, i);
    }
  }

  /** The merged answer meets the documented contract. */
  lemma MergedContract<P(0)>(keys: seq<int>, parts: seq<int>, j: Job<P>, indices: seq<int>, positions: seq<int>,
                             pointers: seq<P>, missing: seq<int>, foundOffsets: seq<int>, missingOffsets: seq<int>)
    requires StablePartition(keys, parts, j.num, j.slices, j.indices, j.permuted)
    requires j.Ready() && Merged(j, indices, positions, pointers, missing, foundOffsets, missingOffsets)
    requires j.capacity < 0x8000_0000_0000_0000
    ensures BatchContract(keys, parts, j.num, j.capacity, j.full, indices, positions, missing, foundOffsets,
                          missingOffsets)
  {
    hide Concat, CellContract, InSlice, Stable, Sum, LocalOk;
    FinalSizes(j);
    SumStep(j.FoundSizes());
    SumStep(j.MissedSizes());
    forall p, q | 0 <= p <= q <= j.num
      ensures foundOffsets[p] <= foundOffsets[q] && missingOffsets[p] <= missingOffsets[q]
    {
      SumMonotone(j.FoundSizes(), p, q);
      SumMonotone(j.MissedSizes(), p, q);
    }
    forall g: nat | g < |indices|
      ensures 0 <= indices[g] < |keys|
      ensures CellContract(keys[indices[g]], parts[indices[g]], j.num, j.capacity, g, positions, missing, foundOffsets,
                           missingOffsets)
    {
      MergedCell(keys, parts, j, indices, positions, pointers, missing, foundOffsets, missingOffsets, g);
    }
    forall k | 0 <= k < |keys| ensures k in indices {
      MergedOnto(keys, parts, j, indices, positions, pointers, missing, foundOffsets, missingOffsets, k);
    }
  }

  lemma MergedOnto<P(0)>(keys: seq<int>, parts: seq<int>, j: Job<P>, indices: seq<int>, positions: seq<int>,
                         pointers: seq<P>, missing: seq<int>, foundOffsets: seq<int>, missingOffsets: seq<int>, k: nat)
    requires StablePartition(keys, parts, j.num, j.slices, j.indices, j.permuted) && k < |keys|
    requires j.Ready() && Merged(j, indices, positions, pointers, missing, foundOffsets, missingOffsets)
    ensures k in indices
  {
    hide Merged, Stable, Sum;
    assert k in j.indices;
    var at :| 0 <= at < |j.indices| && j.indices[at] == k;
    var t := parts[k];
    assert InSlice(parts, j.num, j.slices, j.indices, at);
    assert j.SliceOk(t);
    var l := at - j.slices[t];
    assert l in j.answers[t].indices;
    var i :| 0 <= i < |j.answers[t].indices| && j.answers[t].indices[i] == l;
    MergedIndex(j, indices, positions, pointers, missing, foundOffsets, missingOffsets, t, i);
    assert indices[At(j, t, i)] == k;
  }
}
