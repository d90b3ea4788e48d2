/** Broadcast offsets of the message passing kernels.

    Source: src/bcast.cc, include/dgl/bcast.h. */
module Bcast {
  import opened Arithmetic

  datatype BcastOff = BcastOff(lhsOffset: seq<int>, rhsOffset: seq<int>, useBcast: bool, lhsLen: int, rhsLen: int,
                               outLen: int, reduceSize: int)

  // ------------------------------------------------------------------
  // Shapes and multi-indices; axes are counted from the back

  /** The size of the j-th axis from the back; axis 0 of a shape is the batch, and
      missing axes have size 1. */
  function Axis(shape: seq<nat>, j: nat): nat
    requires |shape| >= 1
  {
    if |shape| - 1 - j < 1 then 1 else shape[|shape| - 1 - j]
  }

  /** Axes from, from + 1, .., to - 1. */
  function Axes(shape: seq<nat>, from: nat, to: nat): (d: seq<nat>)
    requires |shape| >= 1 && from <= to
    ensures |d| == to - from && forall t :: 0 <= t < |d| ==> d[t] == Axis(shape, from + t)
  {
    seq<nat>(to - from, t requires 0 <= t < to - from => Axis(shape, from + t))
  }

  /** The number of elements of the first n axes. */
  function Prod(d: seq<nat>, n: nat): nat
    requires n <= |d|
  {
    if n == 0 then 1 else Prod(d, n - 1) * d[n - 1]
  }

  function Max(a: nat, b: nat): nat {
    if a > b then a else b
  }

  /** The sizes of the output. */
  function Wider(d: seq<nat>, e: seq<nat>): (m: seq<nat>)
    requires |d| == |e|
    ensures |m| == |d| && forall t :: 0 <= t < |d| ==> m[t] == Max(d[t], e[t])
  {
    seq(|d|, t requires 0 <= t < |d| => Max(d[t], e[t]))
  }

  ghost predicate Positive(d: seq<nat>) {
    forall t :: 0 <= t < |d| ==> d[t] >= 1
  }

  /** Every axis of the operand is the output's, or has size 1. */
  ghost predicate Broadcasts(d: seq<nat>, m: seq<nat>) {
    |d| == |m| && forall t :: 0 <= t < |d| ==> d[t] == m[t] || d[t] == 1
  }

  /** A position in each of the first n axes. */
  ghost predicate IndexOf(idx: seq<nat>, d: seq<nat>, n: nat) {
    n <= |idx| && n <= |d| && forall t :: 0 <= t < n ==> idx[t] < d[t]
  }

  /** Row-major: the first axis from the back moves fastest. */
  function Flat(idx: seq<nat>, d: seq<nat>, n: nat): nat
    requires n <= |idx| && n <= |d|
  {
    if n == 0 then 0 else Flat(idx, d, n - 1) + idx[n - 1] * Prod(d, n - 1)
  }

  /** The operand's position: 0 on the axes it broadcasts. */
  function Clamp(idx: seq<nat>, d: seq<nat>): (r: seq<nat>)
    requires |idx| == |d|
    ensures |r| == |idx| && forall t :: 0 <= t < |idx| ==> r[t] == if d[t] == 1 then 0 else idx[t]
  {
    seq(|idx|, t requires 0 <= t < |idx| => if d[t] == 1 then 0 else idx[t])
  }

  lemma {:induction false} ProdPositive(d: seq<nat>, n: nat)
    requires n <= |d| && Positive(d)
    ensures Prod(d, n) >= 1
  {
    if n > 0 {
      ProdPositive(d, n - 1);
      TimesAtLeast(Prod(d, n - 1), d[n - 1]);
    }
  }

  lemma TimesAtLeast(a: nat, b: nat)
    requires a >= 1 && b >= 1
    ensures a * b >= 1
  {
  }

  lemma {:induction false} FlatBound(idx: seq<nat>, d: seq<nat>, n: nat)
    requires IndexOf(idx, d, n)
    ensures Flat(idx, d, n) < Prod(d, n)
  {
    if n > 0 {
      FlatBound(idx, d, n - 1);
      BelowProduct(idx[n - 1], d[n - 1], Prod(d, n - 1), Flat(idx, d, n - 1));
    }
  }

  lemma BelowProduct(i: nat, m: nat, p: nat, k: nat)
    requires i < m && k < p
    ensures k + i * p < m * p
  {
    Scaled(i + 1, m, p);
    assert (i + 1) * p == i * p + p;
  }

  lemma SplitIndex(i: nat, k: nat, p: nat)
    requires k < p
    ensures (i * p + k) / p == i && (i * p + k) % p == k
  {
    QuotientIs(i * p + k, p, i);
  }

  /** Every output element has a multi-index. */
  lemma {:induction false} Unflatten(m: seq<nat>, n: nat, o: nat) returns (idx: seq<nat>)
    requires Positive(m) && n <= |m| && o < Prod(m, n)
    ensures |idx| == n && IndexOf(idx, m, n) && Flat(idx, m, n) == o
  {
    if n == 0 { return []; }
    ProdPositive(m, n - 1);
    var p := Prod(m, n - 1);
    var low := Unflatten(m, n - 1, o % p);
    assert o / p < m[n - 1] by { QuotientBelow(o, p, m[n - 1]); }
    idx := low + [o / p];
    FlatPrefix(low, [o / p], m, n - 1);
    assert o == o % p + o / p * p;
  }

  lemma QuotientBelow(o: nat, p: nat, d: nat)
    requires p >= 1 && o < p * d
    ensures o / p < d
  {
    var q := o / p;
    assert q * p <= o;
    if q >= d { Scaled(d, q, p); }
  }

  lemma {:induction false} FlatPrefix(idx: seq<nat>, more: seq<nat>, m: seq<nat>, n: nat)
    requires n <= |idx| && n <= |m|
    ensures Flat(idx + more, m, n) == Flat(idx, m, n)
  {
    if n > 0 { FlatPrefix(idx, more, m, n - 1); }
  }

  // ------------------------------------------------------------------
  // The offset vectors

  /** What the loops leave at cell o after n axes. */
  function Offset(d: seq<nat>, m: seq<nat>, n: nat, o: nat): nat
    requires n <= |d| == |m| && Positive(m)
  {
    if n == 0 then 0
    else
      ProdPositive(m, n - 1);
      var p := Prod(m, n - 1);
      Offset(d, m, n - 1, o % p) + Shift(o / p, d[n - 1], Prod(d, n - 1))
  }

  /** How far position i of an axis of the given size moves in an operand. */
  function Shift(i: nat, size: nat, stride: nat): nat {
    i * (if i < size then 1 else 0) * stride
  }

  /** The offset of an output element is the row-major offset of its multi-index in
      the operand, with 0 on the broadcast axes, and lies within the operand. */
  lemma {:induction false} OffsetIsFlat(d: seq<nat>, m: seq<nat>, n: nat, idx: seq<nat>)
    requires |idx| == |d| == |m| && n <= |d| && Positive(m) && Positive(d) && Broadcasts(d, m) && IndexOf(idx, m, |m|)
    ensures Offset(d, m, n, Flat(idx, m, n)) == Flat(Clamp(idx, d), d, n) < Prod(d, n)
  {
    if n > 0 {
      OffsetIsFlat(d, m, n - 1, idx);
      FlatBound(idx, m, n - 1);
      var i := idx[n - 1];
      SplitIndex(i, Flat(idx, m, n - 1), Prod(m, n - 1));
      assert i * (if i < d[n - 1] then 1 else 0) == Clamp(idx, d)[n - 1];
    }
    FlatBound(Clamp(idx, d), d, n);
  }

  /** One vector after the axes before n, and k further cells of block i. */
  ghost predicate Filled(v: seq<int>, d: seq<nat>, m: seq<nat>, n: nat, size: nat) {
    && n <= |d| == |m| && Positive(m) && |v| == size
    && forall o: nat :: o < size ==> v[o] == Offset(d, m, n, o)
  }

  lemma OffsetSplit(d: seq<nat>, m: seq<nat>, n: nat, i: nat, k: nat)
    requires n < |d| == |m| && Positive(m) && k < Prod(m, n)
    ensures Offset(d, m, n + 1, i * Prod(m, n) + k) == Offset(d, m, n, k) + Shift(i, d[n], Prod(d, n))
  {
    hide Shift;
    QuotientIs(i * Prod(m, n) + k, Prod(m, n), i);
  }

  /** The first block of an axis is what was there before. */
  lemma OffsetFirst(d: seq<nat>, m: seq<nat>, n: nat, k: nat)
    requires n < |d| == |m| && Positive(m) && k < Prod(m, n)
    ensures Offset(d, m, n + 1, k) == Offset(d, m, n, k)
  {
    hide Offset;
    OffsetSplit(d, m, n, 0, k);
  }

  lemma FirstBlock(v: seq<int>, d: seq<nat>, m: seq<nat>, n: nat)
    requires n < |d| == |m| && Filled(v, d, m, n, Prod(m, n))
    ensures Filled(v, d, m, n + 1, Prod(m, n))
  {
    hide Offset, Prod;
    forall o: nat | o < Prod(m, n) ensures v[o] == Offset(d, m, n + 1, o) { OffsetFirst(d, m, n, o); }
  }

  lemma NextCell(v: seq<int>, d: seq<nat>, m: seq<nat>, n: nat, i: nat, k: nat)
    requires n < |d| == |m| && k < Prod(m, n) && i >= 1 && Filled(v, d, m, n + 1, i * Prod(m, n) + k)
    ensures k < |v| && Filled(v + [v[k] + Shift(i, d[n], Prod(d, n))], d, m, n + 1, i * Prod(m, n) + k + 1)
  {
    hide Offset, Prod, Shift;
    Scaled(1, i, Prod(m, n));
    OffsetSplit(d, m, n, i, k);
    OffsetFirst(d, m, n, k);
  }

  // ------------------------------------------------------------------
  // The computation

  /** The operator reads both operands and their feature shapes differ. */
  predicate NeedsBcast(op: string, lhs: seq<nat>, rhs: seq<nat>) {
    op != "copy_lhs" && op != "copy_rhs" && (|lhs| != |rhs| || (|lhs| > 0 && lhs[1..] != rhs[1..]))
  }

  method UseBcast(op: string, lhs: seq<nat>, rhs: seq<nat>) returns (b: bool)
    ensures b <==> NeedsBcast(op, lhs, rhs)
  {
    if op == "copy_lhs" || op == "copy_rhs" { return false; }
    if |lhs| != |rhs| { return true; }
    var i := 1;
    while i < |lhs|
      invariant 1 <= i && (i <= |lhs| || |lhs| == 0)
      invariant forall k :: 1 <= k < i && k < |lhs| ==> lhs[k] == rhs[k]
    {
      if lhs[i] != rhs[i] {
        assert lhs[1..][i - 1] != rhs[1..][i - 1];
        return true;
      }
      i := i + 1;
    }
    assert |lhs| > 0 ==> lhs[1..] == rhs[1..];
    return false;
  }

  /** The shapes an operation accepts: at least a batch and one feature axis, no empty
      axis, and axes that are equal or 1, the reduced axis of `dot` being equal. */
  ghost predicate Compatible(op: string, lhs: seq<nat>, rhs: seq<nat>) {
    && |lhs| >= 2 && |rhs| >= 2 && Positive(lhs) && Positive(rhs)
    && (op != "copy_lhs" && op != "copy_rhs" ==>
      forall j: nat :: j < Max(|lhs|, |rhs|) ==> Axis(lhs, j) == Axis(rhs, j) || Axis(lhs, j) == 1 || Axis(rhs, j) == 1)
    && (op == "dot" ==> Axis(lhs, 0) == Axis(rhs, 0))
  }

  /** One axis of the output: the block of the earlier axes is repeated, shifted by
      the stride on the operands that have the axis. */
  method AddAxis(lo: seq<int>, ro: seq<int>, dl: nat, dr: nat, strideL: nat, strideR: nat, outLen: nat,
                 ghost d: seq<nat>, ghost e: seq<nat>, ghost m: seq<nat>, ghost n: nat)
    returns (lo': seq<int>, ro': seq<int>)
    requires n < |d| == |e| == |m| && dl == d[n] && dr == e[n] && m[n] == Max(dl, dr)
    requires strideL == Prod(d, n) && strideR == Prod(e, n) && outLen == Prod(m, n)
    requires Filled(lo, d, m, n, outLen) && Filled(ro, e, m, n, outLen)
    ensures Filled(lo', d, m, n + 1, Prod(m, n + 1)) && Filled(ro', e, m, n + 1, Prod(m, n + 1))
  {
    hide Offset, Filled, Prod;
    FirstBlock(lo, d, m, n);
    FirstBlock(ro, e, m, n);
    FilledPositive(lo, d, m, n, outLen);
    lo', ro' := lo, ro;
    var i := 1;
    while i < Max(dl, dr)
      invariant 1 <= i <= m[n]
      invariant Filled(lo', d, m, n + 1, i * outLen) && Filled(ro', e, m, n + 1, i * outLen)
    {
      var k := 0;
      assert i * outLen + 0 == i * outLen;
      while k < outLen
        invariant 0 <= k <= outLen
        invariant Filled(lo', d, m, n + 1, i * outLen + k) && Filled(ro', e, m, n + 1, i * outLen + k)
      {
        NextCell(lo', d, m, n, i, k);
        NextCell(ro', e, m, n, i, k);
        lo' := lo' + [lo'[k] + i * (if i < dl then 1 else 0) * strideL];
        ro' := ro' + [ro'[k] + i * (if i < dr then 1 else 0) * strideR];
        k := k + 1;
      }
      assert (i + 1) * outLen == i * outLen + outLen;
      i := i + 1;
    }
    ProdStep(m, n);
  }

  lemma FilledPositive(v: seq<int>, d: seq<nat>, m: seq<nat>, n: nat, size: nat)
    requires Filled(v, d, m, n, size) && n < |m|
    ensures m[n] >= 1
  {
  }

  lemma ProdStep(m: seq<nat>, n: nat)
    requires n < |m|
    ensures Prod(m, n + 1) == m[n] * Prod(m, n)
  {
  }

  /** The feature axes of both operands and of the output, from the back; the reduced
      axis of `dot` is left out. */
  function First(op: string): nat {
    if op == "dot" then 1 else 0
  }

  function Last(lhs: seq<nat>, rhs: seq<nat>): int {
    Max(|lhs|, |rhs|) - 1
  }

  function OutAxes(op: string, lhs: seq<nat>, rhs: seq<nat>): seq<nat>
    requires |lhs| >= 2 && |rhs| >= 2
  {
    Wider(Axes(lhs, First(op), Last(lhs, rhs)), Axes(rhs, First(op), Last(lhs, rhs)))
  }

  lemma AxesOk(op: string, lhs: seq<nat>, rhs: seq<nat>)
    requires Compatible(op, lhs, rhs) && op != "copy_lhs" && op != "copy_rhs"
    ensures var d, e := Axes(lhs, First(op), Last(lhs, rhs)), Axes(rhs, First(op), Last(lhs, rhs));
      var m := OutAxes(op, lhs, rhs);
      Positive(d) && Positive(e) && Positive(m) && Broadcasts(d, m) && Broadcasts(e, m)
  {
    var d, e := Axes(lhs, First(op), Last(lhs, rhs)), Axes(rhs, First(op), Last(lhs, rhs));
    forall t | 0 <= t < |d|
      ensures d[t] >= 1 && e[t] >= 1 && (d[t] == e[t] || d[t] == 1 || e[t] == 1)
    {
      var j: nat := First(op) + t;
      assert d[t] == Axis(lhs, j) && e[t] == Axis(rhs, j);
    }
  }

  /** The number of elements per batch entry. */
  method FeatureLength(shape: seq<nat>) returns (len: int)
    requires |shape| >= 1
    ensures len == Prod(shape[1..], |shape| - 1)
  {
    len := 1;
    for i := 1 to |shape|
      invariant len == Prod(shape[1..], i - 1)
    {
      len := len * shape[i];
    }
  }

  lemma OutRank(op: string, lhs: seq<nat>, rhs: seq<nat>)
    requires |lhs| >= 2 && |rhs| >= 2
    ensures |OutAxes(op, lhs, rhs)| == Last(lhs, rhs) - First(op)
  {
  }

  /** The axes of the operands and of the output at one step. */
  lemma AxesAt(op: string, lhs: seq<nat>, rhs: seq<nat>, n: nat)
    requires |lhs| >= 2 && |rhs| >= 2 && n < Last(lhs, rhs) - First(op)
    ensures var d, e := Axes(lhs, First(op), Last(lhs, rhs)), Axes(rhs, First(op), Last(lhs, rhs));
      var m, j := OutAxes(op, lhs, rhs), First(op) + n;
      && n < |m| && m[n] == Max(d[n], e[n])
      && d[n] == (if |lhs| - 1 - j < 1 then 1 else lhs[|lhs| - 1 - j])
      && e[n] == (if |rhs| - 1 - j < 1 then 1 else rhs[|rhs| - 1 - j])
  {
  }

  /** The two offset vectors, axis by axis from the back. */
  method Offsets(op: string, lhs: seq<nat>, rhs: seq<nat>) returns (lo: seq<int>, ro: seq<int>, outLen: nat)
    requires Compatible(op, lhs, rhs) && op != "copy_lhs" && op != "copy_rhs"
    ensures |lhs| >= 2 && |rhs| >= 2
    ensures var d, e := Axes(lhs, First(op), Last(lhs, rhs)), Axes(rhs, First(op), Last(lhs, rhs));
      var m := OutAxes(op, lhs, rhs);
      outLen == Prod(m, |m|) && Filled(lo, d, m, |m|, outLen) && Filled(ro, e, m, |m|, outLen)
  {
    hide Offset, Filled, Prod, Compatible, Axes, OutAxes, Axis;
    CompatibleRank(op, lhs, rhs);
    OutRank(op, lhs, rhs);
    ghost var d, e := Axes(lhs, First(op), Last(lhs, rhs)), Axes(rhs, First(op), Last(lhs, rhs));
    ghost var m := OutAxes(op, lhs, rhs);
    AxesOk(op, lhs, rhs);
    var maxDim := Max(|lhs|, |rhs|) - 1;
    var j := if op == "dot" then 1 else 0;
    var strideL, strideR := 1, 1;
    outLen := 1;
    lo, ro := [0], [0];
    FilledFirst(d, m);
    FilledFirst(e, m);
    while j < maxDim
      invariant First(op) <= j <= maxDim
      invariant outLen == Prod(m, j - First(op)) && strideL == Prod(d, j - First(op))
      invariant strideR == Prod(e, j - First(op))
      invariant Filled(lo, d, m, j - First(op), outLen) && Filled(ro, e, m, j - First(op), outLen)
    {
      var dl := if |lhs| - 1 - j < 1 then 1 else lhs[|lhs| - 1 - j];
      var dr := if |rhs| - 1 - j < 1 then 1 else rhs[|rhs| - 1 - j];
      ghost var n := j - First(op);
      AxesAt(op, lhs, rhs, n);
      lo, ro := AddAxis(lo, ro, dl, dr, strideL, strideR, outLen, d, e, m, n);
      ProdStep(m, n);
      ProdStep(d, n);
      ProdStep(e, n);
      outLen := outLen * Max(dl, dr);
      strideL, strideR := strideL * dl, strideR * dr;
      j := j + 1;
    }
  }

  method CalcBcastOff(op: string, lhs: seq<nat>, rhs: seq<nat>) returns (r: BcastOff)
    requires Compatible(op, lhs, rhs)
    ensures r.useBcast <==> NeedsBcast(op, lhs, rhs)
    ensures r.lhsLen == Prod(lhs[1..], |lhs| - 1) && r.rhsLen == Prod(rhs[1..], |rhs| - 1)
    ensures r.reduceSize == if op == "dot" then Axis(lhs, 0) else 1
    ensures r.useBcast ==> BcastRight(op, lhs, rhs, r)
    ensures !r.useBcast ==> r.outLen * r.reduceSize == if op == "copy_rhs" then r.rhsLen else r.lhsLen
    ensures !r.useBcast && op != "copy_lhs" && op != "copy_rhs" ==> r.lhsLen == r.rhsLen
  {
    hide Offset, Filled, Prod, Compatible;
    CompatibleRank(op, lhs, rhs);
    var lhsLen := FeatureLength(lhs);
    var rhsLen := FeatureLength(rhs);
    var useBcast := UseBcast(op, lhs, rhs);
    var reduceSize := 1;
    if useBcast {
      if op == "dot" { reduceSize := lhs[|lhs| - 1]; }
      var lo, ro, outLen := Offsets(op, lhs, rhs);
      r := BcastOff(lo, ro, true, lhsLen, rhsLen, outLen, reduceSize);
      FilledRight(op, lhs, rhs, r);
    } else {
      var outLen := if op == "copy_rhs" then rhsLen else lhsLen;
      if op == "dot" {
        reduceSize := lhs[|lhs| - 1];
        LastFactor(op, lhs, rhs);
        outLen := outLen / reduceSize;
      }
      if op != "copy_lhs" && op != "copy_rhs" { assert lhs[1..] == rhs[1..]; }
      r := BcastOff([], [], false, lhsLen, rhsLen, outLen, reduceSize);
    }
  }

  lemma CompatibleRank(op: string, lhs: seq<nat>, rhs: seq<nat>)
    requires Compatible(op, lhs, rhs)
    ensures |lhs| >= 2 && |rhs| >= 2 && (op == "dot" ==> Axis(lhs, 0) == Axis(rhs, 0))
  {
  }

  lemma LastFactor(op: string, lhs: seq<nat>, rhs: seq<nat>)
    requires Compatible(op, lhs, rhs)
    ensures var n, last := |lhs| - 1, lhs[|lhs| - 1];
      last >= 1 && Prod(lhs[1..], n) / last * last == Prod(lhs[1..], n)
  {
    var n, last := |lhs| - 1, lhs[|lhs| - 1];
    var p := Prod(lhs[1..], n - 1);
    assert Prod(lhs[1..], n) == p * last;
    SplitIndex(p, 0, last);
  }

  lemma {:induction false} ProdCons(a: nat, d: seq<nat>, n: nat)
    requires n <= |d|
    ensures Prod([a] + d, n + 1) == a * Prod(d, n)
  {
    if n > 0 {
      ProdCons(a, d, n - 1);
      assert Prod([a] + d, n + 1) == Prod([a] + d, n) * d[n - 1] == a * Prod(d, n - 1) * d[n - 1];
      Associate(a, Prod(d, n - 1), d[n - 1]);
    } else {
      assert Prod([a] + d, 1) == Prod([a] + d, 0) * a;
    }
  }

  lemma Associate(a: nat, b: nat, c: nat)
    ensures a * b * c == a * (b * c)
  {
  }

  /** The axes counted from the back are the axes counted from the front. */
  lemma {:induction false} BackIsFront(shape: seq<nat>, a: nat)
    requires a <= |shape| - 1
    ensures Prod(Axes(shape, a, |shape| - 1), |shape| - 1 - a) == Prod(shape[1..], |shape| - 1 - a)
    decreases |shape| - a
  {
    var L := |shape| - 1;
    if a < L {
      BackIsFront(shape, a + 1);
      assert Axes(shape, a, L) == [Axis(shape, a)] + Axes(shape, a + 1, L);
      ProdCons(Axis(shape, a), Axes(shape, a + 1, L), L - a - 1);
    }
  }

  lemma {:induction false} MissingAxes(shape: seq<nat>, a: nat, b: nat)
    requires 1 <= |shape| && a <= |shape| - 1 <= b
    ensures Prod(Axes(shape, a, b), b - a) == Prod(Axes(shape, a, |shape| - 1), |shape| - 1 - a)
    decreases b
  {
    if b > |shape| - 1 {
      MissingAxes(shape, a, b - 1);
      ProdPrefix(Axes(shape, a, b), Axes(shape, a, b - 1), b - 1 - a);
    }
  }

  lemma {:induction false} ProdPrefix(d: seq<nat>, e: seq<nat>, n: nat)
    requires n <= |d| && n <= |e| && forall t :: 0 <= t < n ==> d[t] == e[t]
    ensures Prod(d, n) == Prod(e, n)
  {
    if n > 0 { ProdPrefix(d, e, n - 1); }
  }

  /** The operand has as many elements as its axes say, times the reduced axis. */
  lemma OperandLength(op: string, shape: seq<nat>, to: nat)
    requires |shape| >= 2 && |shape| - 1 <= to
    ensures Prod(shape[1..], |shape| - 1)
         == Prod(Axes(shape, First(op), to), to - First(op)) * (if op == "dot" then Axis(shape, 0) else 1)
  {
    MissingAxes(shape, First(op), to);
    BackIsFront(shape, First(op));
  }

  lemma FilledFirst(d: seq<nat>, m: seq<nat>)
    requires |d| == |m| && Positive(m)
    ensures Prod(m, 0) == 1 && Prod(d, 0) == 1 && Filled([0], d, m, 0, 1)
  {
  }

  /** Cell o of both vectors belongs to the o-th output element: for every multi-index
      of the output the cells at its row-major position hold the row-major positions in
      the operands, taking 0 on broadcast axes, and these lie inside the operands. */
  ghost predicate BcastRight(op: string, lhs: seq<nat>, rhs: seq<nat>, r: BcastOff)
    requires |lhs| >= 2 && |rhs| >= 2
  {
    var d, e := Axes(lhs, First(op), Last(lhs, rhs)), Axes(rhs, First(op), Last(lhs, rhs));
    var m := OutAxes(op, lhs, rhs);
    && r.outLen == Prod(m, |m|) == |r.lhsOffset| == |r.rhsOffset|
    && r.lhsLen == Prod(d, |d|) * r.reduceSize && r.rhsLen == Prod(e, |e|) * r.reduceSize
    && (forall idx: seq<nat> :: |idx| == |m| && IndexOf(idx, m, |m|) ==>
      CellRight(idx, d, m, r.lhsOffset) && CellRight(idx, e, m, r.rhsOffset))
    && (forall o: nat :: o < r.outLen ==> HasIndex(m, o))
  }

  ghost predicate CellRight(idx: seq<nat>, d: seq<nat>, m: seq<nat>, v: seq<int>)
    requires |idx| == |d| == |m|
  {
    && Flat(idx, m, |m|) < |v| && v[Flat(idx, m, |m|)] == Flat(Clamp(idx, d), d, |d|)
    && 0 <= v[Flat(idx, m, |m|)] < Prod(d, |d|)
  }

  ghost predicate HasIndex(m: seq<nat>, o: nat) {
    exists idx: seq<nat> :: |idx| == |m| && IndexOf(idx, m, |m|) && Flat(idx, m, |m|) == o
  }

  lemma FilledRight(op: string, lhs: seq<nat>, rhs: seq<nat>, r: BcastOff)
    requires Compatible(op, lhs, rhs) && op != "copy_lhs" && op != "copy_rhs"
    requires var d, e := Axes(lhs, First(op), Last(lhs, rhs)), Axes(rhs, First(op), Last(lhs, rhs));
      var m := OutAxes(op, lhs, rhs);
      r.lhsLen == Prod(lhs[1..], |lhs| - 1) && r.rhsLen == Prod(rhs[1..], |rhs| - 1)
      && r.reduceSize == (if op == "dot" then Axis(lhs, 0) else 1) == (if op == "dot" then Axis(rhs, 0) else 1)
      && r.outLen == Prod(m, |m|) && Filled(r.lhsOffset, d, m, |m|, Prod(m, |m|))
      && Filled(r.rhsOffset, e, m, |m|, Prod(m, |m|))
    ensures BcastRight(op, lhs, rhs, r)
  {
    hide Compatible, Prod, Flat, Clamp, Offset, CellRight, Filled, IndexOf, HasIndex;
    CompatibleRank(op, lhs, rhs);
    AxesOk(op, lhs, rhs);
    OperandLength(op, lhs, Last(lhs, rhs));
    OperandLength(op, rhs, Last(lhs, rhs));
    var d, e := Axes(lhs, First(op), Last(lhs, rhs)), Axes(rhs, First(op), Last(lhs, rhs));
    var m := OutAxes(op, lhs, rhs);
    forall idx: seq<nat> | |idx| == |m| && IndexOf(idx, m, |m|)
      ensures CellRight(idx, d, m, r.lhsOffset) && CellRight(idx, e, m, r.rhsOffset)
    {
      FilledCell(d, m, r.lhsOffset, idx);
      FilledCell(e, m, r.rhsOffset, idx);
    }
    FilledSize(r.lhsOffset, d, m);
    FilledSize(r.rhsOffset, e, m);
    forall o: nat | o < Prod(m, |m|) ensures HasIndex(m, o) { IndexExists(m, o); }
  }

  lemma IndexExists(m: seq<nat>, o: nat)
    requires Positive(m) && o < Prod(m, |m|)
    ensures HasIndex(m, o)
  {
    var idx := Unflatten(m, |m|, o);
  }

  lemma FilledSize(v: seq<int>, d: seq<nat>, m: seq<nat>)
    requires Filled(v, d, m, |m|, Prod(m, |m|))
    ensures |v| == Prod(m, |m|)
  {
  }

  lemma FilledCell(d: seq<nat>, m: seq<nat>, v: seq<int>, idx: seq<nat>)
    requires |idx| == |d| == |m| && Positive(m) && Positive(d) && Broadcasts(d, m) && IndexOf(idx, m, |m|)
    requires Filled(v, d, m, |m|, Prod(m, |m|))
    ensures CellRight(idx, d, m, v)
  {
    hide Prod, Flat, Clamp, Offset;
    FlatBound(idx, m, |m|);
    OffsetIsFlat(d, m, |m|, idx);
  }

  /** Without broadcasting an operand has the axes of the output, and its cell is the
      output's own: no offset vector is needed. */
  lemma UnbroadcastFlat(op: string, lhs: seq<nat>, rhs: seq<nat>, idx: seq<nat>)
    requires |lhs| >= 2 && |rhs| >= 2 && op != "copy_lhs" && op != "copy_rhs" && !NeedsBcast(op, lhs, rhs)
    requires var m := OutAxes(op, lhs, rhs); |idx| == |m| && IndexOf(idx, m, |m|)
    ensures var d, e := Axes(lhs, First(op), Last(lhs, rhs)), Axes(rhs, First(op), Last(lhs, rhs));
      var m := OutAxes(op, lhs, rhs);
      && d == e == m && Flat(Clamp(idx, d), d, |d|) == Flat(Clamp(idx, e), e, |e|) == Flat(idx, m, |m|)
  {
    var d, e := Axes(lhs, First(op), Last(lhs, rhs)), Axes(rhs, First(op), Last(lhs, rhs));
    var m := OutAxes(op, lhs, rhs);
    forall t | 0 <= t < |d| ensures d[t] == e[t] == m[t] {
      var k := |lhs| - 1 - (First(op) + t);
      if k >= 1 { assert lhs[1..][k - 1] == rhs[1..][k - 1]; }
    }
    assert d == e == m;
    assert Clamp(idx, d) == idx;
  }
}
