/** Sum-of-squares probing of the concurrent id hash map: table size, probe
    sequence, and the proof that the sequence visits every slot.

    Source: graphbolt/src/concurrent_id_hash_map.cc. */
module Probing {
  import opened Arithmetic
  import opened Collections

  function Pow2(m: nat): (p: nat)
    ensures p >= 1
  {
    if m == 0 then 1 else 2 * Pow2(m - 1)
  }

  function FloorLog2(x: nat): (m: nat)
    requires x >= 1
    ensures Pow2(m) <= x < 2 * Pow2(m)
  {
    if x == 1 then 0 else 1 + FloorLog2(x / 2)
  }

  /** The number of mask bits of the table for `num` ids. */
  function MapBits(num: nat): (m: nat)
    requires num >= 1
  {
    1 + FloorLog2(num * 3)
  }

  /** `GetMapSize`: a power of two that leaves more than two thirds of the table free. */
  function MapSize(num: nat): (capacity: nat)
    requires num >= 1
    ensures 3 * num < capacity <= 6 * num
  {
    Pow2(MapBits(num))
  }

  /** `x & (capacity - 1)` for a power of two, on two's complement `x`. */
  function Masked(x: int, capacity: nat): (r: nat)
    requires capacity >= 1
    ensures r < capacity
  {
    x % capacity
  }

  /** One call of `Next` on (pos, delta). */
  function Next(pos: int, delta: int, capacity: nat): (r: (nat, int))
    requires capacity >= 1
    ensures r.0 < capacity
  {
    (Masked(pos + delta * delta, capacity), delta + 1)
  }

  /** (pos, delta) after `k` calls of `Next`, starting from `id & mask_` and 1. */
  function Walk(id: int, k: nat, capacity: nat): (r: (nat, int))
    requires capacity >= 1
    ensures r.0 < capacity
  {
    if k == 0 then (Masked(id, capacity), 1)
    else var (pos, delta) := Walk(id, k - 1, capacity); Next(pos, delta, capacity)
  }

  function SumSquares(k: nat): nat {
    if k == 0 then 0 else SumSquares(k - 1) + k * k
  }

  /** The slot inspected after `k` failed probes. */
  function Slot(id: int, k: nat, capacity: nat): (s: nat)
    requires capacity >= 1
    ensures s < capacity
  {
    (id + SumSquares(k)) % capacity
  }

  lemma ModAdd(x: int, y: int, n: nat)
    requires n >= 1
    ensures (x % n + y) % n == (x + y) % n
  {
    var q := x / n;
    assert x == q * n + x % n;
    ModShift(x % n + y, q, n);
  }

  lemma {:induction false} ModShift(x: int, q: int, n: nat)
    requires n >= 1
    ensures (x + q * n) % n == x % n
    decreases if q < 0 then -q else q
  {
    if q > 0 {
      ModShift(x, q - 1, n);
      assert x + q * n == (x + (q - 1) * n) + n;
      assert (x + (q - 1) * n + n) % n == (x + (q - 1) * n) % n by { ModPlus(x + (q - 1) * n, n); }
    } else if q < 0 {
      ModShift(x, q + 1, n);
      assert x + (q + 1) * n == (x + q * n) + n;
      ModPlus(x + q * n, n);
    }
  }

  lemma ModPlus(x: int, n: nat)
    requires n >= 1
    ensures (x + n) % n == x % n
  {
    var q, r := x / n, x % n;
    assert x + n == (q + 1) * n + r;
    QuotientIs(x + n, n, q + 1);
  }

  /** The only multiple of n strictly between -n and n is zero. */
  lemma SmallMultiple(a: int, n: int, x: int)
    requires n >= 1 && x == a * n && -n < x < n
    ensures a == 0
  {
    MultipleAtLeast(a - 1, n);
    MultipleAtLeast(-a - 1, n);
    assert (a - 1) * n == x - n && (-a - 1) * n == -x - n;
  }

  lemma MultipleAtLeast(a: int, n: int)
    requires n >= 1
    ensures a >= 0 ==> a * n >= 0
  {
  }

  lemma CongruentDifference(x: int, y: int, n: nat) returns (q: int)
    requires n >= 1 && x % n == y % n
    ensures x - y == q * n
  {
    q := x / n - y / n;
    assert x == (x / n) * n + x % n && y == (y / n) * n + y % n;
    assert q * n == (x / n) * n - (y / n) * n;
  }

  /** The incremental walk of the source is the closed-form probe sequence. */
  lemma {:induction false} WalkIsSlot(id: int, k: nat, capacity: nat)
    requires capacity >= 1
    ensures Walk(id, k, capacity) == (Slot(id, k, capacity), k + 1)
  {
    if k > 0 {
      WalkIsSlot(id, k - 1, capacity);
      WalkStep(id + SumSquares(k - 1), k, capacity);
    }
  }

  lemma WalkStep(x: int, k: int, capacity: nat)
    requires capacity >= 1
    ensures Next(x % capacity, k, capacity) == ((x + k * k) % capacity, k + 1)
  {
    ModAdd(x, k * k, capacity);
  }

  // ------------------------------------------------------------------
  // Coverage

  /** Three times the offset reached after 2j probes. */
  function Cubic(j: nat): nat { 8 * j * j * j + 6 * j * j + j }

  lemma {:induction false} EvenOffset(j: nat)
    ensures 3 * SumSquares(2 * j) == Cubic(j)
  {
    hide SumSquares, Cubic;
    if j > 0 {
      EvenOffset(j - 1);
      TwoSquares(j - 1);
    } else {
      NoSquares();
    }
  }

  lemma NoSquares()
    ensures SumSquares(0) == 0 && Cubic(0) == 0
  {
  }

  lemma TwoSquares(i: nat)
    ensures 3 * SumSquares(2 * i + 2) - Cubic(i + 1) == 3 * SumSquares(2 * i) - Cubic(i)
  {
    hide Cubic;
    assert SumSquares(2 * i + 2) == SumSquares(2 * i) + (2 * i + 1) * (2 * i + 1) + (2 * i + 2) * (2 * i + 2);
    CubicStep(i);
  }

  lemma CubicStep(i: nat)
    ensures Cubic(i + 1) == Cubic(i) + 3 * ((2 * i + 1) * (2 * i + 1) + (2 * i + 2) * (2 * i + 2))
  {
  }

  /** The odd cofactor in Cubic(a) - Cubic(b) = (a - b) * Cofactor(a, b). */
  function Cofactor(a: nat, b: nat): nat { 2 * (4 * (a * a + a * b + b * b) + 3 * (a + b)) + 1 }

  lemma CubicDifference(a: nat, b: nat)
    ensures Cubic(a) - Cubic(b) == (a - b) * Cofactor(a, b)
  {
    hide Cubic;
    var s, t := a * a + a * b + b * b, a + b;
    CubesDiffer(a, b);
    SquaresDiffer(a, b);
    CofactorSplits(a - b, s, t);
    CubicIs(a);
    CubicIs(b);
    assert Cofactor(a, b) == 2 * (4 * s + 3 * t) + 1;
  }

  lemma CubicIs(j: nat)
    ensures Cubic(j) == 8 * (j * j * j) + 6 * (j * j) + j
  {
  }

  lemma SquaresDiffer(a: int, b: int)
    ensures (a - b) * (a + b) == a * a - b * b
  {
  }

  lemma CubesDiffer(a: int, b: int)
    ensures (a - b) * (a * a + a * b + b * b) == a * a * a - b * b * b
  {
    assert a * (a * a + a * b + b * b) == a * a * a + a * a * b + a * b * b;
    assert b * (a * a + a * b + b * b) == a * a * b + a * b * b + b * b * b;
  }

  lemma CofactorSplits(d: int, s: int, t: int)
    ensures d * (2 * (4 * s + 3 * t) + 1) == 8 * (d * s) + 6 * (d * t) + d
  {
  }

  /** If an odd multiple is even so is the number. */
  lemma HalfFactor(d: int, c: nat, q: int, p: nat) returns (h: int)
    requires d * (2 * c + 1) == q * (2 * p)
    ensures d == 2 * h && h * (2 * c + 1) == q * p
  {
    h := q * p - d * c;
    assert q * (2 * p) == 2 * (q * p);
    assert d * (2 * c + 1) == 2 * (d * c) + d;
    assert 2 * (h * (2 * c + 1)) == d * (2 * c + 1);
  }

  /** An odd factor does not help a power of two divide. */
  lemma {:induction false} OddFactor(m: nat, d: int, c: nat, q: int)
    requires d * (2 * c + 1) == q * Pow2(m)
    ensures exists e :: d == e * Pow2(m)
  {
    if m == 0 {
      assert d == d * Pow2(0);
    } else {
      var p := Pow2(m - 1);
      var h := HalfFactor(d, c, q, p);
      OddFactor(m - 1, h, c, q);
      var e :| h == e * p;
      assert d == e * Pow2(m);
    }
  }

  lemma EvenDifference(a: nat, b: nat, c: nat, x: int)
    requires SumSquares(2 * a) - SumSquares(2 * b) == x && c == 4 * (a * a + a * b + b * b) + 3 * (a + b)
    ensures (a - b) * (2 * c + 1) == 3 * x
  {
    hide SumSquares, Cubic;
    EvenOffset(a);
    EvenOffset(b);
    CubicDifference(a, b);
    assert Cofactor(a, b) == 2 * c + 1;
  }

  lemma EqualEvenProbes(id: int, m: nat, a: nat, b: nat) returns (e: int)
    requires Slot(id, 2 * a, Pow2(m)) == Slot(id, 2 * b, Pow2(m))
    ensures a - b == e * Pow2(m)
  {
    hide SumSquares, Pow2;
    var n := Pow2(m);
    var q := CongruentDifference(id + SumSquares(2 * a), id + SumSquares(2 * b), n);
    var d, c := a - b, 4 * (a * a + a * b + b * b) + 3 * (a + b);
    EvenDifference(a, b, c, q * n);
    TripleMultiple(q, n);
    OddFactor(m, d, c, 3 * q);
    e :| d == e * n;
  }

  lemma TripleMultiple(q: int, n: int)
    ensures 3 * (q * n) == (3 * q) * n
  {
  }

  lemma EvenProbesDistinct(id: int, m: nat, a: nat, b: nat)
    requires b < a < Pow2(m)
    ensures Slot(id, 2 * a, Pow2(m)) != Slot(id, 2 * b, Pow2(m))
  {
    if Slot(id, 2 * a, Pow2(m)) == Slot(id, 2 * b, Pow2(m)) {
      var e := EqualEvenProbes(id, m, a, b);
      SmallMultiple(e, Pow2(m), a - b);
    }
  }

  /** The first `k` even probes visit `k` different slots. */
  lemma {:induction false} EvenProbesCount(id: int, m: nat, k: nat) returns (visited: set<nat>)
    requires k <= Pow2(m)
    ensures |visited| == k
    ensures forall s <- visited :: s < Pow2(m) && exists j :: 0 <= j < k && Slot(id, 2 * j, Pow2(m)) == s
    ensures forall j :: 0 <= j < k ==> Slot(id, 2 * j, Pow2(m)) in visited
  {
    visited := {};
    if k > 0 {
      var before := EvenProbesCount(id, m, k - 1);
      var s := Slot(id, 2 * (k - 1), Pow2(m));
      if s in before {
        var j :| 0 <= j < k - 1 && Slot(id, 2 * j, Pow2(m)) == s;
        EvenProbesDistinct(id, m, k - 1, j);
      }
      visited := before + {s};
    }
  }

  /** Every slot is reached within `2 * capacity` probes, from any home slot. */
  lemma ProbesCoverTable(id: int, m: nat, slot: nat) returns (k: nat)
    requires slot < Pow2(m)
    ensures k < 2 * Pow2(m) && Slot(id, k, Pow2(m)) == slot
  {
    var n := Pow2(m);
    var visited := EvenProbesCount(id, m, n);
    SubsetSize(visited, Range(n));
    assert slot in Range(n);
    var j :| 0 <= j < n && Slot(id, 2 * j, n) == slot;
    k := 2 * j;
  }

  /** Fixed-width wrap-around of `delta * delta` cannot change the probe: the
      word size is a multiple of the capacity. */
  lemma WrapKeepsSlot(pos: int, delta: int, capacity: nat, words: nat)
    requires capacity >= 1 && words >= 1
    ensures Masked((pos + delta * delta) % (words * capacity), capacity) == Masked(pos + delta * delta, capacity)
  {
    var x, w := pos + delta * delta, words * capacity;
    assert w >= 1;
    var q := x / w;
    assert x == x % w + (q * words) * capacity by {
      assert x == q * w + x % w;
      assert q * (words * capacity) == (q * words) * capacity;
    }
    ModShift(x % w, q * words, capacity);
  }
}
