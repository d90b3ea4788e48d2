/** Neighbour sampling for one column: how many edges to pick, and picking them
    uniformly or by weight. Randomness is an arbitrary oracle.

    Source: graphbolt/src/fused_csc_sampling_graph.cc. */
module Sampling {

  import opened Arithmetic
  import opened Collections

  // ------------------------------------------------------------------
  // How many edges are picked

  /** Indices of the nonzero weights, ascending (`nonzero`). */
  function Nonzero(w: seq<real>): (r: seq<int>)
    ensures |r| <= |w| && forall k :: 0 <= k < |r| ==> 0 <= r[k] < |w| && w[r[k]] != 0.0
  {
    if w == [] then []
    else
      var n := |w| - 1;
      var r := Nonzero(w[..n]);
      if w[n] != 0.0 then r + [n] else r
  }

  lemma NonzeroLast(w: seq<real>)
    requires |w| > 0
    ensures var n := |w| - 1; Nonzero(w) == if w[n] != 0.0 then Nonzero(w[..n]) + [n] else Nonzero(w[..n])
  {
  }

  lemma NonzeroEmpty(w: seq<real>)
    requires w == []
    ensures Nonzero(w) == []
  {
  }

  lemma {:induction false} NonzeroOrdered(w: seq<real>)
    ensures var r := Nonzero(w); forall i, j :: 0 <= i < j < |r| ==> r[i] < r[j]
    ensures Distinct(Nonzero(w)) && forall i :: 0 <= i < |w| && w[i] != 0.0 ==> i in Nonzero(w)
  {
    hide Nonzero;
    if w != [] {
      var n := |w| - 1;
      NonzeroOrdered(w[..n]);
      NonzeroLast(w);
      forall i | 0 <= i < |w| && w[i] != 0.0 ensures i in Nonzero(w) {
        if i < n {
          assert w[..n][i] == w[i];
          assert i in Nonzero(w[..n]);
        }
      }
    }
  }

  /** Weights of the whole graph, or of the column alone. */
  predicate HasColumn(probs: Option<seq<real>>, offset: nat, n: nat) {
    probs.Some? ==> offset + n <= |probs.value| || |probs.value| == n
  }

  /** The weights of a column: a vector no longer than the column is the column's
      own, and without weights every edge counts. */
  function Local(probs: Option<seq<real>>, offset: nat, n: nat): (w: seq<real>)
    requires HasColumn(probs, offset, n)
    ensures |w| == n
  {
    if probs.None? then seq(n, _ => 1.0)
    else if |probs.value| > n then probs.value[offset..offset + n]
    else probs.value
  }

  lemma {:induction false} NonzeroOnes(n: nat)
    ensures |Nonzero(seq(n, _ => 1.0))| == n
  {
    if n > 0 {
      assert seq(n, _ => 1.0)[..n - 1] == seq(n - 1, _ => 1.0);
      NonzeroOnes(n - 1);
    }
  }

  /** The number of edges to pick when `valid` of them may be picked. */
  function PickCount(fanout: int, replace: bool, valid: nat): int {
    if valid == 0 || fanout == -1 then valid
    else if replace || fanout < valid then fanout
    else valid
  }

  /** How many of the column's weights are zero. */
  method CountZeros(probs: seq<real>, offset: nat, n: nat) returns (zeros: nat)
    requires offset + n <= |probs|
    ensures zeros == n - |Nonzero(probs[offset..offset + n])|
  {
    hide Nonzero;
    ghost var w := probs[offset..offset + n];
    zeros := 0;
    NonzeroEmpty(w[..0]);
    for i := 0 to n
      invariant zeros == i - |Nonzero(w[..i])|
    {
      assert w[i] == probs[offset + i];
      if probs[offset + i] == 0.0 { zeros := zeros + 1; }
      NonzeroLast(w[..i + 1]);
      assert w[..i + 1][..i] == w[..i];
    }
    assert w[..n] == w;
  }

  method NumPick(fanout: int, replace: bool, probs: Option<seq<real>>, offset: nat, n: nat) returns (picked: int)
    requires probs.Some? ==> offset + n <= |probs.value|
    ensures picked == PickCount(fanout, replace, |Nonzero(Local(probs, offset, n))|)
  {
    hide Nonzero;
    var valid: int := n;
    if probs.Some? && n > 0 {
      assert Local(probs, offset, n) == probs.value[offset..offset + n];
      var zeros := CountZeros(probs.value, offset, n);
      valid := valid - zeros;
    } else {
      NonzeroOnes(n);
    }
    if valid == 0 || fanout == -1 {
      picked := valid;
    } else {
      picked := if replace then fanout else if fanout < valid then fanout else valid;
    }
  }

  /** The contract of every picker: the promised number of edges, all in the column
      with nonzero weight, and no edge twice unless sampled with replacement. */
  ghost predicate GoodPicks(picks: seq<int>, fanout: int, replace: bool, w: seq<real>, offset: int) {
    && |picks| == PickCount(fanout, replace, |Nonzero(w)|)
    && (forall k :: 0 <= k < |picks| ==> offset <= picks[k] < offset + |w| && w[picks[k] - offset] != 0.0)
    && (!replace || fanout == -1 ==> Distinct(picks))
  }

  // ------------------------------------------------------------------
  // Pigeonhole facts

  function Interval(lo: int, hi: int): (s: set<int>)
    ensures |s| == (if lo <= hi then hi - lo else 0) && forall x :: x in s <==> lo <= x < hi
    decreases hi - lo
  {
    if lo >= hi then {} else Interval(lo, hi - 1) + {hi - 1}
  }

  /** A short sequence misses something in a longer interval. */
  lemma SomethingMissing(s: seq<int>, lo: int, hi: int) returns (x: int)
    requires |s| < hi - lo
    ensures lo <= x < hi && x !in s
  {
    if Interval(lo, hi) <= Elements(s) { assert Elements(s) == Interval(lo, hi) + (Elements(s) - Interval(lo, hi)); }
    x :| x in Interval(lo, hi) && x !in Elements(s);
  }

  function Back(picks: seq<int>, offset: int): (r: seq<int>)
    ensures |r| == |picks| && forall k :: 0 <= k < |picks| ==> r[k] == picks[k] - offset
  {
    seq(|picks|, k requires 0 <= k < |picks| => picks[k] - offset)
  }

  lemma ValidExhausted(local: seq<int>, w: seq<real>, l: int)
    requires Distinct(local) && |local| == |Nonzero(w)| && 0 <= l < |w| && w[l] != 0.0
    requires forall k :: 0 <= k < |local| ==> 0 <= local[k] < |w| && w[local[k]] != 0.0
    ensures l in local
  {
    hide Nonzero;
    NonzeroOrdered(w);
    DistinctSize(Nonzero(w));
    DistinctExhaust(local, Elements(Nonzero(w)));
  }

  /** When at most `fanout` edges may be picked, or all are asked for, all are picked. */
  lemma AllPicked(picks: seq<int>, fanout: int, replace: bool, w: seq<real>, offset: int, e: int)
    requires GoodPicks(picks, fanout, replace, w, offset)
    requires fanout == -1 || (!replace && fanout >= |Nonzero(w)|)
    requires offset <= e < offset + |w| && w[e - offset] != 0.0
    ensures e in picks
  {
    hide Nonzero;
    ValidExhausted(Back(picks, offset), w, e - offset);
  }

  // ------------------------------------------------------------------
  // Random integers

  /** The k-th random integer drawn from [lo, hi). */
  type Rng = (nat, int, int) -> int

  ghost predicate Appears(rng: Rng, k: nat, lo: int, hi: int, x: int) {
    exists m: nat :: m >= k && rng(m, lo, hi) == x
  }

  /** Draws stay in range, and every value keeps coming up. */
  ghost predicate Fair(rng: Rng) {
    && (forall k: nat, lo: int, hi: int :: lo < hi ==> lo <= rng(k, lo, hi) < hi)
    && (forall k: nat, lo: int, hi: int, x: int :: lo <= x < hi ==> Appears(rng, k, lo, hi, x))
  }

  /** There are fair generators: one that goes round every range. */
  lemma FairExists()
    ensures exists rng: Rng :: Fair(rng)
  {
    var rng: Rng := (k: nat, lo: int, hi: int) => if lo < hi then lo + k % (hi - lo) else lo;
    forall k: nat, lo: int, hi: int, x: int | lo <= x < hi ensures Appears(rng, k, lo, hi, x) {
      var n := hi - lo;
      RoundsReach(k, n, x - lo);
      assert rng((k + 1) * n + (x - lo), lo, hi) == x;
    }
    assert Fair(rng);
  }

  lemma RoundsReach(k: nat, n: nat, r: nat)
    requires r < n
    ensures (k + 1) * n + r >= k && ((k + 1) * n + r) % n == r
  {
    QuotientIs((k + 1) * n + r, n, k + 1);
    Scaled(1, n, k + 1);
  }

  // ------------------------------------------------------------------
  // Uniform picking

  function Iota(offset: int, n: nat): (r: seq<int>)
    ensures |r| == n && forall k :: 0 <= k < n ==> r[k] == offset + k
  {
    seq(n, k => offset + k)
  }

  function Swap(s: seq<int>, i: nat, j: nat): (r: seq<int>)
    requires i < |s| && j < |s|
    ensures |r| == |s|
  {
    s[i := s[j]][j := s[i]]
  }

  /** Number i of the draws lies in [i, n). */
  ghost predicate InRest(draws: seq<int>, n: nat) {
    |draws| <= n && forall i :: 0 <= i < |draws| ==> i <= draws[i] < n
  }

  /** s after the first |draws| steps of the Fisher-Yates shuffle. */
  ghost function Shuffled(s: seq<int>, draws: seq<int>): (r: seq<int>)
    requires InRest(draws, |s|)
    ensures |r| == |s|
  {
    if draws == [] then s
    else var i := |draws| - 1; Swap(Shuffled(s, draws[..i]), i, draws[i])
  }

  lemma {:induction false} ShuffledMembers(s: seq<int>, draws: seq<int>)
    requires InRest(draws, |s|) && Distinct(s)
    ensures Distinct(Shuffled(s, draws)) && forall x :: x in s <==> x in Shuffled(s, draws)
  {
    if draws != [] {
      var i := |draws| - 1;
      ShuffledMembers(s, draws[..i]);
      SwapMembers(Shuffled(s, draws[..i]), i, draws[i]);
    }
  }

  lemma SwapMembers(s: seq<int>, i: nat, j: nat)
    requires i < |s| && j < |s|
    ensures Distinct(s) ==> Distinct(Swap(s, i, j))
    ensures forall x :: x in s <==> x in Swap(s, i, j)
  {
    var r := Swap(s, i, j);
    assert r[i] == s[j] && r[j] == s[i] && forall k :: 0 <= k < |s| && k != i && k != j ==> r[k] == s[k];
    forall x | x in s ensures x in r {
      var k :| 0 <= k < |s| && s[k] == x;
      assert r[if k == i then j else if k == j then i else k] == x;
    }
    forall x | x in r ensures x in s {
      var k :| 0 <= k < |r| && r[k] == x;
      assert s[if k == i then j else if k == j then i else k] == x;
    }
  }

  /** Later steps leave the places before them alone. */
  lemma ShuffledPrefix(s: seq<int>, draws: seq<int>)
    requires InRest(draws, |s|) && draws != []
    ensures var i := |draws| - 1; var before := Shuffled(s, draws[..i]);
      Shuffled(s, draws)[..i] == before[..i] && Shuffled(s, draws)[i] == before[draws[i]]
  {
  }

  lemma FewerDraws(draws: seq<int>, n: nat, i: nat)
    requires InRest(draws, n) && i < |draws|
    ensures InRest(draws[..i], n) && i <= draws[i] < n
  {
  }

  lemma SamePrefix(s: seq<int>, t: seq<int>, i: nat)
    requires i < |s| && i < |t|
    ensures s[..i + 1] == t[..i + 1] <==> s[..i] == t[..i] && s[i] == t[i]
  {
    assert s[..i + 1] == s[..i] + [s[i]] && t[..i + 1] == t[..i] + [t[i]];
    assert s[..i + 1][..i] == s[..i] && t[..i + 1][..i] == t[..i];
  }

  lemma PlaceAfter(t: seq<int>, i: nat, x: int) returns (k: nat)
    requires i <= |t| && x in t && x !in t[..i]
    ensures i <= k < |t| && t[k] == x
  {
    forall y | 0 <= y < i ensures t[y] != x { assert t[..i][y] == t[y]; }
    k :| k < |t| && t[k] == x;
  }

  /** Different draws give different choices. */
  lemma {:induction false} ShuffledOnce(s: seq<int>, a: seq<int>, b: seq<int>)
    requires Distinct(s) && InRest(a, |s|) && InRest(b, |s|) && |a| == |b|
    requires Shuffled(s, a)[..|a|] == Shuffled(s, b)[..|a|]
    ensures a == b
  {
    if a != [] {
      hide Shuffled, InRest;
      var i := |a| - 1;
      FewerDraws(a, |s|, i);
      FewerDraws(b, |s|, i);
      ShuffledPrefix(s, a);
      ShuffledPrefix(s, b);
      SamePrefix(Shuffled(s, a), Shuffled(s, b), i);
      ShuffledOnce(s, a[..i], b[..i]);
      ShuffledMembers(s, a[..i]);
      SamePrefix(a, b, i);
      assert a == a[..i + 1] && b == b[..i + 1];
    }
  }

  /** And every choice comes from some draws: with the same chances for all draws, all
      choices have the same chances. */
  lemma {:induction false} ShuffledReaches(s: seq<int>, chosen: seq<int>) returns (draws: seq<int>)
    requires Distinct(s) && Distinct(chosen) && forall x :: x in chosen ==> x in s
    ensures |draws| == |chosen| && InRest(draws, |s|) && Shuffled(s, draws)[..|chosen|] == chosen
  {
    if chosen == [] {
      draws := [];
    } else {
      hide Shuffled, InRest;
      var i := |chosen| - 1;
      var before := ShuffledReaches(s, chosen[..i]);
      ShuffledMembers(s, before);
      var t := Shuffled(s, before);
      assert chosen[i] in chosen;
      var k := PlaceAfter(t, i, chosen[i]);
      draws := before + [k];
      assert draws[..i] == before;
      OneMoreDraw(before, |s|, k);
      ShuffledPrefix(s, draws);
      SamePrefix(Shuffled(s, draws), chosen, i);
      assert chosen == chosen[..i + 1];
    }
  }

  lemma OneMoreDraw(draws: seq<int>, n: nat, k: nat)
    requires InRest(draws, n) && |draws| <= k < n
    ensures InRest(draws + [k], n)
  {
  }

  /** The draws of the shuffle. */
  ghost function Rests(n: nat, k: nat, rng: Rng): (draws: seq<int>)
    requires k <= n && Fair(rng)
    ensures |draws| == k && InRest(draws, n) && forall i :: 0 <= i < k ==> draws[i] == rng(i, i, n)
  {
    seq(k, i requires 0 <= i < k => rng(i, i, n))
  }

  method Shuffle(offset: int, n: nat, fanout: nat, rng: Rng) returns (picks: seq<int>)
    requires Fair(rng) && fanout < n
    ensures |picks| == fanout && Distinct(picks) && forall k :: 0 <= k < fanout ==> offset <= picks[k] < offset + n
    ensures picks == Shuffled(Iota(offset, n), Rests(n, fanout, rng))[..fanout]
    ensures fanout > 0 ==> picks[0] == offset + rng(0, 0, n)
  {
    hide Appears, Shuffled;
    var s := new int[n](k => offset + k);
    ghost var start := s[..];
    assert start == Iota(offset, n);
    NoSwaps(start, n, rng);
    for i := 0 to fanout
      invariant s[..] == Shuffled(start, Rests(n, i, rng))
      invariant i > 0 ==> s[0] == offset + rng(0, 0, n)
    {
      var j := rng(i, i, n);
      NextSwap(start, n, i, rng);
      s[i], s[j] := s[j], s[i];
    }
    ShuffledMembers(start, Rests(n, fanout, rng));
    forall k | 0 <= k < n ensures s[..][k] in start { }
    picks := s[..fanout];
  }

  lemma NoSwaps(s: seq<int>, n: nat, rng: Rng)
    requires Fair(rng) && |s| == n
    ensures Shuffled(s, Rests(n, 0, rng)) == s
  {
  }

  lemma NextSwap(s: seq<int>, n: nat, i: nat, rng: Rng)
    requires Fair(rng) && i < n == |s|
    ensures i <= rng(i, i, n) < n
    ensures Shuffled(s, Rests(n, i + 1, rng)) == Swap(Shuffled(s, Rests(n, i, rng)), i, rng(i, i, n))
  {
    assert Rests(n, i + 1, rng)[..i] == Rests(n, i, rng);
  }

  /** The values drawn from [lo, hi) in the first k draws, in the order they first came up. */
  ghost function FirstSeen(rng: Rng, lo: int, hi: int, k: nat): (r: seq<int>)
    ensures |r| <= k && Distinct(r)
  {
    if k == 0 then []
    else
      var before, x := FirstSeen(rng, lo, hi, k - 1), rng(k - 1, lo, hi);
      if x in before then before else before + [x]
  }

  lemma {:induction false} SeenWhenDrawn(rng: Rng, lo: int, hi: int, k: nat, x: int)
    ensures x in FirstSeen(rng, lo, hi, k) <==> exists m: nat :: m < k && rng(m, lo, hi) == x
  {
    if k > 0 {
      SeenWhenDrawn(rng, lo, hi, k - 1, x);
      assert rng(k - 1, lo, hi) == x ==> exists m: nat :: m < k && rng(m, lo, hi) == x;
    }
  }

  lemma NextSeen(rng: Rng, lo: int, hi: int, k: nat)
    ensures FirstSeen(rng, lo, hi, 0) == [] && (Fair(rng) && lo < hi ==> lo <= rng(k, lo, hi) < hi)
    ensures var before, x := FirstSeen(rng, lo, hi, k), rng(k, lo, hi);
      FirstSeen(rng, lo, hi, k + 1) == if x in before then before else before + [x]
  {
  }

  lemma {:induction false} SeenInside(rng: Rng, lo: int, hi: int, k: nat)
    requires Fair(rng) && lo < hi
    ensures forall i :: 0 <= i < |FirstSeen(rng, lo, hi, k)| ==> lo <= FirstSeen(rng, lo, hi, k)[i] < hi
  {
    hide Fair, FirstSeen;
    if k == 0 {
      NextSeen(rng, lo, hi, 0);
    } else {
      SeenInside(rng, lo, hi, k - 1);
      NextSeen(rng, lo, hi, k - 1);
    }
  }

  /** Draw until the new value is not among the earlier ones. */
  method LinearPick(offset: int, n: nat, fanout: nat, rng: Rng) returns (picks: seq<int>, ghost drawn: nat)
    requires Fair(rng) && fanout < n
    ensures |picks| == fanout && Distinct(picks) && forall k :: 0 <= k < fanout ==> offset <= picks[k] < offset + n
    ensures picks == FirstSeen(rng, offset, offset + n, drawn)
  {
    hide Appears, FirstSeen, Fair, Distinct;
    picks := [];
    var k := 0;
    NextSeen(rng, offset, offset + n, 0);
    ghost var next := NextFresh(picks, offset, n, rng, k);
    while |picks| < fanout
      invariant |picks| <= fanout && picks == FirstSeen(rng, offset, offset + n, k)
      invariant k <= next && (|picks| < fanout ==> rng(next, offset, offset + n) !in picks)
      decreases fanout - |picks|, next - k
    {
      var x := rng(k, offset, offset + n);
      NextSeen(rng, offset, offset + n, k);
      if x !in picks {
        picks := picks + [x];
        next := NextFresh(picks, offset, n, rng, k + 1);
      }
      k := k + 1;
    }
    drawn := k;
    SeenInside(rng, offset, offset + n, drawn);
  }

  /** When a value not picked yet comes up. */
  lemma NextFresh(picks: seq<int>, offset: int, n: nat, rng: Rng, k: nat) returns (next: nat)
    requires Fair(rng) && |picks| < n
    ensures next >= k && rng(next, offset, offset + n) !in picks
  {
    var x := SomethingMissing(picks, offset, offset + n);
    assert Appears(rng, k, offset, offset + n, x);
    next :| next >= k && rng(next, offset, offset + n) == x;
  }

  /** A set and, in the order they came up, its members after k draws. */
  ghost predicate Gathered(picked: set<int>, order: seq<int>, offset: int, n: nat, rng: Rng, k: nat) {
    && order == FirstSeen(rng, offset, offset + n, k) && |order| == |picked|
    && forall x :: (x in picked <==> x in order) && (x in order ==> offset <= x < offset + n)
  }

  lemma GatherNext(picked: set<int>, order: seq<int>, offset: int, n: nat, rng: Rng, k: nat)
    requires Fair(rng) && n > 0 && Gathered(picked, order, offset, n, rng, k)
    ensures var x := rng(k, offset, offset + n);
      && (x in picked <==> x in order)
      && Gathered(picked + {x}, if x in order then order else order + [x], offset, n, rng, k + 1)
  {
    hide Appears, FirstSeen, Fair;
    var x := rng(k, offset, offset + n);
    NextSeen(rng, offset, offset + n, k);
    if x in picked { assert picked + {x} == picked; }
  }

  lemma GatherDone(picks: seq<int>, picked: set<int>, order: seq<int>, offset: int, n: nat, rng: Rng, k: nat)
    requires Gathered(picked, order, offset, n, rng, k) && |picks| == |picked|
    requires forall x :: x in picks <==> x in picked
    ensures |FirstSeen(rng, offset, offset + n, k)| == |picks|
    ensures forall x :: x in picks <==> x in FirstSeen(rng, offset, offset + n, k)
    ensures forall i :: 0 <= i < |picks| ==> offset <= picks[i] < offset + n
  {
    hide FirstSeen;
    forall i | 0 <= i < |picks| ensures offset <= picks[i] < offset + n {
      assert picks[i] in picks;
    }
  }

  /** Draw into a set until it is large enough; its order is arbitrary. */
  method SetPick(offset: int, n: nat, fanout: nat, rng: Rng) returns (picks: seq<int>, ghost drawn: nat)
    requires Fair(rng) && fanout < n
    ensures |picks| == fanout && Distinct(picks) && forall k :: 0 <= k < fanout ==> offset <= picks[k] < offset + n
    ensures |FirstSeen(rng, offset, offset + n, drawn)| == fanout
    ensures forall x :: x in picks <==> x in FirstSeen(rng, offset, offset + n, drawn)
  {
    hide Appears, FirstSeen, Fair, Gathered;
    var picked: set<int> := {};
    var k := 0;
    ghost var order: seq<int> := [];
    NoneGathered(offset, n, rng);
    ghost var next := NextFresh(order, offset, n, rng, k);
    while |picked| < fanout
      invariant |order| == |picked| <= fanout && Gathered(picked, order, offset, n, rng, k)
      invariant k <= next && (|picked| < fanout ==> rng(next, offset, offset + n) !in order)
      decreases fanout - |picked|, next - k
    {
      var x := rng(k, offset, offset + n);
      GatherNext(picked, order, offset, n, rng, k);
      if x in picked {
        assert picked + {x} == picked;
      } else {
        order := order + [x];
        next := NextFresh(order, offset, n, rng, k + 1);
      }
      picked := picked + {x};
      k := k + 1;
    }
    drawn := k;
    picks := Listed(picked);
    GatherDone(picks, picked, order, offset, n, rng, k);
  }

  lemma NoneGathered(offset: int, n: nat, rng: Rng)
    ensures Gathered({}, [], offset, n, rng, 0)
  {
  }

  lemma NonemptyHas(s: set<int>)
    requires |s| > 0
    ensures exists y :: y in s
  {
    assert (forall y :: y !in s) ==> s == {};
  }

  method AnyOf(s: set<int>) returns (x: int)
    requires |s| > 0
    ensures x in s
  {
    NonemptyHas(s);
    x :| x in s;
  }

  method Listed(s: set<int>) returns (r: seq<int>)
    ensures |r| == |s| && Distinct(r) && forall x :: x in r <==> x in s
  {
    r := [];
    var rest := s;
    while |rest| > 0
      invariant |r| + |rest| == |s| && Distinct(r) && rest <= s
      invariant forall x :: x in r <==> x in s && x !in rest
      decreases rest
    {
      var x := AnyOf(rest);
      rest := rest - {x};
      r := r + [x];
    }
  }

  /** The picks that the draws stand for: all neighbours, one draw each, the front of the
      shuffle, or the values that came up first. */
  ghost predicate UniformlyDrawn(picks: seq<int>, offset: int, n: nat, fanout: int, replace: bool, rng: Rng)
    requires Fair(rng)
  {
    if fanout == -1 || (n <= fanout && !replace) then picks == Iota(offset, n)
    else if replace then forall k: nat :: k < |picks| ==> picks[k] == rng(k, offset, offset + n)
    else if 0 <= fanout < n && fanout >= n / 10 then
      picks == Shuffled(Iota(offset, n), Rests(n, fanout, rng))[..fanout]
    else exists drawn: nat :: SeenIn(picks, offset, n, fanout, rng, drawn)
  }

  /** The picks are the different values of the first draws; below 64 picks in their order. */
  ghost predicate SeenIn(picks: seq<int>, offset: int, n: nat, fanout: int, rng: Rng, drawn: nat) {
    var seen := FirstSeen(rng, offset, offset + n, drawn);
    |seen| == |picks| && (forall x :: x in picks <==> x in seen) && (fanout < 64 ==> picks == seen)
  }

  /** `UniformPick`: all neighbours, or `fanout` draws, or one of three ways of
      choosing `fanout` different ones. */
  method UniformPick(offset: int, n: nat, fanout: int, replace: bool, rng: Rng) returns (picks: seq<int>)
    requires Fair(rng) && n > 0 && fanout >= -1
    ensures |picks| == PickCount(fanout, replace, n)
    ensures forall k :: 0 <= k < |picks| ==> offset <= picks[k] < offset + n
    ensures !replace || fanout == -1 ==> Distinct(picks)
    ensures UniformlyDrawn(picks, offset, n, fanout, replace, rng)
  {
    hide Appears, Shuffled, FirstSeen;
    if fanout == -1 || (n <= fanout && !replace) {
      picks := Iota(offset, n);
    } else if replace {
      picks := [];
      for k := 0 to fanout
        invariant |picks| == k && forall i :: 0 <= i < k ==> picks[i] == rng(i, offset, offset + n)
      {
        picks := picks + [rng(k, offset, offset + n)];
      }
    } else if fanout >= n / 10 {
      picks := Shuffle(offset, n, fanout, rng);
    } else {
      ghost var drawn;
      if fanout < 64 {
        picks, drawn := LinearPick(offset, n, fanout, rng);
      } else {
        picks, drawn := SetPick(offset, n, fanout, rng);
      }
      assert SeenIn(picks, offset, n, fanout, rng, drawn);
    }
  }

  // ------------------------------------------------------------------
  // Weighted picking

  datatype Scored = Scored(score: real, index: int)

  predicate Precedes(a: Scored, b: Scored) {
    a.score > b.score || (a.score == b.score && a.index >= b.index)
  }

  ghost predicate Rearranged(after: seq<Scored>, before: seq<Scored>, perm: seq<int>) {
    && |after| == |before| == |perm| && Distinct(perm)
    && forall i :: 0 <= i < |perm| ==> 0 <= perm[i] < |before| && after[i] == before[perm[i]]
  }

  ghost predicate GreatestFirst(s: seq<Scored>, k: nat) {
    forall i, j :: 0 <= i < k <= j < |s| ==> s[i].score >= s[j].score
  }

  /** `partial_sort` and `nth_element` with `greater`: the k greatest entries come first. */
  method SelectGreatest(q: array<Scored>, k: nat) returns (ghost perm: seq<int>)
    requires k <= q.Length
    modifies q
    ensures Rearranged(q[..], old(q[..]), perm)
    ensures GreatestFirst(q[..], k)
  {
    hide Rearranged, Precedes;
    perm := Iota(0, q.Length);
    RearrangedNot(q[..], perm);
    for i := 0 to k
      invariant Rearranged(q[..], old(q[..]), perm)
      invariant forall a, b :: 0 <= a < i <= b < q.Length ==> q[a].score >= q[b].score
    {
      var best := Greatest(q, i);
      RearrangedSwap(q[..], old(q[..]), perm, i, best);
      perm := perm[i := perm[best]][best := perm[i]];
      q[i], q[best] := q[best], q[i];
    }
  }

  method Greatest(q: array<Scored>, i: nat) returns (best: nat)
    requires i < q.Length
    ensures i <= best < q.Length && forall b :: i <= b < q.Length ==> q[best].score >= q[b].score
  {
    best := i;
    for j := i + 1 to q.Length
      invariant i <= best < q.Length
      invariant forall b :: i <= b < j ==> q[best].score >= q[b].score
    {
      if Precedes(q[j], q[best]) { best := j; }
    }
  }

  lemma RearrangedNot(q: seq<Scored>, perm: seq<int>)
    requires perm == Iota(0, |q|)
    ensures Rearranged(q, q, perm) && |perm| == |q|
  {
  }

  lemma RearrangedSwap(q: seq<Scored>, before: seq<Scored>, perm: seq<int>, i: nat, j: nat)
    requires Rearranged(q, before, perm) && i < |q| && j < |q|
    ensures |perm| == |q| && Rearranged(q[i := q[j]][j := q[i]], before, perm[i := perm[j]][j := perm[i]])
  {
  }

  function ScoreOf(w: seq<real>, positive: seq<int>, exponential: nat -> real, k: nat): real
    requires k < |positive| && 0 <= positive[k] < |w| && exponential(k) > 0.0
  {
    w[positive[k]] / exponential(k)
  }

  ghost predicate Usable(w: seq<real>, exponential: nat -> real) {
    (forall k :: exponential(k) > 0.0) && (forall i :: 0 <= i < |w| ==> w[i] >= 0.0)
  }

  /** No edge left out scores above an edge taken: the score is the weight over the
      exponential number drawn for the edge, here multiplied out. */
  ghost predicate TakesGreatest(w: seq<real>, exponential: nat -> real, picks: seq<int>) {
    var positive := Nonzero(w);
    forall a: nat, b: nat :: a < |positive| && b < |positive| && positive[a] in picks && positive[b] !in picks ==>
      w[positive[a]] * exponential(b) >= w[positive[b]] * exponential(a)
  }

  lemma ScoresCompare(w: seq<real>, positive: seq<int>, exponential: nat -> real, a: nat, b: nat)
    requires a < |positive| && b < |positive| && 0 <= positive[a] < |w| && 0 <= positive[b] < |w|
    requires exponential(a) > 0.0 && exponential(b) > 0.0
    requires ScoreOf(w, positive, exponential, a) >= ScoreOf(w, positive, exponential, b)
    ensures w[positive[a]] * exponential(b) >= w[positive[b]] * exponential(a)
  {
    CrossMultiply(w[positive[a]], exponential(a), w[positive[b]], exponential(b));
  }

  lemma CrossMultiply(x: real, d: real, y: real, e: real)
    requires d > 0.0 && e > 0.0
    ensures x / d >= y / e <==> x * e >= y * d
  {
    var p, q := x / d, y / e;
    assert x == p * d && y == q * e;
    Reorder(p, d, e);
    Reorder(q, e, d);
    assert d * e > 0.0;
    TimesOrder(p, q, d * e);
  }

  lemma Reorder(p: real, d: real, e: real)
    ensures p * d * e == p * (d * e) && p * d * e == p * (e * d)
  {
  }

  lemma LessTimes(x: real, y: real, d: real)
    requires x < y && d > 0.0
    ensures x * d < y * d
  {
    assert (y - x) * d > 0.0;
  }

  lemma TimesOrder(p: real, q: real, f: real)
    requires f > 0.0
    ensures p >= q <==> p * f >= q * f
  {
    if p < q { LessTimes(p, q, f); }
  }

  /** The single greatest score (fanout 1). */
  method ArgMax(w: seq<real>, exponential: nat -> real) returns (index: int, ghost at: nat)
    requires Usable(w, exponential) && |Nonzero(w)| > 0
    ensures at < |Nonzero(w)| && index == Nonzero(w)[at] && index in Nonzero(w)
    ensures forall k: nat :: k < |Nonzero(w)| ==>
      ScoreOf(w, Nonzero(w), exponential, at) >= ScoreOf(w, Nonzero(w), exponential, k)
  {
    hide Nonzero;
    var positive := Nonzero(w);
    var best := 0.0;
    index, at := -1, 0;
    for i := 0 to |positive|
      invariant best >= 0.0 && at < |positive|
      invariant i > 0 ==> index == positive[at] && best == ScoreOf(w, positive, exponential, at)
      invariant i == 0 ==> best == 0.0
      invariant forall k: nat :: k < i ==> best >= ScoreOf(w, positive, exponential, k)
    {
      var current := ScoreOf(w, positive, exponential, i);
      assert current > 0.0;
      if current > best {
        best, index, at := current, positive[i], i;
      }
    }
  }

  ghost predicate ScoredAll(q: seq<Scored>, w: seq<real>, exponential: nat -> real, n: nat)
    requires Usable(w, exponential)
  {
    && n <= |q| == |Nonzero(w)|
    && forall k: nat :: k < n ==> q[k] == Scored(ScoreOf(w, Nonzero(w), exponential, k), Nonzero(w)[k])
  }

  method ScoreAll(w: seq<real>, exponential: nat -> real) returns (q: array<Scored>)
    requires Usable(w, exponential)
    ensures fresh(q) && ScoredAll(q[..], w, exponential, |Nonzero(w)|)
  {
    hide Nonzero, ScoreOf;
    var positive := Nonzero(w);
    q := new Scored[|positive|];
    for i := 0 to |positive|
      invariant ScoredAll(q[..], w, exponential, i)
    {
      q[i] := Scored(ScoreOf(w, positive, exponential, i), positive[i]);
    }
  }

  method TopK(w: seq<real>, fanout: nat, exponential: nat -> real) returns (picks: seq<int>)
    requires Usable(w, exponential) && fanout <= |Nonzero(w)|
    ensures |picks| == fanout && Distinct(picks)
    ensures forall k :: 0 <= k < |picks| ==> 0 <= picks[k] < |w| && w[picks[k]] != 0.0
    ensures TakesGreatest(w, exponential, picks)
  {
    hide Nonzero, ScoreOf, Rearranged, TakesGreatest, GreatestFirst;
    var q := ScoreAll(w, exponential);
    ghost var before := q[..];
    ghost var perm := SelectGreatest(q, fanout);
    picks := Indices(q[..fanout]);
    TopKRight(w, exponential, fanout, before, q[..], perm, picks);
  }

  method Indices(q: seq<Scored>) returns (r: seq<int>)
    ensures |r| == |q| && forall k :: 0 <= k < |q| ==> r[k] == q[k].index
  {
    r := [];
    for i := 0 to |q|
      invariant |r| == i && forall k :: 0 <= k < i ==> r[k] == q[k].index
    {
      r := r + [q[i].index];
    }
  }

  lemma TopKRight(w: seq<real>, exponential: nat -> real, fanout: nat, before: seq<Scored>, after: seq<Scored>,
                  perm: seq<int>, picks: seq<int>)
    requires Usable(w, exponential) && fanout <= |before| && ScoredAll(before, w, exponential, |Nonzero(w)|)
    requires Rearranged(after, before, perm) && GreatestFirst(after, fanout)
    requires |picks| == fanout && forall k :: 0 <= k < fanout ==> picks[k] == after[k].index
    ensures Distinct(picks) && TakesGreatest(w, exponential, picks)
    ensures forall k :: 0 <= k < |picks| ==> 0 <= picks[k] < |w| && w[picks[k]] != 0.0
  {
    hide Nonzero, ScoreOf, GreatestFirst, Rearranged, ScoredAll, Usable;
    TopKPlaces(w, exponential, fanout, before, after, perm, picks);
    forall a: nat, b: nat | a < |Nonzero(w)| && b < |Nonzero(w)| && Nonzero(w)[a] in picks && Nonzero(w)[b] !in picks
      ensures w[Nonzero(w)[a]] * exponential(b) >= w[Nonzero(w)[b]] * exponential(a)
    {
      TakenAbove(w, exponential, fanout, before, after, perm, picks, a, b);
    }
  }

  lemma TopKPlaces(w: seq<real>, exponential: nat -> real, fanout: nat, before: seq<Scored>, after: seq<Scored>,
                   perm: seq<int>, picks: seq<int>)
    requires Usable(w, exponential) && fanout <= |before| && ScoredAll(before, w, exponential, |Nonzero(w)|)
    requires Rearranged(after, before, perm)
    requires |picks| == fanout && forall k :: 0 <= k < fanout ==> picks[k] == after[k].index
    ensures Distinct(picks)
    ensures forall k :: 0 <= k < |picks| ==> 0 <= picks[k] < |w| && w[picks[k]] != 0.0
  {
    hide Nonzero, ScoreOf;
    NonzeroOrdered(w);
    PickedPlaces(w, exponential, fanout, before, after, perm, picks);
  }

  /** One place picked and one left out. */
  lemma TakenAbove(w: seq<real>, exponential: nat -> real, fanout: nat, before: seq<Scored>, after: seq<Scored>,
                   perm: seq<int>, picks: seq<int>, a: nat, b: nat)
    requires Usable(w, exponential) && fanout <= |before| && ScoredAll(before, w, exponential, |Nonzero(w)|)
    requires Rearranged(after, before, perm) && GreatestFirst(after, fanout)
    requires |picks| == fanout && forall k :: 0 <= k < fanout ==> picks[k] == after[k].index
    requires a < |Nonzero(w)| && b < |Nonzero(w)| && Nonzero(w)[a] in picks && Nonzero(w)[b] !in picks
    ensures w[Nonzero(w)[a]] * exponential(b) >= w[Nonzero(w)[b]] * exponential(a)
  {
    hide Nonzero, ScoreOf;
    NonzeroOrdered(w);
    PickedPlaces(w, exponential, fanout, before, after, perm, picks);
    var i := PlaceOf(perm, a);
    var j := PlaceOf(perm, b);
    PickedEarly(picks, Nonzero(w), perm, fanout, a, i);
    EarlyPicked(picks, Nonzero(w), perm, fanout, j);
    ScoresCompare(w, Nonzero(w), exponential, a, b);
  }

  lemma PickedPlaces(w: seq<real>, exponential: nat -> real, fanout: nat, before: seq<Scored>, after: seq<Scored>,
                     perm: seq<int>, picks: seq<int>)
    requires Usable(w, exponential) && fanout <= |before| && ScoredAll(before, w, exponential, |Nonzero(w)|)
    requires Rearranged(after, before, perm)
    requires |picks| == fanout && forall k :: 0 <= k < fanout ==> picks[k] == after[k].index
    ensures |perm| == |Nonzero(w)| && forall k :: 0 <= k < |perm| ==> 0 <= perm[k] < |perm|
    ensures forall k :: 0 <= k < fanout ==> picks[k] == Nonzero(w)[perm[k]]
  {
    hide Nonzero, ScoreOf;
  }

  lemma PickedEarly(picks: seq<int>, positive: seq<int>, perm: seq<int>, fanout: nat, a: nat, i: nat)
    requires |picks| == fanout <= |perm| && Distinct(perm) && Distinct(positive) && |perm| == |positive|
    requires forall k :: 0 <= k < |perm| ==> 0 <= perm[k] < |positive|
    requires forall k :: 0 <= k < fanout ==> picks[k] == positive[perm[k]]
    requires a < |positive| && positive[a] in picks && i < |perm| && perm[i] == a
    ensures i < fanout
  {
    var p :| 0 <= p < |picks| && picks[p] == positive[a];
    assert perm[p] == a;
  }

  lemma EarlyPicked(picks: seq<int>, positive: seq<int>, perm: seq<int>, fanout: nat, j: nat)
    requires |picks| == fanout <= |perm| && j < |perm| && forall k :: 0 <= k < |perm| ==> 0 <= perm[k] < |positive|
    requires forall k :: 0 <= k < fanout ==> picks[k] == positive[perm[k]]
    ensures j < fanout ==> positive[perm[j]] in picks
  {
    if j < fanout { assert picks[j] in picks; }
  }

  lemma PlaceOf(perm: seq<int>, a: nat) returns (i: nat)
    requires Distinct(perm) && (forall k :: 0 <= k < |perm| ==> 0 <= perm[k] < |perm|) && a < |perm|
    ensures i < |perm| && perm[i] == a
  {
    DistinctExhaust(perm, Interval(0, |perm|));
    assert a in perm;
    i :| 0 <= i < |perm| && perm[i] == a;
  }

  // ------------------------------------------------------------------
  // Weighted picking with replacement

  /** The neighbours that may be picked, with positive weights. */
  ghost predicate Positive(w: seq<real>, positive: seq<int>) {
    forall k :: 0 <= k < |positive| ==> 0 <= positive[k] < |w| && w[positive[k]] > 0.0
  }

  /** The total weight of the first k of them. */
  ghost function WeightSum(w: seq<real>, positive: seq<int>, k: nat): real
    requires Positive(w, positive) && k <= |positive|
  {
    if k == 0 then 0.0 else WeightSum(w, positive, k - 1) + w[positive[k - 1]]
  }

  lemma {:induction false} SumsAscend(w: seq<real>, positive: seq<int>, a: nat, b: nat)
    requires Positive(w, positive) && a < b <= |positive|
    ensures 0.0 <= WeightSum(w, positive, a) < WeightSum(w, positive, b)
    decreases b
  {
    if a + 1 < b { SumsAscend(w, positive, a, b - 1); } else if a > 0 { SumsAscend(w, positive, a - 1, a); }
  }

  /** Sums close to 1 are not divided out. */
  function Divisor(total: real): real {
    if total > 1.00001 || total < 0.99999 then total else 1.0
  }

  function Scale(u: real, d: real): real { u * d }

  /** A draw finds a neighbour unless it exceeds the last prefix sum. */
  ghost predicate DrawFinds(w: seq<real>, positive: seq<int>, u: real)
    requires Positive(w, positive)
  {
    Scale(u, Divisor(WeightSum(w, positive, |positive|))) <= WeightSum(w, positive, |positive|)
  }

  /** The draw lies between the prefix sums before and at the k-th neighbour: the
      neighbour is hit on an interval as long as its share of the weight. */
  ghost predicate Hits(w: seq<real>, positive: seq<int>, k: nat, u: real)
    requires Positive(w, positive) && k < |positive|
  {
    var d := Divisor(WeightSum(w, positive, |positive|));
    Scale(u, d) <= WeightSum(w, positive, k + 1) && (k > 0 ==> WeightSum(w, positive, k) < Scale(u, d))
  }

  /** A draw hits at most one neighbour, and one exactly if it finds any. */
  lemma HitsOne(w: seq<real>, positive: seq<int>, a: nat, b: nat, u: real)
    requires Positive(w, positive) && a < |positive| && b < |positive|
    ensures Hits(w, positive, a, u) ==> DrawFinds(w, positive, u)
    ensures Hits(w, positive, a, u) && Hits(w, positive, b, u) ==> a == b
  {
    hide WeightSum, Scale;
    if a + 1 < |positive| { SumsAscend(w, positive, a + 1, |positive|); }
    if a < b && a + 1 < b { SumsAscend(w, positive, a + 1, b); }
    if b < a && b + 1 < a { SumsAscend(w, positive, b + 1, a); }
  }

  /** Every draw in [0, 1) finds a neighbour if and only if the total weight is not
      in [0.99999, 1): such a total is not divided out, and draws above it find none. */
  lemma AllDrawsFind(w: seq<real>, positive: seq<int>)
    requires Positive(w, positive) && |positive| > 0
    ensures (forall u: real :: 0.0 <= u < 1.0 ==> DrawFinds(w, positive, u)) <==>
      !(0.99999 <= WeightSum(w, positive, |positive|) < 1.0)
  {
    hide WeightSum, DrawFinds;
    var total := WeightSum(w, positive, |positive|);
    if 0.99999 <= total < 1.0 {
      OneDraw(w, positive, (total + 1.0) / 2.0);
    } else {
      forall u: real | 0.0 <= u < 1.0 ensures DrawFinds(w, positive, u) { OneDraw(w, positive, u); }
    }
  }

  /** An input on which a draw finds no neighbour. */
  lemma LightTotalFails()
    ensures Positive([0.999995], [0]) && !DrawFinds([0.999995], [0], 0.999999)
  {
    assert WeightSum([0.999995], [0], 1) == WeightSum([0.999995], [0], 0) + 0.999995;
  }

  lemma OneDraw(w: seq<real>, positive: seq<int>, u: real)
    requires Positive(w, positive) && |positive| > 0 && 0.0 <= u < 1.0
    ensures var total := WeightSum(w, positive, |positive|);
      DrawFinds(w, positive, u) <==> total < 0.99999 || total > 1.00001 || u <= total
  {
    hide WeightSum, Scale;
    var total := WeightSum(w, positive, |positive|);
    SumsAscend(w, positive, 0, |positive|);
    ShareOfTotal(u, total);
    ScaleOne(u);
  }

  lemma ShareOfTotal(u: real, total: real)
    requires 0.0 <= u < 1.0 && total > 0.0
    ensures Scale(u, total) <= total
  {
  }

  lemma ScaleOne(u: real)
    ensures Scale(u, 1.0) == u
  {
  }

  lemma QuotientAtLeast(a: real, d: real, u: real)
    requires d > 0.0
    ensures a / d >= u <==> Scale(u, d) <= a
  {
    var q := a / d;
    assert q * d == a;
    if q < u {
      LessTimes(q, u, d);
    } else if u < q {
      LessTimes(u, q, d);
    }
  }

  /** The prefix sums, divided by their last unless it is close to 1. */
  ghost predicate Shares(w: seq<real>, positive: seq<int>, sums: seq<real>) {
    && Positive(w, positive) && |sums| == |positive|
    && var d := Divisor(WeightSum(w, positive, |positive|));
       d > 0.0 && forall k :: 0 <= k < |sums| ==> sums[k] == WeightSum(w, positive, k + 1) / d
  }

  method PrefixSums(w: seq<real>, positive: seq<int>) returns (sums: seq<real>)
    requires Positive(w, positive) && |positive| > 0
    ensures Shares(w, positive, sums)
  {
    var p := new real[|positive|];
    var sum := 0.0;
    for i := 0 to |positive|
      invariant sum == WeightSum(w, positive, i)
      invariant forall k :: 0 <= k < i ==> p[k] == WeightSum(w, positive, k + 1)
    {
      sum := sum + w[positive[i]];
      p[i] := sum;
    }
    SumsAscend(w, positive, 0, |positive|);
    if sum > 1.00001 || sum < 0.99999 {
      for i := 0 to |positive|
        invariant forall k :: 0 <= k < i ==> p[k] == WeightSum(w, positive, k + 1) / sum
        invariant forall k :: i <= k < |positive| ==> p[k] == WeightSum(w, positive, k + 1)
      {
        p[i] := p[i] / sum;
      }
    }
    sums := p[..];
  }

  /** `std::lower_bound`: the first of the ascending values that is not below u. */
  method FirstAtLeast(sums: seq<real>, u: real) returns (at: nat)
    requires forall i, j :: 0 <= i < j < |sums| ==> sums[i] <= sums[j]
    ensures at <= |sums| && (forall k :: 0 <= k < at ==> sums[k] < u) && forall k :: at <= k < |sums| ==> sums[k] >= u
  {
    var hi := |sums|;
    at := 0;
    while at < hi
      invariant at <= hi <= |sums|
      invariant forall k :: 0 <= k < at ==> sums[k] < u
      invariant forall k :: hi <= k < |sums| ==> sums[k] >= u
    {
      var mid := (at + hi) / 2;
      if sums[mid] < u { at := mid + 1; } else { hi := mid; }
    }
  }

  lemma SharesAscend(w: seq<real>, positive: seq<int>, sums: seq<real>)
    requires Shares(w, positive, sums)
    ensures forall i, j :: 0 <= i < j < |sums| ==> sums[i] <= sums[j]
  {
    hide WeightSum, Scale, Divisor;
    var d := Divisor(WeightSum(w, positive, |positive|));
    forall i, j | 0 <= i < j < |sums| ensures sums[i] <= sums[j] {
      SumsAscend(w, positive, i + 1, j + 1);
      QuotientAtLeast(WeightSum(w, positive, j + 1), d, sums[i]);
      QuotientAtLeast(WeightSum(w, positive, i + 1), d, sums[i]);
    }
  }

  /** Where the search ends, by the draw. */
  lemma SearchHits(w: seq<real>, positive: seq<int>, sums: seq<real>, u: real, at: nat)
    requires Shares(w, positive, sums) && |positive| > 0 && at <= |sums|
    requires (forall k :: 0 <= k < at ==> sums[k] < u) && forall k :: at <= k < |sums| ==> sums[k] >= u
    ensures at < |positive| <==> DrawFinds(w, positive, u)
    ensures at < |positive| ==> Hits(w, positive, at, u)
  {
    hide WeightSum, Scale;
    var d := Divisor(WeightSum(w, positive, |positive|));
    var last := |positive| - 1;
    assert sums[last] == WeightSum(w, positive, last + 1) / d;
    QuotientAtLeast(WeightSum(w, positive, |positive|), d, u);
    if at < |positive| {
      assert sums[at] == WeightSum(w, positive, at + 1) / d;
      QuotientAtLeast(WeightSum(w, positive, at + 1), d, u);
    }
    if at > 0 {
      assert sums[at - 1] == WeightSum(w, positive, at) / d;
      QuotientAtLeast(WeightSum(w, positive, at), d, u);
    }
  }

  /** The picks are those that the draws hit. */
  ghost predicate AllHit(w: seq<real>, positive: seq<int>, draw: nat -> real, picks: seq<int>) {
    && Positive(w, positive)
    && forall i: nat :: i < |picks| ==> HitBy(w, positive, draw(i), picks[i])
  }

  ghost predicate HitBy(w: seq<real>, positive: seq<int>, u: real, pick: int)
    requires Positive(w, positive)
  {
    exists k: nat :: k < |positive| && positive[k] == pick && Hits(w, positive, k, u)
  }

  /** All the draws find a neighbour. */
  ghost predicate DrawsFind(w: seq<real>, positive: seq<int>, draw: nat -> real, count: nat) {
    Positive(w, positive) && forall i: nat :: i < count ==> DrawFinds(w, positive, draw(i))
  }

  /** The multinomial draws; None if one of them finds no neighbour, where the source
      reads past the end of the list of neighbours. */
  method Multinomial(w: seq<real>, positive: seq<int>, count: nat, draw: nat -> real) returns (picks: Option<seq<int>>)
    requires Positive(w, positive) && |positive| > 0
    ensures picks.Some? <==> DrawsFind(w, positive, draw, count)
    ensures picks.Some? ==> |picks.value| == count && AllHit(w, positive, draw, picks.value)
  {
    hide Hits, DrawFinds;
    var sums := PrefixSums(w, positive);
    SharesAscend(w, positive, sums);
    var chosen: seq<int> := [];
    for i := 0 to count
      invariant |chosen| == i && AllHit(w, positive, draw, chosen) && DrawsFind(w, positive, draw, i)
    {
      var at := FirstAtLeast(sums, draw(i));
      SearchHits(w, positive, sums, draw(i), at);
      if at == |positive| { return None; }
      assert HitBy(w, positive, draw(i), positive[at]);
      chosen := chosen + [positive[at]];
    }
    picks := Some(chosen);
  }

  /** Whether picking goes well for these draws: always, unless neighbours are drawn
      with replacement and a draw finds none. */
  ghost predicate Finds(w: seq<real>, fanout: int, replace: bool, draw: nat -> real) {
    replace && fanout > 0 && |Nonzero(w)| > 0 ==> DrawsFind(w, Nonzero(w), draw, fanout)
  }

  lemma NonzeroPositive(w: seq<real>, exponential: nat -> real)
    requires Usable(w, exponential)
    ensures Positive(w, Nonzero(w))
  {
    hide Nonzero;
  }

  lemma HitsAreGood(w: seq<real>, draw: nat -> real, fanout: int, picks: seq<int>)
    requires AllHit(w, Nonzero(w), draw, picks) && |picks| == fanout > 0 && |Nonzero(w)| > 0
    ensures GoodPicks(picks, fanout, true, w, 0)
  {
    hide Nonzero, Hits;
    forall k: nat | k < |picks| ensures 0 <= picks[k] < |w| && w[picks[k]] != 0.0 {
      assert HitBy(w, Nonzero(w), draw(k), picks[k]);
    }
  }

  /** `NonUniformPickOp`: every edge of nonzero weight, or the greatest scores, or
      `fanout` of them with repetition, as the draws hit their prefix sums. */
  method NonUniformPickOp(w: seq<real>, fanout: int, replace: bool, exponential: nat -> real, draw: nat -> real)
    returns (picks: Option<seq<int>>)
    requires Usable(w, exponential) && fanout >= -1
    ensures picks.Some? <==> Finds(w, fanout, replace, draw)
    ensures picks.Some? ==> GoodPicks(picks.value, fanout, replace, w, 0)
    ensures picks.Some? && (!replace || fanout == -1) ==> TakesGreatest(w, exponential, picks.value)
    ensures picks.Some? && replace && fanout > 0 ==> AllHit(w, Nonzero(w), draw, picks.value)
  {
    hide Nonzero, DrawsFind, AllHit;
    var positive := Nonzero(w);
    NonzeroOrdered(w);
    NonzeroPositive(w, exponential);
    if |positive| == 0 {
      NoneHit(w, draw);
      return Some([]);
    }
    if fanout == -1 || (|positive| <= fanout && !replace) { return Some(positive); }
    var count := if !replace && fanout > |positive| then |positive| else fanout;
    if count == 0 { return Some([]); }
    if !replace {
      if count == 1 {
        var index, at := ArgMax(w, exponential);
        SingleGreatest(w, exponential, at);
        picks := Some([index]);
      } else {
        var greatest := TopK(w, count, exponential);
        picks := Some(greatest);
      }
    } else {
      picks := Multinomial(w, positive, count, draw);
      if picks.Some? { HitsAreGood(w, draw, fanout, picks.value); }
    }
  }

  lemma NoneHit(w: seq<real>, draw: nat -> real)
    requires Positive(w, Nonzero(w))
    ensures AllHit(w, Nonzero(w), draw, [])
  {
    hide Nonzero;
  }

  lemma SingleGreatest(w: seq<real>, exponential: nat -> real, at: nat)
    requires Usable(w, exponential) && at < |Nonzero(w)|
    requires forall k: nat :: k < |Nonzero(w)| ==>
      ScoreOf(w, Nonzero(w), exponential, at) >= ScoreOf(w, Nonzero(w), exponential, k)
    ensures TakesGreatest(w, exponential, [Nonzero(w)[at]])
  {
    hide Nonzero, ScoreOf;
    NonzeroOrdered(w);
    forall a: nat, b: nat
      | a < |Nonzero(w)| && b < |Nonzero(w)| && Nonzero(w)[a] in [Nonzero(w)[at]] && Nonzero(w)[b] !in [Nonzero(w)[at]]
      ensures w[Nonzero(w)[a]] * exponential(b) >= w[Nonzero(w)[b]] * exponential(a)
    {
      assert a == at;
      ScoresCompare(w, Nonzero(w), exponential, a, b);
    }
  }

  /** The picks are those of the greatest scores, or those that the draws hit. */
  ghost predicate WellChosen(w: seq<real>, fanout: int, replace: bool, exponential: nat -> real, draw: nat -> real,
                             picks: seq<int>) {
    && (!replace || fanout == -1 ==> TakesGreatest(w, exponential, picks))
    && (replace && fanout > 0 ==> AllHit(w, Nonzero(w), draw, picks))
  }

  lemma NoneChosen(w: seq<real>, fanout: int, replace: bool, exponential: nat -> real, draw: nat -> real)
    requires w == [] || fanout == 0
    ensures WellChosen(w, fanout, replace, exponential, draw, [])
  {
  }

  lemma MovedBack(local: seq<int>, shifted: seq<int>, offset: int)
    requires |shifted| == |local| && forall k :: 0 <= k < |local| ==> shifted[k] == local[k] + offset
    ensures Back(shifted, offset) == local
  {
  }

  lemma ShiftedGood(local: seq<int>, shifted: seq<int>, fanout: int, replace: bool, w: seq<real>, offset: int)
    requires |shifted| == |local| && forall k :: 0 <= k < |local| ==> shifted[k] == local[k] + offset
    requires GoodPicks(local, fanout, replace, w, 0)
    ensures GoodPicks(shifted, fanout, replace, w, offset)
  {
    hide Nonzero;
  }

  /** `NonUniformPick`: picks in the column's own weights, shifted to edge ids. */
  method NonUniformPick(offset: nat, n: nat, fanout: int, replace: bool, probs: seq<real>, exponential: nat -> real,
                        draw: nat -> real)
    returns (picks: Option<seq<int>>)
    requires Usable(probs, exponential) && fanout >= -1 && HasColumn(Some(probs), offset, n)
    ensures picks.Some? <==> Finds(Local(Some(probs), offset, n), fanout, replace, draw)
    ensures picks.Some? ==> GoodPicks(picks.value, fanout, replace, Local(Some(probs), offset, n), offset)
    ensures picks.Some? ==>
      WellChosen(Local(Some(probs), offset, n), fanout, replace, exponential, draw, Back(picks.value, offset))
  {
    hide Nonzero, Finds, TakesGreatest, AllHit, GoodPicks;
    var local := if |probs| > n then probs[offset..offset + n] else probs;
    var chosen := NonUniformPickOp(local, fanout, replace, exponential, draw);
    if chosen.None? { return None; }
    var shifted: seq<int> := [];
    for i := 0 to |chosen.value|
      invariant |shifted| == i && forall k :: 0 <= k < i ==> shifted[k] == chosen.value[k] + offset
    {
      shifted := shifted + [chosen.value[i] + offset];
    }
    MovedBack(chosen.value, shifted, offset);
    ShiftedGood(chosen.value, shifted, fanout, replace, local, offset);
    picks := Some(shifted);
  }

  /** `Pick`: agrees with `NumPick` and picks well, whatever the random numbers, unless
      a weighted draw with replacement finds no neighbour. */
  method Pick(offset: nat, n: nat, fanout: int, replace: bool, probs: Option<seq<real>>, exponential: nat -> real,
              draw: nat -> real, rng: Rng)
    returns (picks: Option<seq<int>>)
    requires Fair(rng) && fanout >= -1
    requires HasColumn(probs, offset, n) && (probs.Some? ==> Usable(probs.value, exponential))
    ensures picks.Some? <==> probs.None? || Finds(Local(probs, offset, n), fanout, replace, draw)
    ensures picks.Some? ==> GoodPicks(picks.value, fanout, replace, Local(probs, offset, n), offset)
    ensures picks.Some? && probs.Some? ==>
      WellChosen(Local(probs, offset, n), fanout, replace, exponential, draw, Back(picks.value, offset))
    ensures probs.None? && n > 0 && fanout != 0 ==> UniformlyDrawn(picks.value, offset, n, fanout, replace, rng)
  {
    hide Nonzero, Appears, WellChosen, UniformlyDrawn;
    if fanout == 0 || n == 0 {
      NoneChosen(Local(probs, offset, n), fanout, replace, exponential, draw);
      assert Back([], offset) == [];
      return Some([]);
    }
    if probs.Some? {
      picks := NonUniformPick(offset, n, fanout, replace, probs.value, exponential, draw);
    } else {
      NonzeroOnes(n);
      var uniform := UniformPick(offset, n, fanout, replace, rng);
      picks := Some(uniform);
    }
  }
}
