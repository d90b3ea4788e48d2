/** Temporal sampling: only edges and neighbours strictly older than the seed, and
    inside its time window, may be picked.

    Source: graphbolt/src/fused_csc_sampling_graph.cc. */
module TemporalSampling {
  import opened Collections
  import opened Sampling
  import opened Labor

  /** The timestamps of a graph, and the time and window of one seed. */
  datatype Times = Times(indices: seq<int>, node: Option<seq<int>>, edge: Option<seq<int>>, seed: int,
                         window: Option<int>)
  {
    ghost predicate Covers(offset: nat, n: nat) {
      && offset + n <= |indices| && (edge.Some? ==> |edge.value| == |indices|)
      && (node.Some? ==> forall e :: 0 <= e < |indices| ==> 0 <= indices[e] < |node.value|)
    }

    /** Strictly before the seed, and strictly inside its window. */
    predicate InWindow(ts: int) {
      ts < seed && (window.Some? ==> ts > seed - window.value)
    }

    /** The edge and its neighbour are both old enough. */
    ghost predicate Allowed(e: nat)
      requires Covers(e, 1)
    {
      && (node.Some? ==> InWindow(node.value[indices[e]]))
      && (edge.Some? ==> InWindow(edge.value[e]))
    }
  }

  function And(a: seq<bool>, b: seq<bool>): (r: seq<bool>)
    requires |a| == |b|
    ensures |r| == |a| && forall k :: 0 <= k < |a| ==> (r[k] <==> a[k] && b[k])
  {
    seq(|a|, k requires 0 <= k < |a| => a[k] && b[k])
  }

  function Before(ts: seq<int>, limit: int): (r: seq<bool>)
    ensures |r| == |ts| && forall k :: 0 <= k < |ts| ==> (r[k] <==> ts[k] < limit)
  {
    seq(|ts|, k requires 0 <= k < |ts| => ts[k] < limit)
  }

  function After(ts: seq<int>, limit: int): (r: seq<bool>)
    ensures |r| == |ts| && forall k :: 0 <= k < |ts| ==> (r[k] <==> ts[k] > limit)
  {
    seq(|ts|, k requires 0 <= k < |ts| => ts[k] > limit)
  }

  function NonzeroMask(w: seq<real>): (r: seq<bool>)
    ensures |r| == |w| && forall k :: 0 <= k < |w| ==> (r[k] <==> w[k] != 0.0)
  {
    seq(|w|, k requires 0 <= k < |w| => w[k] != 0.0)
  }

  /** `index_select`. */
  function Select(s: seq<int>, at: seq<int>): (r: seq<int>)
    requires forall k :: 0 <= k < |at| ==> 0 <= at[k] < |s|
    ensures |r| == |at| && forall k :: 0 <= k < |at| ==> r[k] == s[at[k]]
  {
    seq(|at|, k requires 0 <= k < |at| => s[at[k]])
  }

  function Windowed(mask: seq<bool>, ts: seq<int>, t: Times): (r: seq<bool>)
    requires |mask| == |ts|
    ensures |r| == |mask| && forall k :: 0 <= k < |mask| ==> (r[k] <==> mask[k] && t.InWindow(ts[k]))
  {
    var m := And(mask, Before(ts, t.seed));
    if t.window.Some? then And(m, After(ts, t.seed - t.window.value)) else m
  }

  /** `TemporalMask`: which edges of the column may be picked. */
  function TemporalMask(t: Times, probs: Option<seq<real>>, offset: nat, n: nat): (mask: seq<bool>)
    requires t.Covers(offset, n) && (probs.Some? ==> offset + n <= |probs.value|)
    ensures |mask| == n && forall k :: 0 <= k < n ==>
      (mask[k] <==> t.Allowed(offset + k) && (probs.Some? ==> probs.value[offset + k] != 0.0))
  {
    var m0 := seq(n, _ => true);
    var m1 := if t.node.Some? then Windowed(m0, Select(t.node.value, t.indices[offset..offset + n]), t) else m0;
    var m2 := if t.edge.Some? then Windowed(m1, t.edge.value[offset..offset + n], t) else m1;
    if probs.Some? then And(m2, NonzeroMask(probs.value[offset..offset + n])) else m2
  }

  function CountTrue(mask: seq<bool>): (c: nat) {
    if mask == [] then 0 else CountTrue(mask[..|mask| - 1]) + if mask[|mask| - 1] then 1 else 0
  }

  /** The weights times the mask; the mask alone without weights. */
  function Masked(mask: seq<bool>, probs: Option<seq<real>>, offset: nat): (w: seq<real>)
    requires probs.Some? ==> offset + |mask| <= |probs.value|
    ensures |w| == |mask|
  {
    seq(|mask|,
        k requires 0 <= k < |mask| => if !mask[k] then 0.0 else if probs.Some? then probs.value[offset + k] else 1.0)
  }

  lemma {:induction false} CountMasked(mask: seq<bool>, w: seq<real>)
    requires |mask| == |w| && forall k :: 0 <= k < |mask| ==> (mask[k] <==> w[k] != 0.0)
    ensures |Nonzero(w)| == CountTrue(mask)
  {
    if mask != [] { CountMasked(mask[..|mask| - 1], w[..|mask| - 1]); }
  }

  /** The weights temporal sampling picks from. */
  function TemporalWeights(t: Times, probs: Option<seq<real>>, offset: nat, n: nat): (w: seq<real>)
    requires t.Covers(offset, n) && (probs.Some? ==> offset + n <= |probs.value|)
    ensures |w| == n
  {
    Masked(TemporalMask(t, probs, offset, n), probs, offset)
  }

  /** Exactly the edges that meet the time condition, and have weight, may be picked. */
  lemma WeightAllowed(t: Times, probs: Option<seq<real>>, offset: nat, n: nat)
    requires t.Covers(offset, n) && (probs.Some? ==> offset + n <= |probs.value|)
    ensures var w, mask := TemporalWeights(t, probs, offset, n), TemporalMask(t, probs, offset, n);
      && |Nonzero(w)| == CountTrue(mask)
      && (forall k :: 0 <= k < n ==>
        (w[k] != 0.0 <==> t.Allowed(offset + k) && (probs.Some? ==> probs.value[offset + k] != 0.0)))
      && forall k :: 0 <= k < n && t.Allowed(offset + k) ==>
        w[k] == if probs.Some? then probs.value[offset + k] else 1.0
  {
    hide TemporalMask, Nonzero, CountTrue, Times.Allowed, Times.Covers;
    CountMasked(TemporalMask(t, probs, offset, n), TemporalWeights(t, probs, offset, n));
  }

  // ------------------------------------------------------------------
  // The fast path

  const TriedThreshold: int := 1000
  const FastPathThreshold: int := 1000

  /** The picks a caller of the fast path may ask for: `reserve` throws on a negative number. */
  predicate Refused(fanout: int, probs: Option<seq<real>>, n: nat) {
    n > FastPathThreshold && probs.None? && fanout < 0
  }

  /** So all neighbours of a large column cannot be asked for, and those of a smaller one can. */
  lemma AllOfLargeRefused()
    ensures Refused(-1, None, 1001) && !Refused(-1, None, 1000)
  {
  }

  /** The edges kept of the first m draws: those old enough, and each once unless sampled
      with replacement; none of a graph with edge timestamps. */
  ghost function Kept(t: Times, replace: bool, offset: nat, n: nat, rng: Rng, m: nat): (edges: seq<int>)
    requires t.Covers(offset, n) && Fair(rng) && n > 0
    ensures |edges| <= m
  {
    if m == 0 then []
    else
      var before, e := Kept(t, replace, offset, n, rng, m - 1), rng(m - 1, offset, offset + n);
      if t.edge.Some? || !t.Allowed(e) || (!replace && e in before) then before else before + [e]
  }

  lemma {:induction false} KeptGrows(t: Times, replace: bool, offset: nat, n: nat, rng: Rng, a: nat, b: nat)
    requires t.Covers(offset, n) && Fair(rng) && n > 0 && a <= b
    ensures Kept(t, replace, offset, n, rng, a) <= Kept(t, replace, offset, n, rng, b)
    decreases b
  {
    if a < b { KeptGrows(t, replace, offset, n, rng, a, b - 1); }
  }

  lemma KeptNext(t: Times, replace: bool, offset: nat, n: nat, rng: Rng, m: nat)
    requires t.Covers(offset, n) && Fair(rng) && n > 0
    ensures Kept(t, replace, offset, n, rng, 0) == []
    ensures var before, e := Kept(t, replace, offset, n, rng, m), rng(m, offset, offset + n);
      && offset <= e < offset + n
      && Kept(t, replace, offset, n, rng, m + 1) ==
         if t.edge.Some? || !t.Allowed(e) || (!replace && e in before) then before else before + [e]
  {
    hide Appears;
  }

  /** `FastTemporalPick`: draws edges and keeps those old enough, giving up after a
      fixed number of draws. An edge of a graph with edge timestamps is never kept. */
  method FastTemporalPick(t: Times, fanout: int, replace: bool, offset: nat, n: nat, rng: Rng)
    returns (success: bool, edges: seq<int>)
    requires t.Covers(offset, n) && Fair(rng) && n > 0 && fanout >= 0
    ensures success ==> |edges| == fanout && (!replace ==> Distinct(edges))
    ensures success ==> forall k :: 0 <= k < fanout ==> offset <= edges[k] < offset + n && t.Allowed(edges[k])
    ensures success && t.edge.Some? ==> fanout == 0
    ensures fanout == 0 ==> success
    ensures !success ==> edges == []
    ensures success <==> |Kept(t, replace, offset, n, rng, 1000)| >= fanout
    ensures success ==> edges == Kept(t, replace, offset, n, rng, 1000)[..fanout]
  {
    hide Appears, Kept, Fair;
    edges := [];
    KeptNext(t, replace, offset, n, rng, 0);
    var seen: set<int> := {};
    var tried := 0;
    while |edges| < fanout && tried < TriedThreshold
      invariant 0 <= tried <= 1000 && |edges| <= fanout
      invariant edges == Kept(t, replace, offset, n, rng, tried)
      invariant forall k :: 0 <= k < |edges| ==> offset <= edges[k] < offset + n && t.Allowed(edges[k])
      invariant !replace ==> Distinct(edges) && forall x :: x in seen <==> x in edges
      invariant t.edge.Some? ==> edges == []
      decreases TriedThreshold - tried
    {
      var e := rng(tried, offset, offset + n);
      KeptNext(t, replace, offset, n, rng, tried);
      tried := tried + 1;
      if !replace && e in seen { continue; }
      if t.node.Some? {
        var ts := t.node.value[t.indices[e]];
        if ts >= t.seed || (t.window.Some? && ts <= t.seed - t.window.value) { continue; }
      }
      if t.edge.Some? {
        var ts := t.edge.value[e];
        if ts >= t.seed || (t.window.Some? && ts <= t.seed - t.window.value) { continue; }
        continue;
      }
      if !replace { seen := seen + {e}; }
      edges := edges + [e];
    }
    KeptGrows(t, replace, offset, n, rng, tried, 1000);
    success := |edges| >= fanout;
    if !success { edges := []; }
  }

  /** A successful fast path found what the mask path would count. */
  lemma FastCount(t: Times, fanout: int, replace: bool, offset: nat, n: nat, edges: seq<int>)
    requires t.Covers(offset, n) && |edges| == fanout && (!replace ==> Distinct(edges))
    requires forall k :: 0 <= k < fanout ==> offset <= edges[k] < offset + n && t.Allowed(edges[k])
    ensures GoodPicks(edges, fanout, replace, TemporalWeights(t, None, offset, n), offset)
  {
    hide Nonzero, TemporalWeights, Times.Allowed;
    WeightAllowed(t, None, offset, n);
    DistinctFit(Back(edges, offset), TemporalWeights(t, None, offset, n));
  }

  /** Different valid places are no more than there are valid places. */
  lemma DistinctFit(local: seq<int>, w: seq<real>)
    requires forall k :: 0 <= k < |local| ==> 0 <= local[k] < |w| && w[local[k]] != 0.0
    ensures |local| > 0 ==> |Nonzero(w)| > 0
    ensures Distinct(local) ==> |local| <= |Nonzero(w)|
  {
    hide Nonzero;
    NonzeroOrdered(w);
    forall k | 0 <= k < |local| ensures local[k] in Nonzero(w) { }
    assert |local| > 0 ==> local[0] in Nonzero(w);
    DistinctSize(Nonzero(w));
    if Distinct(local) {
      DistinctSize(local);
      forall x | x in Elements(local) ensures x in Elements(Nonzero(w)) { }
      SubsetSize(Elements(local), Elements(Nonzero(w)));
    }
  }

  /** `TemporalNumPick`: whatever the fast path draws, the count of the mask path, unless
      all neighbours of a large column without weights are asked for. */
  method TemporalNumPick(t: Times, fanout: int, replace: bool, probs: Option<seq<real>>, offset: nat, n: nat, rng: Rng)
    returns (count: Option<int>)
    requires t.Covers(offset, n) && (probs.Some? ==> offset + n <= |probs.value|) && Fair(rng) && fanout >= -1
    ensures count.None? <==> fanout < 0 && n > 1000 && probs.None?
    ensures count.Some? ==>
      count.value == PickCount(fanout, replace, |Nonzero(TemporalWeights(t, probs, offset, n))|)
  {
    hide Appears, Nonzero, TemporalWeights;
    if n > FastPathThreshold && probs.None? {
      if fanout < 0 { return None; }
      var success, edges := FastTemporalPick(t, fanout, replace, offset, n, rng);
      if success {
        FastCount(t, fanout, replace, offset, n, edges);
        return Some(|edges|);
      }
    }
    WeightAllowed(t, probs, offset, n);
    var valid := CountTrue(TemporalMask(t, probs, offset, n));
    if valid == 0 || fanout == -1 { return Some(valid); }
    count := Some(if replace then fanout else if fanout < valid then fanout else valid);
  }

  lemma MaskedUsable(t: Times, probs: Option<seq<real>>, offset: nat, n: nat, exponential: nat -> real)
    requires t.Covers(offset, n) && (probs.Some? ==> offset + n <= |probs.value| && Usable(probs.value, exponential))
    requires forall k :: exponential(k) > 0.0
    ensures Usable(TemporalWeights(t, probs, offset, n), exponential)
  {
  }

  /** The fast path is taken, and the first 1000 draws hold enough edges. */
  ghost predicate FoundFast(t: Times, fanout: int, replace: bool, probs: Option<seq<real>>, offset: nat, n: nat,
                            rng: Rng)
    requires t.Covers(offset, n) && Fair(rng)
  {
    n > 1000 && probs.None? && 0 <= fanout <= |Kept(t, replace, offset, n, rng, 1000)|
  }

  /** `TemporalPick` of the neighbour sampler: the edges of the fast path, or those of the
      masked weights as a sampler without times picks them. */
  method TemporalPick(t: Times, fanout: int, replace: bool, probs: Option<seq<real>>, offset: nat, n: nat,
                      exponential: nat -> real, draw: nat -> real, rng: Rng) returns (picks: Option<seq<int>>)
    requires t.Covers(offset, n) && (probs.Some? ==> offset + n <= |probs.value| && Usable(probs.value, exponential))
    requires Fair(rng) && fanout >= -1 && forall k :: exponential(k) > 0.0
    ensures Refused(fanout, probs, n) ==> picks.None?
    ensures !Refused(fanout, probs, n) && Finds(TemporalWeights(t, probs, offset, n), fanout, replace, draw) ==>
      picks.Some?
    ensures picks.Some? ==> GoodPicks(picks.value, fanout, replace, TemporalWeights(t, probs, offset, n), offset)
    ensures picks.Some? && FoundFast(t, fanout, replace, probs, offset, n, rng) ==>
      picks.value == Kept(t, replace, offset, n, rng, 1000)[..fanout]
    ensures picks.Some? && !FoundFast(t, fanout, replace, probs, offset, n, rng) ==>
      WellChosen(TemporalWeights(t, probs, offset, n), fanout, replace, exponential, draw, Back(picks.value, offset))
  {
    hide Appears, Nonzero, TemporalWeights, Finds, Kept, TakesGreatest, AllHit;
    if n > FastPathThreshold && probs.None? {
      if fanout < 0 { return None; }
      var success, edges := FastTemporalPick(t, fanout, replace, offset, n, rng);
      if success {
        FastCount(t, fanout, replace, offset, n, edges);
        return Some(edges);
      }
    }
    var w := TemporalWeights(t, probs, offset, n);
    MaskedUsable(t, probs, offset, n, exponential);
    var chosen := NonUniformPickOp(w, fanout, replace, exponential, draw);
    if chosen.None? { return None; }
    var shifted: seq<int> := [];
    for i := 0 to |chosen.value|
      invariant |shifted| == i && forall k :: 0 <= k < i ==> shifted[k] == chosen.value[k] + offset
    {
      shifted := shifted + [chosen.value[i] + offset];
    }
    MovedBack(chosen.value, shifted, offset);
    ShiftedGood(chosen.value, shifted, fanout, replace, w, offset);
    picks := Some(shifted);
  }

  /** `TemporalPick` of the LABOR samplers: there is no fast path, and the masked
      weights are the column's own. */
  method TemporalLaborPick(t: Times, fanout: int, replace: bool, probs: Option<seq<real>>, offset: nat, n: nat,
                           exponential: nat -> real, rng: Rng, uniform: int -> real, shrink: (nat, nat) -> real,
                           ghost keys: seq<Key>) returns (picks: seq<int>, ghost pairs: seq<(nat, nat)>)
    requires t.Covers(offset, n) && (probs.Some? ==> offset + n <= |probs.value| && Usable(probs.value, exponential))
    requires Fair(rng) && fanout >= -1 && forall k :: exponential(k) > 0.0
    requires forall i, j :: 0.0 <= shrink(i, j) <= 1.0
    requires KeysOf(keys, uniform, t.indices, offset, Some(TemporalWeights(t, probs, offset, n)), n)
    ensures GoodPicks(picks, fanout, replace, TemporalWeights(t, probs, offset, n), offset)
    ensures fanout > 0 && !replace ==> SmallestPicked(picks, keys, fanout, offset)
    ensures fanout > 0 && !replace ==>
      TakesSmallest(picks, uniform, t.indices, offset, TemporalWeights(t, probs, offset, n))
    ensures fanout > 0 && replace && n > 0 ==>
      var race := Race(fanout, TemporalWeights(t, probs, offset, n), shrink);
      Winners(race, pairs) && RaceWon(race, pairs) && PicksWinners(picks, pairs, race.w, offset)
  {
    hide Appears, Nonzero, TemporalWeights, Below, Winners, RaceWon, PicksWinners, TakesSmallest;
    var w := TemporalWeights(t, probs, offset, n);
    MaskedUsable(t, probs, offset, n, exponential);
    picks, pairs := LaborPick(offset, n, fanout, replace, Some(w), exponential, rng, uniform, t.indices, shrink, keys);
  }

  /** One seed of a temporal sampling: counting and picking use different random
      numbers, and still the check on the count never fails. */
  method TemporalColumn(t: Times, fanout: int, replace: bool, probs: Option<seq<real>>, offset: nat, n: nat,
                        exponential: nat -> real, draw: nat -> real, counting: Rng, picking: Rng)
    returns (count: Option<int>, picks: Option<seq<int>>)
    requires t.Covers(offset, n) && (probs.Some? ==> offset + n <= |probs.value| && Usable(probs.value, exponential))
    requires Fair(counting) && Fair(picking) && fanout >= -1 && forall k :: exponential(k) > 0.0
    ensures count.None? <==> fanout < 0 && n > 1000 && probs.None?
    ensures count.None? ==> picks.None?
    ensures count.Some? && Finds(TemporalWeights(t, probs, offset, n), fanout, replace, draw) ==> picks.Some?
    ensures picks.Some? ==> count == Some(|picks.value|)
    ensures picks.Some? ==> forall k :: 0 <= k < |picks.value| ==> Admitted(t, probs, offset, n, picks.value[k])
    ensures picks.Some? && (!replace || fanout == -1) ==> Distinct(picks.value)
  {
    hide Appears, Nonzero, TemporalWeights, Times.Allowed, Finds;
    WeightAllowed(t, probs, offset, n);
    count := Some(0);
    if n != 0 { count := TemporalNumPick(t, fanout, replace, probs, offset, n, counting); }
    if count.None? { return None, None; }
    picks := Some([]);
    if count.value > 0 { picks := TemporalPick(t, fanout, replace, probs, offset, n, exponential, draw, picking); }
    if picks.Some? {
      forall k | 0 <= k < |picks.value| ensures Admitted(t, probs, offset, n, picks.value[k]) {
        assert TemporalWeights(t, probs, offset, n)[picks.value[k] - offset] != 0.0;
      }
    }
  }

  /** An edge of the column that the times and the weights admit. */
  ghost predicate Admitted(t: Times, probs: Option<seq<real>>, offset: nat, n: nat, e: int)
    requires t.Covers(offset, n) && (probs.Some? ==> offset + n <= |probs.value|)
  {
    offset <= e < offset + n && t.Allowed(e) && (probs.Some? ==> probs.value[e] != 0.0)
  }
}
