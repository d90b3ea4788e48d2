/** The eviction loops while other threads complete their reads and writes.

    A loop runs under the policy's lock, so nobody starts a read or a write, but
    `ReadingCompleted` and `WritingCompleted` take no lock: the reference counts of
    the queued entries may fall to zero between any two inspections.

    Source: graphbolt/src/cache_policy.h. */
module SharedEviction {
  import opened CacheEviction
  import opened Circular
  import opened Policies

  // ------------------------------------------------------------------
  // Completions

  /** `EndUse` of one entry by another thread. */
  datatype Completion = Completion(ptr: Ptr, write: bool)

  /** What other threads complete between inspection t - 1 and inspection t. */
  type Others = nat -> seq<Completion>

  /** A use that has begun and not ended. */
  predicate Due(nodes: Store, c: Completion) {
    c.ptr in nodes && if c.write then nodes[c.ptr].refs < 0 else nodes[c.ptr].refs > 0
  }

  function Complete(nodes: Store, c: Completion): Store {
    if Due(nodes, c) then nodes[c.ptr := nodes[c.ptr].EndUse(c.write)] else nodes
  }

  function CompleteAll(nodes: Store, cs: seq<Completion>): Store {
    if cs == [] then nodes else CompleteAll(Complete(nodes, cs[0]), cs[1..])
  }

  /** The store when t inspections may have begun, had the loop changed nothing. */
  function Done(nodes: Store, others: Others, t: nat): Store {
    if t == 0 then nodes else CompleteAll(Done(nodes, others, t - 1), others(t - 1))
  }

  function Later(others: Others, t: nat): Others { (i: nat) => others(t + i) }

  /** Only reference counts differ: they have moved towards zero, and zero stays. */
  ghost predicate Settles(a: Store, b: Store) {
    && a.Keys == b.Keys
    && forall p :: p in a ==> b[p] == a[p].(refs := b[p].refs) && Towards(a[p].refs, b[p].refs)
  }

  ghost predicate Towards(a: int, b: int) { a <= b <= 0 || 0 <= b <= a }

  /** Two stores that differ in frequencies only. */
  ghost predicate SameRefs(a: Store, b: Store) {
    a.Keys == b.Keys && forall p :: p in a ==> a[p] == b[p].(freq := a[p].freq)
  }

  lemma {:induction false} CompleteSettles(nodes: Store, cs: seq<Completion>)
    ensures Settles(nodes, CompleteAll(nodes, cs))
  {
    if cs != [] { CompleteSettles(Complete(nodes, cs[0]), cs[1..]); }
  }

  /** Completions do not look at frequencies. */
  lemma {:induction false} CompleteSame(a: Store, b: Store, cs: seq<Completion>)
    requires SameRefs(a, b)
    ensures SameRefs(CompleteAll(a, cs), CompleteAll(b, cs))
  {
    if cs != [] { CompleteSame(Complete(a, cs[0]), Complete(b, cs[0]), cs[1..]); }
  }

  lemma {:induction false} DoneSettles(nodes: Store, others: Others, t: nat, u: nat)
    requires t <= u
    ensures Settles(Done(nodes, others, t), Done(nodes, others, u))
    decreases u
  {
    if t < u {
      DoneSettles(nodes, others, t, u - 1);
      CompleteSettles(Done(nodes, others, u - 1), others(u - 1));
    }
  }

  lemma {:induction false} DoneSame(a: Store, b: Store, others: Others, t: nat)
    requires SameRefs(a, b)
    ensures SameRefs(Done(a, others, t), Done(b, others, t))
  {
    if t > 0 {
      DoneSame(a, b, others, t - 1);
      CompleteSame(Done(a, others, t - 1), Done(b, others, t - 1), others(t - 1));
    }
  }

  lemma {:induction false} DoneLater(nodes: Store, others: Others, t: nat, u: nat)
    ensures Done(Done(nodes, others, t), Later(others, t), u) == Done(nodes, others, t + u)
  {
    if u > 0 { DoneLater(nodes, others, t, u - 1); }
  }

  lemma SettledUnpinned(q: seq<Ptr>, a: Store, b: Store)
    requires Settles(a, b)
    ensures HasUnpinned(q, a) ==> HasUnpinned(q, b)
  {
  }

  // ------------------------------------------------------------------
  // When a loop over one queue stops

  /** The pass and the number of moves within it at inspection t. */
  function Turn(n: nat, t: nat): (nat, nat) {
    if t == 0 then (0, 0) else NextScan(n, Turn(n, t - 1).0, Turn(n, t - 1).1)
  }

  lemma {:induction false} TurnBound(n: nat, t: nat)
    requires n > 0
    ensures Turn(n, t).1 < n
  {
    if t > 0 { TurnBound(n, t - 1); }
  }

  /** Every node is inspected in every pass. */
  lemma {:induction false} TurnOf(n: nat, p: nat, r: nat) returns (t: nat)
    requires r < n
    ensures Turn(n, t) == (p, r) && t >= p
    decreases p, r
  {
    if r > 0 {
      t := TurnOf(n, p, r - 1);
      t := t + 1;
    } else if p > 0 {
      t := TurnOf(n, p - 1, n - 1);
      t := t + 1;
    } else {
      t := 0;
    }
  }

  /** Inspection t meets an entry whose frequency the passes have used up, and that is unpinned by then. */
  ghost predicate Stops(queue: seq<Ptr>, store: Store, others: Others, t: nat) {
    var (p, r) := Turn(|queue|, t);
    && r < |queue|
    && var b := queue[|queue| - 1 - r];
       b in store && store[b].freq <= p && b in Done(store, others, t + 1) && Done(store, others, t + 1)[b].refs == 0
  }

  /** Some entry of the queue is unpinned after t rounds of completions. */
  ghost predicate Frees(queue: seq<Ptr>, store: Store, others: Others, t: nat) {
    HasUnpinned(queue, Done(store, others, t))
  }

  /** The loop over a queue ends exactly if an entry of it is unpinned sooner or later. */
  lemma EndsIfFreed(queue: seq<Ptr>, store: Store, others: Others)
    requires Linked(queue, store)
    ensures (exists t: nat :: Stops(queue, store, others, t)) <==> exists t: nat :: Frees(queue, store, others, t)
  {
    if e: nat :| Frees(queue, store, others, e) {
      var t := FreedStops(queue, store, others, e);
    }
    if t: nat :| Stops(queue, store, others, t) {
      assert Frees(queue, store, others, t + 1);
    }
  }

  lemma FreedStops(queue: seq<Ptr>, store: Store, others: Others, e: nat) returns (t: nat)
    requires Linked(queue, store) && Frees(queue, store, others, e)
    ensures Stops(queue, store, others, t)
  {
    var u :| 0 <= u < |queue| && queue[u] in Done(store, others, e) && Done(store, others, e)[queue[u]].refs == 0;
    var f := store[queue[u]].freq;
    t := TurnOf(|queue|, if f < e then e else f, |queue| - 1 - u);
    DoneSettles(store, others, e, t + 1);
  }

  /** The nodes after t inspections, none of which stopped. */
  ghost predicate SharedAged(queue: seq<Ptr>, store: Store, others: Others, t: nat, p: nat, r: nat, done: nat,
                             nodes: Store) {
    && Linked(queue, store) && Turn(|queue|, t) == (p, r) && r < |queue| && t <= done <= t + 1
    && SameRefs(nodes, Done(store, others, done)) && nodes.Keys == store.Keys
    && (forall x :: x in nodes && x !in queue ==> nodes[x].freq == store[x].freq)
    && (forall j :: 0 <= j < |queue| ==> nodes[queue[j]].freq == Less(store[queue[j]].freq, Visits(|queue|, p, r, j)))
    && (forall s: nat :: s < t ==> !Stops(queue, store, others, s))
  }

  lemma SharedStart(queue: seq<Ptr>, store: Store, others: Others)
    requires Linked(queue, store) && |queue| > 0
    ensures SharedAged(queue, store, others, 0, 0, 0, 0, store)
  {
  }

  /** Other threads complete before the inspection. */
  lemma SharedComplete(queue: seq<Ptr>, store: Store, others: Others, t: nat, p: nat, r: nat, nodes: Store)
    requires SharedAged(queue, store, others, t, p, r, t, nodes)
    ensures SharedAged(queue, store, others, t, p, r, t + 1, CompleteAll(nodes, others(t)))
  {
    hide Stops, Visits;
    CompleteSettles(nodes, others(t));
    CompleteSame(nodes, Done(store, others, t), others(t));
  }

  /** The inspected node, and whether the loop stops at it. */
  lemma SharedInspect(queue: seq<Ptr>, store: Store, others: Others, t: nat, p: nat, r: nat, nodes: Store)
    requires SharedAged(queue, store, others, t, p, r, t + 1, nodes)
    ensures var b := queue[|queue| - 1 - r];
            && b in queue && b in nodes && b in store && 0 <= nodes[b].freq <= store[b].freq
            && nodes[b].key == store[b].key && nodes[b].pos == store[b].pos
            && (Stops(queue, store, others, t) <==> nodes[b].freq == 0 && !nodes[b].InUse())
  {
    hide SameRefs;
    var b, d := queue[|queue| - 1 - r], Done(store, others, t + 1);
    DoneSettles(store, others, 0, t + 1);
    SameRefsAt(nodes, d, b);
  }

  lemma SameRefsAt(a: Store, b: Store, p: Ptr)
    requires SameRefs(a, b) && p in a
    ensures p in b && a[p] == b[p].(freq := a[p].freq)
  {
  }

  /** Passing over the inspected node, which loses a unit of frequency if it has one. */
  lemma SharedPass(queue: seq<Ptr>, store: Store, others: Others, t: nat, p: nat, r: nat, nodes: Store, node: CacheKey)
    requires SharedAged(queue, store, others, t, p, r, t + 1, nodes) && !Stops(queue, store, others, t)
    requires var b := queue[|queue| - 1 - r]; b in nodes && node == nodes[b].Decrement()
    ensures var (p', r') := NextScan(|queue|, p, r);
            SharedAged(queue, store, others, t + 1, p', r', t + 1, nodes[queue[|queue| - 1 - r] := node])
  {
    hide Stops, Done;
    var b, nodes' := queue[|queue| - 1 - r], nodes[queue[|queue| - 1 - r] := node];
    var (p', r') := NextScan(|queue|, p, r);
    forall j | 0 <= j < |queue|
      ensures nodes'[queue[j]].freq == Less(store[queue[j]].freq, Visits(|queue|, p', r', j))
    {
      assert Visits(|queue|, p', r', j) == Visits(|queue|, p, r, j) + if j == |queue| - r - 1 then 1 else 0;
      if j != |queue| - 1 - r { assert queue[j] != b; }
    }
  }

  /** The loop has stopped at its first chance: the victim is gone, the survivors
      carry the reference counts of that moment and have aged by their visits. */
  ghost predicate SharedEvicted(queue: seq<Ptr>, store: Store, others: Others, t: nat, k: nat, nodes: Store,
                                victim: CacheKey) {
    && Linked(queue, store) && Stops(queue, store, others, t)
    && (forall s: nat :: s < t ==> !Stops(queue, store, others, s))
    && var (p, r) := Turn(|queue|, t); var d := Done(store, others, t + 1);
    && k == |queue| - 1 - r && victim.key == store[queue[k]].key && victim.pos == store[queue[k]].pos
    && nodes.Keys == store.Keys - {queue[k]} && d.Keys == store.Keys
    && (forall x :: x in nodes ==> nodes[x] == d[x].(freq := nodes[x].freq))
    && (forall x :: x in nodes && x !in queue ==> nodes[x].freq == store[x].freq)
    && forall j :: 0 <= j < |queue| && j != k ==>
      queue[j] in nodes && nodes[queue[j]].freq == Less(store[queue[j]].freq, p + if j > k then 1 else 0)
  }

  lemma SharedStop(queue: seq<Ptr>, store: Store, others: Others, t: nat, p: nat, r: nat, nodes: Store)
    requires SharedAged(queue, store, others, t, p, r, t + 1, nodes) && Stops(queue, store, others, t)
    ensures var k := |queue| - 1 - r;
      queue[k] in nodes && SharedEvicted(queue, store, others, t, k, nodes - {queue[k]}, nodes[queue[k]])
  {
    hide Stops, Done, Settles;
    SharedInspect(queue, store, others, t, p, r, nodes);
    var k := |queue| - 1 - r;
    forall j | 0 <= j < |queue| && j != k
      ensures queue[j] != queue[k] && Visits(|queue|, p, r, j) == p + if j > k then 1 else 0
    {
    }
  }

  /** Whatever completes meanwhile, the victim was unpinned when it was taken, and
      nothing else happened to the other entries than completions and aging. */
  lemma SharedOneOut(queue: seq<Ptr>, store: Store, others: Others, t: nat, k: nat, nodes: Store, victim: CacheKey)
    requires SharedEvicted(queue, store, others, t, k, nodes, victim)
    requires forall p :: p in store ==> store[p].freq >= 0
    ensures k < |queue| && queue[k] in queue && OneOut(Done(store, others, t + 1), queue[k], nodes)
  {
    DoneSettles(store, others, 0, t + 1);
    forall x | x in nodes ensures 0 <= nodes[x].freq <= store[x].freq {
      if x in queue {
        var j :| 0 <= j < |queue| && queue[j] == x;
        assert j != k;
      }
    }
  }

  // ------------------------------------------------------------------
  // With nobody else active

  ghost predicate Quiet(others: Others) { forall t :: others(t) == [] }

  lemma {:induction false} QuietDone(store: Store, others: Others, t: nat)
    requires Quiet(others)
    ensures Done(store, others, t) == store
  {
    if t > 0 { QuietDone(store, others, t - 1); }
  }

  lemma {:induction false} QuietAged(queue: seq<Ptr>, store: Store, others: Others, t: nat, j: nat)
    requires Linked(queue, store) && j < |queue| && Quiet(others) && store[queue[j]].refs == 0
    requires forall s: nat :: s < t ==> !Stops(queue, store, others, s)
    ensures store[queue[j]].freq >= Visits(|queue|, Turn(|queue|, t).0, Turn(|queue|, t).1, j)
  {
    if t > 0 {
      QuietAged(queue, store, others, t - 1, j);
      QuietDone(store, others, t);
      TurnBound(|queue|, t - 1);
      var (p, r) := Turn(|queue|, t - 1);
      var (p', r') := NextScan(|queue|, p, r);
      assert Visits(|queue|, p', r', j) == Visits(|queue|, p, r, j) + if j == |queue| - r - 1 then 1 else 0;
      assert !Stops(queue, store, others, t - 1);
      if j == |queue| - 1 - r { assert store[queue[j]].freq > p; }
    }
  }

  /** Then the loop evicts the entry that the closed form names. */
  lemma QuietIsEvicted(queue: seq<Ptr>, store: Store, others: Others, t: nat, k: nat, nodes: Store, victim: CacheKey)
    requires SharedEvicted(queue, store, others, t, k, nodes, victim) && Quiet(others)
    ensures Evicted(queue, store, k, queue[k + 1..] + queue[..k], nodes, victim)
  {
    hide Turn, IsVictim, SecondChance, SharedEvicted, Done, Quiet;
    QuietDone(store, others, t + 1);
    QuietVictim(queue, store, others, t, k, nodes, victim);
    QuietSurvivors(queue, store, others, t, k, nodes, victim);
  }

  lemma QuietVictim(queue: seq<Ptr>, store: Store, others: Others, t: nat, k: nat, nodes: Store, victim: CacheKey)
    requires SharedEvicted(queue, store, others, t, k, nodes, victim) && Quiet(others)
    ensures Linked(queue, store) && k < |queue| && IsVictim(queue, store, k)
    ensures store[queue[k]].freq == Turn(|queue|, t).0
    ensures victim.key == store[queue[k]].key && victim.pos == store[queue[k]].pos
  {
    hide Turn, Done, Quiet;
    NotEmpty(queue, store, others, t);
    TurnBound(|queue|, t);
    QuietDone(store, others, t + 1);
    forall j: nat | j < |queue| && store[queue[j]].refs == 0
      ensures store[queue[j]].freq >= Turn(|queue|, t).0 + if j > k then 1 else 0
    {
      QuietAged(queue, store, others, t, j);
    }
  }

  lemma QuietSurvivors(queue: seq<Ptr>, store: Store, others: Others, t: nat, k: nat, nodes: Store, victim: CacheKey)
    requires SharedEvicted(queue, store, others, t, k, nodes, victim) && Done(store, others, t + 1) == store
    requires Linked(queue, store) && k < |queue| && store[queue[k]].freq == Turn(|queue|, t).0
    ensures SecondChance(queue, store, k, nodes)
  {
    hide Turn, Stops, Done;
  }

  // ------------------------------------------------------------------
  // The loops

  /** `EvictMainQueue` of S3-FIFO. */
  method EvictMainShared(queue: seq<Ptr>, store: Store, others: Others)
    returns (q: seq<Ptr>, nodes: Store, victim: CacheKey, t: nat, ghost k: nat)
    requires Linked(queue, store) && exists e: nat :: Frees(queue, store, others, e)
    ensures SharedEvicted(queue, store, others, t, k, nodes, victim) && k < |queue| && q == queue[k + 1..] + queue[..k]
  {
    hide SharedAged, Stops, SharedEvicted, Rotated, Frees, CompleteAll, Turn, Linked;
    EndsIfFreed(queue, store, others);
    ghost var end: nat :| Stops(queue, store, others, end);
    NotEmpty(queue, store, others, end);
    q, nodes, t := queue, store, 0;
    ghost var p: nat, r: nat := 0, 0;
    SharedStart(queue, store, others);
    NoRotation(queue);
    while true
      invariant t <= end && r < |queue| && q == Rotated(queue, r)
      invariant SharedAged(queue, store, others, t, p, r, t, nodes)
      decreases end - t
    {
      SharedComplete(queue, store, others, t, p, r, nodes);
      nodes := CompleteAll(nodes, others(t));
      SharedInspect(queue, store, others, t, p, r, nodes);
      RotateOne(queue, r);
      var evicted := q[|q| - 1];
      if nodes[evicted].freq > 0 || nodes[evicted].InUse() {
        SharedPass(queue, store, others, t, p, r, nodes, nodes[evicted].Decrement());
        nodes := nodes[evicted := nodes[evicted].Decrement()];
        q := [evicted] + q[..|q| - 1];
        p, r := NextScan(|queue|, p, r).0, NextScan(|queue|, p, r).1;
        t := t + 1;
      } else {
        SharedStop(queue, store, others, t, p, r, nodes);
        k := |queue| - 1 - r;
        RestAfter(queue, r);
        victim := nodes[evicted];
        nodes := nodes - {evicted};
        q := q[..|q| - 1];
        return;
      }
    }
  }

  lemma NotEmpty(queue: seq<Ptr>, store: Store, others: Others, t: nat)
    requires Stops(queue, store, others, t)
    ensures |queue| > 0
  {
  }

  lemma RestAfter(queue: seq<Ptr>, r: nat)
    requires r < |queue|
    ensures Rotated(queue, r)[..|queue| - 1] == queue[|queue| - r..] + queue[..|queue| - 1 - r]
  {
    RotateOne(queue, r);
  }

  /** `ClockCachePolicy::Evict`. */
  method EvictClockShared(queue: seq<Ptr>, store: Store, others: Others)
    returns (q: seq<Ptr>, nodes: Store, victim: CacheKey, t: nat, ghost k: nat)
    requires Linked(queue, store) && exists e: nat :: Frees(queue, store, others, e)
    requires forall p :: p in queue ==> store[p].freq <= 1
    ensures SharedEvicted(queue, store, others, t, k, nodes, victim) && k < |queue| && q == queue[k + 1..] + queue[..k]
  {
    hide SharedAged, Stops, SharedEvicted, Rotated, Frees, CompleteAll, Turn, Linked;
    EndsIfFreed(queue, store, others);
    ghost var end: nat :| Stops(queue, store, others, end);
    NotEmpty(queue, store, others, end);
    q, nodes, t := queue, store, 0;
    ghost var p: nat, r: nat := 0, 0;
    SharedStart(queue, store, others);
    NoRotation(queue);
    while true
      invariant t <= end && r < |queue| && q == Rotated(queue, r)
      invariant SharedAged(queue, store, others, t, p, r, t, nodes)
      decreases end - t
    {
      SharedComplete(queue, store, others, t, p, r, nodes);
      nodes := CompleteAll(nodes, others(t));
      SharedInspect(queue, store, others, t, p, r, nodes);
      RotateOne(queue, r);
      var back := q[|q| - 1];
      if nodes[back].freq != 0 || nodes[back].InUse() {
        SharedPass(queue, store, others, t, p, r, nodes, nodes[back].ResetFreq());
        nodes := nodes[back := nodes[back].ResetFreq()];
        q := [back] + q[..|q| - 1];
        p, r := NextScan(|queue|, p, r).0, NextScan(|queue|, p, r).1;
        t := t + 1;
      } else {
        SharedStop(queue, store, others, t, p, r, nodes);
        k := |queue| - 1 - r;
        RestAfter(queue, r);
        victim := nodes[back];
        nodes := nodes - {back};
        q := q[..|q| - 1];
        return;
      }
    }
  }

  /** `LruCachePolicy::Evict`: frequencies are never used. */
  method EvictLruShared(queue: seq<Ptr>, store: Store, others: Others)
    returns (q: seq<Ptr>, nodes: Store, victim: CacheKey, t: nat, ghost k: nat)
    requires Linked(queue, store) && exists e: nat :: Frees(queue, store, others, e)
    requires forall p :: p in queue ==> store[p].freq == 0
    ensures SharedEvicted(queue, store, others, t, k, nodes, victim) && k < |queue| && q == queue[k + 1..] + queue[..k]
  {
    hide SharedAged, Stops, SharedEvicted, Rotated, Frees, CompleteAll, Turn, Linked;
    EndsIfFreed(queue, store, others);
    ghost var end: nat :| Stops(queue, store, others, end);
    NotEmpty(queue, store, others, end);
    q, nodes, t := queue, store, 0;
    ghost var p: nat, r: nat := 0, 0;
    SharedStart(queue, store, others);
    NoRotation(queue);
    while true
      invariant t <= end && r < |queue| && q == Rotated(queue, r)
      invariant SharedAged(queue, store, others, t, p, r, t, nodes)
      decreases end - t
    {
      SharedComplete(queue, store, others, t, p, r, nodes);
      nodes := CompleteAll(nodes, others(t));
      SharedInspect(queue, store, others, t, p, r, nodes);
      RotateOne(queue, r);
      var back := q[|q| - 1];
      if !nodes[back].InUse() { break; }
      SharedPass(queue, store, others, t, p, r, nodes, nodes[back]);
      assert nodes[back := nodes[back]] == nodes;
      q := [back] + q[..|q| - 1];
      p, r := NextScan(|queue|, p, r).0, NextScan(|queue|, p, r).1;
      t := t + 1;
    }
    SharedStop(queue, store, others, t, p, r, nodes);
    k := |queue| - 1 - r;
    RestAfter(queue, r);
    victim := nodes[q[|q| - 1]];
    nodes := nodes - {q[|q| - 1]};
    q := q[..|q| - 1];
  }

  lemma DoneLinked(queue: seq<Ptr>, store: Store, others: Others, t: nat)
    requires Linked(queue, store)
    ensures Linked(queue, Done(store, others, t))
  {
    DoneSettles(store, others, 0, t);
  }

  lemma FreesView(queue: seq<Ptr>, store: Store, others: Others, hand: Hand)
    requires Linked(queue, store) && HandOk(queue, hand)
    ensures Linked(HandView(queue, hand), store)
    ensures (exists e: nat :: Frees(queue, store, others, e)) ==>
      exists e: nat :: Frees(HandView(queue, hand), store, others, e)
  {
    hide Done, HandView;
    LinkedView(queue, store, hand);
    if e: nat :| Frees(queue, store, others, e) {
      DoneLinked(queue, store, others, e);
      LinkedView(queue, Done(store, others, e), hand);
      assert Frees(HandView(queue, hand), store, others, e);
    }
  }

  /** The hand moves on to the next node of its view. */
  lemma HandNext(queue: seq<Ptr>, hand: Hand, p: nat, r: nat, at: nat)
    requires HandOk(queue, hand) && r < |queue| && at == HandSpot(|queue|, HandIndex(queue, hand), r)
    ensures var r' := NextScan(|queue|, p, r).1;
      r' < |queue| && HandSpot(|queue|, HandIndex(queue, hand), r') == if at == 0 then |queue| - 1 else at - 1
  {
  }

  lemma HandAt(queue: seq<Ptr>, hand: Hand, r: nat)
    requires HandOk(queue, hand) && r < |queue|
    ensures var i := HandSpot(|queue|, HandIndex(queue, hand), r);
      0 <= i < |queue| && queue[i] == HandView(queue, hand)[|queue| - 1 - r]
  {
    HandSpotView(queue, hand, r);
  }

  /** The hand of SIEVE is at inspection t of its view, after the completions before it. */
  ghost predicate HandScan(queue: seq<Ptr>, store: Store, hand: Hand, others: Others, t: nat, p: nat, r: nat, at: int,
                           nodes: Store) {
    && HandOk(queue, hand) && (forall x :: x in queue && x in store ==> store[x].freq <= 1)
    && var view := HandView(queue, hand);
    && r < |queue| && SharedAged(view, store, others, t, p, r, t + 1, nodes)
    && 0 <= at < |queue| && at == HandSpot(|queue|, HandIndex(queue, hand), r) && queue[at] == view[|queue| - 1 - r]
    && queue[at] in nodes && 0 <= nodes[queue[at]].freq <= 1
    && (Stops(view, store, others, t) <==> nodes[queue[at]].freq == 0 && !nodes[queue[at]].InUse())
  }

  lemma HandScanFacts(queue: seq<Ptr>, store: Store, hand: Hand, others: Others, t: nat, p: nat, r: nat, at: int,
                      nodes: Store)
    requires HandScan(queue, store, hand, others, t, p, r, at, nodes)
    ensures 0 <= at < |queue| && queue[at] in nodes && 0 <= nodes[queue[at]].freq <= 1
    ensures hand.At? ==> hand.node in queue
    ensures Stops(HandView(queue, hand), store, others, t) <==>
      nodes[queue[at]].freq == 0 && !nodes[queue[at]].InUse()
  {
    hide Stops;
  }

  lemma HandScanReady(queue: seq<Ptr>, store: Store, hand: Hand, others: Others, t: nat, p: nat, r: nat, at: int,
                      nodes: Store)
    requires HandOk(queue, hand) && r < |queue| && forall x :: x in queue && x in store ==> store[x].freq <= 1
    requires SharedAged(HandView(queue, hand), store, others, t, p, r, t, nodes)
    requires at == HandSpot(|queue|, HandIndex(queue, hand), r)
    ensures HandScan(queue, store, hand, others, t, p, r, at, CompleteAll(nodes, others(t)))
  {
    hide SharedAged, Stops, HandView, HandSpot, HandIndex, HandOk, CompleteAll;
    HandAt(queue, hand, r);
    SharedComplete(HandView(queue, hand), store, others, t, p, r, nodes);
    SharedInspect(HandView(queue, hand), store, others, t, p, r, CompleteAll(nodes, others(t)));
    assert queue[at] in queue;
  }

  lemma HandScanNext(queue: seq<Ptr>, store: Store, hand: Hand, others: Others, t: nat, p: nat, r: nat, at: int,
                     nodes: Store)
    requires HandScan(queue, store, hand, others, t, p, r, at, nodes) && at < |queue| && queue[at] in nodes
    requires nodes[queue[at]].freq != 0 || nodes[queue[at]].InUse()
    ensures var (p', r') := NextScan(|queue|, p, r); var nodes' := nodes[queue[at] := nodes[queue[at]].ResetFreq()];
      HandScan(queue, store, hand, others, t + 1, p', r', if at == 0 then |queue| - 1 else at - 1,
               CompleteAll(nodes', others(t + 1)))
  {
    hide SharedAged, Stops, HandView, HandSpot, HandIndex, CompleteAll;
    var (p', r') := NextScan(|queue|, p, r);
    SharedPass(HandView(queue, hand), store, others, t, p, r, nodes, nodes[queue[at]].ResetFreq());
    HandNext(queue, hand, p, r, at);
    HandScanReady(queue, store, hand, others, t + 1, p', r', if at == 0 then |queue| - 1 else at - 1,
                  nodes[queue[at] := nodes[queue[at]].ResetFreq()]);
  }

  lemma HandScanStop(queue: seq<Ptr>, store: Store, hand: Hand, others: Others, t: nat, p: nat, r: nat, at: int,
                     nodes: Store)
    requires HandScan(queue, store, hand, others, t, p, r, at, nodes) && Linked(queue, store)
    requires 0 <= at < |queue| && queue[at] in nodes && nodes[queue[at]].freq == 0 && !nodes[queue[at]].InUse()
    ensures var k, view := |queue| - 1 - r, HandView(queue, hand);
      var q, hand' := queue[..at] + queue[at + 1..], HandAfter(queue, at);
      && 0 <= k < |queue| && queue[at] == view[k]
      && SharedEvicted(view, store, others, t, k, nodes - {queue[at]}, nodes[queue[at]])
      && HandOk(q, hand') && HandView(q, hand') == view[k + 1..] + view[..k]
  {
    hide SharedAged, SharedEvicted, Stops, HandView, HandSpot, HandIndex, HandAfter, Linked;
    SharedStop(HandView(queue, hand), store, others, t, p, r, nodes);
    HandAfterView(queue, store, hand, r);
    HandAfterOk(queue, store, at);
  }

  /** `SieveCachePolicy::Evict`: the queue keeps its order, the hand stops behind the victim. */
  method EvictSieveShared(queue: seq<Ptr>, store: Store, hand: Hand, others: Others)
    returns (q: seq<Ptr>, nodes: Store, hand': Hand, victim: CacheKey, t: nat, ghost k: nat)
    requires Linked(queue, store) && HandOk(queue, hand) && exists e: nat :: Frees(queue, store, others, e)
    requires forall p :: p in queue ==> store[p].freq <= 1
    ensures var view := HandView(queue, hand);
      && SharedEvicted(view, store, others, t, k, nodes, victim) && k < |view|
      && HandOk(q, hand') && HandView(q, hand') == view[k + 1..] + view[..k]
    ensures exists i :: 0 <= i < |queue| && q == queue[..i] + queue[i + 1..] && queue[i] == HandView(queue, hand)[k]
  {
    hide SharedAged, Stops, SharedEvicted, Frees, CompleteAll, Turn, HandView, HandSpot, HandIndex, HandAfter;
    hide Linked, NextScan, HandScan;
    ghost var view := HandView(queue, hand);
    FreesView(queue, store, others, hand);
    EndsIfFreed(view, store, others);
    ghost var end: nat :| Stops(view, store, others, end);
    NotEmpty(view, store, others, end);
    nodes, t := store, 0;
    ghost var p: nat, r: nat := 0, 0;
    SharedStart(view, store, others);
    StartSpot(queue, hand);
    var at := HandIndex(queue, hand) - 1;   // --hand_
    HandScanReady(queue, store, hand, others, t, p, r, at, nodes);
    nodes := CompleteAll(nodes, others(0));
    HandScanFacts(queue, store, hand, others, t, p, r, at, nodes);
    while nodes[queue[at]].freq != 0 || nodes[queue[at]].InUse()
      invariant t <= end && 0 <= at < |queue| && queue[at] in nodes
      invariant HandScan(queue, store, hand, others, t, p, r, at, nodes)
      decreases end - t
    {
      HandScanFacts(queue, store, hand, others, t, p, r, at, nodes);
      HandScanNext(queue, store, hand, others, t, p, r, at, nodes);
      nodes := nodes[queue[at] := nodes[queue[at]].ResetFreq()];
      if at == 0 { at := |queue|; }
      at := at - 1;
      t := t + 1;
      p, r := NextScan(|queue|, p, r).0, NextScan(|queue|, p, r).1;
      nodes := CompleteAll(nodes, others(t));
      HandScanFacts(queue, store, hand, others, t, p, r, at, nodes);
    }
    HandScanFacts(queue, store, hand, others, t, p, r, at, nodes);
    HandScanStop(queue, store, hand, others, t, p, r, at, nodes);
    k := |queue| - 1 - r;
    victim := nodes[queue[at]];
    nodes := nodes - {queue[at]};
    hand' := HandAfter(queue, at);
    q := queue[..at] + queue[at + 1..];
  }

  // ------------------------------------------------------------------
  // S3-FIFO's small queue

  /** Inspection t of the small queue meets an entry that is unused and unpinned by then. */
  ghost predicate SmallStops(small: seq<Ptr>, store: Store, others: Others, t: nat) {
    && t < |small|
    && var b := small[|small| - 1 - t];
       b in store && store[b].freq <= 0 && b in Done(store, others, t + 1) && Done(store, others, t + 1)[b].refs == 0
  }

  /** After t inspections of the small queue, all of which promoted their node. */
  ghost predicate SmallAged(small: seq<Ptr>, main: seq<Ptr>, store: Store, others: Others, t: nat, done: nat,
                            m: seq<Ptr>, nodes: Store) {
    && Linked(small, store) && t <= |small| && t <= done <= t + 1 && m == small[|small| - t..] + main
    && SameRefs(nodes, Done(store, others, done)) && nodes.Keys == store.Keys
    && (forall x :: x in nodes && x !in small[|small| - t..] ==> nodes[x].freq == store[x].freq)
    && (forall j :: |small| - t <= j < |small| ==> nodes[small[j]].freq == 0)
    && (forall s: nat :: s < t ==> !SmallStops(small, store, others, s))
  }

  lemma SmallStart(small: seq<Ptr>, main: seq<Ptr>, store: Store, others: Others)
    requires Linked(small, store)
    ensures SmallAged(small, main, store, others, 0, 0, main, store)
  {
  }

  lemma SmallComplete(small: seq<Ptr>, main: seq<Ptr>, store: Store, others: Others, t: nat, m: seq<Ptr>, nodes: Store)
    requires SmallAged(small, main, store, others, t, t, m, nodes)
    ensures SmallAged(small, main, store, others, t, t + 1, m, CompleteAll(nodes, others(t)))
  {
    hide SmallStops;
    CompleteSettles(nodes, others(t));
    CompleteSame(nodes, Done(store, others, t), others(t));
  }

  lemma SmallInspect(small: seq<Ptr>, main: seq<Ptr>, store: Store, others: Others, t: nat, m: seq<Ptr>, nodes: Store)
    requires SmallAged(small, main, store, others, t, t + 1, m, nodes) && t < |small|
    ensures var b := small[|small| - 1 - t];
      && b in nodes && b in store && nodes[b].key == store[b].key && nodes[b].pos == store[b].pos
      && nodes[b].freq == store[b].freq
      && (SmallStops(small, store, others, t) <==> !Kept(nodes[b]))
  {
    DoneSettles(store, others, 0, t + 1);
    SameRefsAt(nodes, Done(store, others, t + 1), small[|small| - 1 - t]);
  }

  lemma SmallPass(small: seq<Ptr>, main: seq<Ptr>, store: Store, others: Others, t: nat, m: seq<Ptr>, nodes: Store)
    requires SmallAged(small, main, store, others, t, t + 1, m, nodes) && t < |small|
    requires !SmallStops(small, store, others, t)
    ensures var b := small[|small| - 1 - t];
      b in nodes && SmallAged(small, main, store, others, t + 1, t + 1, [b] + m, nodes[b := nodes[b].ResetFreq()])
  {
    hide SmallStops, Done, SameRefs, Linked;
    var b := small[|small| - 1 - t];
    TailGrows(small, t);
    LinkedAt(small, store, |small| - 1 - t);
    SameRefsUpdate(nodes, Done(store, others, t + 1), b);
    SmallReset(small, store, t, nodes);
  }

  lemma LinkedAt(queue: seq<Ptr>, store: Store, i: nat)
    requires Linked(queue, store) && i < |queue|
    ensures queue[i] in store
  {
  }

  /** The promoted nodes start again with frequency 0. */
  lemma SmallReset(small: seq<Ptr>, store: Store, t: nat, nodes: Store)
    requires Linked(small, store) && t < |small| && nodes.Keys == store.Keys
    requires forall x :: x in nodes && x !in small[|small| - t..] ==> nodes[x].freq == store[x].freq
    requires forall j :: |small| - t <= j < |small| ==> nodes[small[j]].freq == 0
    ensures var b := small[|small| - 1 - t]; var nodes' := nodes[b := nodes[b].ResetFreq()];
      && (forall x :: x in nodes' && x !in small[|small| - 1 - t..] ==> nodes'[x].freq == store[x].freq)
      && (forall j :: |small| - 1 - t <= j < |small| ==> small[j] in nodes' && nodes'[small[j]].freq == 0)
  {
    TailGrows(small, t);
  }

  lemma TailGrows(small: seq<Ptr>, t: nat)
    requires t < |small|
    ensures small[|small| - (t + 1)..] == [small[|small| - 1 - t]] + small[|small| - t..]
  {
  }

  lemma SameRefsUpdate(a: Store, b: Store, p: Ptr)
    requires SameRefs(a, b) && p in a
    ensures forall f: int :: SameRefs(a[p := a[p].(freq := f)], b)
  {
  }

  /** `EvictSmallQueue`. */
  method EvictSmallShared(small: seq<Ptr>, main: seq<Ptr>, store: Store, smallSize: int, target: int, others: Others)
    returns (s: seq<Ptr>, m: seq<Ptr>, nodes: Store, size: int, victim: CacheKey, found: bool, t: nat,
             ghost promoted: Store)
    requires Linked(small, store) && smallSize == |small| && target >= 0
    ensures size == |s| <= |small| && s == small[..|s|]
    ensures found ==>
      && target <= |s| == |small| - 1 - t && SmallStops(small, store, others, t)
      && SmallAged(small, main, store, others, t, t + 1, m, promoted)
      && nodes == promoted - {small[|s|]} && victim.key == store[small[|s|]].key && victim.pos == store[small[|s|]].pos
    ensures !found ==>
      && t == (if |small| > target then |small| - target else 0) == |small| - |s|
      && SmallAged(small, main, store, others, t, t, m, nodes)
  {
    hide SmallAged, SmallStops, CompleteAll;
    s, m, nodes, size, t := small, main, store, smallSize, 0;
    SmallStart(small, main, store, others);
    found, promoted, victim := false, store, CacheKey(0, 0, 0, 0);
    while size > target
      invariant size == |s| == |small| - t && s == small[..|s|] && (t > 0 ==> size >= target)
      invariant SmallAged(small, main, store, others, t, t, m, nodes)
      decreases size
    {
      SmallComplete(small, main, store, others, t, m, nodes);
      nodes := CompleteAll(nodes, others(t));
      SmallInspect(small, main, store, others, t, m, nodes);
      size := size - 1;
      var evicted := s[|s| - 1];
      assert evicted == small[|small| - 1 - t];
      s := s[..|s| - 1];
      if nodes[evicted].freq > 0 || nodes[evicted].InUse() {
        SmallPass(small, main, store, others, t, m, nodes);
        nodes := nodes[evicted := nodes[evicted].ResetFreq()];
        m := [evicted] + m;
        t := t + 1;
      } else {
        found, promoted, victim := true, nodes, nodes[evicted];
        nodes := nodes - {evicted};
        return;
      }
    }
  }

  // ------------------------------------------------------------------
  // Whole evictions

  lemma DoneQueued(nodes: Store, others: Others, t: nat, small: seq<Ptr>, main: seq<Ptr>)
    requires Queued(nodes, small, main)
    ensures Queued(Done(nodes, others, t), small, main)
  {
    DoneSettles(nodes, others, 0, t);
  }

  /** Sooner or later an entry that the loops look at is unpinned. */
  ghost predicate Opens(nodes: Store, others: Others, small: seq<Ptr>, main: seq<Ptr>, target: int, t: nat) {
    CanEvict(Done(nodes, others, t), small, main, target)
  }

  lemma SmallNodes(small: seq<Ptr>, main: seq<Ptr>, store: Store, others: Others, t: nat, done: nat, m: seq<Ptr>,
                   nodes: Store)
    requires SmallAged(small, main, store, others, t, done, m, nodes)
    requires forall p :: p in store ==> store[p].freq >= 0
    ensures var d := Done(store, others, done);
      && nodes.Keys == d.Keys == store.Keys
      && forall p :: p in nodes ==> nodes[p] == d[p].(freq := nodes[p].freq) && 0 <= nodes[p].freq <= d[p].freq
  {
    DoneSettles(store, others, 0, done);
    forall p | p in nodes ensures 0 <= nodes[p].freq <= store[p].freq {
      var tail := small[|small| - t..];
      if p in tail {
        var j :| 0 <= j < |tail| && tail[j] == p;
        assert small[|small| - t + j] == p;
      }
    }
  }

  lemma SmallVictim(small: seq<Ptr>, main: seq<Ptr>, store: Store, others: Others, t: nat, s: seq<Ptr>, m: seq<Ptr>,
                    mid: Store, nodes': Store)
    requires Queued(store, small, main) && forall p :: p in store ==> store[p].freq >= 0
    requires SmallStops(small, store, others, t) && SmallAged(small, main, store, others, t, t + 1, m, mid)
    requires |s| == |small| - 1 - t && s == small[..|s|] && nodes' == mid - {small[|s|]}
    ensures OneOut(Done(store, others, t + 1), small[|s|], nodes') && Queued(nodes', s, m)
  {
    hide Queued;
    var d := Done(store, others, t + 1);
    SmallNodes(small, main, store, others, t, t + 1, m, mid);
    DoneQueued(store, others, t + 1, small, main);
    SplitQueues(d, mid, small, main, |s| + 1);
    assert small[..|s| + 1][..|s|] == s;
    ShortenSmall(mid, small[..|s| + 1], m, |s|, small[|s|], nodes');
  }

  lemma SmallQueued(small: seq<Ptr>, main: seq<Ptr>, store: Store, others: Others, t: nat, s: seq<Ptr>, m: seq<Ptr>,
                    mid: Store)
    requires Queued(store, small, main) && forall p :: p in store ==> store[p].freq >= 0
    requires SmallAged(small, main, store, others, t, t, m, mid) && s == small[..|small| - t]
    ensures Queued(mid, s, m) && Linked(m, mid) && forall p :: p in mid ==> mid[p].freq >= 0
  {
    hide Queued, Done;
    SmallNodes(small, main, store, others, t, t, m, mid);
    DoneQueued(store, others, t, small, main);
    SplitQueues(Done(store, others, t), mid, small, main, |small| - t);
    QueuedLinked(mid, s, m);
  }

  lemma SameUnpinned(q: seq<Ptr>, a: Store, b: Store)
    requires SameRefs(a, b)
    ensures HasUnpinned(q, a) <==> HasUnpinned(q, b)
  {
  }

  /** How many nodes the first loop inspects when it finds no victim. */
  function Excess(small: seq<Ptr>, target: nat): nat {
    if |small| > target then |small| - target else 0
  }

  /** The store after t promotions, and the completions before them. */
  ghost function PromotedBy(small: seq<Ptr>, store: Store, others: Others, t: nat): Store
    requires t <= |small|
  {
    var d := Done(store, others, t);
    map p | p in d :: if p in small[|small| - t..] then d[p].ResetFreq() else d[p]
  }

  /** One of S3-FIFO's two loops stops: the small queue has a victim in reach, or the main
      queue with the promoted nodes has one. */
  ghost predicate S3Stops(nodes: Store, others: Others, small: seq<Ptr>, main: seq<Ptr>, target: nat) {
    var t := Excess(small, target);
    || (exists i: nat :: i < t && SmallStops(small, nodes, others, i))
    || exists u: nat :: MainStops(nodes, others, small, main, t, u)
  }

  ghost predicate MainStops(nodes: Store, others: Others, small: seq<Ptr>, main: seq<Ptr>, t: nat, u: nat)
    requires t <= |small|
  {
    Stops(small[|small| - t..] + main, PromotedBy(small, nodes, others, t), Later(others, t), u)
  }

  /** The two loops together end exactly if an entry they look at is unpinned sooner or later. */
  lemma S3EndsIfOpened(nodes: Store, others: Others, small: seq<Ptr>, main: seq<Ptr>, target: nat)
    requires Queued(nodes, small, main)
    ensures S3Stops(nodes, others, small, main, target) <==>
      exists e: nat :: Opens(nodes, others, small, main, target, e)
  {
    hide Stops, SmallStops, Opens, PromotedBy, Queued, Frees;
    var t := Excess(small, target);
    var m, mid := small[|small| - t..] + main, PromotedBy(small, nodes, others, t);
    PromotedLinked(nodes, others, small, main, t);
    EndsIfFreed(m, mid, Later(others, t));
    if u: nat :| Stops(m, mid, Later(others, t), u) {
      assert MainStops(nodes, others, small, main, t, u);
    }
    if i: nat :| i < t && SmallStops(small, nodes, others, i) {
      SmallStopOpens(nodes, others, small, main, target, i);
    }
    if u: nat :| MainStops(nodes, others, small, main, t, u) {
      var f: nat :| Frees(m, mid, Later(others, t), f);
      FreesOpens(nodes, others, small, main, target, f);
    }
    if e: nat :| Opens(nodes, others, small, main, target, e) {
      OpensFrees(nodes, others, small, main, target, e);
    }
  }

  lemma PromotedLinked(nodes: Store, others: Others, small: seq<Ptr>, main: seq<Ptr>, t: nat)
    requires Queued(nodes, small, main) && t <= |small|
    ensures Linked(small[|small| - t..] + main, PromotedBy(small, nodes, others, t))
    ensures SameRefs(PromotedBy(small, nodes, others, t), Done(nodes, others, t))
  {
    hide Done;
    DoneQueued(nodes, others, t, small, main);
  }

  lemma SmallStopOpens(nodes: Store, others: Others, small: seq<Ptr>, main: seq<Ptr>, target: nat, i: nat)
    requires i < Excess(small, target) && SmallStops(small, nodes, others, i)
    ensures Opens(nodes, others, small, main, target, i + 1)
  {
    hide Done;
    var j := |small| - 1 - i - target;
    assert Scanned(small, main, target)[j] == small[|small| - 1 - i];
  }

  lemma FreesOpens(nodes: Store, others: Others, small: seq<Ptr>, main: seq<Ptr>, target: nat, u: nat)
    requires Queued(nodes, small, main)
    requires var t := Excess(small, target);
      Frees(small[|small| - t..] + main, PromotedBy(small, nodes, others, t), Later(others, t), u)
    ensures Opens(nodes, others, small, main, target, Excess(small, target) + u)
  {
    hide Done, HasUnpinned, SameRefs, Queued, PromotedBy, Linked;
    var t := Excess(small, target);
    var m, mid := small[|small| - t..] + main, PromotedBy(small, nodes, others, t);
    PromotedLinked(nodes, others, small, main, t);
    assert Scanned(small, main, target) == m;
    DoneLater(nodes, others, t, u);
    DoneSame(mid, Done(nodes, others, t), Later(others, t), u);
    SameUnpinned(m, Done(mid, Later(others, t), u), Done(nodes, others, t + u));
  }

  lemma OpensFrees(nodes: Store, others: Others, small: seq<Ptr>, main: seq<Ptr>, target: nat, e: nat)
    requires Queued(nodes, small, main) && Opens(nodes, others, small, main, target, e)
    ensures var t := Excess(small, target);
      Frees(small[|small| - t..] + main, PromotedBy(small, nodes, others, t), Later(others, t), e)
  {
    hide Done, HasUnpinned, SameRefs, Queued, PromotedBy, Linked, Settles;
    var t := Excess(small, target);
    var m, mid := small[|small| - t..] + main, PromotedBy(small, nodes, others, t);
    PromotedLinked(nodes, others, small, main, t);
    assert Scanned(small, main, target) == m;
    DoneLater(nodes, others, t, e);
    DoneSettles(nodes, others, e, t + e);
    SettledUnpinned(m, Done(nodes, others, e), Done(nodes, others, t + e));
    DoneSame(mid, Done(nodes, others, t), Later(others, t), e);
    SameUnpinned(m, Done(mid, Later(others, t), e), Done(nodes, others, t + e));
  }

  lemma DoneStart(nodes: Store, others: Others)
    ensures Done(nodes, others, 0) == nodes
  {
  }

  lemma DoneFreq(store: Store, others: Others, t: nat)
    ensures Done(store, others, t).Keys == store.Keys
    ensures forall p :: p in store ==> Done(store, others, t)[p] == store[p].(refs := Done(store, others, t)[p].refs)
  {
    hide Done;
    DoneStart(store, others);
    DoneSettles(store, others, 0, t);
  }

  /** The promoted store is what the first loop leaves when it finds no victim. */
  lemma SmallIsPromoted(small: seq<Ptr>, main: seq<Ptr>, store: Store, others: Others, t: nat, m: seq<Ptr>, mid: Store)
    requires SmallAged(small, main, store, others, t, t, m, mid)
    ensures mid == PromotedBy(small, store, others, t) && m == small[|small| - t..] + main
  {
    hide Done;
    DoneFreq(store, others, t);
    forall p | p in mid ensures mid[p] == PromotedBy(small, store, others, t)[p] {
      var tail := small[|small| - t..];
      if p in tail {
        var j :| 0 <= j < |tail| && tail[j] == p;
        assert small[|small| - t + j] == p;
      }
    }
  }

  /** Then the main queue holds everything that was to be scanned. */
  lemma SmallOpens(small: seq<Ptr>, main: seq<Ptr>, store: Store, others: Others, t: nat, target: nat, m: seq<Ptr>,
                   mid: Store)
    requires Queued(store, small, main) && t == Excess(small, target)
    requires SmallAged(small, main, store, others, t, t, m, mid)
    ensures (exists e: nat :: Opens(store, others, small, main, target, e)) ==>
      exists e: nat :: Frees(m, mid, Later(others, t), e)
  {
    hide Done, HasUnpinned, SameRefs, Settles, Opens, Frees, SmallAged, PromotedBy, Queued;
    SmallIsPromoted(small, main, store, others, t, m, mid);
    if e: nat :| Opens(store, others, small, main, target, e) {
      OpensFrees(store, others, small, main, target, e);
    }
  }

  lemma OneOutSame(a: Store, b: Store, v: Ptr, nodes': Store)
    requires OneOut(a, v, nodes') && SameRefs(a, b) && forall p :: p in a ==> a[p].freq <= b[p].freq
    ensures OneOut(b, v, nodes') && v in a && v in b && a[v].key == b[v].key && a[v].pos == b[v].pos
  {
  }

  /** The victim of the main queue, against the store before the promotions. */
  lemma MainVictim(store: Store, others: Others, t: nat, mid: Store, u: nat, v: Ptr, nodes': Store)
    requires SameRefs(mid, Done(store, others, t)) && mid.Keys == store.Keys
    requires forall p :: p in mid ==> 0 <= mid[p].freq <= store[p].freq
    requires OneOut(Done(mid, Later(others, t), u), v, nodes')
    ensures OneOut(Done(store, others, t + u), v, nodes') && v in mid && v in store
    ensures mid[v].key == store[v].key && mid[v].pos == store[v].pos
  {
    hide Done, OneOut, SameRefs, Settles;
    DoneLater(store, others, t, u);
    DoneSame(mid, Done(store, others, t), Later(others, t), u);
    DoneFreq(mid, Later(others, t), u);
    DoneFreq(store, others, t + u);
    OneOutSame(Done(mid, Later(others, t), u), Done(store, others, t + u), v, nodes');
  }

  /** What a loop over one queue leaves behind, linked as before without the victim. */
  lemma SharedQueued(small: seq<Ptr>, queue: seq<Ptr>, store: Store, others: Others, t: nat, k: nat, nodes: Store,
                     victim: CacheKey)
    requires SharedEvicted(queue, store, others, t, k, nodes, victim) && Queued(store, small, queue)
    requires forall p :: p in store ==> store[p].freq >= 0
    ensures k < |queue| && OneOut(Done(store, others, t + 1), queue[k], nodes)
    ensures Queued(nodes, small, queue[k + 1..] + queue[..k])
  {
    hide Done, Stops, Turn, Queued, SharedEvicted;
    SharedOneOut(queue, store, others, t, k, nodes, victim);
    DoneQueued(store, others, t + 1, small, queue);
    QueuedLinked(Done(store, others, t + 1), small, queue);
    RingLinked(queue, Done(store, others, t + 1), k, nodes);
    QueuedOneQueue(Done(store, others, t + 1), small, queue, queue[k], queue[k + 1..] + queue[..k], nodes);
  }

  /** `S3FifoCachePolicy::Evict` on a full cache. */
  method EvictS3Shared(small: seq<Ptr>, main: seq<Ptr>, nodes: Store, smallSize: int, target: int, others: Others)
    returns (s: seq<Ptr>, m: seq<Ptr>, nodes': Store, size: int, victim: CacheKey, fromSmall: bool, ghost v: Ptr,
             turns: nat)
    requires Queued(nodes, small, main) && smallSize == |small| && target >= 0
    requires exists e: nat :: Opens(nodes, others, small, main, target, e)
    requires forall p :: p in nodes ==> nodes[p].freq >= 0
    ensures OneOut(Done(nodes, others, turns), v, nodes') && Queued(nodes', s, m) && size == |s|
    ensures v in nodes && victim.key == nodes[v].key && victim.pos == nodes[v].pos
    ensures fromSmall <==> exists t: nat :: t < |small| - target && SmallStops(small, nodes, others, t)
  {
    hide Queued, OneOut, Opens, Frees, SmallStops, SmallAged, SharedEvicted, Done, Later, Linked;
    QueuedLinked(nodes, small, main);
    var t;
    ghost var mid;
    s, m, nodes', size, victim, fromSmall, t, mid := EvictSmallShared(small, main, nodes, smallSize, target, others);
    if fromSmall {
      v, turns := small[|s|], t + 1;
      SmallVictim(small, main, nodes, others, t, s, m, mid, nodes');
      SmallInspect(small, main, nodes, others, t, m, mid);
    } else {
      mid := nodes';
      SmallQueued(small, main, nodes, others, t, s, m, mid);
      SmallOpens(small, main, nodes, others, t, target, m, mid);
      SmallNever(small, main, nodes, others, t, m, mid);
      var q := m;
      var u;
      ghost var k;
      m, nodes', victim, u, k := EvictMainShared(q, nodes', Later(others, t));
      SharedQueued(s, q, mid, Later(others, t), u, k, nodes', victim);
      SharedKey(q, mid, Later(others, t), u, k, nodes', victim);
      v, turns := q[k], t + (u + 1);
      MainVictim(nodes, others, t, mid, u + 1, v, nodes');
    }
  }

  lemma SharedKey(queue: seq<Ptr>, store: Store, others: Others, t: nat, k: nat, nodes: Store, victim: CacheKey)
    requires SharedEvicted(queue, store, others, t, k, nodes, victim)
    ensures k < |queue| && queue[k] in queue && queue[k] in store
    ensures victim.key == store[queue[k]].key && victim.pos == store[queue[k]].pos
  {
  }

  lemma SmallNever(small: seq<Ptr>, main: seq<Ptr>, store: Store, others: Others, t: nat, m: seq<Ptr>, mid: Store)
    requires SmallAged(small, main, store, others, t, t, m, mid) && forall p :: p in store ==> store[p].freq >= 0
    ensures forall s: nat :: s < t ==> !SmallStops(small, store, others, s)
    ensures SameRefs(mid, Done(store, others, t)) && mid.Keys == store.Keys
    ensures forall p :: p in mid ==> 0 <= mid[p].freq <= store[p].freq
  {
    hide SmallStops;
    SmallNodes(small, main, store, others, t, t, m, mid);
    DoneSettles(store, others, 0, t);
  }

  /** The virtual `Evict` of SIEVE, LRU and Clock on a full cache. */
  method EvictSingleShared(kind: Kind, queue: seq<Ptr>, nodes: Store, hand: Hand, others: Others)
    returns (q: seq<Ptr>, nodes': Store, hand': Hand, victim: CacheKey, ghost v: Ptr, turns: nat)
    requires kind != S3Fifo && Queued(nodes, [], queue) && KindOk(kind, [], 0, queue, hand) && Counted(kind, nodes)
    requires exists e: nat :: Frees(queue, nodes, others, e)
    ensures KindOk(kind, [], 0, q, hand') && Queued(nodes', [], q)
    ensures OneOut(Done(nodes, others, turns), v, nodes')
    ensures v in nodes && victim.key == nodes[v].key && victim.pos == nodes[v].pos
  {
    hide SharedEvicted, Frees, HandView, OneOut, Done, Linked, Queued;
    QueuedLinked(nodes, [], queue);
    var t;
    ghost var k;
    hand' := hand;
    CountedFreq(kind, nodes);
    CountedQueue(kind, nodes, queue);
    if kind == Sieve {
      q, nodes', hand', victim, t, k := EvictSieveShared(queue, nodes, hand, others);
      v := HandView(queue, hand)[k];
      SieveQueued(queue, HandView(queue, hand), nodes, others, t, k, nodes', victim, q);
    } else {
      if kind == Lru {
        q, nodes', victim, t, k := EvictLruShared(queue, nodes, others);
      } else {
        q, nodes', victim, t, k := EvictClockShared(queue, nodes, others);
      }
      v := queue[k];
      SharedKey(queue, nodes, others, t, k, nodes', victim);
      SharedQueued([], queue, nodes, others, t, k, nodes', victim);
    }
    turns := t + 1;
  }

  lemma SieveQueued(queue: seq<Ptr>, view: seq<Ptr>, nodes: Store, others: Others, t: nat, k: nat, nodes': Store,
                    victim: CacheKey, q: seq<Ptr>)
    requires SharedEvicted(view, nodes, others, t, k, nodes', victim) && Queued(nodes, [], queue) && k < |view|
    requires forall p :: p in nodes ==> nodes[p].freq >= 0
    requires exists i :: 0 <= i < |queue| && q == queue[..i] + queue[i + 1..] && queue[i] == view[k]
    ensures OneOut(Done(nodes, others, t + 1), view[k], nodes') && Queued(nodes', [], q)
    ensures view[k] in nodes && victim.key == nodes[view[k]].key && victim.pos == nodes[view[k]].pos
  {
    hide SharedEvicted, OneOut, Done, Linked, Queued;
    SharedKey(view, nodes, others, t, k, nodes', victim);
    SharedOneOut(view, nodes, others, t, k, nodes', victim);
    var i :| 0 <= i < |queue| && q == queue[..i] + queue[i + 1..] && queue[i] == view[k];
    DoneQueued(nodes, others, t + 1, [], queue);
    QueuedLinked(Done(nodes, others, t + 1), [], queue);
    WithoutOne(queue, Done(nodes, others, t + 1), i, nodes');
    QueuedOneQueue(Done(nodes, others, t + 1), [], queue, view[k], q, nodes');
  }

  lemma CountedQueue(kind: Kind, nodes: Store, queue: seq<Ptr>)
    requires Counted(kind, nodes) && Linked(queue, nodes)
    ensures kind == Lru ==> forall p :: p in queue ==> nodes[p].freq == 0
    ensures kind == Sieve || kind == Clock ==> forall p :: p in queue ==> nodes[p].freq <= 1
  {
  }

  // ------------------------------------------------------------------
  // Insertions

  /** Completions are of entries that were handed out: residents. */
  ghost predicate Published(others: Others, nodes: Store) {
    forall t: nat, c :: c in others(t) ==> c.ptr in nodes
  }

  lemma {:induction false} CompletePush(nodes: Store, cs: seq<Completion>, p: Ptr, node: CacheKey)
    requires p !in nodes && forall c :: c in cs ==> c.ptr in nodes
    ensures CompleteAll(nodes[p := node], cs) == CompleteAll(nodes, cs)[p := node]
  {
    if cs != [] {
      assert cs[0] in cs;
      assert Complete(nodes[p := node], cs[0]) == Complete(nodes, cs[0])[p := node];
      forall c | c in cs[1..] ensures c.ptr in Complete(nodes, cs[0]) { assert c in cs; }
      CompletePush(Complete(nodes, cs[0]), cs[1..], p, node);
    }
  }

  /** A node that nobody has a pointer to yet is not completed. */
  lemma {:induction false} DonePush(nodes: Store, others: Others, t: nat, p: Ptr, node: CacheKey)
    requires p !in nodes && Published(others, nodes)
    ensures Done(nodes[p := node], others, t) == Done(nodes, others, t)[p := node] && p !in Done(nodes, others, t)
  {
    if t > 0 {
      DonePush(nodes, others, t - 1, p, node);
      DoneSettles(nodes, others, 0, t - 1);
      CompletePush(Done(nodes, others, t - 1), others(t - 1), p, node);
      CompleteSettles(Done(nodes, others, t - 1), others(t - 1));
    }
  }

  /** The invariant does not depend on reference counts beyond their lower bound. */
  lemma DoneValid(kind: Kind, nodes: Store, index: map<int, Ptr>, usage: int, capacity: int, others: Others, t: nat)
    requires Indexed(nodes, index) && Slotted(nodes, usage, capacity) && Counted(kind, nodes)
    ensures var d := Done(nodes, others, t); Indexed(d, index) && Slotted(d, usage, capacity) && Counted(kind, d)
  {
    hide *;
    var d := Done(nodes, others, t);
    DoneSettles(nodes, others, 0, t);
    DoneStart(nodes, others);
    SettledIndexed(nodes, d, index);
    SettledSlotted(nodes, d, usage, capacity);
    SettledCounted(kind, nodes, d);
  }

  lemma SettledIndexed(start: Store, settled: Store, startIndex: map<int, Ptr>)
    requires Indexed(start, startIndex) && Settles(start, settled)
    ensures Indexed(settled, startIndex)
  {
  }

  lemma SettledCounted(kind: Kind, nodes: Store, settled: Store)
    requires Counted(kind, nodes) && Settles(nodes, settled)
    ensures Counted(kind, settled)
  {
  }

  lemma SettledQueued(nodes: Store, settled: Store, small: seq<Ptr>, main: seq<Ptr>)
    requires Queued(nodes, small, main) && Settles(nodes, settled)
    ensures Queued(settled, small, main)
  {
  }

  lemma SettledSlotted(nodes: Store, d: Store, usage: int, capacity: int)
    requires Slotted(nodes, usage, capacity) && Settles(nodes, d)
    ensures Slotted(d, usage, capacity)
  {
    assert |d| == |d.Keys| && |nodes| == |nodes.Keys|;
    forall x, y | x in d && y in d && x != y ensures d[x].pos != d[y].pos { assert nodes[x].pos != nodes[y].pos; }
  }

  /** A new node in the slot of an entry that was evicted after t rounds of completions. */
  lemma SharedSlot(kind: Kind, capacity: int, usage: int, nodes: Store, index: map<int, Ptr>, key: int, p: Ptr, v: Ptr,
                   left: Store, small: seq<Ptr>, main: seq<Ptr>, others: Others, t: nat)
    requires Indexed(nodes, index) && Slotted(nodes, usage, capacity) && Counted(kind, nodes)
    requires key !in index && p !in nodes && usage >= capacity && Published(others, nodes)
    requires OneOut(Done(nodes[p := NewNode(key)], others, t), v, left) && Queued(left, small, main)
    ensures v in nodes && p in left && nodes[v].key in index
    ensures var d := Done(nodes, others, t);
            v in d && d[v].key == nodes[v].key && d[v].pos == nodes[v].pos
    ensures var nodes', index' := left[p := left[p].(pos := nodes[v].pos)], index[key := p] - {nodes[v].key};
            && Indexed(nodes', index') && Slotted(nodes', usage, capacity) && Counted(kind, nodes')
            && Queued(nodes', small, main)
            && Inserted(Done(nodes, others, t), usage, capacity, key, p, nodes', usage, To(v))
  {
    hide *;
    DonePush(nodes, others, t, p, NewNode(key));
    DoneValid(kind, nodes, index, usage, capacity, others, t);
    ReplacedSlot(kind, capacity, usage, Done(nodes, others, t), index, key, p, v, left, small, main);
    DoneKey(nodes, others, t, v);
    VictimResident(nodes, index, v);
  }

  /** Whether inserting `key` finishes sooner or later: there is a free slot, or an
      entry that the eviction looks at is unpinned by some completion. */
  ghost predicate InsertsLater(policy: CachePolicy, key: int, others: Others)
    reads policy
  {
    policy.usage < policy.capacity || exists e: nat :: OpensFor(policy, key, others, e)
  }

  ghost predicate OpensFor(policy: CachePolicy, key: int, others: Others, e: nat)
    reads policy
  {
    var less := if policy.kind == S3Fifo && key !in policy.ghostSet then 1 else 0;
    policy.smallTarget >= less && Opens(policy.nodes, others, policy.small, policy.main, policy.smallTarget - less, e)
  }

  /** An insertion that needs no completion needs none of them. */
  lemma InsertsNow(policy: CachePolicy, key: int, others: Others)
    requires policy.CanInsert(key)
    ensures InsertsLater(policy, key, others)
  {
    if policy.usage >= policy.capacity {
      DoneStart(policy.nodes, others);
      assert OpensFor(policy, key, others, 0);
    }
  }

  lemma OpensS3(policy: CachePolicy, key: int, others: Others, p: Ptr, small: seq<Ptr>, main: seq<Ptr>, pushed: Store)
    requires policy.Valid() && policy.kind == S3Fifo && policy.usage >= policy.capacity
    requires InsertsLater(policy, key, others)
    requires p !in policy.nodes && Published(others, policy.nodes)
    requires small == if key in policy.ghostSet then policy.small else [p] + policy.small
    requires main == if key in policy.ghostSet then [p] + policy.main else policy.main
    requires pushed == policy.nodes[p := NewNode(key)]
    ensures policy.smallTarget >= 0 && exists e: nat :: Opens(pushed, others, small, main, policy.smallTarget, e)
  {
    hide Done, CanEvict, NewNode, Slotted, Queued, Counted, Indexed;
    var e: nat :| OpensFor(policy, key, others, e);
    DonePush(policy.nodes, others, e, p, NewNode(key));
    CanEvictS3(Done(policy.nodes, others, e), policy.small, policy.main, policy.smallTarget, key in policy.ghostSet,
               key, p);
    assert Opens(pushed, others, small, main, policy.smallTarget, e);
  }

  lemma OpensSingle(policy: CachePolicy, key: int, others: Others, p: Ptr, queue: seq<Ptr>, pushed: Store)
    requires policy.Valid() && policy.kind != S3Fifo && policy.usage >= policy.capacity
    requires InsertsLater(policy, key, others)
    requires p !in policy.nodes && Published(others, policy.nodes)
    requires queue == [p] + policy.main && pushed == policy.nodes[p := NewNode(key)]
    ensures exists e: nat :: Frees(queue, pushed, others, e)
  {
    hide Done, NewNode, Slotted, Queued, Counted, Indexed;
    var e: nat :| OpensFor(policy, key, others, e);
    DonePush(policy.nodes, others, e, p, NewNode(key));
    assert Scanned(policy.small, policy.main, 0) == policy.main;
    CanEvictAfterPush(Done(policy.nodes, others, e), policy.main, key, p);
    assert Frees(queue, pushed, others, e);
  }

  /** The virtual `Insert` while other threads complete: it ends if it can take a slot
      or an entry is unpinned sooner or later, and then has the effect of the
      completions so far followed by an insertion at once. */
  method InsertShared(policy: CachePolicy, key: int, others: Others)
    returns (p: Ptr, ghost v: MaybePtr, turns: nat)
    requires policy.Valid() && key !in policy.index && Published(others, policy.nodes)
    requires InsertsLater(policy, key, others)
    modifies policy, policy.ghostQueue, policy.ghostQueue.data
    ensures policy.Valid()
    ensures Inserted(Done(old(policy.nodes), others, turns), old(policy.usage), policy.capacity, key, p, policy.nodes,
                     policy.usage, v)
    ensures policy.index ==
      if v.To? then old(policy.index)[key := p] - {Done(old(policy.nodes), others, turns)[v.ptr].key}
                            else old(policy.index)[key := p]
  {
    hide Slotted, Queued, Counted, Indexed, Inserted, Published, CachePolicy.GhostOk, KindOk, Done, InsertsLater;
    turns := 0;
    DoneStart(policy.nodes, others);
    if policy.usage < policy.capacity {
      RoomNow(policy, key);
      p, v := policy.Insert(key);
    } else if policy.kind == S3Fifo {
      p, v, turns := ReplaceS3Shared(policy, key, others);
    } else {
      p, v, turns := ReplaceSingleShared(policy, key, others);
    }
  }

  lemma RoomNow(policy: CachePolicy, key: int)
    requires policy.usage < policy.capacity
    ensures policy.CanInsert(key)
  {
  }

  method ReplaceSingleShared(policy: CachePolicy, key: int, others: Others)
    returns (p: Ptr, ghost v: MaybePtr, turns: nat)
    requires policy.Valid() && key !in policy.index && Published(others, policy.nodes)
    requires InsertsLater(policy, key, others)
    requires policy.kind != S3Fifo && policy.usage >= policy.capacity
    modifies policy`nodes, policy`main, policy`hand, policy`index
    ensures policy.Valid()
    ensures Inserted(Done(old(policy.nodes), others, turns), policy.usage, policy.capacity, key, p, policy.nodes,
                     policy.usage, v)
    ensures v.To? && policy.index == old(policy.index)[key := p] - {Done(old(policy.nodes), others, turns)[v.ptr].key}
  {
    hide Slotted, Queued, Counted, Indexed, Inserted, Published, Done, InsertsLater, NewNode, Linked, HandOk;
    hide OneOut, Frees;
    p := Allocate(policy.nodes);
    ghost var nodes := policy.nodes;
    var queue, pushed := [p] + policy.main, policy.nodes[p := NewNode(key)];
    OpensSingle(policy, key, others, p, queue, pushed);
    PushQueued(nodes, [], policy.main, key, p);
    PushCounted(policy.kind, nodes, key, p);
    PushHandOf(policy.kind, nodes, policy.main, policy.hand, p);
    var main, left, hand, out;
    ghost var w;
    main, left, hand, out, w, turns :=
      EvictSingleShared(policy.kind, queue, pushed, policy.hand, others);
    SharedSlot(policy.kind, policy.capacity, policy.usage, nodes, policy.index, key, p, w, left, [], main, others,
               turns);
    PushedKey(nodes, p, NewNode(key), w);
    v := To(w);
    policy.main, policy.hand := main, hand;
    policy.index := policy.index[key := p] - {out.key};
    policy.nodes := left[p := left[p].(pos := out.pos)];
  }

  lemma PushHandOf(kind: Kind, nodes: Store, main: seq<Ptr>, hand: Hand, p: Ptr)
    requires Queued(nodes, [], main) && p !in nodes && KindOk(kind, [], 0, main, hand)
    ensures KindOk(kind, [], 0, [p] + main, hand)
  {
    if kind == Sieve { PushHand(nodes, [], main, hand, p); }
  }

  lemma DoneKey(nodes: Store, others: Others, t: nat, p: Ptr)
    ensures p in Done(nodes, others, t) <==> p in nodes
    ensures p in nodes ==>
      Done(nodes, others, t)[p].key == nodes[p].key && Done(nodes, others, t)[p].pos == nodes[p].pos
  {
    DoneSettles(nodes, others, 0, t);
  }

  method ReplaceS3Shared(policy: CachePolicy, key: int, others: Others)
    returns (p: Ptr, ghost v: MaybePtr, turns: nat)
    requires policy.Valid() && key !in policy.index && Published(others, policy.nodes)
    requires InsertsLater(policy, key, others)
    requires policy.kind == S3Fifo && policy.usage >= policy.capacity
    modifies policy, policy.ghostQueue, policy.ghostQueue.data
    ensures policy.Valid()
    ensures Inserted(Done(old(policy.nodes), others, turns), policy.usage, policy.capacity, key, p, policy.nodes,
                     policy.usage, v)
    ensures policy.usage == old(policy.usage)
    ensures v.To? && policy.index == old(policy.index)[key := p] - {Done(old(policy.nodes), others, turns)[v.ptr].key}
  {
    hide Slotted, Queued, Counted, Indexed, Inserted, Published, Done, InsertsLater, NewNode, Linked, OneOut;
    hide Opens, SmallStops;
    hide CachePolicy.GhostOk;
    p := Allocate(policy.nodes);
    ghost var nodes := policy.nodes;
    var inGhost := key in policy.ghostSet;
    var small1 := if inGhost then policy.small else [p] + policy.small;
    var main1 := if inGhost then [p] + policy.main else policy.main;
    OpensS3(policy, key, others, p, small1, main1, policy.nodes[p := NewNode(key)]);
    PushQueued(nodes, policy.small, policy.main, key, p);
    var small, main, left, size, index, out, fromSmall;
    small, main, left, size, index, out, fromSmall, v, turns :=
      SlotS3Shared(policy.capacity, policy.usage, policy.nodes, policy.index, small1, main1,
                   policy.smallSize + if inGhost then 0 else 1, policy.smallTarget, key, p, others,
                   policy.nodes[p := NewNode(key)]);
    policy.Install(key, left, small, main, size, index, out, fromSmall);
  }

  /** The eviction for a node that has been pushed to one of the queues, and its slot. */
  method SlotS3Shared(capacity: int, usage: int, nodes: Store, index: map<int, Ptr>, small: seq<Ptr>, main: seq<Ptr>,
                      smallSize: int, target: int, key: int, p: Ptr, others: Others, ghost pushed: Store)
    returns (small': seq<Ptr>, main': seq<Ptr>, nodes': Store, size: int, index': map<int, Ptr>, outKey: int,
             fromSmall: bool,
             ghost v: MaybePtr, turns: nat)
    requires Indexed(nodes, index) && Slotted(nodes, usage, capacity) && Counted(S3Fifo, nodes)
    requires Published(others, nodes)
    requires pushed == nodes[p := NewNode(key)] && Queued(pushed, small, main) && smallSize == |small| && target >= 0
    requires key !in index && p !in nodes && usage >= capacity
    requires exists e: nat :: Opens(pushed, others, small, main, target, e)
    ensures Indexed(nodes', index') && Slotted(nodes', usage, capacity) && Counted(S3Fifo, nodes')
    ensures Queued(nodes', small', main')
    ensures size == |small'| && outKey in index && index' == index[key := p] - {outKey}
    ensures Inserted(Done(nodes, others, turns), usage, capacity, key, p, nodes', usage, v)
    ensures v.To? && v.ptr in Done(nodes, others, turns) && outKey == Done(nodes, others, turns)[v.ptr].key
  {
    hide *;
    PushCounted(S3Fifo, nodes, key, p);
    CountedFreq(S3Fifo, nodes[p := NewNode(key)]);
    var left, out;
    ghost var w;
    small', main', left, size, out, fromSmall, w, turns :=
      EvictS3Shared(small, main, nodes[p := NewNode(key)], smallSize, target, others);
    SharedSlot(S3Fifo, capacity, usage, nodes, index, key, p, w, left, small', main', others, turns);
    PushedKey(nodes, p, NewNode(key), w);
    v := To(w);
    outKey := out.key;
    index' := index[key := p] - {out.key};
    nodes' := left[p := left[p].(pos := out.pos)];
  }

  lemma PushedKey(nodes: Store, p: Ptr, node: CacheKey, v: Ptr)
    requires p !in nodes && v in nodes
    ensures nodes[p := node][v] == nodes[v]
  {
  }

  lemma VictimResident(nodes: Store, index: map<int, Ptr>, w: Ptr)
    requires Indexed(nodes, index) && w in nodes
    ensures nodes[w].key in index
  {
  }
}
