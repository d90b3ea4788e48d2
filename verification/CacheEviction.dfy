/** Cache entries and the eviction loops of the four cache policies.

    A list node is addressed by a pointer into a store of live nodes; splicing a
    node between lists moves its pointer and leaves the node where it is, freeing
    a node removes it from the store.

    Source: graphbolt/src/cache_policy.h. */
module CacheEviction {

  type Ptr = nat

  /** `CacheKey`: refs is -1 while the row is being written, n > 0 while n readers hold it. */
  datatype CacheKey = CacheKey(key: int, freq: int, refs: int, pos: int) {
    function Increment(): CacheKey { this.(freq := if freq + 1 < 3 then freq + 1 else 3) }
    function Decrement(): CacheKey { this.(freq := if freq - 1 > 0 then freq - 1 else 0) }
    function SetFreq(): CacheKey { this.(freq := 1) }
    function ResetFreq(): CacheKey { this.(freq := 0) }
    function StartRead(): CacheKey { this.(refs := refs + 1) }
    function EndUse(write: bool): CacheKey { this.(refs := if write then refs + 1 else refs - 1) }
    predicate InUse() { refs != 0 }
    predicate BeingWritten() { refs < 0 }
  }

  type Store = map<Ptr, CacheKey>

  ghost predicate Linked(q: seq<Ptr>, nodes: Store) {
    && (forall j :: 0 <= j < |q| ==> q[j] in nodes && nodes[q[j]].freq >= 0)
    && forall i, j :: 0 <= i < j < |q| ==> q[i] != q[j]
  }

  /** q[k] is unpinned, no unpinned node has a lower frequency, and among equals
      it is the oldest (queues are ordered from front to back, youngest first). */
  ghost predicate IsVictim(q: seq<Ptr>, nodes: Store, k: nat)
    requires Linked(q, nodes)
  {
    && k < |q|
    && nodes[q[k]].refs == 0
    && forall j :: 0 <= j < |q| && nodes[q[j]].refs == 0 ==>
      nodes[q[k]].freq < nodes[q[j]].freq || (nodes[q[k]].freq == nodes[q[j]].freq && j <= k)
  }

  function Less(freq: int, visits: int): int {
    if freq > visits then freq - visits else 0
  }

  /** The effect of a second-chance scan that evicts q[k]: the nodes behind it move
      to the front in order, and every survivor loses one frequency unit per visit. */
  ghost predicate SecondChance(q: seq<Ptr>, nodes: Store, k: nat, nodes': Store)
    requires Linked(q, nodes) && k < |q|
  {
    && nodes'.Keys == nodes.Keys - {q[k]}
    && (forall p :: p in nodes' && p !in q ==> nodes'[p] == nodes[p])
    && forall j :: 0 <= j < |q| && j != k ==>
      q[j] in nodes' &&
      nodes'[q[j]] == nodes[q[j]].(freq := Less(nodes[q[j]].freq, nodes[q[k]].freq + if j > k then 1 else 0))
  }

  /** There is exactly one possible victim. */
  lemma VictimUnique(q: seq<Ptr>, nodes: Store, a: nat, b: nat)
    requires Linked(q, nodes) && IsVictim(q, nodes, a) && IsVictim(q, nodes, b)
    ensures a == b
  {
  }

  predicate HasUnpinned(q: seq<Ptr>, nodes: Store) {
    exists j :: 0 <= j < |q| && q[j] in nodes && nodes[q[j]].refs == 0
  }

  /** How often position j of a queue of length n has been visited after p full
      passes from the back and r further moves. */
  function Visits(n: nat, p: nat, r: nat, j: nat): nat {
    p + if j + r >= n then 1 else 0
  }

  /** The nodes after p passes and r moves; no unpinned node was at frequency 0 when visited. */
  ghost predicate Aged(q0: seq<Ptr>, nodes0: Store, p: nat, r: nat, nodes: Store)
    requires Linked(q0, nodes0)
  {
    && nodes.Keys == nodes0.Keys
    && (forall x :: x in nodes && x !in q0 ==> nodes[x] == nodes0[x])
    && (forall j :: 0 <= j < |q0| ==>
      nodes[q0[j]] == nodes0[q0[j]].(freq := Less(nodes0[q0[j]].freq, Visits(|q0|, p, r, j))))
    && (forall j :: 0 <= j < |q0| && nodes0[q0[j]].refs == 0 ==> nodes0[q0[j]].freq >= Visits(|q0|, p, r, j))
  }

  lemma AgedStart(q0: seq<Ptr>, nodes0: Store)
    requires Linked(q0, nodes0)
    ensures Aged(q0, nodes0, 0, 0, nodes0)
  {
  }

  /** The node under inspection is live, and its frequency has only gone down. */
  lemma AgedNode(q0: seq<Ptr>, nodes0: Store, p: nat, r: nat, nodes: Store)
    requires Linked(q0, nodes0) && r < |q0| && Aged(q0, nodes0, p, r, nodes)
    ensures var b := q0[|q0| - r - 1];
            b in nodes && b in nodes0 && nodes[b] == nodes0[b].(freq := nodes[b].freq)
            && 0 <= nodes[b].freq <= nodes0[b].freq
  {
    var b := q0[|q0| - r - 1];
    assert nodes[b] == nodes0[b].(freq := Less(nodes0[b].freq, Visits(|q0|, p, r, |q0| - r - 1)));
  }

  function NextScan(n: nat, p: nat, r: nat): (nat, nat) {
    if r + 1 < n then (p, r + 1) else (p + 1, 0)
  }

  /** Passing over a node that is in use or has frequency left. */
  lemma AgeOne(q0: seq<Ptr>, nodes0: Store, p: nat, r: nat, nodes: Store, nodes': Store)
    requires Linked(q0, nodes0) && r < |q0| && Aged(q0, nodes0, p, r, nodes)
    requires var b := q0[|q0| - r - 1];
      b in nodes && (nodes[b].freq > 0 || nodes[b].InUse()) && nodes' == nodes[b := nodes[b].Decrement()]
    ensures var (p', r') := NextScan(|q0|, p, r); Aged(q0, nodes0, p', r', nodes')
  {
    var b := q0[|q0| - r - 1];
    var (p', r') := NextScan(|q0|, p, r);
    forall j | 0 <= j < |q0|
      ensures nodes'[q0[j]] == nodes0[q0[j]].(freq := Less(nodes0[q0[j]].freq, Visits(|q0|, p', r', j)))
      ensures nodes0[q0[j]].refs == 0 ==> nodes0[q0[j]].freq >= Visits(|q0|, p', r', j)
    {
      assert nodes[q0[j]] == nodes0[q0[j]].(freq := Less(nodes0[q0[j]].freq, Visits(|q0|, p, r, j)));
      if j != |q0| - r - 1 { assert q0[j] != b; }
      assert Visits(|q0|, p', r', j) == Visits(|q0|, p, r, j) + if j == |q0| - r - 1 then 1 else 0;
    }
  }

  /** An unpinned node met at frequency 0 is the victim of the closed form. */
  lemma AgedStop(q0: seq<Ptr>, nodes0: Store, p: nat, r: nat, nodes: Store)
    requires Linked(q0, nodes0) && r < |q0| && Aged(q0, nodes0, p, r, nodes)
    requires var b := q0[|q0| - r - 1]; b in nodes && nodes[b].freq <= 0 && !nodes[b].InUse()
    ensures var k := |q0| - r - 1; IsVictim(q0, nodes0, k) && SecondChance(q0, nodes0, k, nodes - {q0[k]})
  {
    var k := |q0| - r - 1;
    assert nodes[q0[k]] == nodes0[q0[k]].(freq := Less(nodes0[q0[k]].freq, Visits(|q0|, p, r, k)));
    assert nodes0[q0[k]].freq == p;
    forall j | 0 <= j < |q0| && j != k
      ensures q0[j] != q0[k] && Visits(|q0|, p, r, j) == p + if j > k then 1 else 0
    { }
  }

  /** A scan never completes more passes than the frequency of an unpinned node. */
  lemma AgedBounded(q0: seq<Ptr>, nodes0: Store, p: nat, r: nat, nodes: Store, u: nat)
    requires Linked(q0, nodes0) && Aged(q0, nodes0, p, r, nodes)
    requires u < |q0| && nodes0[q0[u]].refs == 0
    ensures p <= nodes0[q0[u]].freq
  {
    assert nodes0[q0[u]].freq >= Visits(|q0|, p, r, u);
  }

  /** q0 after r of its last nodes have been moved to the front. */
  function Rotated(q0: seq<Ptr>, r: nat): (q: seq<Ptr>)
    requires r <= |q0|
    ensures |q| == |q0|
  {
    q0[|q0| - r..] + q0[..|q0| - r]
  }

  lemma RotateOne(q0: seq<Ptr>, r: nat)
    requires r < |q0|
    ensures var q := Rotated(q0, r); var b := q[|q| - 1];
            && b == q0[|q0| - r - 1]
            && [b] + q[..|q| - 1] == Rotated(q0, NextScan(|q0|, 0, r).1)
            && q[..|q| - 1] == q0[|q0| - r..] + q0[..|q0| - r - 1]
  {
    var q := Rotated(q0, r);
    var b := q[|q| - 1];
    assert [b] + q[..|q| - 1] == q0[|q0| - r - 1..] + q0[..|q0| - r - 1];
    if r + 1 == |q0| { assert Rotated(q0, 0) == q0 == [b] + q[..|q| - 1]; }
  }

  /** What an eviction loop over one queue achieves: the unique victim leaves, the
      queue restarts behind it, and the survivors have aged. */
  ghost predicate Evicted(queue: seq<Ptr>, store: Store, k: nat, q: seq<Ptr>, nodes: Store, victim: CacheKey) {
    && Linked(queue, store) && IsVictim(queue, store, k)
    && q == queue[k + 1..] + queue[..k]
    && SecondChance(queue, store, k, nodes)
    && victim.key == store[queue[k]].key && victim.pos == store[queue[k]].pos
  }

  lemma EvictedAtStop(q0: seq<Ptr>, nodes0: Store, p: nat, r: nat, q: seq<Ptr>, nodes: Store)
    requires Linked(q0, nodes0) && r < |q0| && Aged(q0, nodes0, p, r, nodes) && q == Rotated(q0, r)
    requires var b := q0[|q0| - r - 1]; b in nodes && nodes[b].freq <= 0 && !nodes[b].InUse()
    ensures var b := q0[|q0| - r - 1]; Evicted(q0, nodes0, |q0| - r - 1, q[..|q| - 1], nodes - {b}, nodes[b])
  {
    AgedNode(q0, nodes0, p, r, nodes);
    AgedStop(q0, nodes0, p, r, nodes);
    RotateOne(q0, r);
  }

  /** `EvictMainQueue` of S3-FIFO: FIFO reinsertion with a frequency counter. */
  method EvictMainQueue(queue: seq<Ptr>, store: Store)
    returns (q: seq<Ptr>, nodes: Store, victim: CacheKey, ghost k: nat)
    requires Linked(queue, store) && HasUnpinned(queue, store)
    ensures Evicted(queue, store, k, q, nodes, victim) && exists i: nat :: Evicted(queue, store, i, q, nodes, victim)
  {
    hide Aged, Rotated, Evicted, Linked, NextScan;
    q, nodes := queue, store;
    ghost var u :| 0 <= u < |queue| && queue[u] in store && store[queue[u]].refs == 0;
    ghost var p: nat, r: nat := 0, 0;
    AgedStart(queue, store);
    NoRotation(queue);
    while true
      invariant r < |queue| && q == Rotated(queue, r) && Aged(queue, store, p, r, nodes)
      decreases store[queue[u]].freq + 1 - p, |queue| - r
    {
      AgedNode(queue, store, p, r, nodes);
      RotateOne(queue, r);
      var evicted := q[|q| - 1];
      if nodes[evicted].freq > 0 || nodes[evicted].InUse() {
        MainPass(queue, store, p, r, nodes, u);
        ScanProgress(|queue|, p, r);
        RotatedAlike(queue, p, r);
        nodes := nodes[evicted := nodes[evicted].Decrement()];
        q := [evicted] + q[..|q| - 1];
        p, r := NextScan(|queue|, p, r).0, NextScan(|queue|, p, r).1;
      } else {
        EvictedAtStop(queue, store, p, r, q, nodes);
        k := |queue| - r - 1;
        victim := nodes[evicted];
        nodes := nodes - {evicted};
        q := q[..|q| - 1];
        return;
      }
    }
  }

  /** Passing over a node in the main queue of S3-FIFO, and in the queue of Clock. */
  lemma MainPass(queue: seq<Ptr>, store: Store, p: nat, r: nat, nodes: Store, u: nat)
    requires Linked(queue, store) && r < |queue| && Aged(queue, store, p, r, nodes)
    requires u < |queue| && queue[u] in store && store[queue[u]].refs == 0
    requires var b := queue[|queue| - r - 1]; b in nodes && (nodes[b].freq > 0 || nodes[b].InUse())
    ensures var (p', r') := NextScan(|queue|, p, r); var b := queue[|queue| - r - 1];
      Aged(queue, store, p', r', nodes[b := nodes[b].Decrement()]) && p' <= store[queue[u]].freq
  {
    hide Aged, Linked;
    var (p', r') := NextScan(|queue|, p, r);
    var b := queue[|queue| - r - 1];
    AgeOne(queue, store, p, r, nodes, nodes[b := nodes[b].Decrement()]);
    AgedBounded(queue, store, p', r', nodes[b := nodes[b].Decrement()], u);
  }

  lemma ClockPass(queue: seq<Ptr>, store: Store, p: nat, r: nat, nodes: Store, u: nat)
    requires Linked(queue, store) && r < |queue| && Aged(queue, store, p, r, nodes)
    requires u < |queue| && queue[u] in store && store[queue[u]].refs == 0
    requires var b := queue[|queue| - r - 1];
      b in nodes && 0 <= nodes[b].freq <= 1 && (nodes[b].freq != 0 || nodes[b].InUse())
    ensures var (p', r') := NextScan(|queue|, p, r); var b := queue[|queue| - r - 1];
      Aged(queue, store, p', r', nodes[b := nodes[b].ResetFreq()]) && p' <= store[queue[u]].freq
  {
    hide Aged, Linked;
    MainPass(queue, store, p, r, nodes, u);
  }

  lemma NoRotation(q: seq<Ptr>)
    ensures Rotated(q, 0) == q
  {
  }

  /** `ClockCachePolicy::Evict`: one reference bit per node. */
  method EvictClock(queue: seq<Ptr>, store: Store)
    returns (q: seq<Ptr>, nodes: Store, victim: CacheKey, ghost k: nat)
    requires Linked(queue, store) && HasUnpinned(queue, store)
    requires forall p :: p in queue ==> store[p].freq <= 1
    ensures Evicted(queue, store, k, q, nodes, victim) && exists i: nat :: Evicted(queue, store, i, q, nodes, victim)
  {
    hide Aged, Rotated, Evicted, Linked, NextScan;
    q, nodes := queue, store;
    ghost var u :| 0 <= u < |queue| && queue[u] in store && store[queue[u]].refs == 0;
    ghost var p: nat, r: nat := 0, 0;
    AgedStart(queue, store);
    NoRotation(queue);
    while true
      invariant r < |queue| && q == Rotated(queue, r) && Aged(queue, store, p, r, nodes)
      decreases store[queue[u]].freq + 1 - p, |queue| - r
    {
      AgedNode(queue, store, p, r, nodes);
      RotateOne(queue, r);
      var back := q[|q| - 1];
      assert back in queue;
      if nodes[back].freq != 0 || nodes[back].InUse() {
        ClockPass(queue, store, p, r, nodes, u);
        ScanProgress(|queue|, p, r);
        RotatedAlike(queue, p, r);
        nodes := nodes[back := nodes[back].ResetFreq()];
        q := [back] + q[..|q| - 1];
        p, r := NextScan(|queue|, p, r).0, NextScan(|queue|, p, r).1;
      } else {
        EvictedAtStop(queue, store, p, r, q, nodes);
        k := |queue| - r - 1;
        victim := nodes[back];
        nodes := nodes - {back};
        q := q[..|q| - 1];
        return;
      }
    }
  }

  /** `LruCachePolicy::Evict`: frequencies are never used. */
  method EvictLru(queue: seq<Ptr>, store: Store)
    returns (q: seq<Ptr>, nodes: Store, victim: CacheKey, ghost k: nat)
    requires Linked(queue, store) && HasUnpinned(queue, store)
    requires forall p :: p in queue ==> store[p].freq == 0
    ensures Evicted(queue, store, k, q, nodes, victim) && exists i: nat :: Evicted(queue, store, i, q, nodes, victim)
    ensures nodes == store - {queue[k]}
  {
    hide Aged, Rotated, Evicted, Linked, NextScan;
    q, nodes := queue, store;
    ghost var u :| 0 <= u < |queue| && queue[u] in store && store[queue[u]].refs == 0;
    ghost var p: nat, r: nat := 0, 0;
    AgedStart(queue, store);
    NoRotation(queue);
    LruNode(queue, store, p, r);
    while nodes[q[|q| - 1]].InUse()
      invariant r < |queue| && q == Rotated(queue, r) && Aged(queue, store, p, r, store) && nodes == store
      invariant |q| == |queue| && q[|q| - 1] == queue[|queue| - r - 1] && q[|q| - 1] in store
      invariant store[q[|q| - 1]].freq == 0
      decreases store[queue[u]].freq + 1 - p, |queue| - r
    {
      var back := q[|q| - 1];
      RotateOne(queue, r);
      LruPass(queue, store, p, r, u);
      ScanProgress(|queue|, p, r);
      RotatedAlike(queue, p, r);
      q := [back] + q[..|q| - 1];
      p, r := NextScan(|queue|, p, r).0, NextScan(|queue|, p, r).1;
      LruNode(queue, store, p, r);
    }
    EvictedAtStop(queue, store, p, r, q, nodes);
    k := |queue| - r - 1;
    victim := nodes[q[|q| - 1]];
    nodes := nodes - {q[|q| - 1]};
    q := q[..|q| - 1];
  }

  lemma LruNode(queue: seq<Ptr>, store: Store, p: nat, r: nat)
    requires Linked(queue, store) && r < |queue| && forall p :: p in queue ==> store[p].freq == 0
    ensures var b := queue[|queue| - r - 1]; b == Rotated(queue, r)[|queue| - 1] && b in store && store[b].freq == 0
  {
    RotateOne(queue, r);
    assert queue[|queue| - r - 1] in queue;
  }

  /** Where a scan stands in a queue does not depend on the pass. */
  lemma RotatedAlike(queue: seq<Ptr>, p: nat, r: nat)
    requires r < |queue|
    ensures NextScan(|queue|, p, r).1 == NextScan(|queue|, 0, r).1
  {
  }

  lemma LruPass(queue: seq<Ptr>, store: Store, p: nat, r: nat, u: nat)
    requires Linked(queue, store) && r < |queue| && Aged(queue, store, p, r, store) && u < |queue|
    requires store[queue[u]].refs == 0
    requires var back := queue[|queue| - r - 1]; store[back].freq == 0 && store[back].InUse()
    ensures var (p', r') := NextScan(|queue|, p, r); Aged(queue, store, p', r', store) && p' <= store[queue[u]].freq
  {
    hide Aged;
    var back := queue[|queue| - r - 1];
    var (p', r') := NextScan(|queue|, p, r);
    assert store[back := store[back].Decrement()] == store;
    AgeOne(queue, store, p, r, store, store);
    AgedBounded(queue, store, p', r', store, u);
  }

  // ------------------------------------------------------------------
  // SIEVE: the hand moves, the nodes do not

  datatype Hand = End | At(node: Ptr)

  function IndexOf(q: seq<Ptr>, p: Ptr): (i: nat)
    requires p in q
    ensures i < |q| && q[i] == p
  {
    if q[0] == p then 0 else 1 + IndexOf(q[1..], p)
  }

  /** The end marker, or a live node that is not the front: decrementing is defined
      whenever the queue is not empty. */
  ghost predicate HandOk(q: seq<Ptr>, hand: Hand) {
    hand.At? ==> hand.node in q && hand.node != q[0]
  }

  function HandIndex(q: seq<Ptr>, hand: Hand): (h: nat)
    requires hand.At? ==> hand.node in q
    ensures h <= |q| && (hand.At? ==> h < |q| && q[h] == hand.node) && (hand.End? ==> h == |q|)
  {
    match hand
    case End => |q|
    case At(p) => IndexOf(q, p)
  }

  /** The queue read from the hand: scanning towards the front from the hand visits
      this sequence from its back. */
  function HandView(q: seq<Ptr>, hand: Hand): (v: seq<Ptr>)
    requires hand.At? ==> hand.node in q
    ensures |v| == |q|
  {
    q[HandIndex(q, hand)..] + q[..HandIndex(q, hand)]
  }

  /** The position in the queue of the node that a scan from h inspects after r moves. */
  function HandSpot(n: nat, h: nat, r: nat): int {
    if r < h then h - 1 - r else h - 1 - r + n
  }

  lemma HandSpotView(q: seq<Ptr>, hand: Hand, r: nat)
    requires (hand.At? ==> hand.node in q) && r < |q|
    ensures var i := HandSpot(|q|, HandIndex(q, hand), r);
            && 0 <= i < |q| && q[i] == HandView(q, hand)[|q| - r - 1]
            && (HandIndex(q, hand) > 0 ==>
              HandSpot(|q|, HandIndex(q, hand), NextScan(|q|, 0, r).1) == if i == 0 then |q| - 1 else i - 1)
  {
  }

  lemma LinkedView(q: seq<Ptr>, store: Store, hand: Hand)
    requires Linked(q, store) && (hand.At? ==> hand.node in q)
    ensures Linked(HandView(q, hand), store)
    ensures HasUnpinned(q, store) ==> HasUnpinned(HandView(q, hand), store)
    ensures forall p :: p in q <==> p in HandView(q, hand)
  {
    var v, h := HandView(q, hand), HandIndex(q, hand);
    forall i | 0 <= i < |q| ensures q[i] == v[if i < h then |q| - h + i else i - h] { }
  }

  /** Removing position i and letting the hand point behind it, as `Evict` does. */
  function HandAfter(queue: seq<Ptr>, i: nat): Hand
    requires i < |queue|
  {
    if i == 0 || i + 1 == |queue| then End else At(queue[i + 1])
  }

  lemma IndexOfUnique(q: seq<Ptr>, i: nat)
    requires i < |q| && forall a, b :: 0 <= a < b < |q| ==> q[a] != q[b]
    ensures IndexOf(q, q[i]) == i
  {
  }

  /** Around h, what follows position i and then what precedes it. */
  lemma RingWithout(queue: seq<Ptr>, h: nat, i: nat)
    requires i < |queue| && h <= |queue|
    ensures var v, k := queue[h..] + queue[..h], if i < h then |queue| - h + i else i - h;
            v[k + 1..] + v[..k] == queue[i + 1..] + queue[..i]
  {
    var v := queue[h..] + queue[..h];
    if i < h {
      var k := |queue| - h + i;
      assert v[k + 1..] == queue[i + 1..h] && v[..k] == queue[h..] + queue[..i];
      assert queue[i + 1..h] + queue[h..] == queue[i + 1..];
    } else {
      var k := i - h;
      assert v[k + 1..] == queue[i + 1..] + queue[..h] && v[..k] == queue[h..i];
      assert queue[..h] + queue[h..i] == queue[..i];
    }
  }

  lemma HandAfterOk(queue: seq<Ptr>, store: Store, i: nat)
    requires Linked(queue, store) && i < |queue|
    ensures var q := queue[..i] + queue[i + 1..];
            HandOk(q, HandAfter(queue, i)) && HandView(q, HandAfter(queue, i)) == queue[i + 1..] + queue[..i]
  {
    var q, hand := queue[..i] + queue[i + 1..], HandAfter(queue, i);
    if hand.At? {
      assert q[i] == hand.node;
      IndexOfUnique(q, i);
      assert q[i..] == queue[i + 1..] && q[..i] == queue[..i];
    } else {
      assert q[|q|..] + q[..|q|] == q == queue[i + 1..] + queue[..i];
    }
  }

  lemma HandAfterView(queue: seq<Ptr>, store: Store, hand: Hand, r: nat)
    requires Linked(queue, store) && (hand.At? ==> hand.node in queue) && r < |queue|
    ensures var i, k := HandSpot(|queue|, HandIndex(queue, hand), r), |queue| - r - 1;
            var v := HandView(queue, hand);
            0 <= i < |queue| && queue[i + 1..] + queue[..i] == v[k + 1..] + v[..k]
  {
    hide HandIndex, Linked;
    HandSpotView(queue, hand, r);
    RingWithout(queue, HandIndex(queue, hand), HandSpot(|queue|, HandIndex(queue, hand), r));
  }

  /** One more node passed over by the hand. */
  lemma HandPasses(queue: seq<Ptr>, store: Store, hand: Hand, p: nat, r: nat, nodes: Store, at: nat)
    requires Linked(queue, store) && HandOk(queue, hand) && r < |queue|
    requires Linked(HandView(queue, hand), store) && Aged(HandView(queue, hand), store, p, r, nodes)
    requires at < |queue| && at == HandSpot(|queue|, HandIndex(queue, hand), r)
    requires queue[at] in nodes && nodes[queue[at]].freq <= 1 && Kept(nodes[queue[at]])
    ensures var (p', r') := NextScan(|queue|, p, r);
            && Aged(HandView(queue, hand), store, p', r', nodes[queue[at] := nodes[queue[at]].ResetFreq()])
            && HandSpot(|queue|, HandIndex(queue, hand), r') == if at == 0 then |queue| - 1 else at - 1
  {
    hide Aged, HandView, HandSpot, HandIndex;
    HandSpotView(queue, hand, r);
    var nodes' := nodes[queue[at] := nodes[queue[at]].ResetFreq()];
    AgedNode(HandView(queue, hand), store, p, r, nodes);
    AgeOne(HandView(queue, hand), store, p, r, nodes, nodes');
    StartSpot(queue, hand);
  }

  lemma SpotNode(queue: seq<Ptr>, store: Store, hand: Hand, p: nat, r: nat, nodes: Store)
    requires Linked(queue, store) && HandOk(queue, hand) && r < |queue|
    requires Linked(HandView(queue, hand), store) && Aged(HandView(queue, hand), store, p, r, nodes)
    requires forall x :: x in queue ==> store[x].freq <= 1
    ensures var i := HandSpot(|queue|, HandIndex(queue, hand), r);
            && 0 <= i < |queue| && queue[i] in nodes && 0 <= nodes[queue[i]].freq <= 1
            && queue[i] == HandView(queue, hand)[|queue| - r - 1]
  {
    HandSpotView(queue, hand, r);
    AgedNode(HandView(queue, hand), store, p, r, nodes);
    assert queue[HandSpot(|queue|, HandIndex(queue, hand), r)] in queue;
  }

  lemma SieveStop(queue: seq<Ptr>, store: Store, hand: Hand, p: nat, r: nat, nodes: Store, at: nat)
    requires Linked(queue, store) && HandOk(queue, hand) && r < |queue|
    requires Linked(HandView(queue, hand), store) && Aged(HandView(queue, hand), store, p, r, nodes)
    requires at < |queue| && at == HandSpot(|queue|, HandIndex(queue, hand), r)
    requires queue[at] in nodes && nodes[queue[at]].freq >= 0 && !Kept(nodes[queue[at]])
    ensures var q, hand' := queue[..at] + queue[at + 1..], HandAfter(queue, at);
            && HandOk(q, hand') && queue[at] == HandView(queue, hand)[|queue| - r - 1]
            && Evicted(HandView(queue, hand), store, |queue| - r - 1, HandView(q, hand'), nodes - {queue[at]},
                       nodes[queue[at]])
  {
    hide Aged, Evicted, Rotated, HandAfter, HandView, HandSpot, HandIndex, HandOk;
    var view := HandView(queue, hand);
    HandSpotView(queue, hand, r);
    EvictedAtStop(view, store, p, r, Rotated(view, r), nodes);
    RotateOne(view, r);
    HandAfterView(queue, store, hand, r);
    HandAfterOk(queue, store, at);
    EvictedView(view, store, |view| - r - 1, Rotated(view, r)[..|view| - 1],
                HandView(queue[..at] + queue[at + 1..], HandAfter(queue, at)), nodes - {queue[at]}, nodes[queue[at]]);
  }

  /** The hand after r moves of pass p over its view. */
  ghost predicate SieveScan(queue: seq<Ptr>, store: Store, hand: Hand, p: nat, r: nat, at: int, nodes: Store) {
    && HandOk(queue, hand) && Linked(queue, store) && (forall x :: x in queue && x in store ==> store[x].freq <= 1)
    && Linked(HandView(queue, hand), store) && r < |queue| && Aged(HandView(queue, hand), store, p, r, nodes)
    && 0 <= at < |queue| && at == HandSpot(|queue|, HandIndex(queue, hand), r)
    && queue[at] in nodes && 0 <= nodes[queue[at]].freq <= 1
  }

  lemma SieveScanNode(queue: seq<Ptr>, store: Store, hand: Hand, p: nat, r: nat, at: int, nodes: Store)
    requires SieveScan(queue, store, hand, p, r, at, nodes)
    ensures 0 <= at < |queue| && queue[at] in nodes && 0 <= nodes[queue[at]].freq <= 1
  {
  }

  lemma SieveScanStart(queue: seq<Ptr>, store: Store, hand: Hand)
    requires Linked(queue, store) && |queue| > 0 && HandOk(queue, hand) && forall p :: p in queue ==> store[p].freq <= 1
    ensures SieveScan(queue, store, hand, 0, 0, HandIndex(queue, hand) - 1, store)
  {
    hide HandView, HandSpot, HandIndex, Aged;
    LinkedView(queue, store, hand);
    AgedStart(HandView(queue, hand), store);
    StartSpot(queue, hand);
    SpotNode(queue, store, hand, 0, 0, store);
  }

  lemma SieveScanNext(queue: seq<Ptr>, store: Store, hand: Hand, p: nat, r: nat, at: int, nodes: Store, u: nat)
    requires SieveScan(queue, store, hand, p, r, at, nodes)
    requires 0 <= at < |queue| && queue[at] in nodes && (nodes[queue[at]].freq != 0 || nodes[queue[at]].InUse())
    requires HandOk(queue, hand) && u < |HandView(queue, hand)| && HandView(queue, hand)[u] in store
    requires store[HandView(queue, hand)[u]].refs == 0
    ensures var (p', r') := NextScan(|queue|, p, r);
      && SieveScan(queue, store, hand, p', r', if at == 0 then |queue| - 1 else at - 1,
                   nodes[queue[at] := nodes[queue[at]].ResetFreq()])
      && p' <= store[HandView(queue, hand)[u]].freq
  {
    hide HandView, HandSpot, HandIndex, Aged;
    var (p', r') := NextScan(|queue|, p, r);
    var nodes' := nodes[queue[at] := nodes[queue[at]].ResetFreq()];
    HandPasses(queue, store, hand, p, r, nodes, at);
    SpotNode(queue, store, hand, p', r', nodes');
    AgedBounded(HandView(queue, hand), store, p', r', nodes', u);
  }

  lemma SieveScanStop(queue: seq<Ptr>, store: Store, hand: Hand, p: nat, r: nat, at: int, nodes: Store)
    requires SieveScan(queue, store, hand, p, r, at, nodes)
    requires 0 <= at < |queue| && queue[at] in nodes && nodes[queue[at]].freq == 0 && !nodes[queue[at]].InUse()
    requires HandOk(queue, hand)
    ensures var q, hand', view := queue[..at] + queue[at + 1..], HandAfter(queue, at), HandView(queue, hand);
      && r < |queue| && HandOk(q, hand') && queue[at] == view[|queue| - r - 1]
      && Evicted(view, store, |queue| - r - 1, HandView(q, hand'), nodes - {queue[at]}, nodes[queue[at]])
  {
    hide Aged, Evicted, HandView, HandSpot, HandIndex, HandAfter, Linked;
    SieveStop(queue, store, hand, p, r, nodes, at);
  }

  lemma ViewUnpinned(queue: seq<Ptr>, store: Store, hand: Hand) returns (u: nat)
    requires Linked(queue, store) && HasUnpinned(queue, store) && HandOk(queue, hand)
    ensures var view := HandView(queue, hand); u < |view| && view[u] in store && store[view[u]].refs == 0
    ensures |queue| > 0
  {
    hide HandView;
    LinkedView(queue, store, hand);
    u :| 0 <= u < |HandView(queue, hand)| && HandView(queue, hand)[u] in store
         && store[HandView(queue, hand)[u]].refs == 0;
  }

  /** `SieveCachePolicy::Evict`: the queue keeps its order, the hand stops behind the victim. */
  method EvictSieve(queue: seq<Ptr>, store: Store, hand: Hand)
    returns (q: seq<Ptr>, nodes: Store, hand': Hand, victim: CacheKey, ghost k: nat)
    requires Linked(queue, store) && HasUnpinned(queue, store) && HandOk(queue, hand)
    requires forall p :: p in queue ==> store[p].freq <= 1
    ensures HandOk(q, hand') && k < |queue|
    ensures exists i :: 0 <= i < |queue| && q == queue[..i] + queue[i + 1..] && queue[i] == HandView(queue, hand)[k]
    ensures Evicted(HandView(queue, hand), store, k, HandView(q, hand'), nodes, victim)
  {
    hide Aged, Evicted, HandView, HandSpot, Rotated, HandAfter, HandIndex, Linked, SieveScan, NextScan, HandOk;
    hide HasUnpinned;
    nodes := store;
    HandNode(queue, hand);
    ghost var view := HandView(queue, hand);
    ghost var u := ViewUnpinned(queue, store, hand);
    ghost var p: nat, r: nat := 0, 0;
    var at := HandIndex(queue, hand) - 1;   // --hand_
    SieveScanStart(queue, store, hand);
    SieveScanNode(queue, store, hand, p, r, at, nodes);
    while nodes[queue[at]].freq != 0 || nodes[queue[at]].InUse()
      invariant 0 <= at < |queue| && queue[at] in nodes && r < |queue| && SieveScan(queue, store, hand, p, r, at, nodes)
      decreases store[view[u]].freq + 1 - p, |queue| - r
    {
      SieveScanNext(queue, store, hand, p, r, at, nodes, u);
      ScanProgress(|queue|, p, r);
      nodes := nodes[queue[at] := nodes[queue[at]].ResetFreq()];
      if at == 0 { at := |queue|; }
      at := at - 1;
      p, r := NextScan(|queue|, p, r).0, NextScan(|queue|, p, r).1;
      SieveScanNode(queue, store, hand, p, r, at, nodes);
    }
    SieveScanNode(queue, store, hand, p, r, at, nodes);
    SieveScanStop(queue, store, hand, p, r, at, nodes);
    k := |queue| - r - 1;
    victim := nodes[queue[at]];
    nodes := nodes - {queue[at]};
    hand' := HandAfter(queue, at);
    q := queue[..at] + queue[at + 1..];
  }

  lemma HandNode(queue: seq<Ptr>, hand: Hand)
    requires HandOk(queue, hand)
    ensures hand.At? ==> hand.node in queue
  {
  }

  lemma ScanProgress(n: nat, p: nat, r: nat)
    requires r < n
    ensures var (p', r') := NextScan(n, p, r); r' < n && (p' == p + 1 || (p' == p && r' == r + 1))
  {
  }

  lemma EvictedView(view: seq<Ptr>, store: Store, k: nat, a: seq<Ptr>, b: seq<Ptr>, nodes: Store, victim: CacheKey)
    requires Evicted(view, store, k, a, nodes, victim)
    requires b == view[k + 1..] + view[..k]
    ensures Evicted(view, store, k, b, nodes, victim)
  {
  }

  lemma StartSpot(q: seq<Ptr>, hand: Hand)
    requires HandOk(q, hand) && |q| > 0
    ensures HandIndex(q, hand) > 0 && HandSpot(|q|, HandIndex(q, hand), 0) == HandIndex(q, hand) - 1
  {
  }

  // ------------------------------------------------------------------
  // S3-FIFO's small queue

  /** Everything behind position t of the small queue moved to the main queue with its frequency reset. */
  ghost predicate Promoted(small: seq<Ptr>, main: seq<Ptr>, store: Store, t: nat, main': seq<Ptr>, nodes: Store)
    requires Linked(small, store) && t <= |small|
  {
    && main' == small[t..] + main
    && nodes.Keys == store.Keys
    && (forall p :: p in nodes && p !in small[t..] ==> nodes[p] == store[p])
    && (forall j :: t <= j < |small| ==> nodes[small[j]] == store[small[j]].ResetFreq())
  }

  /** Not evictable from the small queue. */
  predicate Kept(node: CacheKey) { node.freq > 0 || node.InUse() }

  /** `EvictSmallQueue`: of the nodes beyond the target size, the oldest that is
      neither used again nor pinned is evicted; those behind it are promoted. */
  method EvictSmallQueue(small: seq<Ptr>, main: seq<Ptr>, store: Store, smallSize: int, target: int)
    returns (s: seq<Ptr>, m: seq<Ptr>, nodes: Store, size: int, victim: CacheKey, found: bool, ghost promoted: Store)
    requires Linked(small, store) && smallSize == |small| && target >= 0
    ensures size == |s| && s <= small
    ensures found ==>
      && target <= |s| < |small|
      && !Kept(store[small[|s|]])
      && (forall j :: |s| < j < |small| ==> Kept(store[small[j]]))
      && Promoted(small, main, store, |s| + 1, m, promoted)
      && nodes == promoted - {small[|s|]} && victim == store[small[|s|]]
    ensures !found ==>
      && |s| == (if |small| > target then target else |small|)
      && (forall j :: |s| <= j < |small| ==> Kept(store[small[j]]))
      && Promoted(small, main, store, |s|, m, nodes)
  {
    hide Promoted;
    s, m, nodes, size := small, main, store, smallSize;
    PromoteNone(small, main, store);
    found, promoted, victim := false, store, CacheKey(0, 0, 0, 0);
    while size > target
      invariant size == |s| <= |small| && s == small[..|s|]
      invariant size < target ==> |small| == |s|
      invariant Promoted(small, main, store, |s|, m, nodes)
      invariant forall j :: |s| <= j < |small| ==> Kept(store[small[j]])
      decreases |s|
    {
      size := size - 1;
      var evicted := s[|s| - 1];
      assert evicted == small[|s| - 1];
      PromoteOne(small, main, store, |s|, m, nodes);
      if nodes[evicted].freq > 0 || nodes[evicted].InUse() {
        nodes := nodes[evicted := nodes[evicted].ResetFreq()];
        m := [evicted] + m;
        s := s[..|s| - 1];
      } else {
        found, promoted, victim := true, nodes, nodes[evicted];
        nodes := nodes - {evicted};
        s := s[..|s| - 1];
        return;
      }
    }
  }

  lemma PromoteNone(small: seq<Ptr>, main: seq<Ptr>, store: Store)
    requires Linked(small, store)
    ensures Promoted(small, main, store, |small|, main, store)
  {
  }

  lemma PromoteOne(small: seq<Ptr>, main: seq<Ptr>, store: Store, t: nat, m: seq<Ptr>, nodes: Store)
    requires Linked(small, store) && 1 <= t <= |small| && Promoted(small, main, store, t, m, nodes)
    ensures var b := small[t - 1];
            b in store && b in nodes && nodes[b] == store[b] &&
            Promoted(small, main, store, t - 1, [b] + m, nodes[b := nodes[b].ResetFreq()])
  {
    var b := small[t - 1];
    TailWithFront(small, store, t);
    assert b in store && nodes[b] == store[b];
    assert [b] + m == small[t - 1..] + main;
  }

  lemma TailWithFront(small: seq<Ptr>, store: Store, t: nat)
    requires Linked(small, store) && 1 <= t <= |small|
    ensures small[t - 1..] == [small[t - 1]] + small[t..] && small[t - 1] !in small[t..]
  {
  }

  /** With every node pinned a scan can only go round: each inspected node is moved
      and all nodes stay pinned, until some reader or writer completes. */
  lemma AllPinnedSpins(q: seq<Ptr>, nodes: Store)
    requires Linked(q, nodes) && |q| > 0 && !HasUnpinned(q, nodes)
    ensures var b := q[|q| - 1];
            var q', nodes' := [b] + q[..|q| - 1], nodes[b := nodes[b].Decrement()];
            nodes[b].InUse() && Linked(q', nodes') && !HasUnpinned(q', nodes')
  {
    var b := q[|q| - 1];
    var q', nodes' := [b] + q[..|q| - 1], nodes[b := nodes[b].Decrement()];
    forall j | 0 <= j < |q'|
      ensures q'[j] in nodes && nodes[q'[j]].refs != 0 && nodes'[q'[j]].refs == nodes[q'[j]].refs
    {
      assert q'[j] == q[if j == 0 then |q| - 1 else j - 1];
    }
  }
}
