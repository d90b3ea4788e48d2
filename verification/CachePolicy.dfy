/** The S3-FIFO, SIEVE, LRU and Clock cache policies.

    One class with a tag for the derived policy: the tag selects the member
    functions that differ (`Read`, `Emplace`, `Insert`, `Evict`), the batch
    operations are shared. S3-FIFO uses both queues, the others only `main`.

    Source: graphbolt/src/cache_policy.h, graphbolt/src/cache_policy.cc. */
module Policies {
  import opened CacheEviction
  import opened Circular
  import opened Collections

  datatype Kind = S3Fifo | Sieve | Lru | Clock
  datatype MaybePtr = Null | To(ptr: Ptr)

  function MaxFreq(kind: Kind): int {
    match kind
    case S3Fifo => 3
    case Lru => 0
    case Sieve => 1
    case Clock => 1
  }

  /** The bookkeeping on every lookup of a resident key. */
  function Touched(kind: Kind, node: CacheKey): CacheKey {
    match kind
    case S3Fifo => node.Increment()
    case Lru => node
    case Sieve => node.SetFreq()
    case Clock => node.SetFreq()
  }

  /** `MoveToFront` within one queue. */
  function ToFront(q: seq<Ptr>, p: Ptr): (r: seq<Ptr>)
    requires p in q
  {
    var i := IndexOf(q, p);
    [p] + q[..i] + q[i + 1..]
  }

  // ------------------------------------------------------------------
  // The invariant

  /** The map and the list nodes agree. */
  ghost predicate Indexed(nodes: Store, index: map<int, Ptr>) {
    && (forall p :: p in nodes ==> nodes[p].key in index && index[nodes[p].key] == p)
    && (forall k :: k in index ==> index[k] in nodes && nodes[index[k]].key == k)
  }

  /** Every resident has its own slot below usage. */
  ghost predicate Slotted(nodes: Store, usage: int, capacity: int) {
    && 0 <= usage <= capacity && |nodes| == usage
    && (forall p :: p in nodes ==> 0 <= nodes[p].pos < usage)
    && (forall p, q :: p in nodes && q in nodes && p != q ==> nodes[p].pos != nodes[q].pos)
  }

  ghost predicate Counted(kind: Kind, nodes: Store) {
    forall p :: p in nodes ==> nodes[p].refs >= -1 && 0 <= nodes[p].freq <= MaxFreq(kind)
  }

  /** The two queues hold exactly the live nodes, each once. */
  ghost predicate Queued(nodes: Store, small: seq<Ptr>, main: seq<Ptr>) {
    && Linked(small, nodes) && Linked(main, nodes)
    && (forall p :: p in nodes ==> p in small || p in main)
    && (forall p :: p in small ==> p !in main)
  }

  ghost predicate KindOk(kind: Kind, small: seq<Ptr>, smallSize: int, main: seq<Ptr>, hand: Hand) {
    && smallSize == |small|
    && (kind != S3Fifo ==> small == [])
    && (if kind == Sieve then HandOk(main, hand) else hand == End)
  }

  // ------------------------------------------------------------------
  // One eviction

  /** v leaves; the others keep everything but some of their frequency. */
  ghost predicate OneOut(nodes: Store, v: Ptr, nodes': Store) {
    && v in nodes && nodes[v].refs == 0
    && nodes'.Keys == nodes.Keys - {v}
    && forall p :: p in nodes' ==>
      nodes'[p] == nodes[p].(freq := nodes'[p].freq) && 0 <= nodes'[p].freq <= nodes[p].freq
  }

  /** The outcome of S3-FIFO's two eviction loops, with the evicted node v; mid is
      the store after the promotions. */
  ghost predicate S3Evicted(small: seq<Ptr>, main: seq<Ptr>, nodes: Store, target: int,
                            small': seq<Ptr>, main': seq<Ptr>, nodes': Store, v: Ptr, k: nat, mid: Store)
    requires Linked(small, nodes) && target >= 0
  {
    if exists t :: target <= t < |small| && !Kept(nodes[small[t]]) then
      && target <= |small'| < |small| && small' == small[..|small'|] && v == small[|small'|]
      && !Kept(nodes[v]) && (forall j :: |small'| < j < |small| ==> Kept(nodes[small[j]]))
      && Promoted(small, main, nodes, |small'| + 1, main', mid) && nodes' == mid - {v}
    else
      var t := if |small| > target then target else |small|;
      && small' == small[..t]
      && Promoted(small, main, nodes, t, small[t..] + main, mid)
      && k < |small[t..] + main| && v == (small[t..] + main)[k] && v in mid
      && Evicted(small[t..] + main, mid, k, main', nodes', mid[v])
  }

  lemma EvictedOneOut(queue: seq<Ptr>, store: Store, k: nat, q: seq<Ptr>, nodes: Store, victim: CacheKey)
    requires Evicted(queue, store, k, q, nodes, victim)
    requires forall p :: p in store ==> store[p].freq >= 0
    ensures OneOut(store, queue[k], nodes) && Linked(q, nodes)
    ensures forall p :: p in q <==> p in queue && p != queue[k]
  {
    forall p | p in nodes
      ensures nodes[p] == store[p].(freq := nodes[p].freq) && 0 <= nodes[p].freq <= store[p].freq
    {
      if p in queue {
        var j :| 0 <= j < |queue| && queue[j] == p;
        var visits := store[queue[k]].freq + if j > k then 1 else 0;
        assert nodes[queue[j]] == store[queue[j]].(freq := Less(store[queue[j]].freq, visits));
      }
    }
    RingLinked(queue, store, k, nodes);
  }

  /** The queue behind and before position k, without it. */
  lemma RingLinked(queue: seq<Ptr>, store: Store, k: nat, nodes: Store)
    requires Linked(queue, store) && k < |queue| && OneOut(store, queue[k], nodes)
    ensures var q := queue[k + 1..] + queue[..k];
      Linked(q, nodes) && forall p :: p in q <==> p in queue && p != queue[k]
  {
    var q := queue[k + 1..] + queue[..k];
    forall i | 0 <= i < |q| ensures q[i] == queue[if i < |queue| - k - 1 then i + k + 1 else i - (|queue| - k - 1)] { }
    forall p | p in queue && p != queue[k] ensures p in q {
      var j :| 0 <= j < |queue| && queue[j] == p;
      assert q[if j > k then j - k - 1 else j + |queue| - k - 1] == p;
    }
  }

  lemma PromotedNodes(small: seq<Ptr>, main: seq<Ptr>, store: Store, t: nat, main': seq<Ptr>, nodes: Store)
    requires Linked(small, store) && t <= |small| && Promoted(small, main, store, t, main', nodes)
    requires forall p :: p in store ==> store[p].freq >= 0
    ensures forall p :: p in nodes ==>
      nodes[p] == store[p].(freq := nodes[p].freq) && 0 <= nodes[p].freq <= store[p].freq
  {
    forall p | p in nodes ensures nodes[p] == store[p].(freq := nodes[p].freq) && 0 <= nodes[p].freq <= store[p].freq {
      if p in small[t..] {
        var j :| 0 <= j < |small[t..]| && small[t..][j] == p;
        assert small[t + j] == p;
      }
    }
  }

  /** Splitting one queue and prepending its tail to the other keeps the nodes queued once. */
  lemma SplitQueues(nodes: Store, nodes': Store, small: seq<Ptr>, main: seq<Ptr>, t: nat)
    requires Queued(nodes, small, main) && t <= |small|
    requires nodes'.Keys == nodes.Keys && forall p :: p in nodes' ==> nodes'[p].freq >= 0
    ensures Queued(nodes', small[..t], small[t..] + main)
  {
    hide Linked;
    SplitLinked(nodes, nodes', small, main, t);
    SplitMembers(small, main, t);
    forall p | p in small[..t] ensures p !in small[t..] + main {
      SplitApart(nodes, small, t, p);
    }
  }

  lemma SplitLinked(nodes: Store, nodes': Store, small: seq<Ptr>, main: seq<Ptr>, t: nat)
    requires Linked(small, nodes) && Linked(main, nodes) && t <= |small| && forall p :: p in small ==> p !in main
    requires nodes'.Keys == nodes.Keys && forall p :: p in nodes' ==> nodes'[p].freq >= 0
    ensures Linked(small[..t], nodes') && Linked(small[t..] + main, nodes')
  {
    var b := small[t..] + main;
    forall i, j | 0 <= i < j < |b| ensures b[i] != b[j] {
      if t + i < |small| { assert small[t + i] in small; }
    }
  }

  lemma SplitMembers(small: seq<Ptr>, main: seq<Ptr>, t: nat)
    requires t <= |small|
    ensures forall p :: p in small || p in main ==> p in small[..t] || p in small[t..] + main
    ensures forall p :: p in small[t..] + main ==> p in small[t..] || p in main
  {
    assert small == small[..t] + small[t..];
  }

  lemma SplitApart(nodes: Store, small: seq<Ptr>, t: nat, p: Ptr)
    requires Linked(small, nodes) && t <= |small| && p in small[..t]
    ensures p in small && p !in small[t..]
  {
    var i :| 0 <= i < t && small[i] == p;
  }

  /** What the eviction loops look at: the main queue, and of the small queue only
      what exceeds the target size. */
  function Scanned(small: seq<Ptr>, main: seq<Ptr>, target: int): seq<Ptr>
    requires target >= 0
  {
    (if |small| > target then small[target..] else []) + main
  }

  /** Whether a full cache can take `key` now; if not, the source spins until an
      in-flight read or write of a scanned entry completes. */
  predicate CanEvict(nodes: Store, small: seq<Ptr>, main: seq<Ptr>, target: int) {
    target >= 0 && HasUnpinned(Scanned(small, main, target), nodes)
  }

  lemma QueuedOneQueue(nodes: Store, small: seq<Ptr>, q: seq<Ptr>, v: Ptr, q': seq<Ptr>, nodes': Store)
    requires Queued(nodes, small, q) && OneOut(nodes, v, nodes') && v in q
    requires Linked(q', nodes') && forall p :: p in q' <==> p in q && p != v
    ensures Queued(nodes', small, q')
  {
    forall j | 0 <= j < |small| ensures small[j] in nodes' && nodes'[small[j]].freq >= 0 {
      assert small[j] in small;
      assert small[j] != v;
    }
  }

  lemma ShortenSmall(nodes: Store, small: seq<Ptr>, main: seq<Ptr>, t: nat, v: Ptr, nodes': Store)
    requires Queued(nodes, small, main) && t + 1 == |small| && v == small[t] && nodes' == nodes - {v}
    ensures Queued(nodes', small[..t], main)
  {
    forall p | p in nodes' ensures p in small[..t] || p in main {
      if p in small {
        var i :| 0 <= i < |small| && small[i] == p;
        assert small[..t][i] == p;
      }
    }
    forall j | 0 <= j < |main| ensures main[j] != v {
      assert v in small;
      assert main[j] in main;
    }
  }

  lemma ScannedAfterPromotion(nodes: Store, small: seq<Ptr>, main: seq<Ptr>, target: int, t: nat, main': seq<Ptr>,
                              nodes': Store)
    requires Linked(small, nodes) && Linked(main, nodes) && target >= 0
    requires t == (if |small| > target then target else |small|)
    requires Promoted(small, main, nodes, t, main', nodes') && HasUnpinned(Scanned(small, main, target), nodes)
    requires forall p :: p in nodes' ==> p in nodes && nodes'[p] == nodes[p].(freq := nodes'[p].freq)
    ensures HasUnpinned(main', nodes')
  {
    assert Scanned(small, main, target) == main';
    var j :| 0 <= j < |main'| && main'[j] in nodes && nodes[main'[j]].refs == 0;
    assert nodes'[main'[j]].refs == 0;
  }

  /** `S3FifoCachePolicy::Evict` on a full cache. */
  method EvictS3(small: seq<Ptr>, main: seq<Ptr>, nodes: Store, smallSize: int, target: int)
    returns (s: seq<Ptr>, m: seq<Ptr>, nodes': Store, size: int, victim: CacheKey, fromSmall: bool,
             ghost v: Ptr, ghost k: nat, ghost mid: Store)
    requires Queued(nodes, small, main) && smallSize == |small| && target >= 0
    requires CanEvict(nodes, small, main, target)
    requires forall p :: p in nodes ==> nodes[p].freq >= 0
    ensures Linked(small, nodes) && S3Evicted(small, main, nodes, target, s, m, nodes', v, k, mid)
    ensures fromSmall <==> exists t :: target <= t < |small| && !Kept(nodes[small[t]])
    ensures OneOut(nodes, v, nodes') && Queued(nodes', s, m) && size == |s|
    ensures victim.key == nodes[v].key && victim.pos == nodes[v].pos
  {
    hide Evicted, Queued, OneOut, HasUnpinned, IsVictim, SecondChance, Promoted, S3Evicted, Linked, CanEvict, Scanned;
    QueuedLinked(nodes, small, main);
    s, m, nodes', size, victim, fromSmall, mid := EvictSmallQueue(small, main, nodes, smallSize, target);
    k := 0;
    if fromSmall {
      v := small[|s|];
      S3FromSmall(small, main, nodes, target, s, m, nodes', mid);
    } else {
      mid := nodes';
      PromotedNodes(small, main, nodes, |s|, m, mid);
      S3Promoted(small, main, nodes, target, s, m, mid);
      var q := m;
      m, nodes', victim, k := EvictMainQueue(q, nodes');
      EvictedBasics(q, mid, k, m, nodes', victim);
      v := q[k];
      S3FromMain(small, main, nodes, target, s, q, mid, m, nodes', victim, k);
    }
  }

  lemma S3FromSmall(small: seq<Ptr>, main: seq<Ptr>, nodes: Store, target: int, s: seq<Ptr>, m: seq<Ptr>,
                    nodes': Store, mid: Store)
    requires Queued(nodes, small, main) && Linked(small, nodes) && target >= 0
    requires forall p :: p in nodes ==> nodes[p].freq >= 0
    requires target <= |s| < |small| && s <= small && !Kept(nodes[small[|s|]])
    requires forall j :: |s| < j < |small| ==> Kept(nodes[small[j]])
    requires Promoted(small, main, nodes, |s| + 1, m, mid) && nodes' == mid - {small[|s|]}
    ensures S3Evicted(small, main, nodes, target, s, m, nodes', small[|s|], 0, mid)
    ensures OneOut(nodes, small[|s|], nodes') && Queued(nodes', s, m)
  {
    hide Queued, OneOut, Promoted;
    assert s == small[..|s|];
    SmallOut(small, main, nodes, |s|, m, nodes', mid);
  }

  lemma SmallOut(small: seq<Ptr>, main: seq<Ptr>, nodes: Store, t: nat, m: seq<Ptr>, nodes': Store, mid: Store)
    requires Queued(nodes, small, main) && Linked(small, nodes) && forall p :: p in nodes ==> nodes[p].freq >= 0
    requires t < |small| && !Kept(nodes[small[t]])
    requires Promoted(small, main, nodes, t + 1, m, mid) && nodes' == mid - {small[t]}
    ensures OneOut(nodes, small[t], nodes') && Queued(nodes', small[..t], m)
  {
    hide Queued, OneOut, Kept;
    PromotedNodes(small, main, nodes, t + 1, m, mid);
    SplitQueues(nodes, mid, small, main, t + 1);
    assert small[..t + 1][..t] == small[..t];
    ShortenSmall(mid, small[..t + 1], m, t, small[t], nodes');
    SmallOneOut(nodes, small, t, mid, nodes');
  }

  lemma S3Promoted(small: seq<Ptr>, main: seq<Ptr>, nodes: Store, target: int, s: seq<Ptr>, m: seq<Ptr>, mid: Store)
    requires Queued(nodes, small, main) && Linked(small, nodes) && target >= 0
    requires forall p :: p in nodes ==> nodes[p].freq >= 0
    requires |s| == (if |small| > target then target else |small|) && s <= small
    requires Promoted(small, main, nodes, |s|, m, mid) && CanEvict(nodes, small, main, target)
    ensures m == small[|s|..] + main && Queued(mid, s, m) && Linked(m, mid) && HasUnpinned(m, mid)
    ensures forall p :: p in mid ==> mid[p].freq >= 0
  {
    hide Queued;
    PromotedNodes(small, main, nodes, |s|, m, mid);
    SplitQueues(nodes, mid, small, main, |s|);
    assert s == small[..|s|];
    QueuedLinked(nodes, small, main);
    QueuedLinked(mid, s, m);
    ScannedAfterPromotion(nodes, small, main, target, |s|, m, mid);
  }

  lemma S3FromMain(small: seq<Ptr>, main: seq<Ptr>, nodes: Store, target: int, s: seq<Ptr>, q: seq<Ptr>, mid: Store,
                   m: seq<Ptr>, nodes': Store, victim: CacheKey, k: nat)
    requires Linked(small, nodes) && target >= 0 && s <= small
    requires |s| == (if |small| > target then target else |small|)
    requires forall j :: |s| <= j < |small| ==> Kept(nodes[small[j]])
    requires Promoted(small, main, nodes, |s|, q, mid) && q == small[|s|..] + main && Queued(mid, s, q)
    requires forall p :: p in mid ==> mid[p] == nodes[p].(freq := mid[p].freq) && 0 <= mid[p].freq <= nodes[p].freq
    requires Evicted(q, mid, k, m, nodes', victim) && k < |q|
    ensures S3Evicted(small, main, nodes, target, s, m, nodes', q[k], k, mid)
    ensures OneOut(nodes, q[k], nodes') && Queued(nodes', s, m)
    ensures victim.key == nodes[q[k]].key && victim.pos == nodes[q[k]].pos
  {
    hide Queued, Evicted, OneOut;
    EvictedBasics(q, mid, k, m, nodes', victim);
    EvictedOneOut(q, mid, k, m, nodes', victim);
    QueuedOneQueue(mid, s, q, q[k], m, nodes');
    OneOutAged(nodes, mid, q[k], nodes');
    EvictedSame(q, mid, k, m, nodes', victim, mid[q[k]]);
    assert s == small[..|s|];
  }

  lemma QueuedLinked(nodes: Store, small: seq<Ptr>, main: seq<Ptr>)
    requires Queued(nodes, small, main)
    ensures Linked(small, nodes) && Linked(main, nodes)
  {
  }

  lemma SmallOneOut(nodes: Store, small: seq<Ptr>, t: nat, mid: Store, nodes': Store)
    requires t < |small| && small[t] in nodes && !Kept(nodes[small[t]]) && nodes' == mid - {small[t]}
    requires mid.Keys == nodes.Keys
    requires forall p :: p in mid ==> mid[p] == nodes[p].(freq := mid[p].freq) && 0 <= mid[p].freq <= nodes[p].freq
    ensures OneOut(nodes, small[t], nodes')
  {
  }

  lemma OneOutAged(nodes: Store, mid: Store, v: Ptr, nodes': Store)
    requires mid.Keys == nodes.Keys && OneOut(mid, v, nodes')
    requires forall p :: p in mid ==> mid[p] == nodes[p].(freq := mid[p].freq) && 0 <= mid[p].freq <= nodes[p].freq
    ensures OneOut(nodes, v, nodes') && mid[v] == nodes[v].(freq := mid[v].freq)
  {
  }

  // ------------------------------------------------------------------
  // One insertion, on values

  const UNSET_POS: int := -0x8000_0000_0000_0000

  /** The node pushed to the front of a queue before the eviction. */
  function NewNode(key: int): CacheKey { CacheKey(key, 0, -1, UNSET_POS) }

  /** The net effect of inserting `key` at node p: a fresh slot, or the slot of one
      evicted, unpinned resident v. Nothing else changes but frequencies. */
  ghost predicate Inserted(nodes: Store, usage: int, capacity: int, key: int, p: Ptr, nodes': Store, usage': int,
                           v: MaybePtr) {
    && p !in nodes && p in nodes'
    && nodes'[p].key == key && nodes'[p].refs == -1 && nodes'[p].freq == 0
    && (if usage < capacity then
          && v == Null && nodes' == nodes[p := nodes'[p]] && nodes'[p].pos == usage && usage' == usage + 1
        else
          && v.To? && v.ptr in nodes && nodes[v.ptr].refs == 0
          && nodes'[p].pos == nodes[v.ptr].pos && usage' == usage
          && nodes'.Keys == nodes.Keys - {v.ptr} + {p}
          && forall x :: x in nodes' && x != p ==> nodes'[x] == nodes[x].(freq := nodes'[x].freq))
  }

  lemma InsertedSlotted(nodes: Store, usage: int, capacity: int, key: int, p: Ptr, nodes': Store, usage': int,
                        v: MaybePtr)
    requires Slotted(nodes, usage, capacity) && Inserted(nodes, usage, capacity, key, p, nodes', usage', v)
    ensures Slotted(nodes', usage', capacity)
  {
    InsertedCount(nodes, usage, capacity, key, p, nodes', usage', v);
    forall x | x in nodes' && x != p
      ensures x in nodes && nodes'[x].pos == nodes[x].pos && 0 <= nodes'[x].pos < usage
      ensures nodes'[x].pos != nodes'[p].pos
    { }
    forall x, y | x in nodes' && y in nodes' && x != y ensures nodes'[x].pos != nodes'[y].pos {
      if x != p && y != p { assert nodes[x].pos != nodes[y].pos; }
    }
  }

  lemma InsertedCount(nodes: Store, usage: int, capacity: int, key: int, p: Ptr, nodes': Store, usage': int,
                      v: MaybePtr)
    requires |nodes| == usage <= capacity && Inserted(nodes, usage, capacity, key, p, nodes', usage', v)
    ensures |nodes'| == usage' <= capacity
  {
    if usage < capacity {
      assert nodes'.Keys == nodes.Keys + {p};
    } else {
      assert nodes'.Keys == nodes.Keys - {v.ptr} + {p};
      assert |nodes.Keys - {v.ptr}| == |nodes| - 1;
    }
  }

  lemma InsertedIndexed(nodes: Store, index: map<int, Ptr>, usage: int, capacity: int, key: int, p: Ptr,
                        nodes': Store, usage': int, v: MaybePtr, index': map<int, Ptr>)
    requires Indexed(nodes, index) && key !in index && Inserted(nodes, usage, capacity, key, p, nodes', usage', v)
    requires index' == (if v.To? then index[key := p] - {nodes[v.ptr].key} else index[key := p])
    ensures Indexed(nodes', index')
  {
  }

  /** The queues after pushing a new node to the front of one of them. */
  lemma PushQueued(nodes: Store, small: seq<Ptr>, main: seq<Ptr>, key: int, p: Ptr)
    requires Queued(nodes, small, main) && p !in nodes
    ensures Queued(nodes[p := NewNode(key)], [p] + small, main)
    ensures Queued(nodes[p := NewNode(key)], small, [p] + main)
  {
    forall j | 0 <= j < |small| ensures small[j] != p { assert small[j] in nodes; }
    forall j | 0 <= j < |main| ensures main[j] != p { assert main[j] in nodes; }
    assert forall x :: x in [p] + small <==> x == p || x in small;
    assert forall x :: x in [p] + main <==> x == p || x in main;
    assert p !in small && p !in main;
  }

  /** Setting the new node's position. */
  lemma SetPosQueued(nodes: Store, small: seq<Ptr>, main: seq<Ptr>, p: Ptr, node: CacheKey)
    requires Queued(nodes, small, main) && p in nodes && node.freq >= 0
    ensures Queued(nodes[p := node], small, main)
  {
  }

  lemma OneOutInserted(nodes: Store, usage: int, capacity: int, key: int, p: Ptr, v: Ptr, evicted: Store)
    requires p !in nodes && usage >= capacity && OneOut(nodes[p := NewNode(key)], v, evicted)
    ensures v in nodes && p in evicted && evicted[p] == NewNode(key)
    ensures Inserted(nodes, usage, capacity, key, p, evicted[p := evicted[p].(pos := nodes[v].pos)], usage, To(v))
  {
    var nodes' := evicted[p := evicted[p].(pos := nodes[v].pos)];
    assert v != p;
    assert nodes'.Keys == nodes.Keys - {v} + {p};
  }

  lemma CanEvictAfterPush(nodes: Store, q: seq<Ptr>, key: int, p: Ptr)
    requires p !in nodes && HasUnpinned(q, nodes)
    ensures HasUnpinned([p] + q, nodes[p := NewNode(key)])
  {
    var j :| 0 <= j < |q| && q[j] in nodes && nodes[q[j]].refs == 0;
    assert ([p] + q)[j + 1] == q[j];
  }

  // ------------------------------------------------------------------
  // The single-queue policies

  lemma WithoutOne(queue: seq<Ptr>, nodes: Store, i: nat, nodes': Store)
    requires Linked(queue, nodes) && i < |queue| && OneOut(nodes, queue[i], nodes')
    ensures var q := queue[..i] + queue[i + 1..];
            Linked(q, nodes') && forall p :: p in q <==> p in queue && p != queue[i]
  {
    var q := queue[..i] + queue[i + 1..];
    forall j | 0 <= j < |q| ensures q[j] == queue[if j < i then j else j + 1] { }
    forall p | p in queue && p != queue[i] ensures p in q {
      var j :| 0 <= j < |queue| && queue[j] == p;
      assert q[if j < i then j else j - 1] == p;
    }
  }

  lemma ViewFromEnd(q: seq<Ptr>)
    ensures HandView(q, End) == q
  {
  }

  /** The virtual `Evict` of SIEVE, LRU and Clock on a full cache. */
  method EvictSingle(kind: Kind, queue: seq<Ptr>, nodes: Store, hand: Hand)
    returns (q: seq<Ptr>, nodes': Store, hand': Hand, victim: CacheKey, ghost v: Ptr, ghost k: nat)
    requires kind != S3Fifo && Queued(nodes, [], queue) && KindOk(kind, [], 0, queue, hand) && Counted(kind, nodes)
    requires HasUnpinned(queue, nodes)
    ensures KindOk(kind, [], 0, q, hand') && Queued(nodes', [], q)
    ensures OneOut(nodes, v, nodes') && v in queue
    ensures Evicted(HandView(queue, hand), nodes, k, HandView(q, hand'), nodes', victim)
    ensures k < |queue| && HandView(queue, hand)[k] == v && victim.key == nodes[v].key && victim.pos == nodes[v].pos
    ensures kind == Sieve ==> exists i :: 0 <= i < |queue| && queue[i] == v && q == queue[..i] + queue[i + 1..]
  {
    hide Evicted, HandView;
    hand' := hand;
    ViewFromEnd(queue);
    if kind == Sieve {
      q, nodes', hand', victim, k := EvictSieve(queue, nodes, hand);
      ViewOneOut(queue, hand, nodes, k, HandView(q, hand'), nodes', victim);
      v := HandView(queue, hand)[k];
      ghost var i :| 0 <= i < |queue| && q == queue[..i] + queue[i + 1..] && queue[i] == v;
      WithoutOne(queue, nodes, i, nodes');
    } else {
      if kind == Lru {
        q, nodes', victim, k := EvictLru(queue, nodes);
      } else {
        q, nodes', victim, k := EvictClock(queue, nodes);
      }
      EvictedBasics(queue, nodes, k, q, nodes', victim);
      EvictedOneOut(queue, nodes, k, q, nodes', victim);
      v := queue[k];
      ViewFromEnd(q);
    }
    QueuedOneQueue(nodes, [], queue, v, q, nodes');
  }

  lemma EvictedBasics(queue: seq<Ptr>, store: Store, k: nat, q: seq<Ptr>, nodes: Store, victim: CacheKey)
    requires Evicted(queue, store, k, q, nodes, victim)
    ensures k < |queue| && queue[k] in store && victim.key == store[queue[k]].key && victim.pos == store[queue[k]].pos
  {
  }

  lemma ViewOneOut(queue: seq<Ptr>, hand: Hand, store: Store, k: nat, q: seq<Ptr>, nodes: Store, victim: CacheKey)
    requires Linked(queue, store) && HandOk(queue, hand)
    requires Evicted(HandView(queue, hand), store, k, q, nodes, victim)
    requires forall p :: p in store ==> store[p].freq >= 0
    ensures k < |queue| && var v := HandView(queue, hand)[k];
            v in queue && OneOut(store, v, nodes) && victim.key == store[v].key && victim.pos == store[v].pos
  {
    LinkedView(queue, store, hand);
    EvictedBasics(HandView(queue, hand), store, k, q, nodes, victim);
    EvictedOneOut(HandView(queue, hand), store, k, q, nodes, victim);
  }

  // ------------------------------------------------------------------
  // The policy objects

  /** The effect of one lookup of a resident key: bookkeeping, and a pin if readable. */
  function Looked(kind: Kind, node: CacheKey): CacheKey {
    if node.BeingWritten() then Touched(kind, node) else Touched(kind, node).StartRead()
  }

  /** What a lookup does to an entry of each kind of policy. */
  lemma LookedIs(kind: Kind, node: CacheKey)
    ensures var r := Looked(kind, node);
      && r == node.(freq := r.freq, refs := r.refs)
      && r.refs == (if node.refs < 0 then node.refs else node.refs + 1)
      && (kind == Lru ==> r.freq == node.freq)
      && (kind == S3Fifo ==> r.freq == if node.freq < 3 then node.freq + 1 else 3)
      && (kind == Sieve || kind == Clock ==> r.freq == 1)
  {
  }

  /** Moving an entry to the front keeps the order of the others. */
  lemma FrontIs(q: seq<Ptr>, p: Ptr)
    requires p in q
    ensures exists i :: 0 <= i < |q| && q[i] == p && ToFront(q, p) == [p] + q[..i] + q[i + 1..]
  {
    hide IndexOf;
    assert q[IndexOf(q, p)] == p;
  }

  /** An address for a new list node: any address that is not in use. */
  method Allocate(nodes: Store) returns (p: Ptr)
    ensures p !in nodes
  {
    ghost var unused := Unused(nodes.Keys);
    assert unused !in nodes;
    p :| p !in nodes;
  }

  lemma Unused(s: set<Ptr>) returns (p: Ptr)
    ensures forall x :: x in s ==> x < p
  {
    if s == {} { return 0; }
    var x :| x in s;
    p := Unused(s - {x});
    if p <= x { p := x + 1; }
    assert forall y :: y in s ==> y == x || y in s - {x};
  }

  lemma EmptyPolicy(kind: Kind, capacity: int)
    requires capacity > 0
    ensures Indexed(map[], map[]) && Slotted(map[], 0, capacity) && Counted(kind, map[]) && Queued(map[], [], [])
    ensures KindOk(kind, [], 0, [], End)
  {
  }

  class CachePolicy {
    const kind: Kind
    const capacity: int
    const smallTarget: int               // small_queue_size_target_
    const ghostQueue: CircularQueue<int>
    var usage: int                       // cache_usage_
    var nodes: Store                     // the live nodes of all queues
    var small: seq<Ptr>                  // small_queue_
    var smallSize: int                   // small_queue_size_
    var main: seq<Ptr>                   // main_queue_, queue_
    var hand: Hand
    var index: map<int, Ptr>             // key_to_cache_key_
    var ghostSet: set<int>

    ghost predicate GhostOk()
      reads this`index, this`ghostSet, ghostQueue, ghostQueue.data
    {
      && ghostQueue.Valid()
      && (kind == S3Fifo ==>
        && capacity >= 10 && smallTarget == capacity / 10
        && ghostQueue.capacity == capacity - capacity / 10 + 1)
      && (kind != S3Fifo ==> smallTarget == 0 && ghostSet == {})
      && (forall key :: key in ghostSet ==> key in ghostQueue.Contents() && key !in index)
    }

    /** The invariant of every reachable state. */
    ghost predicate Valid()
      reads this, ghostQueue, ghostQueue.data
    {
      && capacity > 0
      && Indexed(nodes, index)
      && Slotted(nodes, usage, capacity)
      && Counted(kind, nodes)
      && Queued(nodes, small, main)
      && KindOk(kind, small, smallSize, main, hand)
      && GhostOk()
    }

    /** The policy constructors; a capacity below 10 is refused by S3-FIFO, below 1 by all. */
    constructor (kind: Kind, capacity: int)
      requires capacity > 0 && (kind == S3Fifo ==> capacity / 10 > 0)
      ensures Valid() && this.kind == kind && this.capacity == capacity
      ensures nodes == map[] && index == map[] && usage == 0 && fresh(ghostQueue) && fresh(ghostQueue.data)
      ensures kind == S3Fifo ==> smallTarget == capacity / 10 && ghostQueue.capacity == capacity - capacity / 10 + 1
    {
      hide Indexed, Slotted, Counted, Queued, KindOk;
      EmptyPolicy(kind, capacity);
      this.kind, this.capacity := kind, capacity;
      smallTarget := if kind == S3Fifo then capacity / 10 else 0;
      var queue := new CircularQueue<int>(if kind == S3Fifo then capacity - capacity / 10 else 0);
      ghostQueue := queue;
      usage, nodes, small, smallSize, main, hand, index, ghostSet := 0, map[], [], 0, [], End, map[], {};
    }

    /** `Read`: pins and returns a readable resident; a resident being written is only touched. */
    method Read(key: int) returns (r: MaybePtr)
      requires Valid()
      modifies this`nodes, this`main
      ensures Valid()
      ensures key !in index ==> r == Null && nodes == old(nodes) && main == old(main)
      ensures key in index ==>
        var p := index[key];
        && r == (if old(nodes)[p].BeingWritten() then Null else To(p))
        && nodes == old(nodes)[p := Looked(kind, old(nodes)[p])]
        && (kind == Lru ==> p in old(main) && main == ToFront(old(main), p))
        && (kind != Lru ==> main == old(main))
      ensures key in index ==>
        var p := index[key];
        var was := old(nodes)[p];
        && p in nodes && r == (if was.refs < 0 then Null else To(p))
        && nodes[p].refs == (if was.refs < 0 then was.refs else was.refs + 1)
        && (kind == Lru ==> nodes[p].freq == was.freq)
        && (kind == S3Fifo ==> nodes[p].freq == if was.freq < 3 then was.freq + 1 else 3)
        && (kind == Sieve || kind == Clock ==> nodes[p].freq == 1)
        && nodes == old(nodes)[p := was.(freq := nodes[p].freq, refs := nodes[p].refs)]
      ensures key in index && kind == Lru ==>
        exists i :: 0 <= i < |old(main)| && old(main)[i] == index[key]
          && main == [index[key]] + old(main)[..i] + old(main)[i + 1..]
    {
      hide Slotted, Queued, Counted, Linked, GhostOk, ToFront, Indexed, Touched;
      if key !in index { return Null; }
      IndexedKey(nodes, index, key);
      var p := index[key];
      if kind == Lru {
        LruResident(p);
        FrontKeepsQueued(nodes, small, main, p);
        FrontIs(main, p);
        main := ToFront(main, p);
      }
      LookedIs(kind, nodes[p]);
      TouchedBasics(kind, nodes[p]);
      LookedInRange(kind, nodes, p);
      UpdateNode(kind, nodes, index, usage, capacity, small, main, p, Looked(kind, nodes[p]));
      var touched := Touched(kind, nodes[p]);
      if touched.BeingWritten() {
        nodes := nodes[p := touched];
        return Null;
      }
      nodes := nodes[p := touched.StartRead()];
      r := To(p);
    }

    /** `Emplace`: looks a key up like `Read`; Null stands for the sentinel, an entry
        that `Insert` has yet to create. */
    method Emplace(key: int) returns (it: MaybePtr, readable: bool)
      requires Valid()
      modifies this`nodes, this`main
      ensures Valid()
      ensures key !in index ==> it == Null && !readable && nodes == old(nodes) && main == old(main)
      ensures key in index ==>
        var p := index[key];
        && it == To(p) && readable == !old(nodes)[p].BeingWritten()
        && nodes == old(nodes)[p := Looked(kind, old(nodes)[p])]
        && (kind == Lru ==> p in old(main) && main == ToFront(old(main), p))
        && (kind != Lru ==> main == old(main))
      ensures key in index ==>
        var p := index[key];
        var was := old(nodes)[p];
        && p in nodes && readable == (was.refs >= 0)
        && nodes[p].refs == (if was.refs < 0 then was.refs else was.refs + 1)
        && (kind == Lru ==> nodes[p].freq == was.freq)
        && (kind == S3Fifo ==> nodes[p].freq == if was.freq < 3 then was.freq + 1 else 3)
        && (kind == Sieve || kind == Clock ==> nodes[p].freq == 1)
        && nodes == old(nodes)[p := was.(freq := nodes[p].freq, refs := nodes[p].refs)]
      ensures key in index && kind == Lru ==>
        exists i :: 0 <= i < |old(main)| && old(main)[i] == index[key]
          && main == [index[key]] + old(main)[..i] + old(main)[i + 1..]
    {
      hide Slotted, Queued, Counted, Linked, GhostOk, ToFront, Indexed, KindOk, Looked;
      it, readable := Null, false;
      if key in index {
        IndexedKey(nodes, index, key);
        it := To(index[key]);
        var r := Read(key);
        readable := r.To?;
      }
    }

    /** `EndUse`: one reader or the writer of a live entry is done. */
    method EndUse(p: Ptr, write: bool)
      requires Valid() && p in nodes && (if write then nodes[p].refs == -1 else nodes[p].refs > 0)
      modifies this`nodes
      ensures Valid() && nodes == old(nodes)[p := old(nodes)[p].EndUse(write)]
      ensures p in nodes && nodes[p] == old(nodes)[p].(refs := old(nodes)[p].refs + if write then 1 else -1)
    {
      hide Slotted, Queued, Linked, GhostOk, Indexed;
      UpdateNode(kind, nodes, index, usage, capacity, small, main, p, nodes[p].EndUse(write));
      nodes := nodes[p := nodes[p].EndUse(write)];
    }

    /** Whether inserting `key` now finishes without waiting for another thread. */
    predicate CanInsert(key: int)
      reads this
    {
      usage < capacity ||
      (smallTarget >= (if kind == S3Fifo && key !in ghostSet then 1 else 0) &&
       CanEvict(nodes, small, main, smallTarget - if kind == S3Fifo && key !in ghostSet then 1 else 0))
    }

    lemma LruResident(p: Ptr)
      requires Valid() && kind == Lru && p in nodes
      ensures p in main && small == []
    {
    }

    /** `Insert` for SIEVE, LRU and Clock. */
    method InsertSingle(key: int) returns (p: Ptr, ghost v: MaybePtr, ghost k: nat)
      requires Valid() && kind != S3Fifo && key !in index && CanInsert(key)
      modifies this`nodes, this`main, this`usage, this`hand, this`index
      ensures Valid()
      ensures Inserted(old(nodes), old(usage), capacity, key, p, nodes, usage, v)
      ensures SingleOutcome(old(nodes), old(usage), capacity, old(main), old(hand), key, p, nodes, main, hand, v, k)
      ensures index == if v.To? then old(index)[key := p] - {old(nodes)[v.ptr].key} else old(index)[key := p]
    {
      hide Slotted, Queued, Counted, Indexed, SingleOutcome, Inserted, Linked;
      p := Allocate(nodes);
      if usage < capacity {
        k := FreshSlot(kind, capacity, usage, nodes, index, small, main, key, p, false);
        FreshOutcome(nodes, usage, capacity, main, hand, key, p, k);
        PushHand(nodes, small, main, hand, p);
        nodes := nodes[p := NewNode(key).(pos := usage)];
        main := [p] + main;
        usage := usage + 1;
        index := index[key := p];
        v := Null;
      } else {
        main, nodes, hand, index, v, k := ReplaceSingle(kind, capacity, usage, nodes, index, main, hand, key, p);
      }
    }

    /** `Insert` for S3-FIFO: a key the ghost queue remembers goes to the main queue. */
    method InsertS3(key: int) returns (p: Ptr, ghost v: MaybePtr, ghost k: nat, ghost mid: Store, ghost fromSmall: bool)
      requires Valid() && kind == S3Fifo && key !in index && CanInsert(key)
      modifies this`nodes, this`main, this`small, this`smallSize, this`usage, this`index, this`ghostSet
      modifies ghostQueue, ghostQueue.data
      ensures Valid()
      ensures Inserted(old(nodes), old(usage), capacity, key, p, nodes, usage, v)
      ensures index == if v.To? then old(index)[key := p] - {old(nodes)[v.ptr].key} else old(index)[key := p]
      ensures S3Outcome(old(nodes), old(usage), capacity, old(small), old(main), key in old(ghostSet), smallTarget,
                        key, p, nodes, small, main, v, k, mid, fromSmall)
      ensures fromSmall ==> v.To?
      ensures GhostAfter(old(ghostQueue.Contents()), old(ghostSet), ghostQueue.capacity - 1, key, fromSmall,
                         if fromSmall then old(nodes)[v.ptr].key else 0, ghostQueue.Contents(), ghostSet)
    {
      hide Slotted, Queued, Counted, Indexed, S3Outcome, Inserted, Linked, CanEvict, NewNode, HandOk, GhostOk;
      p := Allocate(nodes);
      var inGhost := key in ghostSet;
      mid, k, fromSmall, v := nodes, 0, false, Null;
      if usage < capacity {
        FreshS3(nodes, usage, capacity, small, main, inGhost, smallTarget, key, p, mid);
        InstallFresh(key, p, inGhost);
      } else {
        TargetFacts();
        var left, q, r, size, ind, outKey, out;
        q, r, left, size, ind, outKey, out, v, k, mid :=
          ReplaceS3(capacity, usage, nodes, index, small, main, smallSize, smallTarget, inGhost, key, p);
        fromSmall := out;
        Install(key, left, q, r, size, ind, outKey, out);
      }
    }

    lemma TargetFacts()
      requires Valid()
      ensures smallTarget >= (if kind == S3Fifo then 1 else 0) && (kind != S3Fifo ==> small == [])
      ensures Queued(nodes, small, main)
    {
    }

    /** A new node in an unused slot. */
    method InstallFresh(key: int, p: Ptr, inGhost: bool)
      requires Valid() && kind == S3Fifo && key !in index && p !in nodes && usage < capacity
      requires inGhost == (key in ghostSet)
      modifies this`nodes, this`main, this`small, this`smallSize, this`usage, this`index, this`ghostSet
      ensures Valid()
      ensures nodes == old(nodes)[p := NewNode(key).(pos := old(usage))] && index == old(index)[key := p]
      ensures usage == old(usage) + 1
      ensures small == (if inGhost then old(small) else [p] + old(small))
      ensures main == (if inGhost then [p] + old(main) else old(main))
      ensures Inserted(old(nodes), old(usage), capacity, key, p, nodes, usage, Null)
      ensures ghostSet == old(ghostSet) - {key}
    {
      hide Slotted, Queued, Counted, Indexed, Inserted, Linked, NewNode, HandOk;
      ghost var k := FreshSlot(kind, capacity, usage, nodes, index, small, main, key, p, !inGhost);
      ghostSet := ghostSet - {key};
      nodes := nodes[p := NewNode(key).(pos := usage)];
      if inGhost { main := [p] + main; } else { small, smallSize := [p] + small, smallSize + 1; }
      usage := usage + 1;
      index := index[key := p];
    }

    /** The fields after an eviction; a key evicted from the small queue is remembered. */
    method Install(key: int, left: Store, q: seq<Ptr>, r: seq<Ptr>, size: int, ind: map<int, Ptr>, out: int,
                   fromSmall: bool)
      requires GhostOk() && kind == S3Fifo && hand == End && capacity > 0
      requires Indexed(left, ind) && Slotted(left, usage, capacity) && Counted(S3Fifo, left) && Queued(left, q, r)
      requires size == |q| && out in index && key !in index && out !in ind && ind.Keys == index.Keys + {key} - {out}
      modifies this`nodes, this`small, this`main, this`smallSize, this`index, this`ghostSet, ghostQueue, ghostQueue.data
      ensures Valid() && nodes == left && index == ind && small == q && main == r
      ensures GhostAfter(old(ghostQueue.Contents()), old(ghostSet), ghostQueue.capacity - 1, key, fromSmall, out,
                         ghostQueue.Contents(), ghostSet)
    {
      hide Slotted, Queued, Counted, Indexed;
      ghostSet := ghostSet - {key};
      nodes, small, main, smallSize, index := left, q, r, size, ind;
      if fromSmall { Remember(out); }
    }

    /** The ghost queue's part of `EvictSmallQueue`. */
    method Remember(key: int)
      requires GhostOk() && kind == S3Fifo && key !in index
      modifies this`ghostSet, ghostQueue, ghostQueue.data
      ensures GhostOk()
      ensures var ring, ring' := old(ghostQueue.Contents()), ghostQueue.Contents();
              if |ring| == ghostQueue.capacity - 1
              then ring' == ring[1..] + [key] && ghostSet == old(ghostSet) - {ring[0]} + {key}
              else ring' == ring + [key] && ghostSet == old(ghostSet) + {key}
    {
      if ghostQueue.IsFull() {
        var forgotten := ghostQueue.Pop();
        ghostSet := ghostSet - {forgotten};
      }
      ghostSet := ghostSet + {key};
      var _ := ghostQueue.Push(key);
    }

    /** The virtual `Insert`. */
    method Insert(key: int) returns (p: Ptr, ghost v: MaybePtr)
      requires Valid() && key !in index && CanInsert(key)
      modifies this`nodes, this`main, this`small, this`smallSize, this`usage, this`hand, this`index, this`ghostSet
      modifies ghostQueue, ghostQueue.data
      ensures Valid()
      ensures Inserted(old(nodes), old(usage), capacity, key, p, nodes, usage, v)
      ensures index == if v.To? then old(index)[key := p] - {old(nodes)[v.ptr].key} else old(index)[key := p]
    {
      hide Slotted, Queued, Counted, Indexed, GhostOk, Inserted, SingleOutcome, S3Outcome, GhostAfter;
      if kind == S3Fifo {
        ghost var k, mid, fromSmall;
        p, v, k, mid, fromSmall := InsertS3(key);
      } else {
        ghost var k;
        p, v, k := InsertSingle(key);
      }
    }

    /** An insertion need not wait exactly if a slot is free, or some unpinned entry is in
        the main queue or in the small queue beyond its target. A key that goes to the
        small queue takes one place there itself. */
    lemma CanInsertIs(key: int)
      requires Valid()
      ensures smallTarget >= (if kind == S3Fifo then 1 else 0)
      ensures var t := smallTarget - if kind == S3Fifo && key !in ghostSet then 1 else 0;
        CanInsert(key) <==>
        usage < capacity
        || (exists p :: p in main && nodes[p].refs == 0)
        || exists i: nat :: t <= i < |small| && nodes[small[i]].refs == 0
    {
      hide Valid, CanEvict;
      TargetFacts();
      ScannedUnpinned(nodes, small, main, smallTarget - if kind == S3Fifo && key !in ghostSet then 1 else 0);
    }

    lemma OtherCanInsert(key: int, other: Ptr)
      requires Valid() && smallTarget >= 0 && Inspected(small, main, smallTarget, other)
      requires other in nodes && nodes[other].refs == 0
      ensures CanInsert(key)
    {
      hide Valid, Queued, CanEvict, Inspected;
      TargetFacts();
      var t := smallTarget - if kind == S3Fifo && key !in ghostSet then 1 else 0;
      NotSheltered(nodes, small, main, smallTarget, t, other);
      ScannedHas(nodes, small, main, t, other);
    }

    /** What `Read` and `EndUse` leave of the entry read, and of another one. */
    method ReadOnce(key: int, ghost other: Ptr) returns (ghost entry: Ptr)
      requires Valid() && key in index && nodes[index[key]].refs == 0
      requires other in nodes && other != index[key] && nodes[other].refs == 0 && nodes[other].freq == 0
      requires smallTarget >= 0 && Inspected(small, main, smallTarget, other)
      modifies this`nodes, this`main
      ensures Valid() && entry == index[key] && entry in nodes && nodes[entry].refs == 0
      ensures other in nodes && nodes[other].refs == 0 && nodes[other].freq == 0
      ensures Inspected(small, main, smallTarget, other)
      ensures if kind == Lru then entry in main && main[0] == entry && hand == End else nodes[entry].freq > 0
    {
      hide Slotted, Queued, Counted, Indexed, GhostOk, Linked;
      IndexedKey(nodes, index, key);
      CountedFreq(kind, nodes);
      var r := Read(key);
      EndUse(r.ptr, false);
      entry := r.ptr;
    }

    /** A resident that was just read outlives the next insertion, if the eviction may
        inspect another entry that is unpinned and has no uses left. LRU counts no uses. */
    method ReadThenInsert(key: int, newKey: int, ghost other: Ptr) returns (p: Ptr)
      requires Valid() && key in index && newKey !in index && nodes[index[key]].refs == 0
      requires other in nodes && other != index[key] && nodes[other].refs == 0 && nodes[other].freq == 0
      requires other in main || exists i: nat :: smallTarget <= i < |small| && small[i] == other
      modifies this`nodes, this`main, this`small, this`smallSize, this`usage, this`hand, this`index, this`ghostSet
      modifies ghostQueue, ghostQueue.data
      ensures Valid() && newKey in index && index[newKey] == p
      ensures key in index && index[key] == old(index[key]) && nodes[index[key]].refs == 0
    {
      hide Slotted, Queued, Counted, Indexed, GhostOk, KindOk, Inserted, SingleOutcome, S3Outcome, GhostAfter, Linked;
      hide Inspected;
      TargetFacts();
      OtherInspected(small, main, smallTarget, other);
      ghost var entry := ReadOnce(key, other);
      OtherCanInsert(newKey, other);
      TargetFacts();
      ghost var before, ind, s, q, room := nodes, index, small, main, usage;
      ghost var h, inGhost := hand, newKey in ghostSet;
      ghost var v;
      if kind == S3Fifo {
        ghost var k, mid, fromSmall;
        p, v, k, mid, fromSmall := InsertS3(newKey);
        S3Spares(before, room, capacity, s, q, inGhost, smallTarget, newKey, p, nodes, usage, small, main, v, k, mid,
                 fromSmall, entry, other);
      } else {
        ghost var k;
        p, v, k := InsertSingle(newKey);
        SingleSpares(kind, before, room, capacity, q, h, newKey, p, nodes, usage, main, hand, v, k, entry, other);
      }
      KeyStays(before, ind, room, capacity, newKey, p, nodes, usage, v, index, key);
    }

    /** Room for n more keys that each take a free slot or an unpinned entry: in
        S3-FIFO the small queue may shelter unpinned entries up to its target. */
    ghost predicate Room(n: nat)
      reads this`usage, this`nodes
    {
      n <= Spare(nodes, usage, capacity, smallTarget)
    }

    /** With room, an insertion finds a victim whatever the key. */
    lemma RoomCanInsert(key: int)
      requires Valid() && Room(1)
      ensures CanInsert(key)
    {
      if usage >= capacity {
        var t := smallTarget - if kind == S3Fifo && key !in ghostSet then 1 else 0;
        assert kind == S3Fifo ==> smallTarget >= 1;
        UnpinnedScanned(nodes, small, main, t);
      }
    }

    /** Whether a batch is served without waiting, judged before it begins: all its
        keys are resident, or there is room for those that are absent or unpinned. */
    ghost predicate Serves(keys: seq<int>)
      reads this`usage, this`nodes, this`index
    {
      (forall key :: key in keys ==> key in index) || Room(|Demand(nodes, index, keys)|)
    }

    /** What the invariant says of the queues, the map, the slots and the ghost ring. */
    lemma Bookkeeping()
      requires Valid()
      ensures Elements(small) + Elements(main) == nodes.Keys && |small| + |main| == usage <= capacity
      ensures smallSize == |small|
      ensures KeysOf(nodes) == index.Keys && |index| == usage
      ensures PositionsOf(nodes, nodes.Keys) == Range(usage)
      ensures forall key :: key in ghostSet ==> key in ghostQueue.Contents() && key !in index
      ensures |ghostQueue.Contents()| < ghostQueue.capacity
      ensures kind == S3Fifo ==> |ghostQueue.Contents()| <= capacity - capacity / 10
      ensures forall p :: p in nodes ==> nodes[p].refs >= -1
      ensures forall p :: p in nodes ==>
        0 <= nodes[p].freq <= if kind == S3Fifo then 3 else if kind == Lru then 0 else 1
    {
      hide KindOk, Counted;
      CountedBounds(kind, nodes);
      QueuedSizes(nodes, small, main);
      PositionsTile(nodes, usage, capacity);
      IndexedKeys(nodes, index);
      assert smallSize == |small| by { SmallCount(kind, small, smallSize, main, hand); }
    }
  }

  /** An entry that the eviction may inspect: not sheltered by the small queue. */
  ghost predicate Inspected(small: seq<Ptr>, main: seq<Ptr>, target: int, p: Ptr)
    requires target >= 0
  {
    p in main || exists i: nat :: target <= i < |small| && small[i] == p
  }

  lemma OtherInspected(small: seq<Ptr>, main: seq<Ptr>, target: int, p: Ptr)
    requires target >= 0 && (p in main || exists i: nat :: target <= i < |small| && small[i] == p)
    ensures Inspected(small, main, target, p)
  {
  }

  lemma NotSheltered(nodes: Store, small: seq<Ptr>, main: seq<Ptr>, target: int, t: int, p: Ptr)
    requires Queued(nodes, small, main) && 0 <= t <= target && Inspected(small, main, target, p)
    ensures (p in small || p in main) && p !in if |small| > t then small[..t] else small
  {
  }

  /** The victim has no uses left if any unpinned entry has none, and is the oldest such. */
  lemma UsedSpared(view: seq<Ptr>, store: Store, k: nat, q: seq<Ptr>, nodes: Store, victim: CacheKey, r: nat, u: nat)
    requires Evicted(view, store, k, q, nodes, victim) && r < |view| && u < |view| && view[r] in store
    requires view[u] in store && store[view[u]].refs == 0 && store[view[u]].freq == 0
    requires store[view[r]].freq > 0 || r < u
    ensures view[k] != view[r]
  {
  }

  lemma SingleSpares(kind: Kind, nodes: Store, usage: int, capacity: int, main: seq<Ptr>, hand: Hand, key: int, p: Ptr,
                     nodes': Store, usage': int, main': seq<Ptr>, hand': Hand, v: MaybePtr, k: nat, r: Ptr, other: Ptr)
    requires SingleOutcome(nodes, usage, capacity, main, hand, key, p, nodes', main', hand', v, k)
    requires Inserted(nodes, usage, capacity, key, p, nodes', usage', v) && Queued(nodes, [], main)
    requires r in nodes && other in nodes && r != other && nodes[other].refs == 0 && nodes[other].freq == 0
    requires if kind == Lru then r in main && main[0] == r && hand == End else nodes[r].freq > 0
    ensures v != To(r)
  {
    hide Evicted, HandView, Queued, Linked, Inserted, NewNode;
    InsertedNew(nodes, usage, capacity, key, p, nodes', usage', v);
    if usage >= capacity {
      PushQueued(nodes, [], main, key, p);
      QueuedLinked(nodes[p := NewNode(key)], [], [p] + main);
      QueuedOne(nodes, main, r);
      QueuedOne(nodes, main, other);
      ViewSpares(kind, [p] + main, hand, nodes[p := NewNode(key)], k, HandView(main', hand'),
                 nodes'[p := NewNode(key)], nodes[p := NewNode(key)][v.ptr], r, other);
    }
  }

  lemma InsertedNew(nodes: Store, usage: int, capacity: int, key: int, p: Ptr, nodes': Store, usage': int, v: MaybePtr)
    requires Inserted(nodes, usage, capacity, key, p, nodes', usage', v)
    ensures p !in nodes && p in nodes' && (usage < capacity ==> v == Null)
  {
  }

  lemma QueuedOne(nodes: Store, main: seq<Ptr>, x: Ptr)
    requires Queued(nodes, [], main) && x in nodes
    ensures x in main
  {
  }

  lemma ViewSpares(kind: Kind, queue: seq<Ptr>, hand: Hand, store: Store, k: nat, q: seq<Ptr>, nodes: Store,
                   victim: CacheKey, r: Ptr, other: Ptr)
    requires (hand.At? ==> hand.node in queue) && Evicted(HandView(queue, hand), store, k, q, nodes, victim)
    requires Linked(queue, store) && r in queue && other in queue && r in store && other in store
    requires r != other && store[other].refs == 0 && store[other].freq == 0
    requires if kind == Lru then |queue| > 1 && queue[1] == r && queue[0] != other && hand == End else store[r].freq > 0
    ensures k < |queue| && HandView(queue, hand)[k] != r
  {
    hide Evicted, HandView, Linked;
    var view := HandView(queue, hand);
    LinkedView(queue, store, hand);
    EvictedBasics(view, store, k, q, nodes, victim);
    var u: nat :| u < |view| && view[u] == other;
    if kind == Lru {
      ViewFromEnd(queue);
      UsedSpared(view, store, k, q, nodes, victim, 1, u);
    } else {
      var x: nat :| x < |view| && view[x] == r;
      UsedSpared(view, store, k, q, nodes, victim, x, u);
    }
  }

  lemma S3Spares(nodes: Store, usage: int, capacity: int, small: seq<Ptr>, main: seq<Ptr>, inGhost: bool, target: int,
                 key: int, p: Ptr, nodes': Store, usage': int, small': seq<Ptr>, main': seq<Ptr>, v: MaybePtr, k: nat,
                 mid: Store, fromSmall: bool, r: Ptr, other: Ptr)
    requires S3Outcome(nodes, usage, capacity, small, main, inGhost, target, key, p, nodes', small', main', v, k, mid,
                       fromSmall)
    requires Inserted(nodes, usage, capacity, key, p, nodes', usage', v) && Queued(nodes, small, main) && target >= 0
    requires r in nodes && other in nodes && r != other && nodes[other].refs == 0 && nodes[other].freq == 0
    requires nodes[r].freq > 0 && Inspected(small, main, target, other)
    ensures v != To(r)
  {
    if usage >= capacity {
      var small1, main1 := if inGhost then small else [p] + small, if inGhost then [p] + main else main;
      var pushed := nodes[p := NewNode(key)];
      PushQueued(nodes, small, main, key, p);
      StillInspected(small, main, target, p, other);
      S3SparesPushed(pushed, small1, main1, target, small', main', nodes'[p := NewNode(key)], v.ptr, k, mid, r, other);
    }
  }

  lemma StillInspected(small: seq<Ptr>, main: seq<Ptr>, target: int, p: Ptr, other: Ptr)
    requires target >= 0 && Inspected(small, main, target, other)
    ensures Inspected([p] + small, main, target, other) && Inspected(small, [p] + main, target, other)
  {
    if i: nat :| target <= i < |small| && small[i] == other { assert ([p] + small)[i + 1] == other; }
  }

  lemma S3SparesPushed(pushed: Store, small: seq<Ptr>, main: seq<Ptr>, target: int, small': seq<Ptr>, main': seq<Ptr>,
                       left: Store, v: Ptr, k: nat, mid: Store, r: Ptr, other: Ptr)
    requires Queued(pushed, small, main) && target >= 0 && Linked(small, pushed)
    requires S3Evicted(small, main, pushed, target, small', main', left, v, k, mid)
    requires r in pushed && other in pushed && r != other && pushed[other].refs == 0 && pushed[other].freq == 0
    requires pushed[r].freq > 0 && Inspected(small, main, target, other)
    ensures v != r
  {
    hide Evicted, Promoted, Queued, Linked;
    QueuedLinked(pushed, small, main);
    if !(exists t :: target <= t < |small| && !Kept(pushed[small[t]])) {
      var t := if |small| > target then target else |small|;
      MainSpares(small, main, pushed, t, small[t..] + main, mid, k, main', left, mid[v], r, other);
    }
  }

  lemma MainSpares(small: seq<Ptr>, main: seq<Ptr>, store: Store, t: nat, q: seq<Ptr>, mid: Store, k: nat,
                   main': seq<Ptr>, left: Store, victim: CacheKey, r: Ptr, other: Ptr)
    requires Queued(store, small, main) && Linked(small, store) && t <= |small|
    requires Promoted(small, main, store, t, q, mid) && Evicted(q, mid, k, main', left, victim) && k < |q|
    requires r != other && r in store && store[r].freq > 0
    requires other in store && other in main && store[other].refs == 0 && store[other].freq == 0
    ensures q[k] != r
  {
    hide Evicted, Promoted, Queued, Linked;
    PromotedIs(small, main, store, t, q, mid);
    var y: nat :| y < |main| && main[y] == other;
    var u := |small| - t + y;
    MidUses(small, main, store, t, q, mid, u);
    if r in q {
      var x: nat :| x < |q| && q[x] == r;
      MidUses(small, main, store, t, q, mid, x);
      UsedSpared(q, mid, k, main', left, victim, x, u);
    }
  }

  lemma PromotedIs(small: seq<Ptr>, main: seq<Ptr>, store: Store, t: nat, q: seq<Ptr>, mid: Store)
    requires Linked(small, store) && t <= |small| && Promoted(small, main, store, t, q, mid)
    ensures |q| == |small| - t + |main| && forall y :: 0 <= y < |main| ==> q[|small| - t + y] == main[y]
  {
  }

  /** A promoted entry is at the front; the others keep their uses. */
  lemma MidUses(small: seq<Ptr>, main: seq<Ptr>, store: Store, t: nat, q: seq<Ptr>, mid: Store, x: nat)
    requires Queued(store, small, main) && Linked(small, store) && t <= |small|
    requires Promoted(small, main, store, t, q, mid) && x < |q|
    ensures q[x] in store && q[x] in mid && (x < |small| - t || mid[q[x]] == store[q[x]])
  {
    if x >= |small| - t { assert q[x] in main && q[x] !in small[t..]; }
  }

  lemma KeyStays(nodes: Store, index: map<int, Ptr>, usage: int, capacity: int, newKey: int, p: Ptr, nodes': Store,
                 usage': int, v: MaybePtr, index': map<int, Ptr>, key: int)
    requires Indexed(nodes, index) && key in index && newKey !in index && v != To(index[key])
    requires Inserted(nodes, usage, capacity, newKey, p, nodes', usage', v)
    requires index' == if v.To? then index[newKey := p] - {nodes[v.ptr].key} else index[newKey := p]
    ensures newKey in index' && index'[newKey] == p && key in index' && index'[key] == index[key]
    ensures index[key] in nodes && index[key] in nodes' && nodes'[index[key]].refs == nodes[index[key]].refs
  {
  }

  function KeysOf(nodes: Store): set<int> {
    set p | p in nodes :: nodes[p].key
  }

  lemma CountedBounds(kind: Kind, nodes: Store)
    requires Counted(kind, nodes)
    ensures forall p :: p in nodes ==> nodes[p].refs >= -1
    ensures forall p :: p in nodes ==> 0 <= nodes[p].freq <= if kind == S3Fifo then 3 else if kind == Lru then 0 else 1
  {
  }

  lemma SmallCount(kind: Kind, small: seq<Ptr>, smallSize: int, main: seq<Ptr>, hand: Hand)
    requires KindOk(kind, small, smallSize, main, hand)
    ensures smallSize == |small|
  {
  }

  /** The queues list every node once. */
  lemma QueuedSizes(nodes: Store, small: seq<Ptr>, main: seq<Ptr>)
    requires Queued(nodes, small, main)
    ensures Elements(small) + Elements(main) == nodes.Keys && |small| + |main| == |nodes|
  {
    assert forall i, j :: 0 <= i < j < |small| ==> small[i] != small[j];
    assert forall i, j :: 0 <= i < j < |main| ==> main[i] != main[j];
    DistinctSize(small);
    DistinctSize(main);
    assert Elements(small) !! Elements(main);
    assert Elements(small) + Elements(main) == nodes.Keys;
    assert |nodes.Keys| == |nodes|;
  }

  /** The map has exactly the keys of the nodes. */
  lemma IndexedKeys(nodes: Store, index: map<int, Ptr>)
    requires Indexed(nodes, index)
    ensures KeysOf(nodes) == index.Keys && |index| == |nodes|
  {
    forall key | key in index ensures key in KeysOf(nodes) { assert nodes[index[key]].key == key; }
    assert KeysOf(nodes) == index.Keys;
    KeyCount(nodes, nodes.Keys);
    assert KeysOf(nodes) == set p | p in nodes.Keys :: nodes[p].key;
  }

  lemma {:induction false} KeyCount(nodes: Store, ps: set<Ptr>)
    requires ps <= nodes.Keys && forall p, q :: p in ps && q in ps && p != q ==> nodes[p].key != nodes[q].key
    ensures |set p | p in ps :: nodes[p].key| == |ps|
  {
    if ps != {} {
      var x :| x in ps;
      KeyCount(nodes, ps - {x});
      assert (set p | p in ps :: nodes[p].key) == (set p | p in ps - {x} :: nodes[p].key) + {nodes[x].key};
    }
  }

  /** How the ghost ring and set change: the inserted key is forgotten, a key evicted
      from the small queue is remembered, displacing the oldest when the ring is full. */
  ghost predicate GhostAfter(ring: seq<int>, members: set<int>, limit: int, key: int, fromSmall: bool, out: int,
                             ring': seq<int>, members': set<int>) {
    if !fromSmall then ring' == ring && members' == members - {key}
    else if |ring| == limit && limit > 0 then
      ring' == ring[1..] + [out] && members' == members - {key} - {ring[0]} + {out}
    else ring' == ring + [out] && members' == members - {key} + {out}
  }

  /** The queue-level outcome of an S3-FIFO insertion. */
  ghost predicate S3Outcome(nodes: Store, usage: int, capacity: int, small: seq<Ptr>, main: seq<Ptr>, inGhost: bool,
                            target: int, key: int, p: Ptr, nodes': Store, small': seq<Ptr>, main': seq<Ptr>,
                            v: MaybePtr, k: nat, mid: Store, fromSmall: bool) {
    var small1, main1 := if inGhost then small else [p] + small, if inGhost then [p] + main else main;
    var pushed := nodes[p := NewNode(key)];
    if usage < capacity then small' == small1 && main' == main1 && !fromSmall
    else
      && v.To? && p in nodes' && Linked(small1, pushed) && target >= 0
      && (fromSmall <==> exists t :: target <= t < |small1| && !Kept(pushed[small1[t]]))
      && S3Evicted(small1, main1, pushed, target, small', main', nodes'[p := NewNode(key)], v.ptr, k, mid)
  }

  lemma FreshS3(nodes: Store, usage: int, capacity: int, small: seq<Ptr>, main: seq<Ptr>, inGhost: bool, target: int,
                key: int, p: Ptr, mid: Store)
    requires usage < capacity
    ensures S3Outcome(nodes, usage, capacity, small, main, inGhost, target, key, p,
                      nodes[p := NewNode(key).(pos := usage)],
                      if inGhost then small else [p] + small, if inGhost then [p] + main else main, Null, 0, mid, false)
  {
  }

  lemma CanEvictS3(nodes: Store, small: seq<Ptr>, main: seq<Ptr>, target: int, inGhost: bool, key: int, p: Ptr)
    requires p !in nodes && target >= 1 && CanEvict(nodes, small, main, target - if inGhost then 0 else 1)
    ensures CanEvict(nodes[p := NewNode(key)], if inGhost then small else [p] + small,
                     if inGhost then [p] + main else main, target)
  {
    if inGhost {
      var n := if |small| > target then small[target..] else [];
      InsertUnpinned(nodes, n, main, key, p);
      assert Scanned(small, [p] + main, target) == n + ([p] + main);
    } else {
      assert Scanned([p] + small, main, target) == Scanned(small, main, target - 1);
      StillUnpinned(nodes, Scanned(small, main, target - 1), key, p);
    }
  }

  lemma StillUnpinned(nodes: Store, q: seq<Ptr>, key: int, p: Ptr)
    requires p !in nodes && HasUnpinned(q, nodes)
    ensures HasUnpinned(q, nodes[p := NewNode(key)])
  {
    var j :| 0 <= j < |q| && q[j] in nodes && nodes[q[j]].refs == 0;
    assert nodes[p := NewNode(key)][q[j]].refs == 0;
  }

  lemma InsertUnpinned(nodes: Store, a: seq<Ptr>, b: seq<Ptr>, key: int, p: Ptr)
    requires p !in nodes && HasUnpinned(a + b, nodes)
    ensures HasUnpinned(a + ([p] + b), nodes[p := NewNode(key)])
  {
    var j :| 0 <= j < |a + b| && (a + b)[j] in nodes && nodes[(a + b)[j]].refs == 0;
    var i := if j < |a| then j else j + 1;
    assert (a + ([p] + b))[i] == (a + b)[j];
  }

  lemma ReplacedS3(nodes: Store, usage: int, capacity: int, small: seq<Ptr>, main: seq<Ptr>, inGhost: bool, target: int,
                   key: int, p: Ptr, left: Store, small': seq<Ptr>, main': seq<Ptr>, w: Ptr, k: nat, mid: Store,
                   fromSmall: bool, nodes': Store)
    requires usage >= capacity && target >= 0 && p in nodes' && nodes'[p := NewNode(key)] == left
    requires var small1, main1 := if inGhost then small else [p] + small, if inGhost then [p] + main else main;
             var pushed := nodes[p := NewNode(key)];
             && Linked(small1, pushed)
             && (fromSmall <==> exists t :: target <= t < |small1| && !Kept(pushed[small1[t]]))
             && S3Evicted(small1, main1, pushed, target, small', main', left, w, k, mid)
    ensures S3Outcome(nodes, usage, capacity, small, main, inGhost, target, key, p, nodes', small', main', To(w), k,
                      mid, fromSmall)
  {
    var small1, main1 := if inGhost then small else [p] + small, if inGhost then [p] + main else main;
    var pushed := nodes[p := NewNode(key)];
    assert S3Evicted(small1, main1, pushed, target, small', main', left, w, k, mid);
  }

  method ReplaceS3(capacity: int, usage: int, nodes: Store, index: map<int, Ptr>, small: seq<Ptr>, main: seq<Ptr>,
                   smallSize: int, target: int, inGhost: bool, key: int, p: Ptr)
    returns (small': seq<Ptr>, main': seq<Ptr>, nodes': Store, smallSize': int, index': map<int, Ptr>, outKey: int,
             fromSmall: bool, ghost v: MaybePtr, ghost k: nat, ghost mid: Store)
    requires Indexed(nodes, index) && Slotted(nodes, usage, capacity) && Counted(S3Fifo, nodes)
    requires Queued(nodes, small, main)
    requires smallSize == |small| && target >= 1 && key !in index && p !in nodes && usage >= capacity
    requires CanEvict(nodes, small, main, target - if inGhost then 0 else 1)
    ensures Indexed(nodes', index') && Slotted(nodes', usage, capacity) && Counted(S3Fifo, nodes')
    ensures Queued(nodes', small', main')
    ensures smallSize' == |small'|
    ensures Inserted(nodes, usage, capacity, key, p, nodes', usage, v) && v.To?
    ensures v.ptr in nodes && outKey == nodes[v.ptr].key && index' == index[key := p] - {outKey}
    ensures outKey in index && outKey !in index'
    ensures S3Outcome(nodes, usage, capacity, small, main, inGhost, target, key, p, nodes', small', main', v, k, mid,
                      fromSmall)
  {
    hide Slotted, Queued, Counted, Linked, Inserted, S3Evicted, CanEvict, OneOut, S3Outcome;
    var small1, main1 := if inGhost then small else [p] + small, if inGhost then [p] + main else main;
    var pushed := nodes[p := NewNode(key)];
    PushQueued(nodes, small, main, key, p);
    PushCounted(S3Fifo, nodes, key, p);
    CountedFreq(S3Fifo, pushed);
    CanEvictS3(nodes, small, main, target, inGhost, key, p);
    ghost var w;
    var out;
    small', main', nodes', smallSize', out, fromSmall, w, k, mid :=
      EvictS3(small1, main1, pushed, smallSize + if inGhost then 0 else 1, target);
    ReplacedSlot(S3Fifo, capacity, usage, nodes, index, key, p, w, nodes', small', main');
    ReplacedS3(nodes, usage, capacity, small, main, inGhost, target, key, p, nodes', small', main', w, k, mid,
               fromSmall,
               nodes'[p := nodes'[p].(pos := nodes[w].pos)]);
    v := To(w);
    outKey := out.key;
    index' := index[key := p] - {out.key};
    nodes' := nodes'[p := nodes'[p].(pos := out.pos)];
  }

  lemma CountedFreq(kind: Kind, nodes: Store)
    requires Counted(kind, nodes)
    ensures forall p :: p in nodes ==> nodes[p].freq >= 0
  {
  }

  /** The queue-level outcome of a single-queue insertion. */
  ghost predicate SingleOutcome(nodes: Store, usage: int, capacity: int, main: seq<Ptr>, hand: Hand, key: int, p: Ptr,
                                nodes': Store, main': seq<Ptr>, hand': Hand, v: MaybePtr, k: nat) {
    var queue, pushed := [p] + main, nodes[p := NewNode(key)];
    if usage < capacity then main' == queue && hand' == hand
    else
      && (hand.At? ==> hand.node in queue) && (hand'.At? ==> hand'.node in main')
      && v.To? && k < |queue| && HandView(queue, hand)[k] == v.ptr && v.ptr in pushed && p in nodes'
      && Evicted(HandView(queue, hand), pushed, k, HandView(main', hand'), nodes'[p := NewNode(key)], pushed[v.ptr])
  }

  lemma FreshOutcome(nodes: Store, usage: int, capacity: int, main: seq<Ptr>, hand: Hand, key: int, p: Ptr, k: nat)
    requires usage < capacity
    ensures SingleOutcome(nodes, usage, capacity, main, hand, key, p, nodes[p := NewNode(key).(pos := usage)],
                          [p] + main, hand, Null, k)
  {
  }

  /** A new node in an unused slot, at the front of either queue. */
  lemma FreshSlot(kind: Kind, capacity: int, usage: int, nodes: Store, index: map<int, Ptr>, small: seq<Ptr>,
                  main: seq<Ptr>, key: int, p: Ptr, toSmall: bool)
    returns (k: nat)
    requires Indexed(nodes, index) && Slotted(nodes, usage, capacity) && Counted(kind, nodes)
    requires Queued(nodes, small, main)
    requires key !in index && p !in nodes && usage < capacity
    ensures var nodes', index' := nodes[p := NewNode(key).(pos := usage)], index[key := p];
            && Indexed(nodes', index') && Slotted(nodes', usage + 1, capacity) && Counted(kind, nodes')
            && Queued(nodes', [p] + small, main) && Queued(nodes', small, [p] + main)
            && Inserted(nodes, usage, capacity, key, p, nodes', usage + 1, Null)
  {
    hide Queued, Slotted, Indexed, Counted, Inserted;
    k := 0;
    var pushed := nodes[p := NewNode(key)];
    var nodes' := nodes[p := NewNode(key).(pos := usage)];
    assert nodes' == pushed[p := NewNode(key).(pos := usage)];
    PushQueued(nodes, small, main, key, p);
    SetPosQueued(pushed, [p] + small, main, p, nodes'[p]);
    SetPosQueued(pushed, small, [p] + main, p, nodes'[p]);
    FreshInserted(nodes, index, usage, capacity, key, p);
    InsertedSlotted(nodes, usage, capacity, key, p, nodes', usage + 1, Null);
    PushCounted(kind, nodes, key, p);
    CountedSetPos(kind, pushed, p, usage);
  }

  lemma FreshInserted(nodes: Store, index: map<int, Ptr>, usage: int, capacity: int, key: int, p: Ptr)
    requires Indexed(nodes, index) && key !in index && p !in nodes && usage < capacity
    ensures var nodes' := nodes[p := NewNode(key).(pos := usage)];
      Inserted(nodes, usage, capacity, key, p, nodes', usage + 1, Null) && Indexed(nodes', index[key := p])
  {
  }

  /** A new node in the slot of an evicted one. */
  lemma ReplacedSlot(kind: Kind, capacity: int, usage: int, nodes: Store, index: map<int, Ptr>,
                     key: int, p: Ptr, v: Ptr, left: Store, small: seq<Ptr>, main: seq<Ptr>)
    requires Indexed(nodes, index) && Slotted(nodes, usage, capacity) && Counted(kind, nodes)
    requires key !in index && p !in nodes && usage >= capacity
    requires OneOut(nodes[p := NewNode(key)], v, left) && Queued(left, small, main)
    ensures v in nodes && p in left
    ensures var nodes', index' := left[p := left[p].(pos := nodes[v].pos)], index[key := p] - {nodes[v].key};
            && Indexed(nodes', index') && Slotted(nodes', usage, capacity) && Counted(kind, nodes')
            && Queued(nodes', small, main)
            && Inserted(nodes, usage, capacity, key, p, nodes', usage, To(v))
            && nodes'[p := NewNode(key)] == left
  {
    hide Slotted, Queued, Indexed, Inserted;
    OneOutInserted(nodes, usage, capacity, key, p, v, left);
    var nodes' := left[p := left[p].(pos := nodes[v].pos)];
    var index' := index[key := p] - {nodes[v].key};
    PushCounted(kind, nodes, key, p);
    CountedOneOut(kind, nodes[p := NewNode(key)], v, left);
    CountedSetPos(kind, left, p, nodes[v].pos);
    SetPosQueued(left, small, main, p, nodes'[p]);
    InsertedSlotted(nodes, usage, capacity, key, p, nodes', usage, To(v));
    InsertedIndexed(nodes, index, usage, capacity, key, p, nodes', usage, To(v), index');
  }

  method ReplaceSingle(kind: Kind, capacity: int, usage: int, nodes: Store, index: map<int, Ptr>, main: seq<Ptr>,
                       hand: Hand, key: int, p: Ptr)
    returns (main': seq<Ptr>, nodes': Store, hand': Hand, index': map<int, Ptr>, ghost v: MaybePtr, ghost k: nat)
    requires Indexed(nodes, index) && Slotted(nodes, usage, capacity) && Counted(kind, nodes) && Queued(nodes, [], main)
    requires kind != S3Fifo && KindOk(kind, [], 0, main, hand)
    requires key !in index && p !in nodes && usage >= capacity && HasUnpinned(main, nodes)
    ensures Indexed(nodes', index') && Slotted(nodes', usage, capacity) && Counted(kind, nodes')
    ensures Queued(nodes', [], main')
    ensures KindOk(kind, [], 0, main', hand')
    ensures Inserted(nodes, usage, capacity, key, p, nodes', usage, v) && v.To?
    ensures SingleOutcome(nodes, usage, capacity, main, hand, key, p, nodes', main', hand', v, k)
    ensures v.ptr in nodes && index' == index[key := p] - {nodes[v.ptr].key}
  {
    hide Slotted, Queued, Counted, Indexed, Evicted, HandView, Linked, Inserted;
    var queue, pushed := [p] + main, nodes[p := NewNode(key)];
    PushQueued(nodes, [], main, key, p);
    PushCounted(kind, nodes, key, p);
    PushHand(nodes, [], main, hand, p);
    CanEvictAfterPush(nodes, main, key, p);
    ghost var w;
    var out;
    main', nodes', hand', out, w, k := EvictSingle(kind, queue, pushed, hand);
    ReplacedSlot(kind, capacity, usage, nodes, index, key, p, w, nodes', [], main');
    EvictedSame(HandView(queue, hand), pushed, k, HandView(main', hand'), nodes', out, pushed[w]);
    v := To(w);
    index' := index[key := p] - {out.key};
    nodes' := nodes'[p := nodes'[p].(pos := out.pos)];
  }

  lemma EvictedSame(view: seq<Ptr>, store: Store, k: nat, q: seq<Ptr>, nodes: Store, a: CacheKey, b: CacheKey)
    requires Evicted(view, store, k, q, nodes, a) && a.key == b.key && a.pos == b.pos
    ensures Evicted(view, store, k, q, nodes, b)
  {
  }

  lemma PushCounted(kind: Kind, nodes: Store, key: int, p: Ptr)
    requires Counted(kind, nodes)
    ensures Counted(kind, nodes[p := NewNode(key)])
  {
  }

  lemma CountedOneOut(kind: Kind, nodes: Store, v: Ptr, nodes': Store)
    requires Counted(kind, nodes) && OneOut(nodes, v, nodes')
    ensures Counted(kind, nodes')
  {
  }

  lemma CountedSetPos(kind: Kind, nodes: Store, p: Ptr, pos: int)
    requires Counted(kind, nodes) && p in nodes
    ensures Counted(kind, nodes[p := nodes[p].(pos := pos)])
  {
  }

  lemma PushHand(nodes: Store, small: seq<Ptr>, main: seq<Ptr>, hand: Hand, p: Ptr)
    requires Queued(nodes, small, main) && p !in nodes && HandOk(main, hand)
    ensures HandOk([p] + main, hand)
  {
    if hand.At? { assert hand.node in main && hand.node in nodes; }
  }

  lemma IndexedKey(nodes: Store, index: map<int, Ptr>, key: int)
    requires Indexed(nodes, index) && key in index
    ensures index[key] in nodes && nodes[index[key]].key == key
  {
  }

  lemma TouchedBasics(kind: Kind, node: CacheKey)
    ensures Touched(kind, node).(freq := node.freq) == node
  {
  }

  /** A lookup keeps the counters in their ranges. */
  lemma LookedInRange(kind: Kind, nodes: Store, p: Ptr)
    requires Counted(kind, nodes) && p in nodes
    ensures var node := Looked(kind, nodes[p]);
            && node.key == nodes[p].key && node.pos == nodes[p].pos
            && node.refs >= -1 && 0 <= node.freq <= MaxFreq(kind)
  {
  }

  /** Changing only the counters of one node within their ranges keeps the invariant. */
  lemma UpdateNode(kind: Kind, nodes: Store, index: map<int, Ptr>, usage: int, capacity: int,
                   small: seq<Ptr>, main: seq<Ptr>, p: Ptr, node: CacheKey)
    requires Indexed(nodes, index) && Slotted(nodes, usage, capacity) && Counted(kind, nodes)
    requires Queued(nodes, small, main)
    requires p in nodes && node.key == nodes[p].key && node.pos == nodes[p].pos
    requires node.refs >= -1 && 0 <= node.freq <= MaxFreq(kind)
    ensures var nodes' := nodes[p := node];
            Indexed(nodes', index) && Slotted(nodes', usage, capacity) && Counted(kind, nodes')
            && Queued(nodes', small, main)
  {
    var nodes' := nodes[p := node];
    UpdateSlotted(nodes, usage, capacity, p, node);
    SetPosQueued(nodes, small, main, p, node);
    assert Counted(kind, nodes');
  }

  lemma UpdateSlotted(nodes: Store, usage: int, capacity: int, p: Ptr, node: CacheKey)
    requires Slotted(nodes, usage, capacity) && p in nodes && node.pos == nodes[p].pos
    ensures Slotted(nodes[p := node], usage, capacity)
  {
    var nodes' := nodes[p := node];
    assert nodes'.Keys == nodes.Keys;
    forall x, y | x in nodes' && y in nodes' && x != y ensures nodes'[x].pos != nodes'[y].pos {
      assert nodes[x].pos != nodes[y].pos;
    }
  }

  lemma FrontKeepsQueued(nodes: Store, small: seq<Ptr>, main: seq<Ptr>, p: Ptr)
    requires Queued(nodes, small, main) && p in main
    ensures Queued(nodes, small, ToFront(main, p))
  {
    hide ToFront;
    FrontLinked(nodes, main, p);
  }

  lemma FrontLinked(nodes: Store, main: seq<Ptr>, p: Ptr)
    requires Linked(main, nodes) && p in main
    ensures Linked(ToFront(main, p), nodes) && forall x :: x in ToFront(main, p) <==> x in main
  {
    var i := IndexOf(main, p);
    var q := ToFront(main, p);
    forall j | 0 <= j < |q| ensures q[j] == main[if j == 0 then i else if j <= i then j - 1 else j] { }
    forall x | x in main ensures x in q {
      var j :| 0 <= j < |main| && main[j] == x;
      assert q[if j == i then 0 else if j < i then j + 1 else j] == x;
    }
  }

  // ------------------------------------------------------------------
  // Room

  function Unpinned(nodes: Store): set<Ptr> {
    set p | p in nodes && nodes[p].refs == 0
  }

  /** More unpinned nodes than the small queue may shelter: one of them is scanned. */
  lemma UnpinnedScanned(nodes: Store, small: seq<Ptr>, main: seq<Ptr>, target: int)
    requires Queued(nodes, small, main) && target >= 0 && |Unpinned(nodes)| > target
    ensures CanEvict(nodes, small, main, target)
  {
    var sheltered := if |small| > target then small[..target] else small;
    if Unpinned(nodes) <= Elements(sheltered) { SubsetSize(Unpinned(nodes), Elements(sheltered)); }
    var p :| p in Unpinned(nodes) && p !in Elements(sheltered);
    ScannedHas(nodes, small, main, target, p);
  }

  /** What the small queue does not shelter is scanned. */
  lemma ScannedHas(nodes: Store, small: seq<Ptr>, main: seq<Ptr>, target: int, p: Ptr)
    requires target >= 0 && (p in small || p in main) && p in nodes && nodes[p].refs == 0
    requires p !in if |small| > target then small[..target] else small
    ensures CanEvict(nodes, small, main, target)
  {
    var q := Scanned(small, main, target);
    if p in main {
      var j :| 0 <= j < |main| && main[j] == p;
      assert q[|q| - |main| + j] == p;
    } else {
      var j :| 0 <= j < |small| && small[j] == p;
      var sheltered := if |small| > target then small[..target] else small;
      assert forall i :: 0 <= i < |sheltered| ==> sheltered[i] == small[i] && sheltered[i] != p;
      assert q[j - target] == p;
    }
  }

  lemma ScannedUnpinned(nodes: Store, small: seq<Ptr>, main: seq<Ptr>, target: int)
    requires Queued(nodes, small, main) && target >= 0
    ensures CanEvict(nodes, small, main, target) <==>
      || (exists p :: p in main && nodes[p].refs == 0)
      || exists i: nat :: target <= i < |small| && nodes[small[i]].refs == 0
  {
    var q := Scanned(small, main, target);
    if j :| 0 <= j < |q| && nodes[q[j]].refs == 0 {
      assert j < |q| - |main| ==> q[j] == small[target + j];
      assert j >= |q| - |main| ==> q[j] in main;
    }
    if p :| p in main && nodes[p].refs == 0 {
      var j :| 0 <= j < |main| && main[j] == p;
      assert q[|q| - |main| + j] == p;
    }
    if i: nat :| target <= i < |small| && nodes[small[i]].refs == 0 {
      assert q[i - target] == small[i];
    }
  }

  /** Free slots, and unpinned entries beyond those the small queue may shelter. */
  ghost function Spare(nodes: Store, usage: int, capacity: int, target: int): int {
    capacity - usage + if |Unpinned(nodes)| > target then |Unpinned(nodes)| - target else 0
  }

  /** The keys of a batch that a lookup pins for the first time or that need a new entry. */
  ghost function Demand(nodes: Store, index: map<int, Ptr>, keys: seq<int>): set<int> {
    set key | key in keys && (key !in index || (index[key] in nodes && nodes[index[key]].refs == 0))
  }

  /** A lookup takes room only if it pins an unpinned entry. */
  lemma SpareAfterLook(nodes: Store, kind: Kind, p: Ptr, usage: int, capacity: int, target: int)
    requires p in nodes && nodes[p].refs >= -1
    ensures Spare(nodes[p := Looked(kind, nodes[p])], usage, capacity, target)
         >= Spare(nodes, usage, capacity, target) - if nodes[p].refs == 0 then 1 else 0
  {
    TouchedBasics(kind, nodes[p]);
    var nodes' := nodes[p := Looked(kind, nodes[p])];
    if nodes[p].refs == 0 {
      SubsetSize(Unpinned(nodes) - {p}, Unpinned(nodes'));
    } else {
      SubsetSize(Unpinned(nodes), Unpinned(nodes'));
    }
  }

  lemma SpareAfterInsert(nodes: Store, usage: int, capacity: int, key: int, p: Ptr, nodes': Store, usage': int,
                         v: MaybePtr, target: int)
    requires Inserted(nodes, usage, capacity, key, p, nodes', usage', v)
    ensures Spare(nodes', usage', capacity, target) >= Spare(nodes, usage, capacity, target) - 1
  {
    var gone := if v.To? then {v.ptr} else {};
    forall x | x in Unpinned(nodes) - gone ensures x in Unpinned(nodes') { }
    SubsetSize(Unpinned(nodes) - gone, Unpinned(nodes'));
  }

  /** After its lookup a resident key makes no further demand. */
  lemma DemandAfterLook(nodes: Store, index: map<int, Ptr>, kind: Kind, keys: seq<int>)
    requires |keys| > 0 && Indexed(nodes, index) && keys[0] in index
    requires index[keys[0]] in nodes && nodes[index[keys[0]]].refs >= -1
    ensures var p := index[keys[0]]; var nodes' := nodes[p := Looked(kind, nodes[p])];
      |Demand(nodes', index, keys[1..])| <= |Demand(nodes, index, keys)| - if nodes[p].refs == 0 then 1 else 0
  {
    var key, p := keys[0], index[keys[0]];
    var nodes' := nodes[p := Looked(kind, nodes[p])];
    TouchedBasics(kind, nodes[p]);
    assert nodes'[p].refs != 0;
    assert key in keys;
    SubsetSize(Demand(nodes', index, keys[1..]), Demand(nodes, index, keys) - {key});
    if nodes[p].refs == 0 { assert key in Demand(nodes, index, keys); }
  }

  /** After its insertion a key makes no further demand; the evicted key may. */
  lemma DemandAfterInsert(nodes: Store, index: map<int, Ptr>, usage: int, capacity: int, p: Ptr, nodes': Store,
                          usage': int, v: MaybePtr, index': map<int, Ptr>, keys: seq<int>)
    requires |keys| > 0 && Indexed(nodes, index) && keys[0] !in index
    requires Inserted(nodes, usage, capacity, keys[0], p, nodes', usage', v)
    requires index' == if v.To? then index[keys[0] := p] - {nodes[v.ptr].key} else index[keys[0] := p]
    ensures |Demand(nodes', index', keys[1..])| <= |Demand(nodes, index, keys)| - 1
  {
    var key := keys[0];
    assert key in Demand(nodes, index, keys);
    forall k | k in Demand(nodes', index', keys[1..])
      ensures k in Demand(nodes, index, keys) - {key}
    {
      assert k in keys;
    }
    SubsetSize(Demand(nodes', index', keys[1..]), Demand(nodes, index, keys) - {key});
  }

  /** The positions of some of the nodes. */
  function PositionsOf(nodes: Store, ps: set<Ptr>): set<int>
    requires ps <= nodes.Keys
  {
    set p | p in ps :: nodes[p].pos
  }

  /** The resident positions are exactly 0 .. usage - 1. */
  lemma PositionsTile(nodes: Store, usage: int, capacity: int)
    requires Slotted(nodes, usage, capacity)
    ensures PositionsOf(nodes, nodes.Keys) == Range(usage)
  {
    PositionsCount(nodes, nodes.Keys);
    var taken, all := PositionsOf(nodes, nodes.Keys), Range(usage);
    assert taken <= all;
    assert all == taken + (all - taken);
  }

  lemma {:induction false} PositionsCount(nodes: Store, ps: set<Ptr>)
    requires ps <= nodes.Keys
    requires forall p, q :: p in ps && q in ps && p != q ==> nodes[p].pos != nodes[q].pos
    ensures |PositionsOf(nodes, ps)| == |ps|
  {
    if x :| x in ps {
      PositionsCount(nodes, ps - {x});
      assert PositionsOf(nodes, ps) == PositionsOf(nodes, ps - {x}) + {nodes[x].pos};
    }
  }
}
