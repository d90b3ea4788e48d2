/** The partitioned policy: every operation splits its keys, asks each partition for
    its slice and merges the answers.

    Source: graphbolt/src/partitioned_cache_policy.cc. */
module PartitionedPolicies {
  import opened Collections
  import opened CacheEviction
  import opened Circular
  import opened Policies
  import opened CacheBatch
  import opened Partitioning
  import opened Merging

  lemma ValidSlotted(policy: CachePolicy)
    requires policy.Valid()
    ensures Slotted(policy.nodes, policy.usage, policy.capacity) && Indexed(policy.nodes, policy.index)
  {
  }

  /** A hit is a pinned entry of its key, at its position. */
  ghost predicate HitOk(key: int, nodes: Store, index: map<int, Ptr>, base: int, position: int, pointer: MaybePtr) {
    && BeingRead(nodes, index, key) && pointer == To(index[key])
    && position == nodes[index[key]].pos + base
  }

  /** A miss of `QueryAndReplace` is an absent key with a new entry to write, or a key
      somebody else is writing. */
  ghost predicate MissOk(key: int, nodes: Store, index: map<int, Ptr>, base: int, position: int, pointer: MaybePtr) {
    && Held(nodes, index, key) && nodes[index[key]].refs == -1
    && NewOrUnset(key, nodes, index, base, position, pointer)
  }

  ghost predicate NewOrUnset(key: int, nodes: Store, index: map<int, Ptr>, base: int, position: int, pointer: MaybePtr)
    requires key in index && index[key] in nodes
  {
    if pointer.To? then pointer == To(index[key]) && position == nodes[index[key]].pos + base
    else position == UNSET_POS + base
  }

  /** Cell i of an answer about `key`, in the key's partition. With `full` the misses
      have been inserted and have positions and pointers too. */
  ghost predicate RightAbout(key: int, nodes: Store, index: map<int, Ptr>, base: int, full: bool,
                             positions: seq<int>, pointers: seq<MaybePtr>, i: nat, hit: bool) {
    && |positions| == |pointers| && (hit || full ==> i < |positions|)
    && (hit ==> HitOk(key, nodes, index, base, positions[i], pointers[i]))
    && (!hit && full ==> MissOk(key, nodes, index, base, positions[i], pointers[i]))
    && (!hit && !full ==> !Readable(nodes, index, key))
  }

  /** A partition's answer meets its contract, and is right about every key. */
  ghost predicate Asked(slice: seq<int>, capacity: int, full: bool, nodes: Store, index: map<int, Ptr>,
                        a: LocalAnswer<MaybePtr>) {
    && LocalOk(slice, capacity, full, a)
    && forall i: nat :: i < |slice| ==>
      RightAbout(slice[a.indices[i]], nodes, index, 0, full, a.positions, a.pointers, i, i < a.found)
  }

  /** `Replace` answers a key with its new entry, or with null if somebody reads or writes it. */
  ghost predicate ReplacedOk(key: int, nodes: Store, index: map<int, Ptr>, base: int, position: int,
                             pointer: MaybePtr) {
    && Held(nodes, index, key) && (pointer.To? ==> nodes[index[key]].refs == -1)
    && NewOrUnset(key, nodes, index, base, position, pointer)
  }

  /** The positions and pointers for all keys of a slice. */
  ghost predicate SliceReplaced(slice: seq<int>, nodes: Store, index: map<int, Ptr>, positions: seq<int>,
                                pointers: seq<MaybePtr>) {
    && |positions| == |pointers| == |slice|
    && forall i: nat :: i < |slice| ==> ReplacedOk(slice[i], nodes, index, 0, positions[i], pointers[i])
  }

  /** Slice t of the rearranged keys. */
  function Piece(slices: seq<int>, permuted: seq<int>, t: nat): seq<int> {
    if t + 1 < |slices| && 0 <= slices[t] <= slices[t + 1] <= |permuted| then permuted[slices[t]..slices[t + 1]] else []
  }

  /** The keys that belong to partition t, in order. */
  function Owned(keys: seq<int>, assign: int -> nat, t: nat): (r: seq<int>)
    ensures forall key :: key in r <==> key in keys && assign(key) == t
  {
    if keys == [] then []
    else
      var n := |keys| - 1;
      assert keys == keys[..n] + [keys[n]];
      Owned(keys[..n], assign, t) + if assign(keys[n]) == t then [keys[n]] else []
  }

  ghost predicate Ascending(s: seq<int>) {
    forall i, j :: 0 <= i < j < |s| ==> s[i] < s[j]
  }

  /** Ascending lists with the same members are equal. */
  lemma {:induction false} AscendingUnique(a: seq<int>, b: seq<int>)
    requires Ascending(a) && Ascending(b) && forall x :: x in a <==> x in b
    ensures a == b
  {
    assert a != [] ==> a[0] in a;
    assert b != [] ==> b[0] in b;
    if a == [] || b == [] {
    } else {
      var x, y := a[|a| - 1], b[|b| - 1];
      assert x in b && y in a;
      assert x == y;
      var a', b' := a[..|a| - 1], b[..|b| - 1];
      forall z ensures z in a' <==> z in b' {
        assert z in a' <==> z in a && z != x by { LastOut(a, z); }
        assert z in b' <==> z in b && z != y by { LastOut(b, z); }
      }
      AscendingUnique(a', b');
    }
  }

  lemma LastOut(s: seq<int>, z: int)
    requires s != [] && Ascending(s)
    ensures z in s[..|s| - 1] <==> z in s && z != s[|s| - 1]
  {
    assert s == s[..|s| - 1] + [s[|s| - 1]];
  }

  /** The places of the keys of partition t. */
  ghost predicate PlacesOf(at: seq<int>, keys: seq<int>, assign: int -> nat, t: nat, owned: seq<int>) {
    && Ascending(at) && |at| == |owned|
    && (forall k :: k in at <==> 0 <= k < |keys| && assign(keys[k]) == t)
    && (forall i :: 0 <= i < |at| ==> 0 <= at[i] < |keys| && owned[i] == keys[at[i]])
  }

  lemma {:induction false} OwnedPlaces(keys: seq<int>, assign: int -> nat, t: nat) returns (at: seq<int>)
    ensures PlacesOf(at, keys, assign, t, Owned(keys, assign, t))
  {
    if keys == [] {
      at := [];
    } else {
      hide PlacesOf;
      var n := |keys| - 1;
      var rest := OwnedPlaces(keys[..n], assign, t);
      PlacesNext(rest, keys, assign, t, Owned(keys[..n], assign, t));
      at := rest + if assign(keys[n]) == t then [n] else [];
    }
  }

  lemma PlacesNext(at: seq<int>, keys: seq<int>, assign: int -> nat, t: nat, owned: seq<int>)
    requires keys != [] && PlacesOf(at, keys[..|keys| - 1], assign, t, owned)
    ensures var n := |keys| - 1;
      if assign(keys[n]) == t then PlacesOf(at + [n], keys, assign, t, owned + [keys[n]])
      else PlacesOf(at, keys, assign, t, owned)
  {
    var n := |keys| - 1;
    forall i | 0 <= i < |at| ensures 0 <= at[i] < n { assert at[i] in at; }
  }

  /** What one partition has done of its keys: a prefix of them, in the way of a batch
      on one policy. Only an absent key without a victim stops it. Its pins have grown by
      a.foundPtr. */
  ghost predicate PartDone(policy: CachePolicy, slice: seq<int>, done: nat, a: Answer, before: Store,
                           beforeIndex: map<int, Ptr>)
    reads policy
  {
    && done <= |slice|
    && (done < |slice| ==> slice[done] !in policy.index && !policy.CanInsert(slice[done]))
    && BatchOk(slice, done, a, before, beforeIndex, policy.nodes, policy.index)
  }

  /** The pointers a partition returns for its hits. */
  ghost predicate LocalPointers(a: LocalAnswer<MaybePtr>, handed: seq<Ptr>) {
    a.found == |handed| <= |a.pointers| && a.pointers[..a.found] == Pointers(handed)
  }

  /** Block t of the pointers returned for hits. */
  ghost predicate HandedOut(offsets: seq<int>, pointers: seq<MaybePtr>, t: nat, handed: seq<Ptr>) {
    && t + 1 < |offsets| && 0 <= offsets[t] <= offsets[t + 1] <= |pointers|
    && pointers[offsets[t]..offsets[t + 1]] == Pointers(handed)
  }

  /** The pointers of a slice returned by `Replace`: null for a key that was found, although
      it has been pinned. */
  ghost predicate OnlyNew(begin: int, a: Answer, pointers: seq<MaybePtr>) {
    && |a.missingAt| == |a.missPtr|
    && (forall i :: 0 <= i < |a.found| ==> 0 <= begin + a.found[i] < |pointers| && pointers[begin + a.found[i]] == Null)
    && (forall i :: 0 <= i < |a.missingAt| ==>
      0 <= begin + a.missingAt[i] < |pointers| && pointers[begin + a.missingAt[i]] == a.missPtr[i])
  }

  /** The keys found, whose pins `Replace` leaks, were readable; those being read are found. */
  ghost predicate LeaksReadable(slice: seq<int>, done: nat, a: Answer, before: Store, beforeIndex: map<int, Ptr>) {
    && done <= |slice|
    && (forall i :: i in a.found ==> 0 <= i < done && Readable(before, beforeIndex, slice[i]))
    && (forall i :: 0 <= i < done && BeingRead(before, beforeIndex, slice[i]) ==> i in a.found)
  }

  /** The outcome of one partition's part of `QueryAndReplace`. */
  ghost predicate PartAsked(policy: CachePolicy, slice: seq<int>, done: nat, local: Answer, before: Store,
                            beforeIndex: map<int, Ptr>, a: LocalAnswer<MaybePtr>)
    reads policy
  {
    && PartDone(policy, slice, done, local, before, beforeIndex)
    && (done == |slice| ==>
      Asked(slice, policy.capacity, true, policy.nodes, policy.index, a) && LocalPointers(a, local.foundPtr))
  }

  /** The outcome of one partition's part of `Replace`. */
  ghost predicate PartReplaced(policy: CachePolicy, slice: seq<int>, done: nat, local: Answer, before: Store,
                               beforeIndex: map<int, Ptr>, positions: seq<int>, pointers: seq<MaybePtr>)
    reads policy
  {
    && PartDone(policy, slice, done, local, before, beforeIndex)
    && LeaksReadable(slice, done, local, before, beforeIndex)
    && (done == |slice| ==>
      && SliceReplaced(slice, policy.nodes, policy.index, positions, pointers)
      && ReplaceAnswer(|slice|, local, positions, pointers))
  }

  class PartitionedCachePolicy {
    const capacity: nat
    const policies: seq<CachePolicy>
    const assign: int -> nat                         // PartAssignment
    ghost const queues: seq<CircularQueue<int>>
    ghost const datas: seq<array<int>>

    /** The partitions have separate state and tile the capacity. */
    ghost predicate Separate() {
      && |policies| == |queues| == |datas| >= 1
      && (forall t :: 0 <= t < |policies| ==> policies[t].ghostQueue == queues[t])
      && (forall t, u :: 0 <= t < u < |policies| ==>
        policies[t] != policies[u] && queues[t] != queues[u] && datas[t] != datas[u])
      && (forall t: nat :: t < |policies| ==> policies[t].capacity == Share(t, capacity, |policies|))
      && (forall key :: assign(key) < |policies|)
    }

    ghost predicate Valid()
      reads policies, queues, datas
    {
      && Separate()
      && (forall t :: 0 <= t < |policies| ==> queues[t].data == datas[t] && policies[t].Valid())
    }

    /** The capacity split: every partition gets its share, as one policy of the given kind. */
    constructor (kind: Kind, capacity: nat, num: nat, assign: int -> nat)
      requires num >= 1 && forall key :: assign(key) < num
      requires forall t: nat :: t < num ==> Share(t, capacity, num) >= if kind == S3Fifo then 10 else 1
      ensures Valid() && this.capacity == capacity && |policies| == num
      ensures forall t :: 0 <= t < num ==> policies[t].kind == kind && policies[t].nodes == map[]
      ensures forall t: nat :: t < num ==> policies[t].capacity == (t + 1) * capacity / num - t * capacity / num
    {
      hide Slotted, Queued, Policies.Counted, Linked, KindOk, Indexed, Share, CachePolicy.Valid;
      var ps: seq<CachePolicy> := [];
      ghost var qs: seq<CircularQueue<int>>, ds: seq<array<int>> := [], [];
      for i := 0 to num
        invariant |ps| == |qs| == |ds| == i
        invariant forall t :: 0 <= t < i ==> fresh(ps[t]) && fresh(qs[t]) && fresh(ds[t])
        invariant forall t :: 0 <= t < i ==> ps[t].ghostQueue == qs[t] && qs[t].data == ds[t] && ps[t].Valid()
        invariant forall t, u :: 0 <= t < u < i ==> ps[t] != ps[u] && qs[t] != qs[u] && ds[t] != ds[u]
        invariant forall t: nat :: t < i ==> ps[t].capacity == Share(t, capacity, num)
        invariant forall t :: 0 <= t < i ==> ps[t].kind == kind && ps[t].nodes == map[]
      {
        var p := new CachePolicy(kind, Share(i, capacity, num));
        ps, qs, ds := ps + [p], qs + [p.ghostQueue], ds + [p.ghostQueue.data];
      }
      this.capacity, this.assign, policies, queues, datas := capacity, assign, ps, qs, ds;
      forall t: nat | t < num
        ensures ps[t].capacity == (t + 1) * capacity / num - t * capacity / num
      {
        ShareIs(t, capacity, num);
      }
    }

    /** The keys of partition t. */
    function PartKeys(keys: seq<int>, offset: int, t: nat): seq<int> {
      Owned(Shifted(keys, offset), assign, t)
    }

    /** Every partition can answer its keys without waiting. */
    ghost predicate Serves(keys: seq<int>, offset: int)
      reads policies
    {
      forall t: nat :: t < |policies| ==> policies[t].Serves(PartKeys(keys, offset, t))
    }

    ghost function Stores(t: nat): (r: seq<Store>)
      requires t <= |policies|
      reads policies
      ensures |r| == t && forall u :: 0 <= u < t ==> r[u] == policies[u].nodes
    {
      if t == 0 then [] else Stores(t - 1) + [policies[t - 1].nodes]
    }

    ghost function Indexes(t: nat): (r: seq<map<int, Ptr>>)
      requires t <= |policies|
      reads policies
      ensures |r| == t && forall u :: 0 <= u < t ==> r[u] == policies[u].index
    {
      if t == 0 then [] else Indexes(t - 1) + [policies[t - 1].index]
    }

    /** The part of every key. */
    function PartsOf(keys: seq<int>, offset: int): seq<int> {
      Assigned(Shifted(keys, offset), assign)
    }

    // ----------------------------------------------------------------
    // One partition

    /** Partition t looks its slice up. */
    method QueryOne(t: nat, slice: seq<int>) returns (a: LocalAnswer<MaybePtr>, ghost handed: seq<Ptr>)
      requires Valid() && t < |policies|
      modifies policies[t]
      ensures Valid() && Asked(slice, policies[t].capacity, false, policies[t].nodes, policies[t].index, a)
      ensures policies[t].index == old(policies[t].index)
      ensures SameReadable(old(policies[t].nodes), policies[t].index, policies[t].nodes, policies[t].index)
      ensures Pinned(old(policies[t].nodes), policies[t].nodes, multiset(handed))
      ensures LocalPointers(a, handed)
    {
      hide CachePolicy.Valid, Slotted, Queued, Policies.Counted, Linked, KindOk, Indexed, Share, Asked;
      hide QueryAnswer, Pointers, SameReadable, Pinned;
      var policy := policies[t];
      ghost var before, usage := policy.nodes, policy.usage;
      ValidSlotted(policy);
      ghost var found, missingAt;
      var positions, indices, missing, pointers;
      positions, indices, missing, pointers, found, missingAt := QueryImpl(policy, slice);
      QueryAsked(slice, before, policy.nodes, policy.index, positions, found, missingAt, missing, pointers, usage,
                 policy.capacity);
      handed := pointers;
      a := LocalAnswer(|pointers|, indices, positions, Pointers(pointers), missing);
    }

    /** Partition t answers its slice, or waits. */
    method AskOne(t: nat, slice: seq<int>)
      returns (a: LocalAnswer<MaybePtr>, waits: bool, ghost done: nat, ghost local: Answer)
      requires Valid() && t < |policies|
      modifies policies[t], queues[t], datas[t]
      ensures Valid()
      ensures old(policies[t].Serves(slice)) ==> !waits
      ensures done <= |slice| && (waits <==> done < |slice|)
      ensures PartAsked(policies[t], slice, done, local, old(policies[t].nodes), old(policies[t].index), a)
    {
      hide CachePolicy.Valid, Slotted, Queued, Policies.Counted, Linked, KindOk, Indexed, Share, Asked;
      hide BatchOk, Pointers, CachePolicy.Serves, CachePolicy.CanInsert;
      var policy := policies[t];
      ghost var before, beforeIndex := policy.nodes, policy.index;
      var positions, indices, pointers, missing, count;
      positions, indices, pointers, missing, count, local := QueryAndReplaceImpl(policy, slice);
      ValidSlotted(policy);
      waits, done := count < |slice|, count;
      if waits {
        a := LocalAnswer(0, [], [], [], []);
      } else {
        BatchAsked(slice, local, before, beforeIndex, policy.nodes, policy.index, policy.usage, policy.capacity);
        a := LocalAnswer(|slice| - |missing|, indices, positions, pointers, missing);
        assert pointers[..|Pointers(local.foundPtr)|] == Pointers(local.foundPtr);
      }
    }

    /** Partition t inserts its slice, or waits. */
    method ReplaceOne(t: nat, slice: seq<int>)
      returns (positions: seq<int>, pointers: seq<MaybePtr>, waits: bool, ghost done: nat, ghost local: Answer)
      requires Valid() && t < |policies|
      modifies policies[t], queues[t], datas[t]
      ensures Valid()
      ensures old(policies[t].Serves(slice)) ==> !waits
      ensures done <= |slice| && (waits <==> done < |slice|)
      ensures PartReplaced(policies[t], slice, done, local, old(policies[t].nodes), old(policies[t].index), positions,
                           pointers)
    {
      hide CachePolicy.Valid, Slotted, Queued, Policies.Counted, Linked, KindOk, Indexed, Share;
      hide SliceReplaced, BatchOk, ReplaceAnswer;
      hide CachePolicy.Serves, CachePolicy.CanInsert, Readable, BeingRead;
      var policy := policies[t];
      ghost var before, beforeIndex := policy.nodes, policy.index;
      var count;
      positions, pointers, count, local := ReplaceImpl(policy, slice);
      waits, done := count < |slice|, count;
      if !waits {
        BatchReplaced(slice, local, before, beforeIndex, policy.nodes, policy.index, positions, pointers);
      }
    }

    // ----------------------------------------------------------------
    // All partitions

    /** All partitions look their slices up, under the lock. */
    method QueryAll(slices: seq<int>, permuted: seq<int>)
      returns (answers: seq<LocalAnswer<MaybePtr>>, ghost handed: seq<seq<Ptr>>)
      requires Valid() && Boundaries(slices, |policies|, |permuted|)
      modifies policies
      ensures Valid() && |answers| == |handed| == |policies|
      ensures forall t: nat :: t < |policies| ==>
        Asked(Piece(slices, permuted, t), policies[t].capacity, false, policies[t].nodes, policies[t].index, answers[t])
      ensures forall t: nat :: t < |policies| ==> policies[t].index == old(policies[t].index)
      ensures forall t: nat :: t < |policies| ==>
        SameReadable(old(policies[t].nodes), policies[t].index, policies[t].nodes, policies[t].index)
      ensures forall t: nat :: t < |policies| ==>
        Pinned(old(policies[t].nodes), policies[t].nodes, multiset(handed[t])) && LocalPointers(answers[t], handed[t])
    {
      hide Piece, Boundaries, Asked, CachePolicy.Valid, Share, SameReadable, Pinned, LocalPointers;
      answers, handed := [], [];
      for t := 0 to |policies|
        invariant Valid() && |answers| == |handed| == t
        invariant forall u: nat :: u < |policies| ==> policies[u].index == old(policies[u].index)
        invariant forall u: nat :: t <= u < |policies| ==> policies[u].nodes == old(policies[u].nodes)
        invariant forall u: nat :: u < t ==>
          SameReadable(old(policies[u].nodes), policies[u].index, policies[u].nodes, policies[u].index)
        invariant forall u: nat :: u < t ==>
          Asked(Piece(slices, permuted, u), policies[u].capacity, false, policies[u].nodes, policies[u].index,
                answers[u])
        invariant forall u: nat :: u < t ==>
          Pinned(old(policies[u].nodes), policies[u].nodes, multiset(handed[u])) && LocalPointers(answers[u], handed[u])
      {
        var a;
        ghost var h;
        a, h := QueryOne(t, Piece(slices, permuted, t));
        answers, handed := answers + [a], handed + [h];
      }
    }

    /** All partitions answer their slices, under the lock; the call waits if one of them does. */
    method AskAll(slices: seq<int>, permuted: seq<int>)
      returns (answers: seq<LocalAnswer<MaybePtr>>, waits: bool, ghost dones: seq<nat>, ghost local: seq<Answer>)
      requires Valid() && Boundaries(slices, |policies|, |permuted|)
      modifies policies, queues, datas
      ensures Valid() && |answers| == |dones| == |local| == |policies|
      ensures old(forall t: nat :: t < |policies| ==> policies[t].Serves(Piece(slices, permuted, t))) ==> !waits
      ensures waits <==> exists t: nat :: t < |policies| && dones[t] < |Piece(slices, permuted, t)|
      ensures forall t: nat :: t < |policies| ==>
        PartAsked(policies[t], Piece(slices, permuted, t), dones[t], local[t], old(policies[t].nodes),
                  old(policies[t].index), answers[t])
    {
      hide Piece, Boundaries, CachePolicy.Valid, CachePolicy.Serves, PartAsked, Share;
      answers, waits, dones, local := [], false, [], [];
      ghost var stuck: nat := 0;
      for t := 0 to |policies|
        invariant Valid() && |answers| == |dones| == |local| == t
        invariant forall u: nat :: t <= u < |policies| ==> unchanged(policies[u])
        invariant old(forall u: nat :: u < |policies| ==> policies[u].Serves(Piece(slices, permuted, u))) ==> !waits
        invariant waits ==> stuck < t && dones[stuck] < |Piece(slices, permuted, stuck)|
        invariant !waits ==> forall u: nat :: u < t ==> dones[u] >= |Piece(slices, permuted, u)|
        invariant forall u: nat :: u < t ==>
          PartAsked(policies[u], Piece(slices, permuted, u), dones[u], local[u], old(policies[u].nodes),
                    old(policies[u].index), answers[u])
      {
        var a, w;
        ghost var d, l;
        a, w, d, l := AskOne(t, Piece(slices, permuted, t));
        answers, waits, dones, local := answers + [a], waits || w, dones + [d], local + [l];
        if w { stuck := t; }
      }
    }

    /** All partitions insert their slices. */
    method ReplaceAll(slices: seq<int>, permuted: seq<int>)
      returns (positions: seq<seq<int>>, pointers: seq<seq<MaybePtr>>, waits: bool, ghost dones: seq<nat>,
               ghost local: seq<Answer>)
      requires Valid() && Boundaries(slices, |policies|, |permuted|)
      modifies policies, queues, datas
      ensures Valid() && |positions| == |pointers| == |dones| == |local| == |policies|
      ensures old(forall t: nat :: t < |policies| ==> policies[t].Serves(Piece(slices, permuted, t))) ==> !waits
      ensures waits <==> exists t: nat :: t < |policies| && dones[t] < |Piece(slices, permuted, t)|
      ensures forall t: nat :: t < |policies| ==>
        PartReplaced(policies[t], Piece(slices, permuted, t), dones[t], local[t], old(policies[t].nodes),
                     old(policies[t].index), positions[t], pointers[t])
    {
      hide Piece, Boundaries, CachePolicy.Valid, CachePolicy.Serves, PartReplaced, Share;
      positions, pointers, waits, dones, local := [], [], false, [], [];
      ghost var stuck: nat := 0;
      for t := 0 to |policies|
        invariant Valid() && |positions| == |pointers| == |dones| == |local| == t
        invariant forall u: nat :: t <= u < |policies| ==> unchanged(policies[u])
        invariant old(forall u: nat :: u < |policies| ==> policies[u].Serves(Piece(slices, permuted, u))) ==> !waits
        invariant waits ==> stuck < t && dones[stuck] < |Piece(slices, permuted, stuck)|
        invariant !waits ==> forall u: nat :: u < t ==> dones[u] >= |Piece(slices, permuted, u)|
        invariant forall u: nat :: u < t ==>
          PartReplaced(policies[u], Piece(slices, permuted, u), dones[u], local[u], old(policies[u].nodes),
                       old(policies[u].index), positions[u], pointers[u])
      {
        var pos, ptr, w;
        ghost var d, l;
        pos, ptr, w, d, l := ReplaceOne(t, Piece(slices, permuted, t));
        positions, pointers, waits := positions + [pos], pointers + [ptr], waits || w;
        dones, local := dones + [d], local + [l];
        if w { stuck := t; }
      }
    }

    /** What the outcomes of the partitions say, together. */
    lemma AllAnswered(slices: seq<int>, permuted: seq<int>, dones: seq<nat>, local: seq<Answer>, before: seq<Store>,
                      beforeIndex: seq<map<int, Ptr>>, answers: seq<LocalAnswer<MaybePtr>>)
      requires Valid() && |answers| == |dones| == |local| == |before| == |beforeIndex| == |policies|
      requires forall t: nat :: t < |policies| ==>
        PartAsked(policies[t], Piece(slices, permuted, t), dones[t], local[t], before[t], beforeIndex[t], answers[t])
      ensures forall t: nat :: t < |policies| ==>
        PartDone(policies[t], Piece(slices, permuted, t), dones[t], local[t], before[t], beforeIndex[t])
      ensures (forall t: nat :: t < |policies| ==> dones[t] >= |Piece(slices, permuted, t)|) ==>
        (forall t: nat :: t < |policies| ==>
          Asked(Piece(slices, permuted, t), policies[t].capacity, true, policies[t].nodes, policies[t].index,
                answers[t]))
        && forall t: nat :: t < |policies| ==> LocalPointers(answers[t], local[t].foundPtr)
    {
      hide Piece, Asked, LocalPointers, BatchOk, CachePolicy.CanInsert, CachePolicy.Valid, Separate;
    }

    /** The same for `Replace`. */
    lemma AllInserted(slices: seq<int>, permuted: seq<int>, dones: seq<nat>, local: seq<Answer>, before: seq<Store>,
                      beforeIndex: seq<map<int, Ptr>>, positions: seq<seq<int>>, pointers: seq<seq<MaybePtr>>)
      requires Valid() && |positions| == |pointers| == |dones| == |local| == |before| == |beforeIndex| == |policies|
      requires forall t: nat :: t < |policies| ==>
        PartReplaced(policies[t], Piece(slices, permuted, t), dones[t], local[t], before[t], beforeIndex[t],
                     positions[t], pointers[t])
      ensures forall t: nat :: t < |policies| ==>
        PartDone(policies[t], Piece(slices, permuted, t), dones[t], local[t], before[t], beforeIndex[t])
        && LeaksReadable(Piece(slices, permuted, t), dones[t], local[t], before[t], beforeIndex[t])
      ensures (forall t: nat :: t < |policies| ==> dones[t] >= |Piece(slices, permuted, t)|) ==>
        (forall t: nat :: t < |policies| ==>
          SliceReplaced(Piece(slices, permuted, t), policies[t].nodes, policies[t].index, positions[t], pointers[t]))
        && forall t: nat :: t < |policies| ==>
          ReplaceAnswer(|Piece(slices, permuted, t)|, local[t], positions[t], pointers[t])
    {
      hide Piece, SliceReplaced, ReplaceAnswer, BatchOk, LeaksReadable, CachePolicy.CanInsert, CachePolicy.Valid;
      hide Separate;
    }

    /** The keys rearranged by part. */
    method SplitKeys(keys: seq<int>, offset: int) returns (slices: seq<int>, indices: seq<int>, permuted: seq<int>)
      requires Separate()
      ensures StablePartition(Shifted(keys, offset), PartsOf(keys, offset), |policies|, slices, indices, permuted)
      ensures Boundaries(slices, |policies|, |permuted|) && |indices| == |permuted| == |keys|
      ensures |slices| == |policies| + 1
    {
      hide StablePartition, Count, Start;
      var s, i, p := Partition(Shifted(keys, offset), assign, |policies|);
      slices, indices, permuted := s[..], i[..], p[..];
      PartitionShape(Shifted(keys, offset), PartsOf(keys, offset), |policies|, slices, indices, permuted);
    }

    /** The slices of the partitioned keys are the partitions' keys. */
    lemma SlicesKeys(keys: seq<int>, offset: int, slices: seq<int>, indices: seq<int>, permuted: seq<int>)
      requires StablePartition(Shifted(keys, offset), PartsOf(keys, offset), |policies|, slices, indices, permuted)
      ensures forall t: nat :: t < |policies| ==> Piece(slices, permuted, t) == PartKeys(keys, offset, t)
    {
      hide StablePartition, Owned, Piece;
      forall t: nat | t < |policies| ensures Piece(slices, permuted, t) == PartKeys(keys, offset, t) {
        SliceOwned(Shifted(keys, offset), assign, |policies|, slices, indices, permuted, t);
      }
    }

    lemma PiecesServed(keys: seq<int>, offset: int, slices: seq<int>, permuted: seq<int>)
      requires forall t: nat :: t < |policies| ==> Piece(slices, permuted, t) == PartKeys(keys, offset, t)
      ensures Serves(keys, offset) ==>
        forall t: nat :: t < |policies| ==> policies[t].Serves(Piece(slices, permuted, t))
    {
      hide CachePolicy.Serves, Piece, PartitionedCachePolicy.PartKeys;
    }

    /** With one partition there is nothing to split. */
    lemma OnlyPart(keys: seq<int>, offset: int)
      requires Separate() && |policies| == 1
      ensures StablePartition(Shifted(keys, offset), PartsOf(keys, offset), 1, [0, |keys|], Identity(|keys|),
                              Shifted(keys, offset))
      ensures PartKeys(keys, offset, 0) == Shifted(keys, offset)
    {
      hide StablePartition, Owned;
      var shifted := Shifted(keys, offset);
      assert forall key :: assign(key) < 1;
      IdentityPartition(shifted, PartsOf(keys, offset));
      SlicesKeys(keys, offset, [0, |keys|], Identity(|keys|), shifted);
      assert Piece([0, |keys|], shifted, 0) == shifted;
    }

    // ----------------------------------------------------------------
    // The operations

    /** `Query`: the documented contract, for the keys as they were before the call.
        Which keys are readable does not change, and the pins of every partition grow by
        exactly the pointers in its block of the hits. */
    method Query(keys: seq<int>, offset: int)
      returns (positions: seq<int>, indices: seq<int>, missing: seq<int>, pointers: seq<MaybePtr>,
               foundOffsets: seq<int>, missingOffsets: seq<int>, ghost handed: seq<seq<Ptr>>)
      requires Valid() && capacity < 0x8000_0000_0000_0000
      modifies policies
      ensures Valid()
      ensures Answered(keys, offset, PartsOf(keys, offset), |policies|, capacity, false, Stores(|policies|),
                       Indexes(|policies|),
                       positions, indices, pointers, missing, foundOffsets, missingOffsets)
      ensures forall t: nat :: t < |policies| ==> policies[t].index == old(policies[t].index)
      ensures forall t: nat :: t < |policies| ==>
        SameReadable(old(policies[t].nodes), policies[t].index, policies[t].nodes, policies[t].index)
      ensures |handed| == |policies|
      ensures forall t: nat :: t < |policies| ==>
        Pinned(old(policies[t].nodes), policies[t].nodes, multiset(handed[t]))
        && HandedOut(foundOffsets, pointers, t, handed[t])
    {
      hide *;
      if |policies| == 1 {
        positions, indices, missing, pointers, foundOffsets, missingOffsets, handed := QueryAlone(keys, offset);
      } else {
        positions, indices, missing, pointers, foundOffsets, missingOffsets, handed := QueryTogether(keys, offset);
      }
    }

    /** A single partition looks the batch up itself. */
    method QueryAlone(keys: seq<int>, offset: int)
      returns (positions: seq<int>, indices: seq<int>, missing: seq<int>, pointers: seq<MaybePtr>,
               foundOffsets: seq<int>, missingOffsets: seq<int>, ghost handed: seq<seq<Ptr>>)
      requires Valid() && capacity < 0x8000_0000_0000_0000 && |policies| == 1
      modifies policies
      ensures Valid()
      ensures Answered(keys, offset, PartsOf(keys, offset), |policies|, capacity, false, Stores(|policies|),
                       Indexes(|policies|),
                       positions, indices, pointers, missing, foundOffsets, missingOffsets)
      ensures forall t: nat :: t < |policies| ==> policies[t].index == old(policies[t].index)
      ensures forall t: nat :: t < |policies| ==>
        SameReadable(old(policies[t].nodes), policies[t].index, policies[t].nodes, policies[t].index)
      ensures |handed| == |policies|
      ensures forall t: nat :: t < |policies| ==>
        Pinned(old(policies[t].nodes), policies[t].nodes, multiset(handed[t]))
        && HandedOut(foundOffsets, pointers, t, handed[t])
    {
      hide Asked, CachePolicy.Valid, Share, Answered, StablePartition, SameReadable, Owned, Pinned;
      hide HandedOut;
      var shifted := Shifted(keys, offset);
      OnlyPart(keys, offset);
      var a;
      ghost var h;
      a, h := QueryOne(0, shifted);
      handed := [h];
      ConcludeAlone(keys, offset, PartsOf(keys, offset), capacity, false, policies[0].nodes, policies[0].index, a);
      assert Stores(1) == [policies[0].nodes] && Indexes(1) == [policies[0].index];
      FoundCount(shifted, policies[0].capacity, policies[0].nodes, policies[0].index, a);
      foundOffsets, missingOffsets := [0, |a.pointers|], [0, |a.missing|];
      OnlyBlock(foundOffsets, a.pointers, h);
      positions, indices, missing, pointers := a.positions, a.indices, Shifted(a.missing, -offset), a.pointers;
    }

    /** The answers of several partitions become one. */
    method MergeAnswers(keys: seq<int>, offset: int, full: bool, slices: seq<int>, order: seq<int>,
                        permuted: seq<int>, answers: seq<LocalAnswer<MaybePtr>>, ghost handed: seq<seq<Ptr>>)
      returns (positions: seq<int>, indices: seq<int>, missing: seq<int>, pointers: seq<MaybePtr>,
               foundOffsets: seq<int>, missingOffsets: seq<int>)
      requires Valid() && capacity < 0x8000_0000_0000_0000 && |answers| == |handed| == |policies|
      requires StablePartition(Shifted(keys, offset), PartsOf(keys, offset), |policies|, slices, order, permuted)
      requires Boundaries(slices, |policies|, |permuted|) && |order| == |permuted| == |keys|
      requires forall t: nat :: t < |policies| ==>
        Asked(Piece(slices, permuted, t), policies[t].capacity, full, policies[t].nodes, policies[t].index, answers[t])
      requires forall t: nat :: t < |policies| ==> LocalPointers(answers[t], handed[t])
      ensures Answered(keys, offset, PartsOf(keys, offset), |policies|, capacity, full, Stores(|policies|),
                       Indexes(|policies|),
                       positions, indices, pointers, missing, foundOffsets, missingOffsets)
      ensures forall t: nat :: t < |policies| ==> HandedOut(foundOffsets, pointers, t, handed[t])
    {
      hide Asked, CachePolicy.Valid, Share, Answered, StablePartition, Merged, Job.Ready, Boundaries, AllAsked, Piece;
      hide LocalPointers, HandedOut;
      var num := |policies|;
      var j := Job(num, capacity, full, slices, order, permuted, answers);
      ManyAsked(j, Stores(num), Indexes(num));
      AskedReady(j, Stores(num), Indexes(num));
      var ind, pos, ptr, miss, fo, mo := Merge(j);
      Conclude(keys, offset, PartsOf(keys, offset), j, Stores(num), Indexes(num), ind[..], pos[..], ptr[..], miss[..],
               fo, mo[..]);
      AllHanded(j, ind[..], pos[..], ptr[..], miss[..], fo, mo[..], handed);
      positions, indices, missing, pointers := pos[..], ind[..], Shifted(miss[..], -offset), ptr[..];
      foundOffsets, missingOffsets := fo, mo[..];
    }

    /** Several partitions look their slices up, and the answers are merged. */
    method QueryTogether(keys: seq<int>, offset: int)
      returns (positions: seq<int>, indices: seq<int>, missing: seq<int>, pointers: seq<MaybePtr>,
               foundOffsets: seq<int>, missingOffsets: seq<int>, ghost handed: seq<seq<Ptr>>)
      requires Valid() && capacity < 0x8000_0000_0000_0000
      modifies policies
      ensures Valid()
      ensures Answered(keys, offset, PartsOf(keys, offset), |policies|, capacity, false, Stores(|policies|),
                       Indexes(|policies|),
                       positions, indices, pointers, missing, foundOffsets, missingOffsets)
      ensures forall t: nat :: t < |policies| ==> policies[t].index == old(policies[t].index)
      ensures forall t: nat :: t < |policies| ==>
        SameReadable(old(policies[t].nodes), policies[t].index, policies[t].nodes, policies[t].index)
      ensures |handed| == |policies|
      ensures forall t: nat :: t < |policies| ==>
        Pinned(old(policies[t].nodes), policies[t].nodes, multiset(handed[t]))
        && HandedOut(foundOffsets, pointers, t, handed[t])
    {
      hide Asked, CachePolicy.Valid, Share, Answered, StablePartition, Boundaries;
      hide SameReadable, Piece, LocalPointers, HandedOut, Pinned;
      var slices, order, permuted := SplitKeys(keys, offset);
      var answers;
      answers, handed := QueryAll(slices, permuted);
      positions, indices, missing, pointers, foundOffsets, missingOffsets :=
        MergeAnswers(keys, offset, false, slices, order, permuted, answers, handed);
    }

    /** `QueryAndReplace` of the partitioned policy: indices is a permutation of the
        batch, hits come first and are pinned entries of their keys, misses follow
        beside the keys themselves, and positions are global. It waits exactly if some
        partition has stopped before an absent key of its own without a victim. Waiting or
        not, every partition has done a prefix of its keys as a policy of its own, and its
        pins have grown by local[t].foundPtr, the pointers in its block of the hits. */
    method QueryAndReplace(keys: seq<int>, offset: int)
      returns (positions: seq<int>, indices: seq<int>, pointers: seq<MaybePtr>, missing: seq<int>,
               foundOffsets: seq<int>, missingOffsets: seq<int>, waits: bool, ghost dones: seq<nat>,
               ghost local: seq<Answer>)
      requires Valid() && capacity < 0x8000_0000_0000_0000
      modifies policies, queues, datas
      ensures Valid()
      ensures old(Serves(keys, offset)) ==> !waits
      ensures |dones| == |local| == |policies|
      ensures waits <==> exists t: nat :: t < |policies| && dones[t] < |PartKeys(keys, offset, t)|
      ensures forall t: nat :: t < |policies| ==>
        PartDone(policies[t], PartKeys(keys, offset, t), dones[t], local[t], old(policies[t].nodes),
                 old(policies[t].index))
      ensures !waits ==> forall t: nat :: t < |policies| ==> HandedOut(foundOffsets, pointers, t, local[t].foundPtr)
      ensures !waits ==>
        Answered(keys, offset, PartsOf(keys, offset), |policies|, capacity, true, Stores(|policies|),
                 Indexes(|policies|),
                 positions, indices, pointers, missing, foundOffsets, missingOffsets)
    {
      hide *;
      if |policies| == 1 {
        positions, indices, pointers, missing, foundOffsets, missingOffsets, waits, dones, local :=
          AnswerAlone(keys, offset);
      } else {
        positions, indices, pointers, missing, foundOffsets, missingOffsets, waits, dones, local :=
          AnswerTogether(keys, offset);
      }
    }

    /** A single partition answers the batch itself. */
    method AnswerAlone(keys: seq<int>, offset: int)
      returns (positions: seq<int>, indices: seq<int>, pointers: seq<MaybePtr>, missing: seq<int>,
               foundOffsets: seq<int>, missingOffsets: seq<int>, waits: bool, ghost dones: seq<nat>,
               ghost local: seq<Answer>)
      requires Valid() && capacity < 0x8000_0000_0000_0000 && |policies| == 1
      modifies policies, queues, datas
      ensures Valid()
      ensures old(Serves(keys, offset)) ==> !waits
      ensures |dones| == |local| == |policies|
      ensures waits <==> exists t: nat :: t < |policies| && dones[t] < |PartKeys(keys, offset, t)|
      ensures forall t: nat :: t < |policies| ==>
        PartDone(policies[t], PartKeys(keys, offset, t), dones[t], local[t], old(policies[t].nodes),
                 old(policies[t].index))
      ensures !waits ==> forall t: nat :: t < |policies| ==> HandedOut(foundOffsets, pointers, t, local[t].foundPtr)
      ensures !waits ==>
        Answered(keys, offset, PartsOf(keys, offset), |policies|, capacity, true, Stores(|policies|),
                 Indexes(|policies|),
                 positions, indices, pointers, missing, foundOffsets, missingOffsets)
    {
      hide Asked, CachePolicy.Valid, CachePolicy.Serves, CachePolicy.CanInsert, Share, Answered, StablePartition, Owned;
      hide PartDone, HandedOut;
      var shifted := Shifted(keys, offset);
      OnlyPart(keys, offset);
      var a;
      ghost var d, l;
      a, waits, d, l := AskOne(0, shifted);
      dones, local := [d], [l];
      positions, indices, pointers, missing, foundOffsets, missingOffsets := [], [], [], [], [], [];
      assert waits <==> dones[0] < |PartKeys(keys, offset, 0)|;
      if !waits {
        ConcludeAlone(keys, offset, PartsOf(keys, offset), capacity, true, policies[0].nodes, policies[0].index, a);
        assert Stores(1) == [policies[0].nodes] && Indexes(1) == [policies[0].index];
        foundOffsets, missingOffsets := [0, |keys| - |a.missing|], [0, |a.missing|];
        FullCount(shifted, policies[0].capacity, policies[0].nodes, policies[0].index, a);
        OnlyBlock(foundOffsets, a.pointers, l.foundPtr);
        positions, indices, pointers, missing := a.positions, a.indices, a.pointers, Shifted(a.missing, -offset);
      }
    }

    /** Several partitions answer their slices. */
    method AskParts(keys: seq<int>, offset: int)
      returns (slices: seq<int>, order: seq<int>, permuted: seq<int>, answers: seq<LocalAnswer<MaybePtr>>,
               waits: bool, ghost dones: seq<nat>, ghost local: seq<Answer>)
      requires Valid()
      modifies policies, queues, datas
      ensures Valid() && |answers| == |dones| == |local| == |policies|
      ensures StablePartition(Shifted(keys, offset), PartsOf(keys, offset), |policies|, slices, order, permuted)
      ensures Boundaries(slices, |policies|, |permuted|) && |order| == |permuted| == |keys|
      ensures old(Serves(keys, offset)) ==> !waits
      ensures waits <==> exists t: nat :: t < |policies| && dones[t] < |PartKeys(keys, offset, t)|
      ensures forall t: nat :: t < |policies| ==>
        PartDone(policies[t], PartKeys(keys, offset, t), dones[t], local[t], old(policies[t].nodes),
                 old(policies[t].index))
      ensures !waits ==> forall t: nat :: t < |policies| ==>
        Asked(Piece(slices, permuted, t), policies[t].capacity, true, policies[t].nodes, policies[t].index, answers[t])
      ensures !waits ==> forall t: nat :: t < |policies| ==> LocalPointers(answers[t], local[t].foundPtr)
    {
      hide Asked, CachePolicy.Valid, Share, StablePartition, Boundaries, PartDone;
      hide PartitionedCachePolicy.PartsOf;
      hide PartAsked, Piece, CachePolicy.Serves, LocalPointers, PartitionedCachePolicy.PartKeys;
      hide PartitionedCachePolicy.Serves;
      ghost var before, beforeIndex := Stores(|policies|), Indexes(|policies|);
      slices, order, permuted := SplitKeys(keys, offset);
      SlicesKeys(keys, offset, slices, order, permuted);
      PiecesServed(keys, offset, slices, permuted);
      answers, waits, dones, local := AskAll(slices, permuted);
      AllAnswered(slices, permuted, dones, local, before, beforeIndex, answers);
    }

    /** Several partitions answer their slices, and the answers are merged. */
    method AnswerTogether(keys: seq<int>, offset: int)
      returns (positions: seq<int>, indices: seq<int>, pointers: seq<MaybePtr>, missing: seq<int>,
               foundOffsets: seq<int>, missingOffsets: seq<int>, waits: bool, ghost dones: seq<nat>,
               ghost local: seq<Answer>)
      requires Valid() && capacity < 0x8000_0000_0000_0000
      modifies policies, queues, datas
      ensures Valid()
      ensures old(Serves(keys, offset)) ==> !waits
      ensures |dones| == |local| == |policies|
      ensures waits <==> exists t: nat :: t < |policies| && dones[t] < |PartKeys(keys, offset, t)|
      ensures forall t: nat :: t < |policies| ==>
        PartDone(policies[t], PartKeys(keys, offset, t), dones[t], local[t], old(policies[t].nodes),
                 old(policies[t].index))
      ensures !waits ==> forall t: nat :: t < |policies| ==> HandedOut(foundOffsets, pointers, t, local[t].foundPtr)
      ensures !waits ==>
        Answered(keys, offset, PartsOf(keys, offset), |policies|, capacity, true, Stores(|policies|),
                 Indexes(|policies|),
                 positions, indices, pointers, missing, foundOffsets, missingOffsets)
    {
      hide Asked, CachePolicy.Valid, Share, Answered, StablePartition, Boundaries, PartDone;
      hide PartitionedCachePolicy.PartsOf;
      hide Piece, LocalPointers, HandedOut, PartitionedCachePolicy.PartKeys, PartitionedCachePolicy.Serves;
      var slices, order, permuted, answers;
      slices, order, permuted, answers, waits, dones, local := AskParts(keys, offset);
      positions, indices, pointers, missing, foundOffsets, missingOffsets := [], [], [], [], [], [];
      if !waits {
        positions, indices, missing, pointers, foundOffsets, missingOffsets :=
          MergeAnswers(keys, offset, true, slices, order, permuted, answers, FoundPtrs(local));
      }
    }

    /** The order in which `Replace` hands the keys to the partitions. */
    method ReplaceOrder(keys: seq<int>, offsets: Option<seq<int>>, offset: int)
      returns (slices: seq<int>, order: seq<int>, permuted: seq<int>)
      requires Separate() && (offsets.Some? ==> Boundaries(offsets.value, |policies|, |keys|))
      ensures Boundaries(slices, |policies|, |permuted|) && |slices| == |policies| + 1
      ensures |order| == |permuted| && Ordered(order, |permuted|)
      ensures offsets.Some? || |policies| == 1 ==> order == Identity(|keys|) && permuted == Shifted(keys, offset)
      ensures offsets.Some? ==> slices == offsets.value
      ensures offsets.None? ==>
        StablePartition(Shifted(keys, offset), PartsOf(keys, offset), |policies|, slices, order, permuted)
    {
      hide StablePartition;
      order, permuted := Identity(|keys|), Shifted(keys, offset);
      if offsets.Some? {
        slices := offsets.value;
        IdentityOrder(|keys|);
      } else if |policies| == 1 {
        slices := [0, |keys|];
        OnlyPart(keys, offset);
        IdentityOrder(|keys|);
      } else {
        slices, order, permuted := SplitKeys(keys, offset);
        PartitionOrder(Shifted(keys, offset), PartsOf(keys, offset), |policies|, slices, order, permuted);
      }
    }

    /** All partitions insert their part of the keys. */
    method InsertParts(keys: seq<int>, offsets: Option<seq<int>>, offset: int)
      returns (slices: seq<int>, order: seq<int>, permuted: seq<int>, positions: seq<seq<int>>,
               pointers: seq<seq<MaybePtr>>, waits: bool, ghost dones: seq<nat>, ghost local: seq<Answer>)
      requires Valid() && (offsets.Some? ==> Boundaries(offsets.value, |policies|, |keys|))
      modifies policies, queues, datas
      ensures Valid() && |positions| == |pointers| == |dones| == |local| == |policies|
      ensures Boundaries(slices, |policies|, |permuted|) && |slices| == |policies| + 1
      ensures |order| == |permuted| && Ordered(order, |permuted|)
      ensures offsets.Some? || |policies| == 1 ==> order == Identity(|keys|) && permuted == Shifted(keys, offset)
      ensures offsets.Some? ==> slices == offsets.value
      ensures offsets.None? ==>
        StablePartition(Shifted(keys, offset), PartsOf(keys, offset), |policies|, slices, order, permuted)
      ensures waits <==> exists t: nat :: t < |policies| && dones[t] < |Piece(slices, permuted, t)|
      ensures forall t: nat :: t < |policies| ==>
        PartDone(policies[t], Piece(slices, permuted, t), dones[t], local[t], old(policies[t].nodes),
                 old(policies[t].index))
        && LeaksReadable(Piece(slices, permuted, t), dones[t], local[t], old(policies[t].nodes), old(policies[t].index))
      ensures offsets.None? && old(Serves(keys, offset)) ==> !waits
      ensures !waits ==>
        (forall t: nat :: t < |policies| ==>
          SliceReplaced(Piece(slices, permuted, t), policies[t].nodes, policies[t].index, positions[t], pointers[t]))
        && forall t: nat :: t < |policies| ==>
          ReplaceAnswer(|Piece(slices, permuted, t)|, local[t], positions[t], pointers[t])
    {
      hide CachePolicy.Valid, Share, StablePartition, SliceReplaced, PartDone, LeaksReadable, PartReplaced;
      hide Boundaries, CachePolicy.Serves, Piece, PartitionedCachePolicy.PartKeys, ReplaceAnswer, Ordered;
      hide PartitionedCachePolicy.Serves, PartitionedCachePolicy.PartsOf;
      ghost var before, beforeIndex := Stores(|policies|), Indexes(|policies|);
      slices, order, permuted := ReplaceOrder(keys, offsets, offset);
      if offsets.None? {
        SlicesKeys(keys, offset, slices, order, permuted);
        PiecesServed(keys, offset, slices, permuted);
      }
      positions, pointers, waits, dones, local := ReplaceAll(slices, permuted);
      AllInserted(slices, permuted, dones, local, before, beforeIndex, positions, pointers);
    }

    /** Their answers are put in place. */
    method PlaceParts(slices: seq<int>, order: seq<int>, permuted: seq<int>, provided: bool, pos: seq<seq<int>>,
                      ptr: seq<seq<MaybePtr>>, ghost local: seq<Answer>)
      returns (positions: seq<int>, pointers: seq<MaybePtr>)
      requires Valid() && |pos| == |ptr| == |local| == |policies|
      requires Boundaries(slices, |policies|, |permuted|) && |slices| == |policies| + 1
      requires |order| == |permuted| && Ordered(order, |permuted|) && (provided ==> order == Identity(|permuted|))
      requires forall t: nat :: t < |policies| ==>
        SliceReplaced(Piece(slices, permuted, t), policies[t].nodes, policies[t].index, pos[t], ptr[t])
      requires forall t: nat :: t < |policies| ==>
        ReplaceAnswer(|Piece(slices, permuted, t)|, local[t], pos[t], ptr[t])
      ensures forall t: nat :: t < |policies| ==> OnlyNew(slices[t], local[t], pointers)
      ensures Replaced(permuted, |policies|, capacity, Stores(|policies|), Indexes(|policies|), slices, order,
                       positions, pointers)
    {
      hide CachePolicy.Valid, Share, SliceReplaced, OnlyNew, Boundaries, Replaced, Piece, ReplaceAnswer, PlacedTo;
      hide Ordered, Lengths, AllSlicesReplaced;
      var num := |policies|;
      AllReplaced(slices, permuted, Stores(num), Indexes(num), pos, ptr);
      var outPos, outPtr := PlaceAll(num, capacity, slices, order, provided, pos, ptr);
      positions, pointers := outPos[..], outPtr[..];
      ConcludeReplace(num, capacity, slices, order, permuted, Stores(num), Indexes(num), pos, ptr, positions, pointers);
      AllOnlyNew(num, capacity, slices, order, permuted, pos, ptr, positions, pointers, local);
    }

    /** `Replace`: without offsets the keys are split by part, and positions come back
        in the order of the keys but pointers in the order of the parts; with offsets
        the keys are already in that order and are not looked at again. The pins that a
        partition leaks, local[t].foundPtr, are those of keys it found readable, and no
        pointer is returned for them. */
    method Replace(keys: seq<int>, offsets: Option<seq<int>>, offset: int)
      returns (positions: seq<int>, pointers: seq<MaybePtr>, slices: seq<int>, waits: bool, ghost order: seq<int>,
               ghost permuted: seq<int>, ghost dones: seq<nat>, ghost local: seq<Answer>)
      requires Valid() && (offsets.Some? ==> Boundaries(offsets.value, |policies|, |keys|))
      modifies policies, queues, datas
      ensures Valid() && Boundaries(slices, |policies|, |permuted|)
      ensures offsets.Some? ==>
        slices == offsets.value && order == Identity(|keys|) && permuted == Shifted(keys, offset)
      ensures offsets.None? ==>
        StablePartition(Shifted(keys, offset), PartsOf(keys, offset), |policies|, slices, order, permuted)
      ensures |dones| == |local| == |policies|
      ensures waits <==> exists t: nat :: t < |policies| && dones[t] < |Piece(slices, permuted, t)|
      ensures forall t: nat :: t < |policies| ==>
        PartDone(policies[t], Piece(slices, permuted, t), dones[t], local[t], old(policies[t].nodes),
                 old(policies[t].index))
        && LeaksReadable(Piece(slices, permuted, t), dones[t], local[t], old(policies[t].nodes), old(policies[t].index))
      ensures !waits ==> forall t: nat :: t < |policies| ==> OnlyNew(slices[t], local[t], pointers)
      ensures offsets.None? && old(Serves(keys, offset)) ==> !waits
      ensures !waits ==>
        Replaced(permuted, |policies|, capacity, Stores(|policies|), Indexes(|policies|), slices, order, positions,
                 pointers)
    {
      hide CachePolicy.Valid, Share, StablePartition, SliceReplaced, PartDone, LeaksReadable, OnlyNew;
      hide Boundaries, Replaced, Piece, ReplaceAnswer, Ordered, PartitionedCachePolicy.Serves;
      hide PartitionedCachePolicy.PartsOf;
      var indices, moved, pos, ptr;
      slices, indices, moved, pos, ptr, waits, dones, local := InsertParts(keys, offsets, offset);
      order, permuted := indices, moved;
      positions, pointers := [], [];
      if !waits {
        positions, pointers :=
          PlaceParts(slices, indices, moved, offsets.Some? || |policies| == 1, pos, ptr, local);
      }
    }
  }

  function FoundPtrs(local: seq<Answer>): (r: seq<seq<Ptr>>)
    ensures |r| == |local| && forall t :: 0 <= t < |local| ==> r[t] == local[t].foundPtr
  {
    seq(|local|, t requires 0 <= t < |local| => local[t].foundPtr)
  }

  lemma OnlyBlock(offsets: seq<int>, pointers: seq<MaybePtr>, handed: seq<Ptr>)
    requires |offsets| == 2 && offsets[0] == 0 && offsets[1] == |handed| <= |pointers|
    requires pointers[..|handed|] == Pointers(handed)
    ensures HandedOut(offsets, pointers, 0, handed)
  {
  }

  lemma FullCount(slice: seq<int>, capacity: int, nodes: Store, index: map<int, Ptr>, a: LocalAnswer<MaybePtr>)
    requires Asked(slice, capacity, true, nodes, index, a)
    ensures a.found == |slice| - |a.missing| <= |a.pointers|
  {
  }

  /** Column t of the concatenated columns. */
  lemma ConcatBlock<T>(cols: seq<seq<T>>, rest: seq<T>, t: nat)
    requires t < |cols|
    ensures |Concat(cols, t)| + |cols[t]| == |Concat(cols, t + 1)| <= |Concat(cols, |cols|)|
    ensures (Concat(cols, |cols|) + rest)[|Concat(cols, t)|..|Concat(cols, t + 1)|] == cols[t]
  {
    ConcatMonotone(cols, t + 1, |cols|);
    var all := Concat(cols, |cols|);
    assert all[..|Concat(cols, t + 1)|] == Concat(cols, t) + cols[t];
    assert (all + rest)[|Concat(cols, t)|..|Concat(cols, t + 1)|]
        == all[..|Concat(cols, t + 1)|][|Concat(cols, t)|..];
  }

  /** The merged pointers hold every partition's hits in its block. */
  lemma BlockHanded(j: Job<MaybePtr>, indices: seq<int>, positions: seq<int>, pointers: seq<MaybePtr>,
                    missing: seq<int>, foundOffsets: seq<int>, missingOffsets: seq<int>, t: nat, handed: seq<Ptr>)
    requires j.Ready() && Merged(j, indices, positions, pointers, missing, foundOffsets, missingOffsets)
    requires t < j.num == |j.answers| && LocalPointers(j.answers[t], handed)
    ensures HandedOut(foundOffsets, pointers, t, handed)
  {
    hide Concat, Sum, LocalOk, Job.Ready;
    ColumnSizes(j, t);
    ColumnSizes(j, t + 1);
    Pieces(j, t);
    Places(j, t);
    ConcatBlock(j.FoundPointers(), Concat(j.MissingPointers(), j.num), t);
  }

  lemma AllHanded(j: Job<MaybePtr>, indices: seq<int>, positions: seq<int>, pointers: seq<MaybePtr>,
                  missing: seq<int>, foundOffsets: seq<int>, missingOffsets: seq<int>, handed: seq<seq<Ptr>>)
    requires j.Ready() && Merged(j, indices, positions, pointers, missing, foundOffsets, missingOffsets)
    requires |handed| == j.num == |j.answers| && forall t: nat :: t < j.num ==> LocalPointers(j.answers[t], handed[t])
    ensures forall t: nat :: t < j.num ==> HandedOut(foundOffsets, pointers, t, handed[t])
  {
    hide Merged, Job.Ready, LocalPointers, HandedOut;
    forall t: nat | t < j.num ensures HandedOut(foundOffsets, pointers, t, handed[t]) {
      BlockHanded(j, indices, positions, pointers, missing, foundOffsets, missingOffsets, t, handed[t]);
    }
  }

  /** The documented contract, with every cell right about its key in the key's partition. */
  ghost predicate Answered(keys: seq<int>, offset: int, parts: seq<int>, num: nat, capacity: nat, full: bool,
                           stores: seq<Store>, indexes: seq<map<int, Ptr>>,
                           positions: seq<int>, indices: seq<int>, pointers: seq<MaybePtr>, missing: seq<int>,
                           foundOffsets: seq<int>, missingOffsets: seq<int>)
  {
    && BatchContract(keys, parts, num, capacity, full, indices, positions, missing, foundOffsets, missingOffsets)
    && |pointers| == |positions| && |stores| == |indexes| == num
    && forall g: nat :: g < |keys| ==>
      CellRight(keys[indices[g]] + offset, parts[indices[g]], num, capacity, full, stores, indexes,
                                                 positions, pointers, g, g < foundOffsets[num])
  }

  ghost predicate CellRight(key: int, p: int, num: nat, capacity: nat, full: bool, stores: seq<Store>,
                            indexes: seq<map<int, Ptr>>, positions: seq<int>, pointers: seq<MaybePtr>, g: nat,
                            hit: bool) {
    && 0 <= p < num && |stores| == |indexes| == num
    && RightAbout(key, stores[p], indexes[p], ChunkBegin(p, capacity, num), full, positions, pointers, g, hit)
  }

  /** Key g of slice t is answered at cell order[g] by its position and at cell g by its pointer. */
  ghost predicate Replaced(permuted: seq<int>, num: nat, capacity: nat, stores: seq<Store>, indexes: seq<map<int, Ptr>>,
                           slices: seq<int>, order: seq<int>, positions: seq<int>, pointers: seq<MaybePtr>) {
    && num >= 1 && Boundaries(slices, num, |permuted|) && Ordered(order, |permuted|) && |stores| == |indexes| == num
    && |positions| == |pointers| == |permuted|
    && forall t: nat :: t < num ==>
      PieceReplaced(permuted, stores[t], indexes[t], ChunkBegin(t, capacity, num), slices[t], slices[t + 1],
                                                  order, positions, pointers)
  }

  ghost predicate PieceReplaced(permuted: seq<int>, nodes: Store, index: map<int, Ptr>, base: int, begin: int, end: int,
                                order: seq<int>, positions: seq<int>, pointers: seq<MaybePtr>) {
    && 0 <= begin <= end <= |permuted| == |order| == |pointers|
    && forall g :: begin <= g < end ==>
      0 <= order[g] < |positions| && ReplacedOk(permuted[g], nodes, index, base, positions[order[g]], pointers[g])
  }

  /** The cells 0..n-1 in some order. */
  ghost predicate Ordered(order: seq<int>, n: nat) {
    && |order| == n && (forall i :: 0 <= i < n ==> 0 <= order[i] < n)
    && forall i, j :: 0 <= i < j < n ==> order[i] != order[j]
  }

  function Identity(n: nat): (r: seq<int>)
    ensures |r| == n && forall i :: 0 <= i < n ==> r[i] == i
  {
    seq(n, i => i)
  }

  lemma BatchAsked(keys: seq<int>, a: Answer, before: Store, beforeIndex: map<int, Ptr>, nodes: Store,
                   index: map<int, Ptr>, usage: int, capacity: int)
    requires BatchOk(keys, |keys|, a, before, beforeIndex, nodes, index) && Slotted(nodes, usage, capacity)
    ensures |a.missing| <= |keys| && |keys| - |a.missing| == |a.foundPtr|
    ensures Asked(keys, capacity, true, nodes, index,
                  LocalAnswer(|keys| - |a.missing|, a.found + a.missingAt, a.foundPos + a.missPos,
                              Pointers(a.foundPtr) + a.missPtr, a.missing))
  {
    hide Split, WritersKnown, Pinned, NullsExplained, PointersDistinct, WrittenBefore, LocalOk;
    SplitRange(a.found, a.missingAt, |keys|);
    BatchIsLocal(keys, a, before, beforeIndex, nodes, index, usage, capacity);
  }

  lemma IdentityPartition(keys: seq<int>, parts: seq<int>)
    requires |keys| == |parts| && InParts(parts, 1)
    ensures StablePartition(keys, parts, 1, [0, |keys|], Identity(|keys|), keys)
  {
    forall k | 0 <= k < |keys| ensures k in Identity(|keys|) { assert Identity(|keys|)[k] == k; }
  }

  lemma PartitionShape(keys: seq<int>, parts: seq<int>, num: nat, slices: seq<int>, indices: seq<int>,
                       permuted: seq<int>)
    requires StablePartition(keys, parts, num, slices, indices, permuted)
    ensures Boundaries(slices, num, |permuted|) && |indices| == |permuted| == |keys|
  {
  }

  lemma IdentityOrder(n: nat)
    ensures Ordered(Identity(n), n)
  {
  }

  lemma PartitionOrder(keys: seq<int>, parts: seq<int>, num: nat, slices: seq<int>, indices: seq<int>,
                       permuted: seq<int>)
    requires StablePartition(keys, parts, num, slices, indices, permuted)
    ensures Ordered(indices, |permuted|)
  {
    OntoIsInjective(indices, |keys|);
  }

  /** A slice holds exactly the keys of its part, in the order of the batch. */
  lemma SliceOwned(keys: seq<int>, assign: int -> nat, num: nat, slices: seq<int>, indices: seq<int>,
                   permuted: seq<int>, t: nat)
    requires StablePartition(keys, Assigned(keys, assign), num, slices, indices, permuted) && t < num
    ensures 0 <= slices[t] <= slices[t + 1] <= |permuted|
    ensures Piece(slices, permuted, t) == Owned(keys, assign, t)
  {
    hide *;
    PieceSize(keys, assign, num, slices, indices, permuted, t);
    var places := indices[slices[t]..slices[t + 1]];
    var at := OwnedPlaces(keys, assign, t);
    PlacesAscending(keys, assign, num, slices, indices, permuted, t);
    PlacesMembers(at, keys, assign, t, Owned(keys, assign, t));
    forall k ensures k in places <==> k in at {
      PlaceOwned(keys, assign, num, slices, indices, permuted, t, k);
    }
    AscendingUnique(places, at);
    PieceIsOwned(keys, assign, num, slices, indices, permuted, t, at, Owned(keys, assign, t));
  }

  lemma PieceSize(keys: seq<int>, assign: int -> nat, num: nat, slices: seq<int>, indices: seq<int>,
                  permuted: seq<int>, t: nat)
    requires StablePartition(keys, Assigned(keys, assign), num, slices, indices, permuted) && t < num
    ensures |slices| == num + 1 && 0 <= slices[t] <= slices[t + 1] <= |permuted| == |indices|
  {
    hide Stable, InSlice;
  }

  lemma PlacesMembers(at: seq<int>, keys: seq<int>, assign: int -> nat, t: nat, owned: seq<int>)
    requires PlacesOf(at, keys, assign, t, owned)
    ensures Ascending(at) && forall k :: k in at <==> 0 <= k < |keys| && assign(keys[k]) == t
  {
  }

  lemma PlacesAscending(keys: seq<int>, assign: int -> nat, num: nat, slices: seq<int>, indices: seq<int>,
                        permuted: seq<int>, t: nat)
    requires StablePartition(keys, Assigned(keys, assign), num, slices, indices, permuted) && t < num
    ensures 0 <= slices[t] <= slices[t + 1] <= |indices| && Ascending(indices[slices[t]..slices[t + 1]])
  {
    hide InSlice;
    var parts, places := Assigned(keys, assign), indices[slices[t]..slices[t + 1]];
    forall i, j | 0 <= i < j < |places| ensures places[i] < places[j] {
      SliceExact(keys, parts, num, slices, indices, permuted, t, slices[t] + i);
      SliceExact(keys, parts, num, slices, indices, permuted, t, slices[t] + j);
    }
  }

  lemma PieceIsOwned(keys: seq<int>, assign: int -> nat, num: nat, slices: seq<int>, indices: seq<int>,
                     permuted: seq<int>, t: nat, at: seq<int>, owned: seq<int>)
    requires StablePartition(keys, Assigned(keys, assign), num, slices, indices, permuted) && t < num
    requires 0 <= slices[t] <= slices[t + 1] <= |indices| && at == indices[slices[t]..slices[t + 1]]
    requires PlacesOf(at, keys, assign, t, owned)
    ensures Piece(slices, permuted, t) == owned
  {
    hide InSlice, Stable, Ascending;
    forall i | 0 <= i < |at| ensures Piece(slices, permuted, t)[i] == owned[i] {
      assert permuted[slices[t] + i] == keys[indices[slices[t] + i]];
    }
  }

  lemma PlaceOwned(keys: seq<int>, assign: int -> nat, num: nat, slices: seq<int>, indices: seq<int>,
                   permuted: seq<int>, t: nat, k: int)
    requires StablePartition(keys, Assigned(keys, assign), num, slices, indices, permuted) && t < num
    ensures 0 <= slices[t] <= slices[t + 1] <= |indices|
    ensures k in indices[slices[t]..slices[t + 1]] <==> 0 <= k < |keys| && assign(keys[k]) == t
  {
    hide InSlice, Stable;
    var parts, places := Assigned(keys, assign), indices[slices[t]..slices[t + 1]];
    if k in places {
      var i :| 0 <= i < |places| && places[i] == k;
      SliceExact(keys, parts, num, slices, indices, permuted, t, slices[t] + i);
    }
    if 0 <= k < |keys| && assign(keys[k]) == t {
      assert k in indices;
      var g :| 0 <= g < |indices| && indices[g] == k;
      SliceExact(keys, parts, num, slices, indices, permuted, t, g);
      assert places[g - slices[t]] == k;
    }
  }

  /** What `QueryImpl` returns is right about every key. */
  lemma QueryAsked(keys: seq<int>, before: Store, nodes: Store, index: map<int, Ptr>, positions: seq<int>,
                   found: seq<int>, missingAt: seq<int>, missing: seq<int>, pointers: seq<Ptr>, usage: int,
                   capacity: int)
    requires QueryAnswer(keys, |keys|, before, index, positions, found, missingAt, missing, pointers)
    requires Slotted(before, usage, capacity) && Indexed(before, index)
    requires Pinned(before, nodes, multiset(pointers)) && nodes.Keys == before.Keys && SameReaders(before, nodes)
    ensures |found| == |pointers| && SameReadable(before, index, nodes, index)
    ensures Asked(keys, capacity, false, nodes, index,
                  LocalAnswer(|pointers|, found + missingAt, positions, Pointers(pointers), missing))
  {
    hide Split, LocalOk, Slotted;
    SplitRange(found, missingAt, |keys|);
    QueryIsLocal(keys, before, index, positions, found, missingAt, missing, pointers, usage, capacity);
    assert forall i :: 0 <= i < |pointers| ==> pointers[i] in multiset(pointers);
  }

  /** What `ReplaceImpl` returns is right about every key. */
  lemma BatchReplaced(keys: seq<int>, a: Answer, before: Store, beforeIndex: map<int, Ptr>, nodes: Store,
                      index: map<int, Ptr>, positions: seq<int>, pointers: seq<MaybePtr>)
    requires BatchOk(keys, |keys|, a, before, beforeIndex, nodes, index)
    requires ReplaceAnswer(|keys|, a, positions, pointers)
    ensures SliceReplaced(keys, nodes, index, positions, pointers)
  {
    hide WritersKnown, Pinned, FoundAnswer, MissingAnswer, ReplacedOk;
    forall i: nat | i < |keys| ensures ReplacedOk(keys[i], nodes, index, 0, positions[i], pointers[i]) {
      if i in a.found {
        var j: nat :| j < |a.found| && a.found[j] == i;
        FoundReplaced(keys, a, nodes, index, j, positions[i], pointers[i]);
      } else {
        assert i in a.missingAt;
        var j: nat :| j < |a.missingAt| && a.missingAt[j] == i;
        MissingReplaced(keys, a, before, beforeIndex, nodes, index, j);
      }
    }
  }

  lemma FoundReplaced(keys: seq<int>, a: Answer, nodes: Store, index: map<int, Ptr>, j: nat, position: int,
                      pointer: MaybePtr)
    requires FoundAnswer(keys, nodes, index, a.found, a.foundPos, a.foundPtr) && j < |a.found|
    requires position == UNSET_POS && pointer == Null
    ensures 0 <= a.found[j] < |keys| && ReplacedOk(keys[a.found[j]], nodes, index, 0, position, pointer)
  {
  }

  lemma MissingReplaced(keys: seq<int>, a: Answer, before: Store, beforeIndex: map<int, Ptr>, nodes: Store,
                        index: map<int, Ptr>, j: nat)
    requires MissingAnswer(keys, nodes, index, before, beforeIndex, a.missingAt, a.missing, a.missPos, a.missPtr)
    requires j < |a.missingAt|
    ensures |a.missPos| == |a.missPtr| == |a.missingAt| && 0 <= a.missingAt[j] < |keys|
    ensures ReplacedOk(keys[a.missingAt[j]], nodes, index, 0, a.missPos[j], a.missPtr[j])
  {
    hide NullsExplained, PointersDistinct, WrittenBefore;
    assert MissingOne(keys, nodes, index, before, beforeIndex, a.missingAt[j], a.missing[j], a.missPos[j],
                      a.missPtr[j]);
  }

  lemma FoundCount(slice: seq<int>, capacity: int, nodes: Store, index: map<int, Ptr>, a: LocalAnswer<MaybePtr>)
    requires Asked(slice, capacity, false, nodes, index, a)
    ensures a.found == |a.pointers| == |slice| - |a.missing|
  {
  }

  /** Every slice is right about its keys. */
  ghost predicate AllSlicesReplaced(slices: seq<int>, permuted: seq<int>, stores: seq<Store>,
                                    indexes: seq<map<int, Ptr>>, positions: seq<seq<int>>,
                                    pointers: seq<seq<MaybePtr>>) {
    && |positions| == |pointers| == |stores| == |indexes| && Boundaries(slices, |stores|, |permuted|)
    && forall t: nat :: t < |stores| ==>
      SliceReplaced(Piece(slices, permuted, t), stores[t], indexes[t], positions[t], pointers[t])
  }

  lemma AllReplaced(slices: seq<int>, permuted: seq<int>, stores: seq<Store>, indexes: seq<map<int, Ptr>>,
                    positions: seq<seq<int>>, pointers: seq<seq<MaybePtr>>)
    requires |positions| == |pointers| == |stores| == |indexes| && Boundaries(slices, |stores|, |permuted|)
    requires forall t: nat :: t < |stores| ==>
      SliceReplaced(Piece(slices, permuted, t), stores[t], indexes[t], positions[t], pointers[t])
    ensures AllSlicesReplaced(slices, permuted, stores, indexes, positions, pointers)
    ensures Lengths(slices, |permuted|, positions, pointers)
  {
    hide ReplacedOk;
    forall t: nat | t < |stores| ensures |positions[t]| == |pointers[t]| == slices[t + 1] - slices[t] {
      assert SliceReplaced(Piece(slices, permuted, t), stores[t], indexes[t], positions[t], pointers[t]);
    }
  }

  ghost predicate Lengths(slices: seq<int>, n: nat, positions: seq<seq<int>>, pointers: seq<seq<MaybePtr>>) {
    && |positions| == |pointers| && Boundaries(slices, |positions|, n)
    && forall t: nat :: t < |positions| ==> |positions[t]| == |pointers[t]| == slices[t + 1] - slices[t]
  }

  /** The cells of slices 0..m-1 are in place. */
  ghost predicate PlacedTo(num: nat, capacity: nat, m: nat, slices: seq<int>, order: seq<int>, pos: seq<seq<int>>,
                           ptr: seq<seq<MaybePtr>>, positions: seq<int>, pointers: seq<MaybePtr>)
  {
    && num >= 1 && m <= num && |pos| == num && Lengths(slices, |order|, pos, ptr) && Ordered(order, |order|)
    && |positions| == |pointers| == |order|
    && forall t: nat :: t < m ==>
      PiecePlaced(ChunkBegin(t, capacity, num), slices[t], order, pos[t], ptr[t], positions, pointers)
  }

  ghost predicate PiecePlaced(base: int, begin: int, order: seq<int>, pos: seq<int>, ptr: seq<MaybePtr>,
                              positions: seq<int>, pointers: seq<MaybePtr>) {
    && |pos| == |ptr| && 0 <= begin <= begin + |pos| <= |order| == |pointers| && Ordered(order, |positions|)
    && (forall i :: 0 <= i < |pos| ==> positions[order[begin + i]] == pos[i] + base)
    && (forall i :: 0 <= i < |ptr| ==> pointers[begin + i] == ptr[i])
  }

  /** The copying loops of `Replace`: positions to the cells of the keys, pointers in place. */
  method PlaceAll(num: nat, capacity: nat, slices: seq<int>, indices: seq<int>, provided: bool, pos: seq<seq<int>>,
                  ptr: seq<seq<MaybePtr>>)
    returns (positions: array<int>, pointers: array<MaybePtr>)
    requires num >= 1 && |pos| == num && Lengths(slices, |indices|, pos, ptr) && Ordered(indices, |indices|)
    requires provided ==> indices == Identity(|indices|)
    ensures PlacedTo(num, capacity, num, slices, indices, pos, ptr, positions[..], pointers[..])
  {
    hide PiecePlaced, ChunkBegin, PlacedTo, Boundaries;
    positions := new int[|indices|];
    pointers := new MaybePtr[|indices|];
    PlacedNone(num, capacity, slices, indices, pos, ptr, positions[..], pointers[..]);
    for t := 0 to num
      invariant PlacedTo(num, capacity, t, slices, indices, pos, ptr, positions[..], pointers[..])
    {
      PieceFits(slices, |indices|, pos, ptr, t);
      ghost var was, wasPtr := positions[..], pointers[..];
      PlacePositions(pos[t], ChunkBegin(t, capacity, num), indices, provided, positions, slices[t]);
      CopyInto(ptr[t], pointers, slices[t]);
      PlacedNext(num, capacity, t, slices, indices, pos, ptr, was, wasPtr, positions[..], pointers[..]);
    }
  }

  method PlacePositions(piece: seq<int>, off: int, indices: seq<int>, provided: bool, out: array<int>, begin: nat)
    requires begin + |piece| <= |indices| == out.Length && Ordered(indices, |indices|)
    requires provided ==> indices == Identity(|indices|)
    modifies out
    ensures forall i :: 0 <= i < |piece| ==> out[indices[begin + i]] == piece[i] + off
    ensures forall g :: 0 <= g < |indices| && !(begin <= g < begin + |piece|) ==>
      out[indices[g]] == old(out[indices[g]])
  {
    for i := 0 to |piece|
      invariant forall k :: 0 <= k < i ==> out[indices[begin + k]] == piece[k] + off
      invariant forall g :: 0 <= g < |indices| && !(begin <= g < begin + i) ==> out[indices[g]] == old(out[indices[g]])
    {
      out[if provided then begin + i else indices[begin + i]] := piece[i] + off;
    }
  }

  lemma PieceFits(slices: seq<int>, n: nat, pos: seq<seq<int>>, ptr: seq<seq<MaybePtr>>, t: nat)
    requires Lengths(slices, n, pos, ptr) && t < |pos|
    ensures |slices| == |pos| + 1 && 0 <= slices[t] <= slices[t] + |pos[t]| <= n && |pos[t]| == |ptr[t]|
    ensures forall u: nat :: u < t ==> slices[u] + |pos[u]| <= slices[t]
  {
    assert slices[t + 1] <= slices[|pos|];
    forall u: nat | u < t ensures slices[u] + |pos[u]| <= slices[t] {
      assert slices[u + 1] <= slices[t];
    }
  }

  lemma PlacedNone(num: nat, capacity: nat, slices: seq<int>, order: seq<int>, pos: seq<seq<int>>,
                   ptr: seq<seq<MaybePtr>>, positions: seq<int>, pointers: seq<MaybePtr>)
    requires num >= 1 && |pos| == num && Lengths(slices, |order|, pos, ptr) && Ordered(order, |order|)
    requires |positions| == |pointers| == |order|
    ensures PlacedTo(num, capacity, 0, slices, order, pos, ptr, positions, pointers)
  {
  }

  lemma PlacedNext(num: nat, capacity: nat, t: nat, slices: seq<int>, order: seq<int>, pos: seq<seq<int>>,
                   ptr: seq<seq<MaybePtr>>, was: seq<int>, wasPtr: seq<MaybePtr>, positions: seq<int>,
                   pointers: seq<MaybePtr>)
    requires t < num && PlacedTo(num, capacity, t, slices, order, pos, ptr, was, wasPtr) && |positions| == |order|
    requires 0 <= slices[t] <= slices[t] + |pos[t]| <= |order| && |pos[t]| == |ptr[t]|
    requires forall i :: 0 <= i < |pos[t]| ==>
      positions[order[slices[t] + i]] == pos[t][i] + ChunkBegin(t, capacity, num)
    requires forall g :: 0 <= g < |order| && !(slices[t] <= g < slices[t] + |pos[t]|) ==>
      positions[order[g]] == was[order[g]]
    requires pointers == wasPtr[..slices[t]] + ptr[t] + wasPtr[slices[t] + |ptr[t]|..]
    ensures PlacedTo(num, capacity, t + 1, slices, order, pos, ptr, positions, pointers)
  {
    hide ChunkBegin, Boundaries;
    PieceFits(slices, |order|, pos, ptr, t);
    forall u: nat | u < t
      ensures PiecePlaced(ChunkBegin(u, capacity, num), slices[u], order, pos[u], ptr[u], positions, pointers)
    {
      PieceKept(ChunkBegin(u, capacity, num), slices[u], order, pos[u], ptr[u], was, wasPtr, positions, pointers,
                slices[t]);
    }
  }

  lemma PieceKept(base: int, begin: int, order: seq<int>, pos: seq<int>, ptr: seq<MaybePtr>,
                  was: seq<int>, wasPtr: seq<MaybePtr>, positions: seq<int>, pointers: seq<MaybePtr>, end: int)
    requires PiecePlaced(base, begin, order, pos, ptr, was, wasPtr) && begin + |pos| <= end <= |order|
    requires |positions| == |was| && |pointers| == |wasPtr|
    requires forall g :: 0 <= g < end ==> positions[order[g]] == was[order[g]]
    requires pointers[..end] == wasPtr[..end]
    ensures PiecePlaced(base, begin, order, pos, ptr, positions, pointers)
  {
    forall i | 0 <= i < |ptr|
      ensures pointers[begin + i] == ptr[i]
    {
      assert pointers[..end][begin + i] == wasPtr[..end][begin + i];
    }
  }

  lemma ReplacedShift(key: int, nodes: Store, index: map<int, Ptr>, base: int, position: int, pointer: MaybePtr)
    requires ReplacedOk(key, nodes, index, 0, position, pointer)
    ensures ReplacedOk(key, nodes, index, base, position + base, pointer)
  {
  }

  lemma ConcludeReplace(num: nat, capacity: nat, slices: seq<int>, order: seq<int>, permuted: seq<int>,
                        stores: seq<Store>, indexes: seq<map<int, Ptr>>, pos: seq<seq<int>>, ptr: seq<seq<MaybePtr>>,
                        positions: seq<int>, pointers: seq<MaybePtr>)
    requires |order| == |permuted| && |stores| == num
    requires AllSlicesReplaced(slices, permuted, stores, indexes, pos, ptr)
    requires PlacedTo(num, capacity, num, slices, order, pos, ptr, positions, pointers)
    ensures Replaced(permuted, num, capacity, stores, indexes, slices, order, positions, pointers)
  {
    hide ChunkBegin, ReplacedOk, PiecePlaced, PieceReplaced, SliceReplaced;
    forall t: nat | t < num
      ensures PieceReplaced(permuted, stores[t], indexes[t], ChunkBegin(t, capacity, num), slices[t], slices[t + 1],
                            order, positions, pointers)
    {
      assert 0 <= slices[t] <= slices[t + 1] <= slices[num];
      PieceDone(permuted, stores[t], indexes[t], ChunkBegin(t, capacity, num), slices[t], slices[t + 1], order, pos[t],
                ptr[t], positions, pointers);
    }
  }

  lemma PieceDone(permuted: seq<int>, nodes: Store, index: map<int, Ptr>, base: int, begin: int, end: int,
                  order: seq<int>, pos: seq<int>, ptr: seq<MaybePtr>, positions: seq<int>, pointers: seq<MaybePtr>)
    requires 0 <= begin <= end <= |permuted| == |order| && SliceReplaced(permuted[begin..end], nodes, index, pos, ptr)
    requires PiecePlaced(base, begin, order, pos, ptr, positions, pointers)
    ensures PieceReplaced(permuted, nodes, index, base, begin, end, order, positions, pointers)
  {
    hide ReplacedOk;
    forall g | begin <= g < end
      ensures 0 <= order[g] < |positions|
      ensures ReplacedOk(permuted[g], nodes, index, base, positions[order[g]], pointers[g])
    {
      var i: nat := g - begin;
      var slice := permuted[begin..end];
      assert ReplacedOk(slice[i], nodes, index, 0, pos[i], ptr[i]);
      assert positions[order[begin + i]] == pos[i] + base && pointers[begin + i] == ptr[i];
      ReplacedShift(slice[i], nodes, index, base, pos[i], ptr[i]);
    }
  }

  lemma AllOnlyNew(num: nat, capacity: nat, slices: seq<int>, order: seq<int>, permuted: seq<int>,
                   pos: seq<seq<int>>, ptr: seq<seq<MaybePtr>>, positions: seq<int>, pointers: seq<MaybePtr>,
                   local: seq<Answer>)
    requires |local| == |pos| == |ptr| == num
    requires PlacedTo(num, capacity, num, slices, order, pos, ptr, positions, pointers)
    requires forall t: nat :: t < num ==> ReplaceAnswer(|Piece(slices, permuted, t)|, local[t], pos[t], ptr[t])
    ensures forall t: nat :: t < num ==> OnlyNew(slices[t], local[t], pointers)
  {
    hide ReplaceAnswer, PiecePlaced, OnlyNew, Piece, ChunkBegin;
    forall t: nat | t < num ensures OnlyNew(slices[t], local[t], pointers) {
      PieceOnlyNew(ChunkBegin(t, capacity, num), slices[t], order, pos[t], ptr[t], positions, pointers,
                   |Piece(slices, permuted, t)|, local[t]);
    }
  }

  lemma PieceOnlyNew(base: int, begin: int, order: seq<int>, pos: seq<int>, ptr: seq<MaybePtr>,
                     positions: seq<int>, pointers: seq<MaybePtr>, n: nat, a: Answer)
    requires PiecePlaced(base, begin, order, pos, ptr, positions, pointers) && ReplaceAnswer(n, a, pos, ptr)
    ensures OnlyNew(begin, a, pointers)
  {
  }

  ghost predicate AllAsked(j: Job<MaybePtr>, stores: seq<Store>, indexes: seq<map<int, Ptr>>) {
    && j.Shaped() && |stores| == |indexes| == j.num
    && forall t: nat :: t < j.num ==> AskedAt(j, stores[t], indexes[t], t)
  }

  ghost predicate AskedAt(j: Job<MaybePtr>, nodes: Store, index: map<int, Ptr>, t: nat)
    requires j.Shaped() && t < j.num
  {
    && 0 <= j.slices[t] <= j.slices[t + 1] <= |j.permuted|
    && Asked(Piece(j.slices, j.permuted, t), Share(t, j.capacity, j.num), j.full, nodes, index, j.answers[t])
  }

  lemma ManyAsked(j: Job<MaybePtr>, stores: seq<Store>, indexes: seq<map<int, Ptr>>)
    requires j.num >= 1 && |j.answers| == j.num && Boundaries(j.slices, j.num, |j.indices|)
    requires |j.permuted| == |j.indices|
    requires |stores| == |indexes| == j.num
    requires forall t: nat :: t < j.num ==>
      Asked(Piece(j.slices, j.permuted, t), Share(t, j.capacity, j.num), j.full, stores[t], indexes[t], j.answers[t])
    ensures AllAsked(j, stores, indexes)
  {
    hide Asked, Share;
  }

  lemma SingleAsked(j: Job<MaybePtr>, stores: seq<Store>, indexes: seq<map<int, Ptr>>)
    requires j.Shaped() && j.num == |stores| == |indexes| == 1
    requires Asked(j.permuted, Share(0, j.capacity, 1), j.full, stores[0], indexes[0], j.answers[0])
    ensures AllAsked(j, stores, indexes)
  {
    hide Asked, Share;
    assert j.permuted[j.slices[0]..j.slices[0 + 1]] == j.permuted;
  }

  lemma AskedReady(j: Job<MaybePtr>, stores: seq<Store>, indexes: seq<map<int, Ptr>>)
    requires AllAsked(j, stores, indexes)
    ensures j.Ready()
  {
    hide LocalOk, RightAbout, ChunkBegin;
    forall t: nat | t < j.num ensures j.SliceOk(t) { assert AskedAt(j, stores[t], indexes[t], t); }
  }

  lemma SingleMerged(j: Job<MaybePtr>)
    requires j.Ready() && j.num == 1 && j.indices == Identity(|j.indices|)
    ensures var a := j.answers[0]; var n := |j.indices|;
      |a.missing| <= n
      && Merged(j, a.indices, a.positions, a.pointers, a.missing, [0, n - |a.missing|], [0, |a.missing|])
  {
    hide ChunkBegin, Concat, Sum, Gathered, Shifted, LocalOk, Job.Ready;
    ShapeOf(j);
    SinglePieces(j);
    SingleFacts(j);
    Places(j, 0);
    var a := j.answers[0];
    assert a.indices == a.indices[..a.found] + a.indices[a.found..];
    assert a.positions == a.positions[..a.found] + a.positions[a.found..];
    assert a.pointers == a.pointers[..a.found] + a.pointers[a.found..];
    ConcatOne(j.FoundAts());
    ConcatOne(j.MissingAts());
    ConcatOne(j.FoundPositions());
    ConcatOne(j.MissingPositions());
    ConcatOne(j.FoundPointers());
    ConcatOne(j.MissingPointers());
    ConcatOne(j.MissingKeys());
    SumOne(j.FoundSizes());
    SumOne(j.MissedSizes());
  }

  lemma SingleFacts(j: Job<MaybePtr>)
    requires j.Ready() && j.num == 1
    ensures j.slices[0] == 0 && j.slices[1] == |j.indices|
    ensures var a := j.answers[0];
      |a.indices| == |j.indices| && a.found + |a.missing| == |j.indices| && a.found <= |a.positions| == |a.pointers|
  {
    hide ChunkBegin, LocalOk;
    SliceFacts(j, 0);
  }

  /** The only partition's pieces are its answer itself. */
  lemma SinglePieces(j: Job<MaybePtr>)
    requires j.Ready() && j.num == 1 && j.indices == Identity(|j.indices|)
    ensures var a := j.answers[0];
      && a.found <= |a.indices| && a.found <= |a.positions| == |a.pointers|
      && |j.FoundAts()| == |j.MissingAts()| == |j.FoundPositions()| == |j.MissingPositions()| == |j.FoundPointers()|
      == |j.MissingPointers()| == |j.MissingKeys()| == 1
      && j.FoundAts()[0] == a.indices[..a.found] && j.MissingAts()[0] == a.indices[a.found..]
      && j.FoundPositions()[0] == a.positions[..a.found] && j.MissingPositions()[0] == a.positions[a.found..]
      && j.FoundPointers()[0] == a.pointers[..a.found] && j.MissingPointers()[0] == a.pointers[a.found..]
      && j.MissingKeys()[0] == a.missing
  {
    hide ChunkBegin, Concat, Sum, Gathered, Shifted, LocalOk;
    SliceFacts(j, 0);
    Pieces(j, 0);
    KeysPiece(j, 0);
    Places(j, 0);
    var a := j.answers[0];
    assert j.indices[j.slices[0]..j.slices[1]] == j.indices;
    GatherIdentity(j.indices, a.indices[..a.found]);
    GatherIdentity(j.indices, a.indices[a.found..]);
    SingleOffset(j.capacity, a.positions[..a.found]);
    SingleOffset(j.capacity, a.positions[a.found..]);
  }

  lemma ConcatOne<T>(cols: seq<seq<T>>)
    requires |cols| == 1
    ensures Concat(cols, 1) == cols[0]
  {
    assert Concat(cols, 1) == Concat(cols, 0) + cols[0];
  }

  lemma SumOne(s: seq<nat>)
    requires |s| == 1
    ensures Sum(s, 0) == 0 && Sum(s, 1) == s[0]
  {
    assert Sum(s, 1) == Sum(s, 0) + s[0];
  }

  lemma GatherIdentity(indices: seq<int>, local: seq<int>)
    requires Within(local, |indices|) && indices == Identity(|indices|)
    ensures Gathered(indices, local) == local
  {
  }

  lemma SingleOffset(capacity: nat, positions: seq<int>)
    ensures Shifted(positions, ChunkBegin(0, capacity, 1)) == positions
  {
  }

  lemma PointerCount(j: Job<MaybePtr>, indices: seq<int>, positions: seq<int>, pointers: seq<MaybePtr>,
                     missing: seq<int>, foundOffsets: seq<int>, missingOffsets: seq<int>)
    requires j.Ready() && Merged(j, indices, positions, pointers, missing, foundOffsets, missingOffsets)
    ensures |pointers| == |positions|
  {
    FinalSizes(j);
  }

  lemma ContractShape(keys: seq<int>, parts: seq<int>, num: nat, capacity: nat, full: bool, indices: seq<int>,
                      positions: seq<int>, missing: seq<int>, foundOffsets: seq<int>, missingOffsets: seq<int>)
    requires BatchContract(keys, parts, num, capacity, full, indices, positions, missing, foundOffsets, missingOffsets)
    ensures |indices| == |keys| == |parts| && |foundOffsets| == num + 1
    ensures forall g :: 0 <= g < |indices| ==> 0 <= indices[g] < |keys|
  {
  }

  lemma Conclude(keys: seq<int>, offset: int, parts: seq<int>, j: Job<MaybePtr>, stores: seq<Store>,
                 indexes: seq<map<int, Ptr>>, indices: seq<int>, positions: seq<int>, pointers: seq<MaybePtr>,
                 missing: seq<int>, foundOffsets: seq<int>, missingOffsets: seq<int>)
    requires StablePartition(Shifted(keys, offset), parts, j.num, j.slices, j.indices, j.permuted)
    requires AllAsked(j, stores, indexes) && j.Ready() && j.capacity < 0x8000_0000_0000_0000
    requires Merged(j, indices, positions, pointers, missing, foundOffsets, missingOffsets)
    ensures Answered(keys, offset, parts, j.num, j.capacity, j.full, stores, indexes, positions, indices, pointers,
                     Shifted(missing, -offset), foundOffsets, missingOffsets)
  {
    hide StablePartition, Merged, CellRight, Job.Ready, Asked, BatchContract;
    var shifted := Shifted(keys, offset);
    MergedContract(shifted, parts, j, indices, positions, pointers, missing, foundOffsets, missingOffsets);
    UnshiftContract(keys, offset, parts, j.num, j.capacity, j.full, indices, positions, missing, foundOffsets,
                    missingOffsets);
    ContractShape(shifted, parts, j.num, j.capacity, j.full, indices, positions, missing, foundOffsets, missingOffsets);
    FinalSizes(j);
    PointerCount(j, indices, positions, pointers, missing, foundOffsets, missingOffsets);
    forall g: nat | g < |keys|
      ensures CellRight(keys[indices[g]] + offset, parts[indices[g]], j.num, j.capacity, j.full, stores, indexes,
                        positions, pointers, g, g < foundOffsets[j.num])
    {
      CellIsRight(shifted, parts, j, stores, indexes, indices, positions, pointers, missing, foundOffsets,
                  missingOffsets, g);
    }
  }

  /** The key of a missing cell is the key asked for once the offset is taken off again. */
  lemma UnshiftContract(keys: seq<int>, offset: int, parts: seq<int>, num: nat, capacity: nat, full: bool,
                        indices: seq<int>, positions: seq<int>, missing: seq<int>, foundOffsets: seq<int>,
                        missingOffsets: seq<int>)
    requires BatchContract(Shifted(keys, offset), parts, num, capacity, full, indices, positions, missing,
                           foundOffsets, missingOffsets)
    ensures BatchContract(keys, parts, num, capacity, full, indices, positions, Shifted(missing, -offset),
                          foundOffsets, missingOffsets)
  {
    hide ChunkBegin, Boundaries;
    var shifted, back := Shifted(keys, offset), Shifted(missing, -offset);
    forall g: nat | g < |indices|
      ensures CellContract(keys[indices[g]], parts[indices[g]], num, capacity, g, positions, back, foundOffsets,
                           missingOffsets)
    {
      assert CellContract(shifted[indices[g]], parts[indices[g]], num, capacity, g, positions, missing, foundOffsets,
                          missingOffsets);
    }
  }

  lemma RightShift(key: int, nodes: Store, index: map<int, Ptr>, base: int, full: bool, positions: seq<int>,
                   pointers: seq<MaybePtr>, i: nat, hit: bool, outPos: seq<int>, outPtr: seq<MaybePtr>, g: nat)
    requires RightAbout(key, nodes, index, 0, full, positions, pointers, i, hit) && |outPos| == |outPtr|
    requires i < |positions| ==> g < |outPos| && outPos[g] == positions[i] + base && outPtr[g] == pointers[i]
    ensures RightAbout(key, nodes, index, base, full, outPos, outPtr, g, hit)
  {
  }

  lemma CellIsRight(keys: seq<int>, parts: seq<int>, j: Job<MaybePtr>, stores: seq<Store>, indexes: seq<map<int, Ptr>>,
                    indices: seq<int>, positions: seq<int>, pointers: seq<MaybePtr>, missing: seq<int>,
                    foundOffsets: seq<int>, missingOffsets: seq<int>, g: nat)
    requires StablePartition(keys, parts, j.num, j.slices, j.indices, j.permuted)
    requires AllAsked(j, stores, indexes) && j.Ready() && g < |keys|
    requires Merged(j, indices, positions, pointers, missing, foundOffsets, missingOffsets)
    ensures |indices| == |keys| && 0 <= indices[g] < |keys| && |foundOffsets| == j.num + 1
    ensures CellRight(keys[indices[g]], parts[indices[g]], j.num, j.capacity, j.full, stores, indexes, positions,
                      pointers, g, g < foundOffsets[j.num])
  {
    hide Concat, Sum, InSlice, Boundaries, Stable, ChunkBegin, RightAbout, LocalOk, Share;
    FinalSizes(j);
    var t, i := MergedLocate(j, g);
    SliceFacts(j, t);
    PointerCount(j, indices, positions, pointers, missing, foundOffsets, missingOffsets);
    MergedIndex(j, indices, positions, pointers, missing, foundOffsets, missingOffsets, t, i);
    ShapeOf(j);
    var a := j.answers[t];
    SliceExact(keys, parts, j.num, j.slices, j.indices, j.permuted, t, j.slices[t] + a.indices[i]);
    assert AskedAt(j, stores[t], indexes[t], t);
    var slice := Piece(j.slices, j.permuted, t);
    assert RightAbout(slice[a.indices[i]], stores[t], indexes[t], 0, j.full, a.positions, a.pointers, i, i < a.found);
    if i < |a.positions| {
      MergedPosition(j, indices, positions, pointers, missing, foundOffsets, missingOffsets, t, i);
    }
    RightShift(slice[a.indices[i]], stores[t], indexes[t], ChunkBegin(t, j.capacity, j.num), j.full,
               a.positions, a.pointers, i, i < a.found, positions, pointers, g);
  }

  /** A single partition's answer is the answer. */
  lemma ConcludeAlone(keys: seq<int>, offset: int, parts: seq<int>, capacity: nat, full: bool, nodes: Store,
                      index: map<int, Ptr>, a: LocalAnswer<MaybePtr>)
    requires StablePartition(Shifted(keys, offset), parts, 1, [0, |keys|], Identity(|keys|), Shifted(keys, offset))
    requires Asked(Shifted(keys, offset), Share(0, capacity, 1), full, nodes, index, a)
    requires capacity < 0x8000_0000_0000_0000
    ensures |a.missing| <= |keys|
    ensures Answered(keys, offset, parts, 1, capacity, full, [nodes], [index], a.positions, a.indices, a.pointers,
                     Shifted(a.missing, -offset), [0, |keys| - |a.missing|], [0, |a.missing|])
  {
    hide Asked, Answered, StablePartition, Merged, Job.Ready, Share;
    var shifted := Shifted(keys, offset);
    var j := Job(1, capacity, full, [0, |keys|], Identity(|keys|), shifted, [a]);
    SingleAsked(j, [nodes], [index]);
    AskedReady(j, [nodes], [index]);
    SingleMerged(j);
    Conclude(keys, offset, parts, j, [nodes], [index], a.indices, a.positions, a.pointers, a.missing,
             [0, |keys| - |a.missing|], [0, |a.missing|]);
  }
}
