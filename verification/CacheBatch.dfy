/** The batch operations shared by all cache policies.

    Buffers filled from both ends are kept as two parts: the found part grows at its
    end, the missing part grows at its front.

    Source: graphbolt/src/cache_policy.cc. */
module CacheBatch {
  import opened CacheEviction
  import opened Policies
  import opened Collections

  // ------------------------------------------------------------------
  // Pin accounting

  ghost predicate Same(a: CacheKey, b: CacheKey, pins: nat) {
    b.key == a.key && b.pos == a.pos && b.refs == a.refs + pins
  }

  /** From `before` to `after`, exactly the readers in `pins` were added. Entries that
      were in use, or are pinned now, stay live at their address with their key and
      slot; every other live entry is unchanged in those respects or newly being written. */
  ghost predicate Pinned(before: Store, after: Store, pins: multiset<Ptr>) {
    && (forall p :: p in pins ==> p in before && before[p].refs >= 0)
    && (forall p :: p in before && (before[p].refs != 0 || p in pins) ==>
      p in after && Same(before[p], after[p], pins[p]))
    && (forall p :: p in after ==> (p in before && Same(before[p], after[p], pins[p])) || after[p].refs == -1)
  }

  lemma PinnedRefl(nodes: Store)
    ensures Pinned(nodes, nodes, multiset{})
  {
  }

  lemma PinnedTrans(a: Store, b: Store, c: Store, x: multiset<Ptr>, y: multiset<Ptr>)
    requires Pinned(a, b, x) && Pinned(b, c, y)
    requires forall p :: p in a ==> a[p].refs >= -1
    ensures Pinned(a, c, x + y)
  {
    forall p | p in y ensures p in a && a[p].refs >= 0 && Same(a[p], b[p], x[p]) { }
    forall p | p in a && (a[p].refs != 0 || p in x + y) ensures p in c && Same(a[p], c[p], (x + y)[p]) {
      assert p in b && Same(a[p], b[p], x[p]);
      assert b[p].refs != 0 || p in y;
    }
    forall p | p in c ensures (p in a && Same(a[p], c[p], (x + y)[p])) || c[p].refs == -1 {
      if p in b && Same(b[p], c[p], y[p]) && b[p].refs == -1 { assert p !in y; }
    }
  }

  lemma LookedPinned(kind: Kind, nodes: Store, p: Ptr)
    requires p in nodes
    ensures Pinned(nodes, nodes[p := Looked(kind, nodes[p])],
                   if nodes[p].BeingWritten() then multiset{} else multiset{p})
  {
    TouchedBasics(kind, nodes[p]);
    assert Touched(kind, nodes[p]).refs == nodes[p].refs;
  }

  lemma InsertedPinned(nodes: Store, usage: int, capacity: int, key: int, p: Ptr, nodes': Store, usage': int,
                       v: MaybePtr)
    requires Inserted(nodes, usage, capacity, key, p, nodes', usage', v)
    ensures Pinned(nodes, nodes', multiset{})
  {
  }

  /** A resident whose row may be read. */
  ghost predicate Readable(nodes: Store, index: map<int, Ptr>, key: int) {
    key in index && index[key] in nodes && !nodes[index[key]].BeingWritten()
  }

  // ------------------------------------------------------------------
  // Splitting a batch

  /** found ++ missing lists 0..n-1 exactly once. */
  ghost predicate Split(found: seq<int>, missing: seq<int>, n: nat) {
    && |found| + |missing| == n
    && (forall i :: 0 <= i < |found| ==> 0 <= found[i] < n)
    && (forall i :: 0 <= i < |missing| ==> 0 <= missing[i] < n)
    && (forall i, j :: 0 <= i < j < |found| ==> found[i] < found[j])
    && (forall i, j :: 0 <= i < j < |missing| ==> missing[i] > missing[j])
    && (forall k :: 0 <= k < n ==> k in found || k in missing)
  }

  /** The output indices are a permutation of the input positions. */
  lemma SplitPermutation(found: seq<int>, missing: seq<int>, n: nat)
    requires Split(found, missing, n)
    ensures |found + missing| == n
    ensures forall k :: 0 <= k < n ==> k in found + missing
    ensures forall i, j :: 0 <= i < j < n ==> (found + missing)[i] != (found + missing)[j]
  {
    forall k | 0 <= k < n ensures k in found + missing { }
    OntoIsInjective(found + missing, n);
  }

  lemma {:induction false} RepeatShrinks(s: seq<int>, i: nat, j: nat)
    requires i < j < |s| && s[i] == s[j]
    ensures |Elements(s)| < |s|
  {
    if i == 0 {
      assert s[1..][j - 1] == s[0];
      assert Elements(s) == Elements(s[1..]);
    } else {
      RepeatShrinks(s[1..], i - 1, j - 1);
    }
  }

  /** A list of n numbers that covers 0..n-1 has no repetition. */
  lemma OntoIsInjective(s: seq<int>, n: nat)
    requires |s| == n && forall k :: 0 <= k < n ==> k in s
    ensures forall i, j :: 0 <= i < j < n ==> s[i] != s[j]
  {
    CoveringImage(s, n);
    forall i, j | 0 <= i < j < n ensures s[i] != s[j] {
      if s[i] == s[j] { RepeatShrinks(s, i, j); }
    }
  }

  lemma CoveringImage(s: seq<int>, n: nat)
    requires forall k :: 0 <= k < n ==> k in s
    ensures |Elements(s)| >= n
  {
    assert Elements(s) == Range(n) + (Elements(s) - Range(n));
  }

  lemma SplitGrows(found: seq<int>, missing: seq<int>, n: nat)
    requires Split(found, missing, n)
    ensures Split(found + [n], missing, n + 1) && Split(found, [n] + missing, n + 1)
  {
    forall k | 0 <= k < n ensures k in found + [n] || k in missing { }
    forall k | 0 <= k < n ensures k in found || k in [n] + missing { }
  }

  // ------------------------------------------------------------------
  // Query

  /** The documented contract of `Query`, for keys[..n], against the nodes before the call. */
  ghost predicate QueryAnswer(keys: seq<int>, n: nat, nodes: Store, index: map<int, Ptr>, positions: seq<int>,
                              found: seq<int>, missingAt: seq<int>, missing: seq<int>, pointers: seq<Ptr>) {
    && n <= |keys| && Split(found, missingAt, n)
    && |positions| == |pointers| == |found| && |missing| == |missingAt|
    && (forall i :: 0 <= i < |found| ==>
      Readable(nodes, index, keys[found[i]]) && pointers[i] == index[keys[found[i]]]
      && positions[i] == nodes[pointers[i]].pos)
    && (forall i :: 0 <= i < |missing| ==>
      missing[i] == keys[missingAt[i]] && !Readable(nodes, index, missing[i]))
  }

  lemma QueryStep(keys: seq<int>, n: nat, nodes: Store, index: map<int, Ptr>, positions: seq<int>,
                  found: seq<int>, missingAt: seq<int>, missing: seq<int>, pointers: seq<Ptr>)
    requires QueryAnswer(keys, n, nodes, index, positions, found, missingAt, missing, pointers) && n < |keys|
    ensures Readable(nodes, index, keys[n]) ==>
      var p := index[keys[n]];
      QueryAnswer(keys, n + 1, nodes, index, positions + [nodes[p].pos], found + [n], missingAt, missing,
                  pointers + [p])
    ensures !Readable(nodes, index, keys[n]) ==>
      QueryAnswer(keys, n + 1, nodes, index, positions, found, [n] + missingAt, [keys[n]] + missing, pointers)
  {
    hide Split, Readable;
    SplitGrows(found, missingAt, n);
    SplitRange(found, missingAt, n);
    SplitRange(found + [n], missingAt, n + 1);
    SplitRange(found, [n] + missingAt, n + 1);
  }

  lemma SplitRange(found: seq<int>, missing: seq<int>, n: nat)
    requires Split(found, missing, n)
    ensures |found| + |missing| == n
    ensures forall i :: 0 <= i < |found| ==> 0 <= found[i] < n
    ensures forall i :: 0 <= i < |missing| ==> 0 <= missing[i] < n
  {
  }

  /** `QueryImpl`: every readable resident is found and pinned once per occurrence. */
  method QueryImpl(policy: CachePolicy, keys: seq<int>)
    returns (positions: seq<int>, indices: seq<int>, missing: seq<int>, pointers: seq<Ptr>, ghost found: seq<int>,
             ghost missingAt: seq<int>)
    requires policy.Valid()
    modifies policy`nodes, policy`main
    ensures policy.Valid() && indices == found + missingAt
    ensures QueryAnswer(keys, |keys|, old(policy.nodes), policy.index, positions, found, missingAt, missing, pointers)
    ensures Pinned(old(policy.nodes), policy.nodes, multiset(pointers)) && policy.nodes.Keys == old(policy.nodes).Keys
    ensures SameReaders(old(policy.nodes), policy.nodes)
  {
    hide QueryAnswer, Pinned, Slotted, Queued, Counted, Linked, SameReaders, Readable;
    positions, missing, pointers := [], [], [];
    var foundAt: seq<int>, missAt: seq<int> := [], [];
    ghost var before := policy.nodes;
    QueryNone(keys, before, policy.index);
    PinnedRefl(before);
    ReadersRefl(before);
    CountedRefs(policy.kind, before);
    for n := 0 to |keys|
      invariant policy.Valid() && policy.index == old(policy.index)
      invariant policy.nodes.Keys == before.Keys
      invariant QueryAnswer(keys, n, before, policy.index, positions, foundAt, missAt, missing, pointers)
      invariant Pinned(before, policy.nodes, multiset(pointers))
      invariant SameReaders(before, policy.nodes)
    {
      var key := keys[n];
      QueryStep(keys, n, before, policy.index, positions, foundAt, missAt, missing, pointers);
      var r := QueryKey(policy, key, before, multiset(pointers));
      if r.To? {
        assert multiset(pointers + [r.ptr]) == multiset(pointers) + multiset{r.ptr};
        positions := positions + [policy.nodes[r.ptr].pos];
        pointers := pointers + [r.ptr];
        foundAt := foundAt + [n];
      } else {
        missAt := [n] + missAt;
        missing := [key] + missing;
      }
    }
    indices, found, missingAt := foundAt + missAt, foundAt, missAt;
  }

  /** One key of `QueryImpl`. */
  method QueryKey(policy: CachePolicy, key: int, ghost before: Store, ghost pins: multiset<Ptr>) returns (r: MaybePtr)
    requires policy.Valid() && policy.nodes.Keys == before.Keys && Indexed(before, policy.index)
    requires Pinned(before, policy.nodes, pins) && SameReaders(before, policy.nodes)
    requires forall p :: p in before ==> before[p].refs >= -1
    modifies policy`nodes, policy`main
    ensures policy.Valid() && policy.nodes.Keys == before.Keys && SameReaders(before, policy.nodes)
    ensures r == if Readable(before, policy.index, key) then To(policy.index[key]) else Null
    ensures r.To? ==> r.ptr in before && policy.nodes[r.ptr].pos == before[r.ptr].pos
    ensures Pinned(before, policy.nodes, if r.To? then pins + multiset{r.ptr} else pins)
  {
    hide Pinned, Slotted, Queued, Counted, Linked, CachePolicy.GhostOk, KindOk, Looked;
    ghost var now := policy.nodes;
    r := policy.Read(key);
    if key in policy.index {
      var p := policy.index[key];
      LookedPinned(policy.kind, now, p);
      LookedReaders(policy.kind, before, now, p);
      PinnedTrans(before, now, policy.nodes, pins, if now[p].BeingWritten() then multiset{} else multiset{p});
    }
    assert pins + multiset{} == pins;
  }

  lemma ReadersRefl(nodes: Store)
    ensures SameReaders(nodes, nodes)
  {
  }

  /** Whether an entry is being written, and its slot, do not change under lookups. */
  ghost predicate SameReaders(before: Store, after: Store) {
    forall p :: p in before && p in after ==>
      before[p].BeingWritten() == after[p].BeingWritten() && before[p].pos == after[p].pos
      && before[p].key == after[p].key
  }

  lemma LookedReaders(kind: Kind, before: Store, nodes: Store, p: Ptr)
    requires p in nodes && SameReaders(before, nodes) && before.Keys == nodes.Keys
    ensures SameReaders(before, nodes[p := Looked(kind, nodes[p])])
  {
    TouchedBasics(kind, nodes[p]);
    assert Touched(kind, nodes[p]).refs == nodes[p].refs;
  }

  lemma CountedRefs(kind: Kind, nodes: Store)
    requires Counted(kind, nodes)
    ensures forall p :: p in nodes ==> nodes[p].refs >= -1
  {
  }

  lemma QueryNone(keys: seq<int>, nodes: Store, index: map<int, Ptr>)
    ensures QueryAnswer(keys, 0, nodes, index, [], [], [], [], [])
  {
  }

  // ------------------------------------------------------------------
  // QueryAndReplace and Replace

  /** The key has a resident entry that is in use. */
  ghost predicate Held(nodes: Store, index: map<int, Ptr>, key: int) {
    key in index && index[key] in nodes && nodes[index[key]].refs != 0
  }

  /** Entries in use stay at their address and slot, writers stay writers, readers stay readers. */
  ghost predicate HeldStay(nodes: Store, index: map<int, Ptr>, nodes': Store, index': map<int, Ptr>) {
    forall key :: Held(nodes, index, key) ==>
      && Held(nodes', index', key) && index'[key] == index[key]
      && nodes'[index[key]].pos == nodes[index[key]].pos
      && (nodes[index[key]].refs < 0 ==> nodes'[index[key]].refs == nodes[index[key]].refs)
      && (nodes[index[key]].refs > 0 ==> nodes'[index[key]].refs >= nodes[index[key]].refs)
  }

  lemma LookedStay(kind: Kind, nodes: Store, index: map<int, Ptr>, p: Ptr)
    requires p in nodes
    ensures HeldStay(nodes, index, nodes[p := Looked(kind, nodes[p])], index)
  {
    TouchedBasics(kind, nodes[p]);
    assert Touched(kind, nodes[p]).refs == nodes[p].refs && Touched(kind, nodes[p]).pos == nodes[p].pos;
  }

  lemma InsertedStay(nodes: Store, index: map<int, Ptr>, usage: int, capacity: int, key: int, p: Ptr, nodes': Store,
                     usage': int, v: MaybePtr, index': map<int, Ptr>)
    requires Inserted(nodes, usage, capacity, key, p, nodes', usage', v) && Indexed(nodes, index) && key !in index
    requires index' == if v.To? then index[key := p] - {nodes[v.ptr].key} else index[key := p]
    ensures HeldStay(nodes, index, nodes', index')
    ensures key in index' && index'[key] == p
  {
  }

  ghost predicate WrittenBefore(before: Store, beforeIndex: map<int, Ptr>, key: int) {
    Held(before, beforeIndex, key) && before[beforeIndex[key]].refs == -1
  }

  /** One missing answer: an entry to be written by the caller, or the null pointer
      and a position that stays negative. */
  ghost predicate MissingOne(keys: seq<int>, nodes: Store, index: map<int, Ptr>, before: Store,
                             beforeIndex: map<int, Ptr>, at: int, key: int, pos: int, pointer: MaybePtr) {
    && 0 <= at < |keys| && key == keys[at]
    && Held(nodes, index, key) && nodes[index[key]].refs == -1
    && (pointer == Null ==> pos == UNSET_POS)
    && (pointer.To? ==>
      pointer.ptr == index[key] && pos == nodes[pointer.ptr].pos && !WrittenBefore(before, beforeIndex, key))
  }

  /** From `from` on, the missing part has an answer for the key with an entry. */
  ghost predicate HasEntry(missing: seq<int>, pointers: seq<MaybePtr>, from: nat, key: int) {
    |missing| == |pointers| && exists j :: from <= j < |missing| && missing[j] == key && pointers[j].To?
  }

  lemma EntryBehind(missing: seq<int>, pointers: seq<MaybePtr>, from: nat, key: int, k: int, pointer: MaybePtr)
    requires HasEntry(missing, pointers, from, key)
    ensures HasEntry([k] + missing, [pointer] + pointers, from + 1, key)
  {
    var j :| from <= j < |missing| && missing[j] == key && pointers[j].To?;
    assert ([k] + missing)[j + 1] == key && ([pointer] + pointers)[j + 1].To?;
  }

  lemma EntryFrom(missing: seq<int>, pointers: seq<MaybePtr>, from: nat, key: int)
    requires HasEntry(missing, pointers, from, key)
    ensures HasEntry(missing, pointers, 0, key)
  {
  }

  lemma EntryFirst(missing: seq<int>, pointers: seq<MaybePtr>, key: int, pointer: MaybePtr)
    requires |missing| == |pointers| && pointer.To?
    ensures HasEntry([key] + missing, [pointer] + pointers, 0, key)
  {
    assert ([key] + missing)[0] == key && ([pointer] + pointers)[0].To?;
  }

  /** A null answer means that another thread was already writing the key, or that an
      earlier occurrence in this batch (further back, as the part grows at its front) was answered with an entry. */
  ghost predicate NullsExplained(before: Store, beforeIndex: map<int, Ptr>, missing: seq<int>,
                                 pointers: seq<MaybePtr>) {
    && |missing| == |pointers|
    && forall i :: 0 <= i < |missing| && pointers[i] == Null ==>
      WrittenBefore(before, beforeIndex, missing[i]) || HasEntry(missing, pointers, i + 1, missing[i])
  }

  ghost predicate PointersDistinct(pointers: seq<MaybePtr>) {
    forall i, j :: 0 <= i < j < |pointers| && pointers[i].To? && pointers[j].To? ==> pointers[i] != pointers[j]
  }

  /** The missing half of an answer. */
  ghost predicate MissingAnswer(keys: seq<int>, nodes: Store, index: map<int, Ptr>, before: Store,
                                beforeIndex: map<int, Ptr>, missingAt: seq<int>, missing: seq<int>, positions: seq<int>,
                                pointers: seq<MaybePtr>) {
    && |missing| == |missingAt| == |positions| == |pointers|
    && (forall i :: 0 <= i < |missing| ==>
      MissingOne(keys, nodes, index, before, beforeIndex, missingAt[i], missing[i], positions[i], pointers[i]))
    && NullsExplained(before, beforeIndex, missing, pointers)
    && PointersDistinct(pointers)
  }

  ghost predicate FoundAnswer(keys: seq<int>, nodes: Store, index: map<int, Ptr>, found: seq<int>, positions: seq<int>,
                              pointers: seq<Ptr>) {
    && |found| == |positions| == |pointers|
    && forall i :: 0 <= i < |found| ==>
      && 0 <= found[i] < |keys|
      && Held(nodes, index, keys[found[i]]) && pointers[i] == index[keys[found[i]]]
      && nodes[pointers[i]].refs > 0 && positions[i] == nodes[pointers[i]].pos
  }

  lemma MissingStays(keys: seq<int>, nodes: Store, index: map<int, Ptr>, before: Store, beforeIndex: map<int, Ptr>,
                     missingAt: seq<int>, missing: seq<int>, positions: seq<int>, pointers: seq<MaybePtr>,
                     nodes': Store, index': map<int, Ptr>)
    requires MissingAnswer(keys, nodes, index, before, beforeIndex, missingAt, missing, positions, pointers)
    requires HeldStay(nodes, index, nodes', index')
    ensures MissingAnswer(keys, nodes', index', before, beforeIndex, missingAt, missing, positions, pointers)
  {
  }

  lemma FoundStays(keys: seq<int>, nodes: Store, index: map<int, Ptr>, found: seq<int>, positions: seq<int>,
                   pointers: seq<Ptr>, nodes': Store, index': map<int, Ptr>)
    requires FoundAnswer(keys, nodes, index, found, positions, pointers) && HeldStay(nodes, index, nodes', index')
    ensures FoundAnswer(keys, nodes', index', found, positions, pointers)
  {
  }

  /** One more answer at the front of the missing part. */
  lemma NullsGrow(start: Store, startIndex: map<int, Ptr>, missing: seq<int>, pointers: seq<MaybePtr>, key: int,
                  pointer: MaybePtr)
    requires NullsExplained(start, startIndex, missing, pointers) && PointersDistinct(pointers)
    requires pointer == Null ==> WrittenBefore(start, startIndex, key) || HasEntry(missing, pointers, 0, key)
    requires pointer.To? ==> pointer !in pointers
    ensures NullsExplained(start, startIndex, [key] + missing, [pointer] + pointers)
    ensures PointersDistinct([pointer] + pointers)
  {
    hide WrittenBefore, HasEntry;
    var missing', pointers' := [key] + missing, [pointer] + pointers;
    forall i: nat | i < |missing'| && pointers'[i] == Null
      ensures WrittenBefore(start, startIndex, missing'[i]) || HasEntry(missing', pointers', i + 1, missing'[i])
    {
      if i == 0 {
        if HasEntry(missing, pointers, 0, key) { EntryBehind(missing, pointers, 0, key, key, pointer); }
      } else {
        var k := missing[i - 1];
        assert pointers[i - 1] == Null && missing'[i] == k;
        if HasEntry(missing, pointers, i, k) { EntryBehind(missing, pointers, i, k, key, pointer); }
      }
    }
    DistinctGrow(pointers, pointer);
  }

  lemma DistinctGrow(pointers: seq<MaybePtr>, pointer: MaybePtr)
    requires PointersDistinct(pointers) && (pointer.To? ==> pointer !in pointers)
    ensures PointersDistinct([pointer] + pointers)
  {
    var pointers' := [pointer] + pointers;
    forall i, j | 0 <= i < j < |pointers'| && pointers'[i].To? && pointers'[j].To?
      ensures pointers'[i] != pointers'[j]
    {
      assert pointers'[j] == pointers[j - 1];
      if i > 0 { assert pointers[i - 1] != pointers[j - 1]; }
    }
  }

  lemma MissingGrows(keys: seq<int>, n: nat, nodes: Store, index: map<int, Ptr>, before: Store,
                     beforeIndex: map<int, Ptr>, missingAt: seq<int>, missing: seq<int>, positions: seq<int>,
                     pointers: seq<MaybePtr>, pos: int, pointer: MaybePtr)
    requires MissingAnswer(keys, nodes, index, before, beforeIndex, missingAt, missing, positions, pointers)
    requires n < |keys| && MissingOne(keys, nodes, index, before, beforeIndex, n, keys[n], pos, pointer)
    requires pointer == Null ==>
      WrittenBefore(before, beforeIndex, keys[n]) || HasEntry(missing, pointers, 0, keys[n])
    requires pointer.To? ==> pointer !in pointers
    ensures MissingAnswer(keys, nodes, index, before, beforeIndex,
                          [n] + missingAt, [keys[n]] + missing, [pos] + positions, [pointer] + pointers)
  {
    hide MissingOne, WrittenBefore, NullsExplained, PointersDistinct;
    NullsGrow(before, beforeIndex, missing, pointers, keys[n], pointer);
  }

  /** A new entry's pointer has not been handed out in this batch. */
  lemma NewPointer(keys: seq<int>, nodes: Store, index: map<int, Ptr>, before: Store, beforeIndex: map<int, Ptr>,
                   missingAt: seq<int>, missing: seq<int>, positions: seq<int>, pointers: seq<MaybePtr>, key: int)
    requires MissingAnswer(keys, nodes, index, before, beforeIndex, missingAt, missing, positions, pointers)
    requires Indexed(nodes, index) && key in index && key !in missing
    ensures To(index[key]) !in pointers
  {
    forall j | 0 <= j < |pointers| && pointers[j].To?
      ensures pointers[j].ptr == index[missing[j]] && missing[j] != key
    {
      assert MissingOne(keys, nodes, index, before, beforeIndex, missingAt[j], missing[j], positions[j], pointers[j]);
      assert missing[j] in missing;
    }
  }

  /** Every writer was one before the batch or was created by it. */
  ghost predicate WritersKnown(nodes: Store, index: map<int, Ptr>, before: Store, beforeIndex: map<int, Ptr>,
                               missing: seq<int>, pointers: seq<MaybePtr>) {
    && |missing| == |pointers|
    && forall key :: Held(nodes, index, key) && nodes[index[key]].refs == -1 ==>
      WrittenBefore(before, beforeIndex, key) || HasEntry(missing, pointers, 0, key)
  }

  lemma WritersLook(kind: Kind, nodes: Store, index: map<int, Ptr>, before: Store, beforeIndex: map<int, Ptr>,
                    missing: seq<int>, pointers: seq<MaybePtr>, p: Ptr)
    requires WritersKnown(nodes, index, before, beforeIndex, missing, pointers) && p in nodes
    requires forall q :: q in nodes ==> nodes[q].refs >= -1
    ensures WritersKnown(nodes[p := Looked(kind, nodes[p])], index, before, beforeIndex, missing, pointers)
  {
    TouchedBasics(kind, nodes[p]);
    assert Touched(kind, nodes[p]).refs == nodes[p].refs;
  }

  lemma WritersNull(nodes: Store, index: map<int, Ptr>, before: Store, beforeIndex: map<int, Ptr>,
                    missing: seq<int>, pointers: seq<MaybePtr>, key: int)
    requires WritersKnown(nodes, index, before, beforeIndex, missing, pointers)
    ensures WritersKnown(nodes, index, before, beforeIndex, [key] + missing, [Null] + pointers)
  {
    hide HasEntry;
    forall k | Held(nodes, index, k) && nodes[index[k]].refs == -1 && !WrittenBefore(before, beforeIndex, k)
      ensures HasEntry([key] + missing, [Null] + pointers, 0, k)
    {
      EntryBehind(missing, pointers, 0, k, key, Null);
      EntryFrom([key] + missing, [Null] + pointers, 1, k);
    }
  }

  lemma WritersInsert(nodes: Store, index: map<int, Ptr>, before: Store, beforeIndex: map<int, Ptr>,
                      missing: seq<int>, pointers: seq<MaybePtr>, usage: int, capacity: int, key: int, p: Ptr,
                      nodes': Store, usage': int, v: MaybePtr, index': map<int, Ptr>)
    requires WritersKnown(nodes, index, before, beforeIndex, missing, pointers)
    requires Inserted(nodes, usage, capacity, key, p, nodes', usage', v) && Indexed(nodes, index)
    requires index' == if v.To? then index[key := p] - {nodes[v.ptr].key} else index[key := p]
    ensures WritersKnown(nodes', index', before, beforeIndex, [key] + missing, [To(p)] + pointers)
  {
    hide HasEntry;
    forall k | Held(nodes', index', k) && nodes'[index'[k]].refs == -1 && !WrittenBefore(before, beforeIndex, k)
      ensures HasEntry([key] + missing, [To(p)] + pointers, 0, k)
    {
      if k == key {
        EntryFirst(missing, pointers, key, To(p));
      } else {
        assert Held(nodes, index, k) && nodes[index[k]].refs == -1;
        EntryBehind(missing, pointers, 0, k, key, To(p));
        EntryFrom([key] + missing, [To(p)] + pointers, 1, k);
      }
    }
  }

  lemma MissingNoPosition(keys: seq<int>, nodes: Store, index: map<int, Ptr>, before: Store,
                          beforeIndex: map<int, Ptr>, missingAt: seq<int>, missing: seq<int>, positions: seq<int>,
                          pointers: seq<MaybePtr>, key: int)
    requires MissingAnswer(keys, nodes, index, before, beforeIndex, missingAt, missing, positions, pointers)
    requires key !in index
    ensures key !in missing
  {
  }

  /** The output buffers so far: the found part and the missing part. */
  datatype Answer = Answer(found: seq<int>, foundPos: seq<int>, foundPtr: seq<Ptr>,
                           missingAt: seq<int>, missing: seq<int>, missPos: seq<int>, missPtr: seq<MaybePtr>)

  /** The documented contract of `QueryAndReplace` for keys[..n]. */
  ghost predicate BatchOk(keys: seq<int>, n: nat, a: Answer, before: Store, beforeIndex: map<int, Ptr>,
                          nodes: Store, index: map<int, Ptr>)
  {
    && Split(a.found, a.missingAt, n)
    && FoundAnswer(keys, nodes, index, a.found, a.foundPos, a.foundPtr)
    && MissingAnswer(keys, nodes, index, before, beforeIndex, a.missingAt, a.missing, a.missPos, a.missPtr)
    && WritersKnown(nodes, index, before, beforeIndex, a.missing, a.missPtr)
    && Pinned(before, nodes, multiset(a.foundPtr))
  }

  lemma FoundNew(keys: seq<int>, n: nat, nodes: Store, index: map<int, Ptr>, found: seq<int>, positions: seq<int>,
                 pointers: seq<Ptr>)
    requires FoundAnswer(keys, nodes, index, found, positions, pointers)
    requires n < |keys| && Held(nodes, index, keys[n]) && nodes[index[keys[n]]].refs > 0
    ensures FoundAnswer(keys, nodes, index, found + [n], positions + [nodes[index[keys[n]]].pos],
                        pointers + [index[keys[n]]])
  {
  }

  /** One key of a batch that is resident: found if readable, else answered with null. */
  lemma BatchResident(kind: Kind, keys: seq<int>, n: nat, a: Answer, before: Store, beforeIndex: map<int, Ptr>,
                      nodes: Store, index: map<int, Ptr>)
    requires BatchOk(keys, n, a, before, beforeIndex, nodes, index) && n < |keys|
    requires keys[n] in index && index[keys[n]] in nodes
    requires (forall q :: q in nodes ==> nodes[q].refs >= -1) && (forall q :: q in before ==> before[q].refs >= -1)
    ensures var p := index[keys[n]]; var nodes' := nodes[p := Looked(kind, nodes[p])];
            BatchOk(keys, n + 1,
                    if nodes[p].BeingWritten()
                    then a.(missingAt := [n] + a.missingAt, missing := [keys[n]] + a.missing,
                            missPos := [UNSET_POS] + a.missPos, missPtr := [Null] + a.missPtr)
                    else a.(found := a.found + [n], foundPos := a.foundPos + [nodes'[p].pos],
                            foundPtr := a.foundPtr + [p]),
                    before, beforeIndex, nodes', index)
  {
    hide Split, FoundAnswer, MissingAnswer, WritersKnown, Pinned, HeldStay;
    var p := index[keys[n]];
    var nodes' := nodes[p := Looked(kind, nodes[p])];
    TouchedBasics(kind, nodes[p]);
    assert Touched(kind, nodes[p]).refs == nodes[p].refs;
    SplitGrows(a.found, a.missingAt, n);
    LookedStay(kind, nodes, index, p);
    FoundStays(keys, nodes, index, a.found, a.foundPos, a.foundPtr, nodes', index);
    MissingStays(keys, nodes, index, before, beforeIndex, a.missingAt, a.missing, a.missPos, a.missPtr, nodes', index);
    WritersLook(kind, nodes, index, before, beforeIndex, a.missing, a.missPtr, p);
    LookedPinned(kind, nodes, p);
    PinnedTrans(before, nodes, nodes', multiset(a.foundPtr),
                if nodes[p].BeingWritten() then multiset{} else multiset{p});
    if nodes[p].BeingWritten() {
      WriterKnown(nodes', index, before, beforeIndex, a.missing, a.missPtr, keys[n]);
      MissingGrows(keys, n, nodes', index, before, beforeIndex, a.missingAt, a.missing, a.missPos, a.missPtr,
                   UNSET_POS, Null);
      WritersNull(nodes', index, before, beforeIndex, a.missing, a.missPtr, keys[n]);
      assert multiset(a.foundPtr) + multiset{} == multiset(a.foundPtr);
    } else {
      FoundNew(keys, n, nodes', index, a.found, a.foundPos, a.foundPtr);
      assert multiset(a.foundPtr + [p]) == multiset(a.foundPtr) + multiset{p};
    }
  }

  lemma WriterKnown(nodes: Store, index: map<int, Ptr>, before: Store, beforeIndex: map<int, Ptr>,
                    missing: seq<int>, pointers: seq<MaybePtr>, key: int)
    requires WritersKnown(nodes, index, before, beforeIndex, missing, pointers)
    requires Held(nodes, index, key) && nodes[index[key]].refs == -1
    ensures WrittenBefore(before, beforeIndex, key) || HasEntry(missing, pointers, 0, key)
  {
  }

  /** One key of a batch that is absent: a new entry. */
  lemma BatchAbsent(keys: seq<int>, n: nat, a: Answer, before: Store, beforeIndex: map<int, Ptr>,
                    nodes: Store, index: map<int, Ptr>, usage: int, capacity: int, p: Ptr,
                    nodes': Store, usage': int, v: MaybePtr, index': map<int, Ptr>)
    requires BatchOk(keys, n, a, before, beforeIndex, nodes, index) && n < |keys| && keys[n] !in index
    requires Inserted(nodes, usage, capacity, keys[n], p, nodes', usage', v) && Indexed(nodes, index)
    requires Indexed(nodes', index')
    requires index' == if v.To? then index[keys[n] := p] - {nodes[v.ptr].key} else index[keys[n] := p]
    requires (forall q :: q in before ==> before[q].refs >= -1) && Indexed(before, beforeIndex)
    ensures p in nodes' && BatchOk(keys, n + 1,
                    a.(missingAt := [n] + a.missingAt, missing := [keys[n]] + a.missing,
                       missPos := [nodes'[p].pos] + a.missPos, missPtr := [To(p)] + a.missPtr),
                    before, beforeIndex, nodes', index')
  {
    hide Split, FoundAnswer, MissingAnswer, WritersKnown, HeldStay, Pinned, Indexed;
    SplitGrows(a.found, a.missingAt, n);
    NotWrittenBefore(before, beforeIndex, nodes, index, multiset(a.foundPtr), keys[n]);
    MissingNoPosition(keys, nodes, index, before, beforeIndex, a.missingAt, a.missing, a.missPos, a.missPtr, keys[n]);
    InsertedStay(nodes, index, usage, capacity, keys[n], p, nodes', usage', v, index');
    FoundStays(keys, nodes, index, a.found, a.foundPos, a.foundPtr, nodes', index');
    MissingStays(keys, nodes, index, before, beforeIndex, a.missingAt, a.missing, a.missPos, a.missPtr, nodes', index');
    WritersInsert(nodes, index, before, beforeIndex, a.missing, a.missPtr, usage, capacity, keys[n], p, nodes', usage',
                  v, index');
    InsertedPinned(nodes, usage, capacity, keys[n], p, nodes', usage', v);
    PinnedTrans(before, nodes, nodes', multiset(a.foundPtr), multiset{});
    assert multiset(a.foundPtr) + multiset{} == multiset(a.foundPtr);
    MissingSameLength(keys, nodes, index, before, beforeIndex, a);
    NewPointer(keys, nodes', index', before, beforeIndex, a.missingAt, a.missing, a.missPos, a.missPtr, keys[n]);
    MissingGrows(keys, n, nodes', index', before, beforeIndex, a.missingAt, a.missing, a.missPos, a.missPtr,
                 nodes'[p].pos, To(p));
  }

  lemma MissingSameLength(keys: seq<int>, nodes: Store, index: map<int, Ptr>, before: Store,
                          beforeIndex: map<int, Ptr>, a: Answer)
    requires MissingAnswer(keys, nodes, index, before, beforeIndex, a.missingAt, a.missing, a.missPos, a.missPtr)
    ensures |a.missing| == |a.missingAt| == |a.missPos| == |a.missPtr|
  {
  }

  /** An entry being written before the batch is still resident, so an absent key was not being written. */
  lemma NotWrittenBefore(before: Store, beforeIndex: map<int, Ptr>, nodes: Store, index: map<int, Ptr>,
                         pins: multiset<Ptr>, key: int)
    requires Pinned(before, nodes, pins) && Indexed(nodes, index) && key !in index && Indexed(before, beforeIndex)
    ensures !Held(before, beforeIndex, key)
  {
  }

  lemma BatchNone(keys: seq<int>, nodes: Store, index: map<int, Ptr>)
    requires forall q :: q in nodes ==> nodes[q].refs >= -1
    ensures BatchOk(keys, 0, Answer([], [], [], [], [], [], []), nodes, index, nodes, index)
  {
    PinnedRefl(nodes);
  }

  /** Whether the rest of a batch is served without waiting. */
  ghost predicate ServesRest(policy: CachePolicy, keys: seq<int>, n: nat)
    requires n <= |keys|
    reads policy`usage, policy`nodes, policy`index
  {
    policy.Serves(keys[n..])
  }

  /** One key of `QueryAndReplaceImpl`. An insertion whose eviction finds every scanned
      entry in use waits for a completion; here the batch stops before it. */
  method QueryAndReplaceKey(policy: CachePolicy, keys: seq<int>, n: nat, a: Answer, ghost before: Store,
                            ghost beforeIndex: map<int, Ptr>)
    returns (b: Answer, waits: bool)
    requires policy.Valid() && n < |keys|
    requires BatchOk(keys, n, a, before, beforeIndex, policy.nodes, policy.index)
    requires (forall q :: q in before ==> before[q].refs >= -1) && Indexed(before, beforeIndex)
    modifies policy, policy.ghostQueue, policy.ghostQueue.data
    ensures policy.Valid()
    ensures waits <==> keys[n] !in old(policy.index) && !old(policy.CanInsert(keys[n]))
    ensures waits ==>
      b == a && policy.nodes == old(policy.nodes) && policy.index == old(policy.index) && !policy.CanInsert(keys[n])
    ensures old(ServesRest(policy, keys, n)) ==> !waits && ServesRest(policy, keys, n + 1)
    ensures !waits ==> BatchOk(keys, n + 1, b, before, beforeIndex, policy.nodes, policy.index)
    ensures !waits ==> KeyOutcome(keys, n, a, b)
    ensures !waits ==> (b.found != a.found <==> Readable(old(policy.nodes), old(policy.index), keys[n]))
    ensures !waits && old(policy.usage) < policy.capacity ==>
      policy.usage <= old(policy.usage) + 1
      && SameReadable(old(policy.nodes), old(policy.index), policy.nodes, policy.index)
  {
    hide BatchOk, Slotted, Queued, Counted, Linked, CanEvict, CachePolicy.GhostOk, SameReadable, KeyOutcome, Readable;
    b, waits := a, false;
    var key := keys[n];
    assert keys[n..][0] == key && keys[n..][1..] == keys[n + 1..];
    if key in policy.index {
      b := ResidentKey(policy, keys, n, a, before, beforeIndex);
    } else if policy.CanInsert(key) {
      ServesInsert(policy, keys[n..]);
      b := AbsentKey(policy, keys, n, a, before, beforeIndex);
    } else {
      ServesInsert(policy, keys[n..]);
      waits := true;
    }
  }

  /** A key that `Emplace` finds resident. */
  method ResidentKey(policy: CachePolicy, keys: seq<int>, n: nat, a: Answer, ghost before: Store,
                     ghost beforeIndex: map<int, Ptr>)
    returns (b: Answer)
    requires policy.Valid() && n < |keys| && keys[n] in policy.index
    requires BatchOk(keys, n, a, before, beforeIndex, policy.nodes, policy.index)
    requires forall q :: q in before ==> before[q].refs >= -1
    modifies policy`nodes, policy`main
    ensures policy.Valid() && BatchOk(keys, n + 1, b, before, beforeIndex, policy.nodes, policy.index)
    ensures KeyOutcome(keys, n, a, b)
    ensures b.found != a.found <==> Readable(old(policy.nodes), policy.index, keys[n])
    ensures SameReadable(old(policy.nodes), policy.index, policy.nodes, policy.index)
    ensures old(ServesRest(policy, keys, n)) ==> ServesRest(policy, keys, n + 1)
  {
    hide BatchOk, Slotted, Queued, Counted, Linked, CanEvict, CachePolicy.GhostOk, SameReadable, KindOk, Spare, Demand;
    b := a;
    var key := keys[n];
    ghost var nodes, index := policy.nodes, policy.index;
    CountedRefs(policy.kind, nodes);
    assert keys[n..][0] == key && keys[n..][1..] == keys[n + 1..];
    var it, readable := policy.Emplace(key);
    BatchResident(policy.kind, keys, n, a, before, beforeIndex, nodes, index);
    SpareAfterLook(nodes, policy.kind, it.ptr, policy.usage, policy.capacity, policy.smallTarget);
    DemandAfterLook(nodes, index, policy.kind, keys[n..]);
    LookReadable(policy.kind, nodes, index, it.ptr);
    if readable {
      b := b.(found := b.found + [n], foundPos := b.foundPos + [policy.nodes[it.ptr].pos],
              foundPtr := b.foundPtr + [it.ptr]);
    } else {
      b := b.(missingAt := [n] + b.missingAt, missing := [key] + b.missing,
              missPos := [UNSET_POS] + b.missPos, missPtr := [Null] + b.missPtr);
    }
  }

  /** A key that `Emplace` does not find, with a victim for it: a new entry. */
  method AbsentKey(policy: CachePolicy, keys: seq<int>, n: nat, a: Answer, ghost before: Store,
                   ghost beforeIndex: map<int, Ptr>)
    returns (b: Answer)
    requires policy.Valid() && n < |keys| && keys[n] !in policy.index && policy.CanInsert(keys[n])
    requires BatchOk(keys, n, a, before, beforeIndex, policy.nodes, policy.index)
    requires (forall q :: q in before ==> before[q].refs >= -1) && Indexed(before, beforeIndex)
    modifies policy, policy.ghostQueue, policy.ghostQueue.data
    ensures policy.Valid() && BatchOk(keys, n + 1, b, before, beforeIndex, policy.nodes, policy.index)
    ensures KeyOutcome(keys, n, a, b)
    ensures b.found == a.found && !Readable(old(policy.nodes), old(policy.index), keys[n])
    ensures old(policy.usage) < policy.capacity ==>
      policy.usage <= old(policy.usage) + 1
      && SameReadable(old(policy.nodes), old(policy.index), policy.nodes, policy.index)
    ensures old(ServesRest(policy, keys, n)) ==> ServesRest(policy, keys, n + 1)
  {
    hide BatchOk, Inserted, Slotted, Queued, Counted, Linked, CanEvict, CachePolicy.GhostOk, SameReadable;
    hide KindOk, Spare, Demand, CachePolicy.CanInsert;
    var key := keys[n];
    ghost var nodes, index, usage := policy.nodes, policy.index, policy.usage;
    assert keys[n..][0] == key && keys[n..][1..] == keys[n + 1..] && key in keys[n..];
    var it, _ := policy.Emplace(key);
    assert it == Null && policy.nodes == nodes;
    var p;
    ghost var v;
    p, v := policy.Insert(key);
    BatchAbsent(keys, n, a, before, beforeIndex, nodes, index, usage, policy.capacity, p, policy.nodes, policy.usage,
                v, policy.index);
    SpareAfterInsert(nodes, usage, policy.capacity, key, p, policy.nodes, policy.usage, v, policy.smallTarget);
    DemandAfterInsert(nodes, index, usage, policy.capacity, p, policy.nodes, policy.usage, v, policy.index, keys[n..]);
    InsertReadable(nodes, index, usage, policy.capacity, key, p, policy.nodes, policy.usage, v, policy.index);
    b := a.(missingAt := [n] + a.missingAt, missing := [key] + a.missing,
            missPos := [policy.nodes[p].pos] + a.missPos, missPtr := [To(p)] + a.missPtr);
  }

  /** How one key extends the answer. */
  ghost predicate KeyOutcome(keys: seq<int>, n: nat, a: Answer, b: Answer)
    requires n < |keys|
  {
    if b.found == a.found then
      && b.missing != [] && b.missPos != [] && b.missPtr != []
      && b.missingAt == [n] + a.missingAt && b.missing == [keys[n]] + a.missing
      && b.missPos[1..] == a.missPos && b.missPtr[1..] == a.missPtr
    else
      && b.found == a.found + [n] && b.missing == a.missing && b.missingAt == a.missingAt
      && b.missPos == a.missPos && b.missPtr == a.missPtr
  }

  /** A batch that is served has a victim for its first key. */
  lemma ServesInsert(policy: CachePolicy, keys: seq<int>)
    requires policy.Valid() && |keys| > 0 && keys[0] !in policy.index
    ensures policy.Serves(keys) ==> policy.CanInsert(keys[0])
  {
    if policy.Serves(keys) {
      assert keys[0] in keys;
      assert keys[0] in Demand(policy.nodes, policy.index, keys);
      policy.RoomCanInsert(keys[0]);
    }
  }

  /** The same keys are readable. */
  ghost predicate SameReadable(nodes: Store, index: map<int, Ptr>, nodes': Store, index': map<int, Ptr>) {
    forall key :: Readable(nodes, index, key) <==> Readable(nodes', index', key)
  }

  lemma LookReadable(kind: Kind, nodes: Store, index: map<int, Ptr>, p: Ptr)
    requires p in nodes && nodes[p].refs >= -1
    ensures SameReadable(nodes, index, nodes[p := Looked(kind, nodes[p])], index)
  {
    TouchedBasics(kind, nodes[p]);
  }

  lemma InsertReadable(nodes: Store, index: map<int, Ptr>, usage: int, capacity: int, key: int, p: Ptr,
                       nodes': Store, usage': int, v: MaybePtr, index': map<int, Ptr>)
    requires Inserted(nodes, usage, capacity, key, p, nodes', usage', v) && Indexed(nodes, index) && key !in index
    requires index' == if v.To? then index[key := p] - {nodes[v.ptr].key} else index[key := p]
    ensures usage < capacity ==> usage' == usage + 1 && SameReadable(nodes, index, nodes', index')
  {
  }

  /** `QueryAndReplaceImpl`: readable keys are pinned, absent keys get entries to be
      written. The first `done` keys are answered; an insertion that has to wait for a
      completion is the only reason to stop before the end. */
  method QueryAndReplaceImpl(policy: CachePolicy, keys: seq<int>)
    returns (positions: seq<int>, indices: seq<int>, pointers: seq<MaybePtr>, missing: seq<int>, done: nat,
             ghost answer: Answer)
    requires policy.Valid()
    modifies policy, policy.ghostQueue, policy.ghostQueue.data
    ensures policy.Valid() && done <= |keys|
    ensures done < |keys| ==> keys[done] !in policy.index && !policy.CanInsert(keys[done])
    ensures old(policy.Serves(keys)) ==> done == |keys|
    ensures BatchOk(keys, done, answer, old(policy.nodes), old(policy.index), policy.nodes, policy.index)
    ensures positions == answer.foundPos + answer.missPos && indices == answer.found + answer.missingAt
    ensures pointers == Pointers(answer.foundPtr) + answer.missPtr && missing == answer.missing
  {
    hide BatchOk, Slotted, Queued, Counted, Linked, Pointers, Indexed, KeyOutcome, SameReadable;
    hide CachePolicy.Serves, CachePolicy.CanInsert;
    var a := Answer([], [], [], [], [], [], []);
    ghost var before, beforeIndex := policy.nodes, policy.index;
    CountedRefs(policy.kind, before);
    BatchNone(keys, before, beforeIndex);
    done := 0;
    var waits := false;
    assert keys[0..] == keys;
    while done < |keys| && !waits
      invariant policy.Valid() && done <= |keys|
      invariant old(policy.Serves(keys)) ==> !waits && ServesRest(policy, keys, done)
      invariant waits ==> done < |keys| && keys[done] !in policy.index && !policy.CanInsert(keys[done])
      invariant BatchOk(keys, done, a, before, beforeIndex, policy.nodes, policy.index)
      decreases |keys| - done, !waits
    {
      a, waits := QueryAndReplaceKey(policy, keys, done, a, before, beforeIndex);
      if !waits { done := done + 1; }
    }
    answer := a;
    positions, indices := a.foundPos + a.missPos, a.found + a.missingAt;
    pointers, missing := Pointers(a.foundPtr) + a.missPtr, a.missing;
  }

  function Pointers(ps: seq<Ptr>): (r: seq<MaybePtr>)
    ensures |r| == |ps| && forall i :: 0 <= i < |ps| ==> r[i] == To(ps[i])
  {
    seq(|ps|, i requires 0 <= i < |ps| => To(ps[i]))
  }

  /** The uniqueness check of the source cannot fail: entries handed out for writing
      in one batch have pairwise different positions inside the cache, and they are
      exactly those whose position is not negative. */
  lemma PositionsDistinct(keys: seq<int>, n: nat, a: Answer, before: Store, beforeIndex: map<int, Ptr>,
                          nodes: Store, index: map<int, Ptr>, usage: int, capacity: int)
    requires BatchOk(keys, n, a, before, beforeIndex, nodes, index) && Slotted(nodes, usage, capacity)
    ensures forall i :: 0 <= i < |a.missPtr| ==>
      (a.missPtr[i].To? ==> 0 <= a.missPos[i] < capacity) && (a.missPtr[i] == Null ==> a.missPos[i] < 0)
    ensures forall i, j :: 0 <= i < j < |a.missPtr| && a.missPtr[i].To? && a.missPtr[j].To? ==>
      a.missPos[i] != a.missPos[j]
  {
  }

  /** The answers of `Replace`, in the order of the keys: only new entries are returned. */
  ghost predicate ReplaceAnswer(n: nat, a: Answer, positions: seq<int>, pointers: seq<MaybePtr>) {
    && |positions| == |pointers| == n
    && |a.missing| == |a.missingAt| == |a.missPos| == |a.missPtr|
    && (forall i :: 0 <= i < |a.missingAt| ==>
      0 <= a.missingAt[i] < n && positions[a.missingAt[i]] == a.missPos[i] && pointers[a.missingAt[i]] == a.missPtr[i])
    && (forall i :: 0 <= i < |a.found| ==>
      0 <= a.found[i] < n && positions[a.found[i]] == UNSET_POS && pointers[a.found[i]] == Null)
  }

  /** An entry of the key is being read. */
  ghost predicate BeingRead(nodes: Store, index: map<int, Ptr>, key: int) {
    key in index && index[key] in nodes && nodes[index[key]].refs > 0
  }

  /** `ReplaceImpl` looks every key up and inserts the absent ones exactly as
      `QueryAndReplaceImpl` does, but hands out no pointer for the keys it finds
      readable: their pins, answer.foundPtr, can never be released. Such a key was
      readable before the call; a key that was being read is always among them; and
      if the batch fits into the free slots the leaked keys are exactly the readable ones. */
  method ReplaceImpl(policy: CachePolicy, keys: seq<int>)
    returns (positions: seq<int>, pointers: seq<MaybePtr>, done: nat, ghost answer: Answer)
    requires policy.Valid()
    modifies policy, policy.ghostQueue, policy.ghostQueue.data
    ensures policy.Valid() && done <= |keys|
    ensures done < |keys| ==> keys[done] !in policy.index && !policy.CanInsert(keys[done])
    ensures old(policy.Serves(keys)) ==> done == |keys|
    ensures BatchOk(keys, done, answer, old(policy.nodes), old(policy.index), policy.nodes, policy.index)
    ensures ReplaceAnswer(done, answer, positions, pointers)
    ensures forall i :: i in answer.found ==> 0 <= i < done && Readable(old(policy.nodes), old(policy.index), keys[i])
    ensures forall i :: 0 <= i < done && BeingRead(old(policy.nodes), old(policy.index), keys[i]) ==> i in answer.found
    ensures old(policy.usage) + |keys| <= policy.capacity ==> done == |keys|
    ensures old(policy.usage) + |keys| <= policy.capacity ==>
      forall i :: 0 <= i < |keys| ==> (i in answer.found <==> Readable(old(policy.nodes), old(policy.index), keys[i]))
  {
    hide BatchOk, Slotted, Queued, Counted, Linked, Indexed, SameReadable, CachePolicy.Serves, CanEvict;
    hide Readable, BeingRead;
    hide CachePolicy.GhostOk, KindOk, ReplaceAnswer, KeyOutcome;
    positions, pointers := [], [];
    var a := Answer([], [], [], [], [], [], []);
    ghost var before, beforeIndex, usage := policy.nodes, policy.index, policy.usage;
    CountedRefs(policy.kind, before);
    BatchNone(keys, before, beforeIndex);
    ReadableRefl(before, beforeIndex);
    ReplaceNone();
    done := 0;
    var waits := false;
    assert keys[0..] == keys;
    while done < |keys| && !waits
      invariant policy.Valid() && done <= |keys|
      invariant old(policy.Serves(keys)) ==> !waits && ServesRest(policy, keys, done)
      invariant waits ==> done < |keys| && keys[done] !in policy.index && !policy.CanInsert(keys[done])
      invariant BatchOk(keys, done, a, before, beforeIndex, policy.nodes, policy.index)
      invariant ReplaceAnswer(done, a, positions, pointers)
      invariant Leaks(keys, done, a, before, beforeIndex)
      invariant usage + |keys| <= policy.capacity ==> !waits && policy.usage <= usage + done
      invariant usage + |keys| <= policy.capacity ==> SameReadable(before, beforeIndex, policy.nodes, policy.index)
      invariant usage + |keys| <= policy.capacity ==>
        forall i :: 0 <= i < done ==> (i in a.found <==> Readable(before, beforeIndex, keys[i]))
      decreases |keys| - done, !waits
    {
      ghost var nodes, index := policy.nodes, policy.index;
      ghost var room := policy.usage < policy.capacity;
      var b;
      b, waits := QueryAndReplaceKey(policy, keys, done, a, before, beforeIndex);
      if !waits {
        ReplaceNext(keys, done, a, b, positions, pointers);
        LeaksNext(keys, done, a, b, before, beforeIndex, nodes, index);
        if room { ReadableTrans(before, beforeIndex, nodes, index, policy.nodes, policy.index, keys[done]); }
        if |b.missing| > |a.missing| {
          positions, pointers := positions + [b.missPos[0]], pointers + [b.missPtr[0]];
        } else {
          positions, pointers := positions + [UNSET_POS], pointers + [Null];
        }
        a := b;
        done := done + 1;
      }
    }
    FoundReadable(keys, done, a, before, beforeIndex, policy.nodes, policy.index);
    answer := a;
  }

  lemma ReadableRefl(nodes: Store, index: map<int, Ptr>)
    ensures SameReadable(nodes, index, nodes, index)
  {
  }

  lemma ReplaceNone()
    ensures ReplaceAnswer(0, Answer([], [], [], [], [], [], []), [], [])
  {
  }

  lemma ReadableTrans(before: Store, beforeIndex: map<int, Ptr>, nodes: Store, index: map<int, Ptr>,
                      after: Store, afterIndex: map<int, Ptr>, key: int)
    requires SameReadable(nodes, index, after, afterIndex)
    ensures SameReadable(before, beforeIndex, nodes, index) ==>
      SameReadable(before, beforeIndex, after, afterIndex) &&
      (Readable(before, beforeIndex, key) <==> Readable(nodes, index, key))
  {
    hide Readable;
  }

  /** Keys that were being read before the call are found. */
  ghost predicate Leaks(keys: seq<int>, n: nat, a: Answer, before: Store, beforeIndex: map<int, Ptr>) {
    && n <= |keys| && (forall i :: i in a.found ==> 0 <= i < n)
    && forall i :: 0 <= i < n && BeingRead(before, beforeIndex, keys[i]) ==> i in a.found
  }

  lemma LeaksNext(keys: seq<int>, n: nat, a: Answer, b: Answer, before: Store, beforeIndex: map<int, Ptr>,
                  nodes: Store, index: map<int, Ptr>)
    requires n < |keys| && Leaks(keys, n, a, before, beforeIndex) && KeyOutcome(keys, n, a, b)
    requires BatchOk(keys, n, a, before, beforeIndex, nodes, index) && Indexed(before, beforeIndex)
    requires Indexed(nodes, index)
    requires b.found != a.found <==> Readable(nodes, index, keys[n])
    ensures Leaks(keys, n + 1, b, before, beforeIndex)
    ensures n in b.found <==> Readable(nodes, index, keys[n])
    ensures forall i :: 0 <= i < n ==> (i in b.found <==> i in a.found)
  {
    hide Split, FoundAnswer, MissingAnswer, WritersKnown;
    if BeingRead(before, beforeIndex, keys[n]) {
      var p := beforeIndex[keys[n]];
      assert p in nodes && nodes[p].key == keys[n];
    }
  }

  lemma ReplaceNext(keys: seq<int>, n: nat, a: Answer, b: Answer, positions: seq<int>, pointers: seq<MaybePtr>)
    requires n < |keys| && ReplaceAnswer(n, a, positions, pointers) && KeyOutcome(keys, n, a, b)
    ensures |b.missing| > |a.missing| <==> b.found == a.found
    ensures b.found == a.found ==> b.missPos != [] && b.missPtr != []
    ensures if b.found == a.found
      then ReplaceAnswer(n + 1, b, positions + [b.missPos[0]], pointers + [b.missPtr[0]])
      else ReplaceAnswer(n + 1, b, positions + [UNSET_POS], pointers + [Null])
  {
    hide ReplaceAnswer;
    if b.found == a.found {
      assert b.missPos == [b.missPos[0]] + a.missPos && b.missPtr == [b.missPtr[0]] + a.missPtr;
      ReplaceMissing(n, a, b, positions, pointers);
    } else {
      ReplaceFound(n, a, b, positions, pointers);
    }
  }

  lemma ReplaceMissing(n: nat, a: Answer, b: Answer, positions: seq<int>, pointers: seq<MaybePtr>)
    requires ReplaceAnswer(n, a, positions, pointers) && b.found == a.found && b.missPos != [] && b.missPtr != []
    requires b.missingAt == [n] + a.missingAt && |b.missing| == |a.missing| + 1
    requires b.missPos == [b.missPos[0]] + a.missPos && b.missPtr == [b.missPtr[0]] + a.missPtr
    ensures ReplaceAnswer(n + 1, b, positions + [b.missPos[0]], pointers + [b.missPtr[0]])
  {
  }

  lemma ReplaceFound(n: nat, a: Answer, b: Answer, positions: seq<int>, pointers: seq<MaybePtr>)
    requires ReplaceAnswer(n, a, positions, pointers) && b.found == a.found + [n] && b.missing == a.missing
    requires b.missingAt == a.missingAt && b.missPos == a.missPos && b.missPtr == a.missPtr
    ensures ReplaceAnswer(n + 1, b, positions + [UNSET_POS], pointers + [Null])
  {
  }

  /** What a batch finds was readable before it. */
  lemma FoundReadable(keys: seq<int>, n: nat, a: Answer, before: Store, beforeIndex: map<int, Ptr>, nodes: Store,
                      index: map<int, Ptr>)
    requires BatchOk(keys, n, a, before, beforeIndex, nodes, index) && Indexed(before, beforeIndex)
    requires Indexed(nodes, index)
    ensures |a.foundPtr| == |a.found|
    ensures forall i :: i in a.found ==> 0 <= i < |keys| && Readable(before, beforeIndex, keys[i])
    ensures a.found != [] ==> 0 <= a.found[0] < |keys| && Readable(before, beforeIndex, keys[a.found[0]])
  {
    hide Split, MissingAnswer, WritersKnown;
    forall i | i in a.found ensures 0 <= i < |keys| && Readable(before, beforeIndex, keys[i]) {
      var j :| 0 <= j < |a.found| && a.found[j] == i;
      assert a.foundPtr[j] in multiset(a.foundPtr);
      assert nodes[a.foundPtr[j]].key == keys[i];
    }
  }

  /** Pins are conserved by `Replace` when no key is readable before the call. */
  lemma ReplaceConserves(keys: seq<int>, n: nat, a: Answer, before: Store, beforeIndex: map<int, Ptr>, nodes: Store,
                         index: map<int, Ptr>)
    requires BatchOk(keys, n, a, before, beforeIndex, nodes, index) && Indexed(before, beforeIndex)
    requires Indexed(nodes, index)
    requires forall i :: 0 <= i < |keys| ==> !Readable(before, beforeIndex, keys[i])
    ensures a.foundPtr == [] && Pinned(before, nodes, multiset{})
  {
    hide Readable;
    FoundReadable(keys, n, a, before, beforeIndex, nodes, index);
  }
}
