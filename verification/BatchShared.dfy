/** Batches while other threads complete their reads and writes.

    A batch runs under the policy's lock. What was handed out before it may be
    completed at any moment of it, what it hands out itself only after it. Time is
    counted in rounds: one before every lookup, and one before every inspection of
    an eviction loop.

    Source: graphbolt/src/cache_policy.cc, graphbolt/src/cache_policy.h. */
module BatchShared {
  import opened CacheEviction
  import opened Collections
  import opened Policies
  import opened CacheBatch
  import opened SharedEviction

  // ------------------------------------------------------------------
  // Completions of what was handed out before

  ghost predicate AllDue(nodes: Store, cs: seq<Completion>) {
    cs == [] || (Due(nodes, cs[0]) && AllDue(Complete(nodes, cs[0]), cs[1..]))
  }

  /** The other threads complete uses that had begun at time 0, each once. */
  ghost predicate Honest(nodes: Store, others: Others) {
    forall t: nat :: AllDue(Done(nodes, others, t), others(t))
  }

  /** Nothing completes from round `horizon` on. */
  ghost predicate Over(others: Others, horizon: nat) {
    forall t: nat :: t >= horizon ==> others(t) == []
  }

  function Change(start: Store, later: Store, p: Ptr): int {
    if p in start && p in later then later[p].refs - start[p].refs else 0
  }

  /** `nodes` after the completions that take `start` to `later`. */
  function After(nodes: Store, start: Store, later: Store): Store {
    map p | p in nodes :: nodes[p].(refs := nodes[p].refs + Change(start, later, p))
  }

  lemma AfterTrans(nodes: Store, a: Store, b: Store, c: Store)
    requires a.Keys == b.Keys == c.Keys
    ensures After(After(nodes, a, b), b, c) == After(nodes, a, c)
  {
  }

  /** One entry changes, its pins do not. */
  lemma OnePinned(start: Store, nodes: Store, pins: multiset<Ptr>, p: Ptr, a: CacheKey, b: CacheKey)
    requires Pinned(start, nodes, pins) && p in start && p in nodes && start[p].refs != 0
    requires a == start[p].(refs := a.refs) && b == nodes[p].(refs := b.refs) && b.refs == a.refs + pins[p]
    requires p in pins ==> a.refs >= 0
    ensures Pinned(start[p := a], nodes[p := b], pins)
  {
    assert Same(start[p], nodes[p], pins[p]);
  }

  lemma OneAfter(start: Store, nodes: Store, p: Ptr, a: CacheKey, b: CacheKey)
    requires p in start && p in nodes && a == start[p].(refs := a.refs) && b == nodes[p].(refs := b.refs)
    requires b.refs - nodes[p].refs == a.refs - start[p].refs
    ensures nodes[p := b] == After(nodes, start, start[p := a])
  {
  }

  /** A completion of an earlier use takes effect under the pins of the batch as it would without them. */
  lemma CompletePinned(start: Store, nodes: Store, pins: multiset<Ptr>, c: Completion)
    requires Pinned(start, nodes, pins) && Due(start, c)
    ensures Pinned(Complete(start, c), Complete(nodes, c), pins) && c.ptr in nodes
    ensures Complete(nodes, c) == After(nodes, start, Complete(start, c))
  {
    var p := c.ptr;
    assert Same(start[p], nodes[p], pins[p]);
    assert Complete(start, c) == start[p := start[p].EndUse(c.write)];
    assert Complete(nodes, c) == nodes[p := nodes[p].EndUse(c.write)];
    OnePinned(start, nodes, pins, p, start[p].EndUse(c.write), nodes[p].EndUse(c.write));
    OneAfter(start, nodes, p, start[p].EndUse(c.write), nodes[p].EndUse(c.write));
  }

  lemma {:induction false} CompleteAllPinned(start: Store, nodes: Store, pins: multiset<Ptr>, cs: seq<Completion>)
    requires Pinned(start, nodes, pins) && AllDue(start, cs)
    ensures Pinned(CompleteAll(start, cs), CompleteAll(nodes, cs), pins)
    ensures CompleteAll(nodes, cs) == After(nodes, start, CompleteAll(start, cs))
    ensures forall c :: c in cs ==> c.ptr in nodes
  {
    hide Pinned;
    if cs == [] {
      assert CompleteAll(nodes, cs) == nodes;
    } else {
      CompletePinned(start, nodes, pins, cs[0]);
      CompleteAllPinned(Complete(start, cs[0]), Complete(nodes, cs[0]), pins, cs[1..]);
      CompleteSettles(start, cs);
      AfterTrans(nodes, start, Complete(start, cs[0]), CompleteAll(start, cs));
      forall c | c in cs ensures c.ptr in nodes { assert c == cs[0] || c in cs[1..]; }
    }
  }

  lemma DoneNext(nodes: Store, others: Others, t: nat)
    ensures Done(nodes, others, t + 1) == CompleteAll(Done(nodes, others, t), others(t))
  {
  }

  lemma LaterAt(others: Others, clock: nat, t: nat)
    ensures Later(others, clock)(t) == others(clock + t)
  {
  }

  lemma HonestAt(nodes: Store, others: Others, t: nat)
    requires Honest(nodes, others)
    ensures AllDue(Done(nodes, others, t), others(t))
  {
  }

  lemma AfterNone(nodes: Store, start: Store)
    ensures After(nodes, start, start) == nodes
  {
  }

  lemma DoneKeys(nodes: Store, others: Others, t: nat)
    ensures Done(nodes, others, t).Keys == nodes.Keys
  {
    hide Done;
    DoneStart(nodes, others);
    DoneSettles(nodes, others, 0, t);
  }

  /** The same over t rounds. */
  lemma {:induction false} DonePinned(start: Store, others: Others, clock: nat, nodes: Store, pins: multiset<Ptr>,
                                      t: nat)
    requires Honest(start, others) && Pinned(Done(start, others, clock), nodes, pins)
    ensures var nodes' := Done(nodes, Later(others, clock), t);
      && Pinned(Done(start, others, clock + t), nodes', pins)
      && nodes' == After(nodes, Done(start, others, clock), Done(start, others, clock + t))
  {
    hide *;
    if t == 0 {
      DoneStart(nodes, Later(others, clock));
      AfterNone(nodes, Done(start, others, clock));
    } else {
      var u := clock + (t - 1);
      DonePinned(start, others, clock, nodes, pins, t - 1);
      DoneNext(nodes, Later(others, clock), t - 1);
      DoneNext(start, others, u);
      LaterAt(others, clock, t - 1);
      HonestAt(start, others, u);
      CompleteAllPinned(Done(start, others, u), Done(nodes, Later(others, clock), t - 1), pins, others(u));
      DoneKeys(start, others, clock);
      DoneKeys(start, others, u);
      DoneKeys(start, others, u + 1);
      AfterTrans(nodes, Done(start, others, clock), Done(start, others, u), Done(start, others, u + 1));
    }
  }

  lemma {:induction false} DueUsed(nodes: Store, cs: seq<Completion>)
    requires AllDue(nodes, cs)
    ensures forall c :: c in cs ==> c.ptr in nodes && nodes[c.ptr].refs != 0
  {
    if cs != [] {
      DueUsed(Complete(nodes, cs[0]), cs[1..]);
      forall c | c in cs ensures c.ptr in nodes && nodes[c.ptr].refs != 0 { assert c == cs[0] || c in cs[1..]; }
    }
  }

  /** Entries still to be completed are resident however much the batch has evicted. */
  lemma HonestPublished(start: Store, others: Others, clock: nat, nodes: Store, pins: multiset<Ptr>)
    requires Honest(start, others) && Pinned(Done(start, others, clock), nodes, pins)
    ensures Published(Later(others, clock), nodes)
  {
    hide Done, Pinned, Honest;
    forall t: nat, c | c in Later(others, clock)(t) ensures c.ptr in nodes {
      DuePublished(start, others, clock, nodes, pins, t, c);
    }
  }

  lemma DuePublished(start: Store, others: Others, clock: nat, nodes: Store, pins: multiset<Ptr>, t: nat,
                     c: Completion)
    requires Honest(start, others) && Pinned(Done(start, others, clock), nodes, pins) && c in others(clock + t)
    ensures c.ptr in nodes
  {
    hide Done, Honest, Pinned, Towards;
    HonestAt(start, others, clock + t);
    DueUsed(Done(start, others, clock + t), others(clock + t));
    DoneSettles(start, others, clock, clock + t);
    UsedStays(Done(start, others, clock), Done(start, others, clock + t), nodes, pins, c.ptr);
  }

  /** An entry still in use has been in use, and has not been evicted. */
  lemma UsedStays(settled: Store, later: Store, nodes: Store, pins: multiset<Ptr>, p: Ptr)
    requires Settles(settled, later) && Pinned(settled, nodes, pins) && p in later && later[p].refs != 0
    ensures p in nodes
  {
    assert p in settled && Towards(settled[p].refs, later[p].refs);
  }

  lemma {:induction false} DoneOver(nodes: Store, others: Others, horizon: nat, t: nat)
    requires Over(others, horizon) && t >= horizon
    ensures Done(nodes, others, t) == Done(nodes, others, horizon)
  {
    if t > horizon { DoneOver(nodes, others, horizon, t - 1); }
  }

  lemma {:induction false} DueTogether(nodes: Store, cs: seq<Completion>, ds: seq<Completion>)
    requires AllDue(nodes, cs) && AllDue(CompleteAll(nodes, cs), ds)
    ensures AllDue(nodes, cs + ds) && CompleteAll(nodes, cs + ds) == CompleteAll(CompleteAll(nodes, cs), ds)
  {
    if cs == [] {
      assert cs + ds == ds;
    } else {
      assert (cs + ds)[0] == cs[0] && (cs + ds)[1..] == cs[1..] + ds;
      DueTogether(Complete(nodes, cs[0]), cs[1..], ds);
    }
  }

  /** All uses of one entry end. */
  lemma {:induction false} DrainOne(nodes: Store, p: Ptr) returns (cs: seq<Completion>)
    requires p in nodes && nodes[p].refs >= -1
    ensures AllDue(nodes, cs) && CompleteAll(nodes, cs) == nodes[p := nodes[p].(refs := 0)]
    decreases if nodes[p].refs < 0 then 1 else nodes[p].refs
  {
    if nodes[p].refs == 0 {
      cs := [];
      assert nodes == nodes[p := nodes[p].(refs := 0)];
    } else {
      var c := Completion(p, nodes[p].refs < 0);
      var rest := DrainOne(Complete(nodes, c), p);
      cs := [c] + rest;
      assert cs[1..] == rest;
    }
  }

  lemma {:induction false} DrainAll(nodes: Store, todo: set<Ptr>) returns (cs: seq<Completion>)
    requires todo <= nodes.Keys && forall p :: p in nodes ==> nodes[p].refs >= -1
    ensures AllDue(nodes, cs) && CompleteAll(nodes, cs).Keys == nodes.Keys
    ensures forall p :: p in nodes ==>
      CompleteAll(nodes, cs)[p].refs == if p in todo then 0 else nodes[p].refs
  {
    if todo == {} {
      cs := [];
    } else {
      var p :| p in todo;
      var first := DrainOne(nodes, p);
      var rest := DrainAll(nodes[p := nodes[p].(refs := 0)], todo - {p});
      DueTogether(nodes, first, rest);
      cs := first + rest;
    }
  }

  /** Whatever is in flight can be completed, by one round of honest completions. */
  lemma CompletionsExist(nodes: Store) returns (others: Others)
    requires forall p :: p in nodes ==> nodes[p].refs >= -1
    ensures Honest(nodes, others) && Over(others, 1)
    ensures forall p :: p in Done(nodes, others, 1) ==> Done(nodes, others, 1)[p].refs == 0
  {
    var cs := DrainAll(nodes, nodes.Keys);
    others := (t: nat) => if t == 0 then cs else [];
    DoneNext(nodes, others, 0);
    DoneStart(nodes, others);
    DoneKeys(nodes, others, 1);
    forall t: nat ensures AllDue(Done(nodes, others, t), others(t)) {
      if t == 0 { assert Done(nodes, others, t) == nodes; }
    }
  }

  // ------------------------------------------------------------------
  // The answer of a batch

  /** One missing answer: an entry that the caller is to write, or null. */
  ghost predicate MissingNow(keys: seq<int>, nodes: Store, index: map<int, Ptr>, settled: Store,
                             startIndex: map<int, Ptr>, at: int, key: int, pos: int, pointer: MaybePtr) {
    && 0 <= at < |keys| && key == keys[at]
    && (pointer == Null ==> pos == UNSET_POS)
    && (pointer.To? ==>
      && Held(nodes, index, key) && nodes[index[key]].refs == -1
      && pointer.ptr == index[key] && pos == nodes[pointer.ptr].pos && !WrittenBefore(settled, startIndex, key))
  }

  ghost predicate MissingAll(keys: seq<int>, nodes: Store, index: map<int, Ptr>, settled: Store,
                             startIndex: map<int, Ptr>, missingAt: seq<int>, missing: seq<int>, positions: seq<int>,
                             pointers: seq<MaybePtr>) {
    && |missing| == |missingAt| == |positions| == |pointers|
    && forall i :: 0 <= i < |missing| ==>
      MissingNow(keys, nodes, index, settled, startIndex, missingAt[i], missing[i], positions[i], pointers[i])
  }

  /** The contract of `QueryAndReplace` for keys[..n], against the nodes before the
      batch with the completions so far, `settled`. A null answer means that the key
      was being written when the batch began, or was answered with an entry before. */
  ghost predicate SharedOk(keys: seq<int>, n: nat, a: Answer, start: Store, settled: Store, startIndex: map<int, Ptr>,
                           nodes: Store, index: map<int, Ptr>) {
    && Split(a.found, a.missingAt, n)
    && FoundAnswer(keys, nodes, index, a.found, a.foundPos, a.foundPtr)
    && MissingAll(keys, nodes, index, settled, startIndex, a.missingAt, a.missing, a.missPos, a.missPtr)
    && NullsExplained(start, startIndex, a.missing, a.missPtr)
    && PointersDistinct(a.missPtr)
    && WritersKnown(nodes, index, settled, startIndex, a.missing, a.missPtr)
    && Pinned(settled, nodes, multiset(a.foundPtr))
  }

  /** When nobody completes anything this is the contract of the batch alone. */
  lemma QuietBatch(keys: seq<int>, n: nat, a: Answer, before: Store, beforeIndex: map<int, Ptr>, nodes: Store,
                   index: map<int, Ptr>)
    requires Indexed(before, beforeIndex) && Indexed(nodes, index)
    ensures SharedOk(keys, n, a, before, before, beforeIndex, nodes, index) <==>
      BatchOk(keys, n, a, before, beforeIndex, nodes, index)
  {
    hide Split, FoundAnswer, WritersKnown, PointersDistinct;
    if SharedOk(keys, n, a, before, before, beforeIndex, nodes, index) {
      forall i | 0 <= i < |a.missing| && a.missPtr[i] == Null
        ensures Held(nodes, index, a.missing[i]) && nodes[index[a.missing[i]]].refs == -1
      {
        if WrittenBefore(before, beforeIndex, a.missing[i]) {
          var p := beforeIndex[a.missing[i]];
          assert Same(before[p], nodes[p], multiset(a.foundPtr)[p]);
        } else {
          assert HasEntry(a.missing, a.missPtr, i + 1, a.missing[i]);
          var j :| i < j < |a.missing| && a.missing[j] == a.missing[i] && a.missPtr[j].To?;
          assert MissingNow(keys, nodes, index, before, beforeIndex, a.missingAt[j], a.missing[j], a.missPos[j],
                            a.missPtr[j]);
        }
      }
    }
  }

  lemma SharedNone(keys: seq<int>, nodes: Store, index: map<int, Ptr>)
    requires forall q :: q in nodes ==> nodes[q].refs >= -1
    ensures SharedOk(keys, 0, Answer([], [], [], [], [], [], []), nodes, nodes, index, nodes, index)
  {
    PinnedRefl(nodes);
  }

  // ------------------------------------------------------------------
  // Time passes

  lemma FoundAfter(keys: seq<int>, nodes: Store, index: map<int, Ptr>, found: seq<int>, positions: seq<int>,
                   pointers: seq<Ptr>, settled: Store, later: Store)
    requires FoundAnswer(keys, nodes, index, found, positions, pointers)
    requires Pinned(later, After(nodes, settled, later), multiset(pointers))
    ensures FoundAnswer(keys, After(nodes, settled, later), index, found, positions, pointers)
  {
    forall i | 0 <= i < |pointers| ensures pointers[i] in later && multiset(pointers)[pointers[i]] > 0 {
      assert pointers[i] in multiset(pointers);
    }
  }

  /** A new entry is nobody else's to complete. */
  lemma OwnUnchanged(nodes: Store, index: map<int, Ptr>, settled: Store, startIndex: map<int, Ptr>,
                     pins: multiset<Ptr>, later: Store, key: int)
    requires Pinned(settled, nodes, pins) && Settles(settled, later)
    requires Indexed(nodes, index) && Indexed(settled, startIndex)
    requires Held(nodes, index, key) && nodes[index[key]].refs == -1 && !WrittenBefore(settled, startIndex, key)
    ensures After(nodes, settled, later)[index[key]] == nodes[index[key]] && !WrittenBefore(later, startIndex, key)
  {
  }

  lemma MissingAfter(keys: seq<int>, nodes: Store, index: map<int, Ptr>, settled: Store, startIndex: map<int, Ptr>,
                     missingAt: seq<int>, missing: seq<int>, positions: seq<int>, pointers: seq<MaybePtr>,
                     pins: multiset<Ptr>, later: Store)
    requires MissingAll(keys, nodes, index, settled, startIndex, missingAt, missing, positions, pointers)
    requires Pinned(settled, nodes, pins) && Settles(settled, later)
    requires Indexed(nodes, index) && Indexed(settled, startIndex)
    ensures MissingAll(keys, After(nodes, settled, later), index, later, startIndex, missingAt, missing, positions,
                       pointers)
  {
    hide Pinned, Settles, Indexed, WrittenBefore;
    forall i | 0 <= i < |missing|
      ensures MissingNow(keys, After(nodes, settled, later), index, later, startIndex, missingAt[i], missing[i],
                         positions[i], pointers[i])
    {
      assert MissingNow(keys, nodes, index, settled, startIndex, missingAt[i], missing[i], positions[i], pointers[i]);
      if pointers[i].To? {
        OwnUnchanged(nodes, index, settled, startIndex, pins, later, missing[i]);
      }
    }
  }

  /** Who writes at the end wrote all along. */
  lemma WritersAfter(nodes: Store, index: map<int, Ptr>, settled: Store, startIndex: map<int, Ptr>,
                     missing: seq<int>, pointers: seq<MaybePtr>, pins: multiset<Ptr>, later: Store)
    requires WritersKnown(nodes, index, settled, startIndex, missing, pointers)
    requires Pinned(settled, nodes, pins) && Pinned(later, After(nodes, settled, later), pins)
    requires Settles(settled, later) && Indexed(nodes, index) && Indexed(settled, startIndex)
    requires forall p :: p in settled ==> settled[p].refs >= -1
    ensures WritersKnown(After(nodes, settled, later), index, later, startIndex, missing, pointers)
  {
    var nodes' := After(nodes, settled, later);
    forall key | Held(nodes', index, key) && nodes'[index[key]].refs == -1
      ensures WrittenBefore(later, startIndex, key) || HasEntry(missing, pointers, 0, key)
    {
      WriterAfter(nodes, index, settled, startIndex, pins, later, key);
    }
  }

  lemma WriterAfter(nodes: Store, index: map<int, Ptr>, settled: Store, startIndex: map<int, Ptr>,
                    pins: multiset<Ptr>, later: Store, key: int)
    requires Pinned(settled, nodes, pins) && Pinned(later, After(nodes, settled, later), pins)
    requires Settles(settled, later) && Indexed(nodes, index) && Indexed(settled, startIndex)
    requires forall p :: p in settled ==> settled[p].refs >= -1
    requires Held(After(nodes, settled, later), index, key) && After(nodes, settled, later)[index[key]].refs == -1
    ensures Held(nodes, index, key) && nodes[index[key]].refs == -1
    ensures WrittenBefore(settled, startIndex, key) ==> WrittenBefore(later, startIndex, key)
  {
    var p := index[key];
    if p in settled && settled[p].refs != 0 {
      assert Same(settled[p], nodes[p], pins[p]) && p in later;
    }
    if WrittenBefore(settled, startIndex, key) {
      assert Same(settled[startIndex[key]], nodes[startIndex[key]], pins[startIndex[key]]);
    }
  }

  /** The answer so far remains right while others complete. */
  lemma SharedAfter(keys: seq<int>, n: nat, a: Answer, start: Store, settled: Store, startIndex: map<int, Ptr>,
                    nodes: Store, index: map<int, Ptr>, later: Store)
    requires SharedOk(keys, n, a, start, settled, startIndex, nodes, index)
    requires Settles(settled, later) && Pinned(later, After(nodes, settled, later), multiset(a.foundPtr))
    requires Indexed(nodes, index) && Indexed(settled, startIndex)
    requires forall p :: p in settled ==> settled[p].refs >= -1
    ensures SharedOk(keys, n, a, start, later, startIndex, After(nodes, settled, later), index)
  {
    hide Split, FoundAnswer, MissingAll, NullsExplained, PointersDistinct, WritersKnown, Pinned, Settles, Indexed;
    hide After;
    var pins := multiset(a.foundPtr);
    FoundAfter(keys, nodes, index, a.found, a.foundPos, a.foundPtr, settled, later);
    MissingAfter(keys, nodes, index, settled, startIndex, a.missingAt, a.missing, a.missPos, a.missPtr, pins, later);
    WritersAfter(nodes, index, settled, startIndex, a.missing, a.missPtr, pins, later);
  }

  // ------------------------------------------------------------------
  // One key

  lemma MissingKept(keys: seq<int>, nodes: Store, index: map<int, Ptr>, settled: Store, startIndex: map<int, Ptr>,
                    missingAt: seq<int>, missing: seq<int>, positions: seq<int>, pointers: seq<MaybePtr>,
                    nodes': Store, index': map<int, Ptr>)
    requires MissingAll(keys, nodes, index, settled, startIndex, missingAt, missing, positions, pointers)
    requires HeldStay(nodes, index, nodes', index')
    ensures MissingAll(keys, nodes', index', settled, startIndex, missingAt, missing, positions, pointers)
  {
  }

  /** The pointer of an absent key's new entry has not been handed out. */
  lemma FreshPointer(keys: seq<int>, nodes: Store, index: map<int, Ptr>, settled: Store, startIndex: map<int, Ptr>,
                     missingAt: seq<int>, missing: seq<int>, positions: seq<int>, pointers: seq<MaybePtr>, p: Ptr)
    requires MissingAll(keys, nodes, index, settled, startIndex, missingAt, missing, positions, pointers)
    requires p !in nodes
    ensures To(p) !in pointers
  {
    forall j | 0 <= j < |pointers| && pointers[j].To?
      ensures pointers[j].ptr in nodes
    {
      assert MissingNow(keys, nodes, index, settled, startIndex, missingAt[j], missing[j], positions[j], pointers[j]);
    }
  }

  /** A key that is resident: found if readable, else answered with null. */
  lemma SharedResident(kind: Kind, keys: seq<int>, n: nat, a: Answer, start: Store, settled: Store,
                       startIndex: map<int, Ptr>, nodes: Store, index: map<int, Ptr>)
    requires SharedOk(keys, n, a, start, settled, startIndex, nodes, index) && n < |keys|
    requires Settles(start, settled) && keys[n] in index && index[keys[n]] in nodes
    requires (forall q :: q in nodes ==> nodes[q].refs >= -1) && (forall q :: q in start ==> start[q].refs >= -1)
    ensures var p := index[keys[n]]; var nodes' := nodes[p := Looked(kind, nodes[p])];
            SharedOk(keys, n + 1,
                     if nodes[p].BeingWritten()
                     then a.(missingAt := [n] + a.missingAt, missing := [keys[n]] + a.missing,
                             missPos := [UNSET_POS] + a.missPos, missPtr := [Null] + a.missPtr)
                     else a.(found := a.found + [n], foundPos := a.foundPos + [nodes'[p].pos],
                             foundPtr := a.foundPtr + [p]),
                     start, settled, startIndex, nodes', index)
  {
    hide Split, FoundAnswer, MissingAll, NullsExplained, PointersDistinct, WritersKnown, Pinned, HeldStay;
    hide Settles, WrittenBefore;
    var p := index[keys[n]];
    var nodes' := nodes[p := Looked(kind, nodes[p])];
    TouchedBasics(kind, nodes[p]);
    assert Touched(kind, nodes[p]).refs == nodes[p].refs;
    SettledRefs(start, settled);
    SplitGrows(a.found, a.missingAt, n);
    LookedStay(kind, nodes, index, p);
    FoundStays(keys, nodes, index, a.found, a.foundPos, a.foundPtr, nodes', index);
    MissingKept(keys, nodes, index, settled, startIndex, a.missingAt, a.missing, a.missPos, a.missPtr, nodes', index);
    WritersLook(kind, nodes, index, settled, startIndex, a.missing, a.missPtr, p);
    LookedPinned(kind, nodes, p);
    PinnedTrans(settled, nodes, nodes', multiset(a.foundPtr),
                if nodes[p].BeingWritten() then multiset{} else multiset{p});
    MissingLengths(keys, nodes, index, settled, startIndex, a);
    if nodes[p].BeingWritten() {
      WriterKnown(nodes', index, settled, startIndex, a.missing, a.missPtr, keys[n]);
      WrittenAtStart(start, settled, startIndex, keys[n]);
      NullsGrow(start, startIndex, a.missing, a.missPtr, keys[n], Null);
      MissingAdds(keys, n, nodes', index, settled, startIndex, a, UNSET_POS, Null);
      WritersNull(nodes', index, settled, startIndex, a.missing, a.missPtr, keys[n]);
      assert multiset(a.foundPtr) + multiset{} == multiset(a.foundPtr);
    } else {
      FoundNew(keys, n, nodes', index, a.found, a.foundPos, a.foundPtr);
      assert multiset(a.foundPtr + [p]) == multiset(a.foundPtr) + multiset{p};
    }
  }

  lemma SettledRefs(start: Store, settled: Store)
    requires Settles(start, settled) && forall q :: q in start ==> start[q].refs >= -1
    ensures forall q :: q in settled ==> settled[q].refs >= -1
  {
  }

  lemma WrittenAtStart(start: Store, settled: Store, startIndex: map<int, Ptr>, key: int)
    requires Settles(start, settled) && forall q :: q in start ==> start[q].refs >= -1
    ensures WrittenBefore(settled, startIndex, key) ==> WrittenBefore(start, startIndex, key)
  {
    if WrittenBefore(settled, startIndex, key) {
      assert Towards(start[startIndex[key]].refs, settled[startIndex[key]].refs);
    }
  }

  lemma MissingLengths(keys: seq<int>, nodes: Store, index: map<int, Ptr>, settled: Store,
                       startIndex: map<int, Ptr>, a: Answer)
    requires MissingAll(keys, nodes, index, settled, startIndex, a.missingAt, a.missing, a.missPos, a.missPtr)
    ensures |a.missing| == |a.missingAt| == |a.missPos| == |a.missPtr|
  {
  }

  lemma MissingAdds(keys: seq<int>, n: nat, nodes: Store, index: map<int, Ptr>, settled: Store,
                    startIndex: map<int, Ptr>, a: Answer, pos: int, pointer: MaybePtr)
    requires MissingAll(keys, nodes, index, settled, startIndex, a.missingAt, a.missing, a.missPos, a.missPtr)
    requires n < |keys| && MissingNow(keys, nodes, index, settled, startIndex, n, keys[n], pos, pointer)
    ensures MissingAll(keys, nodes, index, settled, startIndex, [n] + a.missingAt, [keys[n]] + a.missing,
                       [pos] + a.missPos, [pointer] + a.missPtr)
  {
    hide MissingNow;
  }

  /** A key that is absent: a new entry. */
  lemma SharedAbsent(keys: seq<int>, n: nat, a: Answer, start: Store, settled: Store, startIndex: map<int, Ptr>,
                     nodes: Store, index: map<int, Ptr>, usage: int, capacity: int, p: Ptr,
                     nodes': Store, usage': int, v: MaybePtr, index': map<int, Ptr>)
    requires SharedOk(keys, n, a, start, settled, startIndex, nodes, index) && n < |keys| && keys[n] !in index
    requires Inserted(nodes, usage, capacity, keys[n], p, nodes', usage', v) && Indexed(nodes, index)
    requires Indexed(nodes', index')
    requires index' == if v.To? then index[keys[n] := p] - {nodes[v.ptr].key} else index[keys[n] := p]
    requires (forall q :: q in settled ==> settled[q].refs >= -1) && Indexed(settled, startIndex)
    ensures p in nodes' && SharedOk(keys, n + 1,
                     a.(missingAt := [n] + a.missingAt, missing := [keys[n]] + a.missing,
                        missPos := [nodes'[p].pos] + a.missPos, missPtr := [To(p)] + a.missPtr),
                     start, settled, startIndex, nodes', index')
  {
    hide Split, FoundAnswer, MissingAll, NullsExplained, PointersDistinct, WritersKnown, HeldStay, Pinned, Indexed;
    SplitGrows(a.found, a.missingAt, n);
    NotWrittenBefore(settled, startIndex, nodes, index, multiset(a.foundPtr), keys[n]);
    InsertedStay(nodes, index, usage, capacity, keys[n], p, nodes', usage', v, index');
    FoundStays(keys, nodes, index, a.found, a.foundPos, a.foundPtr, nodes', index');
    MissingKept(keys, nodes, index, settled, startIndex, a.missingAt, a.missing, a.missPos, a.missPtr, nodes', index');
    WritersInsert(nodes, index, settled, startIndex, a.missing, a.missPtr, usage, capacity, keys[n], p, nodes', usage',
                  v, index');
    InsertedPinned(nodes, usage, capacity, keys[n], p, nodes', usage', v);
    PinnedTrans(settled, nodes, nodes', multiset(a.foundPtr), multiset{});
    assert multiset(a.foundPtr) + multiset{} == multiset(a.foundPtr);
    MissingLengths(keys, nodes, index, settled, startIndex, a);
    FreshPointer(keys, nodes, index, settled, startIndex, a.missingAt, a.missing, a.missPos, a.missPtr, p);
    NullsGrow(start, startIndex, a.missing, a.missPtr, keys[n], To(p));
    MissingAdds(keys, n, nodes', index', settled, startIndex, a, nodes'[p].pos, To(p));
  }

  // ------------------------------------------------------------------
  // A batch under way

  /** The first n keys are answered in round `clock`. */
  ghost predicate Underway(keys: seq<int>, n: nat, a: Answer, start: Store, startIndex: map<int, Ptr>, others: Others,
                           clock: nat, nodes: Store, index: map<int, Ptr>) {
    && Indexed(start, startIndex) && (forall q :: q in start ==> start[q].refs >= -1) && Honest(start, others)
    && SharedOk(keys, n, a, start, Done(start, others, clock), startIndex, nodes, index)
  }

  lemma UnderwayNone(keys: seq<int>, others: Others, nodes: Store, index: map<int, Ptr>)
    requires Indexed(nodes, index) && (forall q :: q in nodes ==> nodes[q].refs >= -1) && Honest(nodes, others)
    ensures Underway(keys, 0, Answer([], [], [], [], [], [], []), nodes, index, others, 0, nodes, index)
  {
    hide SharedOk, Honest, Indexed;
    DoneStart(nodes, others);
    SharedNone(keys, nodes, index);
  }

  lemma SharedPinned(keys: seq<int>, n: nat, a: Answer, start: Store, settled: Store, startIndex: map<int, Ptr>,
                     nodes: Store, index: map<int, Ptr>)
    requires SharedOk(keys, n, a, start, settled, startIndex, nodes, index)
    ensures Pinned(settled, nodes, multiset(a.foundPtr))
  {
  }

  /** What holds of the nodes before the batch with the completions so far. */
  lemma SettledFacts(keys: seq<int>, n: nat, a: Answer, start: Store, startIndex: map<int, Ptr>, others: Others,
                     clock: nat, nodes: Store, index: map<int, Ptr>)
    requires Underway(keys, n, a, start, startIndex, others, clock, nodes, index)
    ensures var settled := Done(start, others, clock);
      && Settles(start, settled) && Indexed(settled, startIndex) && (forall q :: q in settled ==> settled[q].refs >= -1)
      && Pinned(settled, nodes, multiset(a.foundPtr))
  {
    hide Done, SharedOk, Honest, Settles, Indexed;
    DoneStart(start, others);
    DoneSettles(start, others, 0, clock);
    SettledRefs(start, Done(start, others, clock));
    SettledIndexed(start, Done(start, others, clock), startIndex);
    SharedPinned(keys, n, a, start, Done(start, others, clock), startIndex, nodes, index);
  }

  lemma UnderwayTime(keys: seq<int>, n: nat, a: Answer, start: Store, startIndex: map<int, Ptr>, others: Others,
                     clock: nat, nodes: Store, index: map<int, Ptr>, t: nat)
    requires Underway(keys, n, a, start, startIndex, others, clock, nodes, index) && Indexed(nodes, index)
    ensures Underway(keys, n, a, start, startIndex, others, clock + t, Done(nodes, Later(others, clock), t), index)
  {
    hide Done, SharedOk, Honest, Settles, Indexed, Pinned, After, Later;
    SettledFacts(keys, n, a, start, startIndex, others, clock, nodes, index);
    DonePinned(start, others, clock, nodes, multiset(a.foundPtr), t);
    DoneSettles(start, others, clock, clock + t);
    SharedAfter(keys, n, a, start, Done(start, others, clock), startIndex, nodes, index,
                Done(start, others, clock + t));
  }

  // ------------------------------------------------------------------
  // Room when everything has been completed

  /** Spare room once nothing more completes. */
  ghost function SpareAtLast(nodes: Store, start: Store, others: Others, clock: nat, horizon: nat, usage: int,
                             capacity: int, target: int): int {
    Spare(After(nodes, Done(start, others, clock), Done(start, others, horizon)), usage, capacity, target)
  }

  lemma SpareTime(nodes: Store, start: Store, others: Others, clock: nat, horizon: nat, usage: int, capacity: int,
                  target: int, pins: multiset<Ptr>, t: nat)
    requires Honest(start, others) && Pinned(Done(start, others, clock), nodes, pins)
    ensures SpareAtLast(Done(nodes, Later(others, clock), t), start, others, clock + t, horizon, usage, capacity,
                        target)
         == SpareAtLast(nodes, start, others, clock, horizon, usage, capacity, target)
  {
    hide Done, Honest, Pinned, After, Later, Spare;
    DonePinned(start, others, clock, nodes, pins, t);
    DoneKeys(start, others, clock);
    DoneKeys(start, others, clock + t);
    DoneKeys(start, others, horizon);
    AfterTrans(nodes, Done(start, others, clock), Done(start, others, clock + t), Done(start, others, horizon));
  }

  lemma SpareLoses(a: Store, b: Store, p: Ptr, usage: int, capacity: int, target: int)
    requires Unpinned(a) - {p} <= Unpinned(b)
    ensures Spare(b, usage, capacity, target) >= Spare(a, usage, capacity, target) - 1
  {
    SubsetSize(Unpinned(a) - {p}, Unpinned(b));
  }

  lemma SpareLook(kind: Kind, nodes: Store, p: Ptr, settled: Store, last: Store, usage: int, capacity: int,
                  target: int)
    requires p in nodes
    ensures Spare(After(nodes[p := Looked(kind, nodes[p])], settled, last), usage, capacity, target)
         >= Spare(After(nodes, settled, last), usage, capacity, target) - 1
  {
    hide Spare, Looked;
    SpareLoses(After(nodes, settled, last), After(nodes[p := Looked(kind, nodes[p])], settled, last), p, usage,
               capacity, target);
  }

  lemma SpareInsert(nodes: Store, usage: int, capacity: int, key: int, p: Ptr, nodes': Store, usage': int,
                    v: MaybePtr, settled: Store, last: Store, target: int)
    requires Inserted(nodes, usage, capacity, key, p, nodes', usage', v)
    ensures Spare(After(nodes', settled, last), usage', capacity, target)
         >= Spare(After(nodes, settled, last), usage, capacity, target) - 1
  {
    hide Inserted, After, Unpinned;
    InsertedUsage(nodes, usage, capacity, key, p, nodes', usage', v);
    var a, b := After(nodes, settled, last), After(nodes', settled, last);
    var gone := if v.To? then {v.ptr} else {};
    forall x | x in Unpinned(a) - gone ensures x in Unpinned(b) {
      InsertKeeps(nodes, usage, capacity, key, p, nodes', usage', v, settled, last, x);
    }
    SubsetSize(Unpinned(a) - gone, Unpinned(b));
  }

  lemma InsertedUsage(nodes: Store, usage: int, capacity: int, key: int, p: Ptr, nodes': Store, usage': int,
                      v: MaybePtr)
    requires Inserted(nodes, usage, capacity, key, p, nodes', usage', v)
    ensures usage' == usage + if v.To? then 0 else 1
  {
  }

  lemma InsertKeeps(nodes: Store, usage: int, capacity: int, key: int, p: Ptr, nodes': Store, usage': int,
                    v: MaybePtr, settled: Store, last: Store, x: Ptr)
    requires Inserted(nodes, usage, capacity, key, p, nodes', usage', v)
    requires x in Unpinned(After(nodes, settled, last)) && (v.To? ==> x != v.ptr)
    ensures x in Unpinned(After(nodes', settled, last))
  {
  }

  // ------------------------------------------------------------------
  // The batch operations

  /** Whether an insertion ends, when nothing completes from round `horizon` on. */
  predicate InsertsBy(policy: CachePolicy, key: int, others: Others, horizon: nat)
    reads policy
  {
    var less := if policy.kind == S3Fifo && key !in policy.ghostSet then 1 else 0;
    policy.usage < policy.capacity
    || (policy.smallTarget >= less
        && CanEvict(Done(policy.nodes, others, horizon), policy.small, policy.main, policy.smallTarget - less))
  }

  lemma InsertsByIsLater(policy: CachePolicy, key: int, others: Others, horizon: nat)
    requires Over(others, horizon)
    ensures InsertsBy(policy, key, others, horizon) <==> InsertsLater(policy, key, others)
  {
    hide Done, CanEvict, Over;
    if InsertsBy(policy, key, others, horizon) && policy.usage >= policy.capacity {
      assert OpensFor(policy, key, others, horizon);
    }
    if e: nat :| OpensFor(policy, key, others, e) {
      if e < horizon {
        DoneSettles(policy.nodes, others, e, horizon);
      } else {
        DoneOver(policy.nodes, others, horizon, e);
        SettlesRefl(Done(policy.nodes, others, e));
      }
      var less := if policy.kind == S3Fifo && key !in policy.ghostSet then 1 else 0;
      CanEvictSettled(Done(policy.nodes, others, e), Done(policy.nodes, others, horizon), policy.small, policy.main,
                      policy.smallTarget - less);
    }
  }

  lemma SettlesRefl(nodes: Store)
    ensures Settles(nodes, nodes)
  {
  }

  lemma CanEvictSettled(a: Store, b: Store, small: seq<Ptr>, main: seq<Ptr>, target: int)
    requires Settles(a, b) && CanEvict(a, small, main, target)
    ensures CanEvict(b, small, main, target)
  {
    hide HasUnpinned, Settles;
    SettledUnpinned(Scanned(small, main, target), a, b);
  }

  /** With room left in the end, no insertion waits forever. */
  lemma RoomInsertsBy(policy: CachePolicy, key: int, start: Store, others: Others, clock: nat, horizon: nat,
                      pins: multiset<Ptr>)
    requires policy.Valid() && Honest(start, others) && Over(others, horizon)
    requires Pinned(Done(start, others, clock), policy.nodes, pins)
    requires SpareAtLast(policy.nodes, start, others, clock, horizon, policy.usage, policy.capacity,
                         policy.smallTarget) >= 1
    ensures InsertsBy(policy, key, Later(others, clock), horizon)
  {
    hide Done, Honest, Pinned, Over, After, Later, Slotted, Indexed, CanEvict, Queued, Counted;
    if policy.usage >= policy.capacity {
      var last := Done(policy.nodes, Later(others, clock), horizon);
      DonePinned(start, others, clock, policy.nodes, pins, horizon);
      DoneOver(start, others, horizon, clock + horizon);
      DoneQueued(policy.nodes, Later(others, clock), horizon, policy.small, policy.main);
      var less := if policy.kind == S3Fifo && key !in policy.ghostSet then 1 else 0;
      assert policy.smallTarget >= less by { TargetCovers(policy, key); }
      UnpinnedScanned(last, policy.small, policy.main, policy.smallTarget - less);
    }
  }

  lemma TargetCovers(policy: CachePolicy, key: int)
    requires policy.Valid()
    ensures policy.smallTarget >= if policy.kind == S3Fifo && key !in policy.ghostSet then 1 else 0
  {
  }

  /** Other threads complete between two steps of the batch. */
  method CompleteRound(policy: CachePolicy, cs: seq<Completion>)
    requires policy.Valid()
    modifies policy`nodes
    ensures policy.Valid() && policy.nodes == CompleteAll(old(policy.nodes), cs)
  {
    hide CachePolicy.GhostOk, KindOk, CompleteAll, Slotted, Indexed, Counted, Queued;
    CompletedValid(policy.kind, policy.nodes, policy.index, policy.usage, policy.capacity, policy.small, policy.main,
                   cs);
    policy.nodes := CompleteAll(policy.nodes, cs);
  }

  lemma CompletedValid(kind: Kind, nodes: Store, index: map<int, Ptr>, usage: int, capacity: int, small: seq<Ptr>,
                       main: seq<Ptr>, cs: seq<Completion>)
    requires Indexed(nodes, index) && Slotted(nodes, usage, capacity) && Counted(kind, nodes)
    requires Queued(nodes, small, main)
    ensures var d := CompleteAll(nodes, cs);
      Indexed(d, index) && Slotted(d, usage, capacity) && Counted(kind, d) && Queued(d, small, main)
  {
    hide *;
    var d := CompleteAll(nodes, cs);
    CompleteSettles(nodes, cs);
    SettledIndexed(nodes, d, index);
    SettledSlotted(nodes, d, usage, capacity);
    SettledCounted(kind, nodes, d);
    SettledQueued(nodes, d, small, main);
  }

  /** Spare room of a policy once nothing more completes. */
  ghost function RoomAtLast(policy: CachePolicy, start: Store, others: Others, clock: nat, horizon: nat): int
    reads policy`nodes, policy`usage
  {
    SpareAtLast(policy.nodes, start, others, clock, horizon, policy.usage, policy.capacity, policy.smallTarget)
  }

  ghost predicate UnderwayNow(policy: CachePolicy, keys: seq<int>, n: nat, a: Answer, start: Store,
                              startIndex: map<int, Ptr>, others: Others, clock: nat)
    reads policy`nodes, policy`index
  {
    Underway(keys, n, a, start, startIndex, others, clock, policy.nodes, policy.index)
  }

  /** A round of completions before a lookup. */
  method RoundNow(policy: CachePolicy, keys: seq<int>, n: nat, a: Answer, others: Others, clock: nat,
                  ghost horizon: nat, ghost start: Store, ghost startIndex: map<int, Ptr>)
    requires policy.Valid() && UnderwayNow(policy, keys, n, a, start, startIndex, others, clock)
    modifies policy`nodes
    ensures policy.Valid() && UnderwayNow(policy, keys, n, a, start, startIndex, others, clock + 1)
    ensures RoomAtLast(policy, start, others, clock + 1, horizon)
         == old(RoomAtLast(policy, start, others, clock, horizon))
  {
    hide Underway, Done, SpareAtLast, Slotted, Counted, Queued, KindOk, CachePolicy.GhostOk, Honest, Pinned;
    ghost var nodes := policy.nodes;
    UnderwayTime(keys, n, a, start, startIndex, others, clock, nodes, policy.index, 1);
    SettledFacts(keys, n, a, start, startIndex, others, clock, nodes, policy.index);
    UnderwayHonest(keys, n, a, start, startIndex, others, clock, nodes, policy.index);
    SpareTime(nodes, start, others, clock, horizon, policy.usage, policy.capacity, policy.smallTarget,
              multiset(a.foundPtr), 1);
    OneRound(nodes, others, clock);
    CompleteRound(policy, others(clock));
  }

  lemma OneRound(nodes: Store, others: Others, clock: nat)
    ensures Done(nodes, Later(others, clock), 1) == CompleteAll(nodes, others(clock))
  {
    DoneNext(nodes, Later(others, clock), 0);
    DoneStart(nodes, Later(others, clock));
  }

  lemma UnderwayHonest(keys: seq<int>, n: nat, a: Answer, start: Store, startIndex: map<int, Ptr>, others: Others,
                       clock: nat, nodes: Store, index: map<int, Ptr>)
    requires Underway(keys, n, a, start, startIndex, others, clock, nodes, index)
    ensures Honest(start, others) && Indexed(start, startIndex) && forall q :: q in start ==> start[q].refs >= -1
    ensures Split(a.found, a.missingAt, n)
  {
    hide Done, Honest, Indexed;
  }

  lemma ReadStays(start: Store, startIndex: map<int, Ptr>, settled: Store, nodes: Store, index: map<int, Ptr>,
                  pins: multiset<Ptr>, key: int)
    requires Pinned(settled, nodes, pins) && Indexed(nodes, index) && Indexed(settled, startIndex)
    requires BeingRead(settled, startIndex, key)
    ensures Readable(nodes, index, key)
  {
    assert Same(settled[startIndex[key]], nodes[startIndex[key]], pins[startIndex[key]]);
  }

  lemma ReadEarlier(start: Store, startIndex: map<int, Ptr>, others: Others, clock: nat, later: nat, key: int)
    requires clock <= later
    ensures BeingRead(Done(start, others, later), startIndex, key) ==>
      BeingRead(Done(start, others, clock), startIndex, key)
  {
    hide Done;
    DoneSettles(start, others, clock, later);
  }

  /** A key that `Emplace` finds resident. */
  method ResidentNow(policy: CachePolicy, keys: seq<int>, n: nat, a: Answer, ghost others: Others, ghost clock: nat,
                     ghost horizon: nat, ghost start: Store, ghost startIndex: map<int, Ptr>)
    returns (b: Answer)
    requires policy.Valid() && UnderwayNow(policy, keys, n, a, start, startIndex, others, clock)
    requires n < |keys| && keys[n] in policy.index
    modifies policy`nodes, policy`main
    ensures policy.Valid() && UnderwayNow(policy, keys, n + 1, b, start, startIndex, others, clock)
    ensures KeyOutcome(keys, n, a, b)
    ensures BeingRead(Done(start, others, clock), startIndex, keys[n]) ==> b.found == a.found + [n]
    ensures RoomAtLast(policy, start, others, clock, horizon)
         >= old(RoomAtLast(policy, start, others, clock, horizon)) - 1
  {
    hide Done, Spare, Slotted, Counted, Queued, KindOk, CachePolicy.GhostOk, Honest, Pinned, SharedOk, After, Settles;
    hide BeingRead, Readable, Split, Linked;
    b := a;
    var key := keys[n];
    ghost var nodes, index := policy.nodes, policy.index;
    ghost var settled := Done(start, others, clock);
    CountedRefs(policy.kind, nodes);
    SettledFacts(keys, n, a, start, startIndex, others, clock, nodes, index);
    var it, readable := policy.Emplace(key);
    SharedResident(policy.kind, keys, n, a, start, settled, startIndex, nodes, index);
    SpareLook(policy.kind, nodes, it.ptr, settled, Done(start, others, horizon), policy.usage, policy.capacity,
              policy.smallTarget);
    if BeingRead(settled, startIndex, key) {
      ReadStays(start, startIndex, settled, nodes, index, multiset(a.foundPtr), key);
      ReadableNow(nodes, index, key);
    }
    if readable {
      b := b.(found := b.found + [n], foundPos := b.foundPos + [policy.nodes[it.ptr].pos],
              foundPtr := b.foundPtr + [it.ptr]);
    } else {
      b := b.(missingAt := [n] + b.missingAt, missing := [key] + b.missing,
              missPos := [UNSET_POS] + b.missPos, missPtr := [Null] + b.missPtr);
    }
  }

  lemma ReadableNow(nodes: Store, index: map<int, Ptr>, key: int)
    requires key in index && index[key] in nodes
    ensures Readable(nodes, index, key) <==> !nodes[index[key]].BeingWritten()
  {
  }

  /** A key that `Emplace` does not find: a new entry, as soon as there is a victim. */
  method AbsentNow(policy: CachePolicy, keys: seq<int>, n: nat, a: Answer, others: Others, clock: nat,
                   ghost horizon: nat, ghost start: Store, ghost startIndex: map<int, Ptr>)
    returns (b: Answer, clock': nat)
    requires policy.Valid() && UnderwayNow(policy, keys, n, a, start, startIndex, others, clock)
    requires n < |keys| && keys[n] !in policy.index && InsertsLater(policy, keys[n], Later(others, clock))
    modifies policy, policy.ghostQueue, policy.ghostQueue.data
    ensures policy.Valid() && clock <= clock'
    ensures UnderwayNow(policy, keys, n + 1, b, start, startIndex, others, clock')
    ensures KeyOutcome(keys, n, a, b)
    ensures !BeingRead(Done(start, others, clock'), startIndex, keys[n])
    ensures RoomAtLast(policy, start, others, clock', horizon)
         >= old(RoomAtLast(policy, start, others, clock, horizon)) - 1
  {
    hide Done, Slotted, Counted, Queued, KindOk, CachePolicy.GhostOk, Honest, Pinned, SharedOk, Settles, Inserted;
    hide BeingRead, Readable, Split, Linked, InsertsLater, Indexed, Published, Underway, SpareAtLast;
    var key := keys[n];
    ghost var nodes, index, usage := policy.nodes, policy.index, policy.usage;
    SettledFacts(keys, n, a, start, startIndex, others, clock, nodes, index);
    UnderwayHonest(keys, n, a, start, startIndex, others, clock, nodes, index);
    HonestPublished(start, others, clock, nodes, multiset(a.foundPtr));
    var p, turns;
    ghost var v;
    p, v, turns := InsertShared(policy, key, Later(others, clock));
    clock' := clock + turns;
    InsertedHas(Done(nodes, Later(others, clock), turns), usage, policy.capacity, key, p, policy.nodes, policy.usage,
                v);
    b := AbsentDone(policy, keys, n, a, others, clock, horizon, start, startIndex, nodes, index, usage, p, v, turns);
  }

  /** The answer once the entry has been inserted. */
  method AbsentDone(policy: CachePolicy, keys: seq<int>, n: nat, a: Answer, ghost others: Others, ghost clock: nat,
                    ghost horizon: nat, ghost start: Store, ghost startIndex: map<int, Ptr>, ghost nodes: Store,
                    ghost index: map<int, Ptr>, ghost usage: int, p: Ptr, ghost v: MaybePtr, ghost turns: nat)
    returns (b: Answer)
    requires policy.Valid() && n < |keys| && keys[n] !in index && Indexed(nodes, index)
    requires Underway(keys, n, a, start, startIndex, others, clock, nodes, index)
    requires var d := Done(nodes, Later(others, clock), turns);
      && Inserted(d, usage, policy.capacity, keys[n], p, policy.nodes, policy.usage, v)
      && (v.To? ==> v.ptr in d)
      && policy.index == if v.To? then index[keys[n] := p] - {d[v.ptr].key} else index[keys[n] := p]
    ensures UnderwayNow(policy, keys, n + 1, b, start, startIndex, others, clock + turns)
    ensures KeyOutcome(keys, n, a, b)
    ensures !BeingRead(Done(start, others, clock + turns), startIndex, keys[n])
    ensures RoomAtLast(policy, start, others, clock + turns, horizon)
         >= SpareAtLast(nodes, start, others, clock, horizon, usage, policy.capacity, policy.smallTarget) - 1
  {
    hide Done, Slotted, Counted, Queued, KindOk, CachePolicy.GhostOk, Honest, Pinned, SharedOk, Settles, Inserted;
    hide Split, Linked, Spare, After, Later;
    ghost var d, settled := Done(nodes, Later(others, clock), turns), Done(start, others, clock + turns);
    SettledFacts(keys, n, a, start, startIndex, others, clock, nodes, index);
    UnderwayTime(keys, n, a, start, startIndex, others, clock, nodes, index, turns);
    SettledFacts(keys, n, a, start, startIndex, others, clock + turns, d, index);
    SpareTime(nodes, start, others, clock, horizon, usage, policy.capacity, policy.smallTarget, multiset(a.foundPtr),
              turns);
    DoneIndexed(nodes, index, Later(others, clock), turns);
    InsertedHas(d, usage, policy.capacity, keys[n], p, policy.nodes, policy.usage, v);
    SharedAbsent(keys, n, a, start, settled, startIndex, d, index, usage, policy.capacity, p, policy.nodes,
                 policy.usage, v, policy.index);
    SpareInsert(d, usage, policy.capacity, keys[n], p, policy.nodes, policy.usage, v, settled,
                Done(start, others, horizon), policy.smallTarget);
    NotWrittenBefore(settled, startIndex, d, index, multiset(a.foundPtr), keys[n]);
    b := a.(missingAt := [n] + a.missingAt, missing := [keys[n]] + a.missing,
            missPos := [policy.nodes[p].pos] + a.missPos, missPtr := [To(p)] + a.missPtr);
  }

  lemma DoneIndexed(nodes: Store, index: map<int, Ptr>, others: Others, t: nat)
    requires Indexed(nodes, index)
    ensures Indexed(Done(nodes, others, t), index)
  {
    hide Done;
    DoneStart(nodes, others);
    DoneSettles(nodes, others, 0, t);
    SettledIndexed(nodes, Done(nodes, others, t), index);
  }

  lemma InsertedHas(nodes: Store, usage: int, capacity: int, key: int, p: Ptr, nodes': Store, usage': int,
                    v: MaybePtr)
    requires Inserted(nodes, usage, capacity, key, p, nodes', usage', v)
    ensures p in nodes' && (v.To? ==> v.ptr in nodes)
  {
  }

  lemma LaterOver(others: Others, clock: nat, horizon: nat)
    requires Over(others, horizon)
    ensures Over(Later(others, clock), horizon)
  {
  }

  /** One key of a batch; it is stuck if its insertion never ends. */
  method KeyNow(policy: CachePolicy, keys: seq<int>, n: nat, a: Answer, others: Others, clock: nat, horizon: nat,
                ghost start: Store, ghost startIndex: map<int, Ptr>)
    returns (b: Answer, clock': nat, stuck: bool)
    requires policy.Valid() && UnderwayNow(policy, keys, n, a, start, startIndex, others, clock)
    requires n < |keys| && Over(others, horizon)
    modifies policy, policy.ghostQueue, policy.ghostQueue.data
    ensures policy.Valid() && clock <= clock'
    ensures UnderwayNow(policy, keys, if stuck then n else n + 1, b, start, startIndex, others, clock')
    ensures stuck ==> b == a && keys[n] !in policy.index && !InsertsLater(policy, keys[n], Later(others, clock'))
    ensures !stuck ==> KeyOutcome(keys, n, a, b)
    ensures !stuck && BeingRead(Done(start, others, clock'), startIndex, keys[n]) ==> b.found == a.found + [n]
    ensures stuck ==> old(RoomAtLast(policy, start, others, clock, horizon)) < 1
    ensures !stuck ==>
      RoomAtLast(policy, start, others, clock', horizon)
      >= old(RoomAtLast(policy, start, others, clock, horizon)) - 1
  {
    hide Done, Slotted, Counted, Queued, KindOk, CachePolicy.GhostOk, Honest, Pinned, SharedOk, Settles, KeyOutcome;
    hide Split, Linked, InsertsLater, Indexed, Underway, SpareAtLast, Over, InsertsBy, Readable, BeingRead;
    RoundNow(policy, keys, n, a, others, clock, horizon, start, startIndex);
    b, clock', stuck := a, clock + 1, false;
    LaterOver(others, clock', horizon);
    if keys[n] in policy.index {
      b := ResidentNow(policy, keys, n, a, others, clock', horizon, start, startIndex);
    } else {
      InsertsByIsLater(policy, keys[n], Later(others, clock'), horizon);
      SettledFacts(keys, n, a, start, startIndex, others, clock', policy.nodes, policy.index);
      UnderwayHonest(keys, n, a, start, startIndex, others, clock', policy.nodes, policy.index);
      RoomOrWait(policy, keys[n], start, others, clock', horizon, multiset(a.foundPtr));
      if InsertsBy(policy, keys[n], Later(others, clock'), horizon) {
        b, clock' := AbsentNow(policy, keys, n, a, others, clock', horizon, start, startIndex);
      } else {
        stuck := true;
      }
    }
  }

  lemma RoomOrWait(policy: CachePolicy, key: int, start: Store, others: Others, clock: nat, horizon: nat,
                   pins: multiset<Ptr>)
    requires policy.Valid() && Honest(start, others) && Over(others, horizon)
    requires Pinned(Done(start, others, clock), policy.nodes, pins)
    ensures RoomAtLast(policy, start, others, clock, horizon) >= 1 ==>
      InsertsBy(policy, key, Later(others, clock), horizon)
  {
    hide *;
    hide CachePolicy.Valid;
    if RoomAtLast(policy, start, others, clock, horizon) >= 1 {
      AtLast(policy, start, others, clock, horizon);
      RoomInsertsBy(policy, key, start, others, clock, horizon, pins);
    }
  }

  lemma AtLast(policy: CachePolicy, start: Store, others: Others, clock: nat, horizon: nat)
    ensures RoomAtLast(policy, start, others, clock, horizon)
         == SpareAtLast(policy.nodes, start, others, clock, horizon, policy.usage, policy.capacity,
                        policy.smallTarget)
  {
    hide SpareAtLast;
  }

  /** The room there will be once nothing more completes, judged before a batch. */
  ghost function FinalRoom(policy: CachePolicy, others: Others, horizon: nat): int
    reads policy`nodes, policy`usage
  {
    Spare(Done(policy.nodes, others, horizon), policy.usage, policy.capacity, policy.smallTarget)
  }

  /** If everything handed out is completed, that is all but what the small queue shelters. */
  lemma DrainedRoom(policy: CachePolicy, others: Others, horizon: nat)
    requires policy.Valid()
    requires forall p :: p in Done(policy.nodes, others, horizon) ==> Done(policy.nodes, others, horizon)[p].refs == 0
    ensures FinalRoom(policy, others, horizon) >= policy.capacity - policy.smallTarget
  {
    hide Done, Queued, Counted, KindOk, Linked, CachePolicy.GhostOk;
    var last := Done(policy.nodes, others, horizon);
    DoneKeys(policy.nodes, others, horizon);
    assert Unpinned(last) == policy.nodes.Keys;
    assert |policy.nodes.Keys| == |policy.nodes|;
  }

  lemma RoomAtStart(policy: CachePolicy, others: Others, horizon: nat)
    ensures RoomAtLast(policy, policy.nodes, others, 0, horizon) == FinalRoom(policy, others, horizon)
  {
    hide Done;
    DoneStart(policy.nodes, others);
    DoneSettles(policy.nodes, others, 0, horizon);
    assert After(policy.nodes, policy.nodes, Done(policy.nodes, others, horizon))
        == Done(policy.nodes, others, horizon);
  }

  /** `QueryAndReplaceImpl`: the batch waits for the completions it needs. It ends unless
      an insertion can never end, and it does end if there is room for its keys once
      everything handed out before it is completed. Round `clock` is the last. */
  method QueryAndReplaceShared(policy: CachePolicy, keys: seq<int>, others: Others, horizon: nat)
    returns (positions: seq<int>, indices: seq<int>, pointers: seq<MaybePtr>, missing: seq<int>, done: nat,
             clock: nat, ghost answer: Answer)
    requires policy.Valid() && Honest(policy.nodes, others) && Over(others, horizon)
    modifies policy, policy.ghostQueue, policy.ghostQueue.data
    ensures policy.Valid() && done <= |keys|
    ensures done < |keys| ==>
      keys[done] !in policy.index && !InsertsLater(policy, keys[done], Later(others, clock))
    ensures |keys| <= old(FinalRoom(policy, others, horizon)) ==> done == |keys|
    ensures SharedOk(keys, done, answer, old(policy.nodes), Done(old(policy.nodes), others, clock), old(policy.index),
                     policy.nodes, policy.index)
    ensures positions == answer.foundPos + answer.missPos && indices == answer.found + answer.missingAt
    ensures pointers == Pointers(answer.foundPtr) + answer.missPtr && missing == answer.missing
  {
    hide Done, Slotted, Counted, Queued, KindOk, CachePolicy.GhostOk, Honest, SharedOk, KeyOutcome, Spare, Pointers;
    hide Linked, InsertsLater, Indexed, Underway, SpareAtLast, Over, BeingRead, RoomAtLast, FinalRoom;
    var a := Answer([], [], [], [], [], [], []);
    ghost var start, startIndex := policy.nodes, policy.index;
    CountedRefs(policy.kind, start);
    UnderwayNone(keys, others, start, startIndex);
    RoomAtStart(policy, others, horizon);
    done, clock := 0, 0;
    var stuck := false;
    while done < |keys| && !stuck
      invariant policy.Valid() && done <= |keys|
      invariant UnderwayNow(policy, keys, done, a, start, startIndex, others, clock)
      invariant stuck ==>
        done < |keys| && keys[done] !in policy.index && !InsertsLater(policy, keys[done], Later(others, clock))
      invariant |keys| <= old(RoomAtLast(policy, policy.nodes, others, 0, horizon)) ==>
        !stuck && RoomAtLast(policy, start, others, clock, horizon) >= |keys| - done
      decreases |keys| - done, !stuck
    {
      a, clock, stuck := KeyNow(policy, keys, done, a, others, clock, horizon, start, startIndex);
      if !stuck { done := done + 1; }
    }
    UnderwayAnswer(keys, done, a, start, startIndex, others, clock, policy.nodes, policy.index);
    answer := a;
    positions, indices := a.foundPos + a.missPos, a.found + a.missingAt;
    pointers, missing := Pointers(a.foundPtr) + a.missPtr, a.missing;
  }

  lemma UnderwayAnswer(keys: seq<int>, n: nat, a: Answer, start: Store, startIndex: map<int, Ptr>, others: Others,
                       clock: nat, nodes: Store, index: map<int, Ptr>)
    requires Underway(keys, n, a, start, startIndex, others, clock, nodes, index)
    ensures SharedOk(keys, n, a, start, Done(start, others, clock), startIndex, nodes, index)
  {
    hide SharedOk, Done, Honest, Indexed;
  }

  /** What a batch finds was resident before it, and may be read by the end of it. */
  lemma FoundAtStart(keys: seq<int>, n: nat, a: Answer, start: Store, startIndex: map<int, Ptr>, others: Others,
                     clock: nat, nodes: Store, index: map<int, Ptr>)
    requires Underway(keys, n, a, start, startIndex, others, clock, nodes, index) && Indexed(nodes, index)
    ensures |a.foundPtr| == |a.found|
    ensures forall i :: i in a.found ==>
      0 <= i < |keys| && Readable(Done(start, others, clock), startIndex, keys[i])
  {
    hide Split, MissingAll, WritersKnown, Done, Honest, NullsExplained, PointersDistinct;
    SettledFacts(keys, n, a, start, startIndex, others, clock, nodes, index);
    forall i | i in a.found ensures 0 <= i < |keys| && Readable(Done(start, others, clock), startIndex, keys[i]) {
      var j :| 0 <= j < |a.found| && a.found[j] == i;
      assert a.foundPtr[j] in multiset(a.foundPtr);
      assert nodes[a.foundPtr[j]].key == keys[i];
    }
  }

  /** Keys being read throughout are found. */
  ghost predicate LeaksNow(keys: seq<int>, n: nat, a: Answer, settled: Store, startIndex: map<int, Ptr>) {
    && n <= |keys| && forall i :: 0 <= i < n && BeingRead(settled, startIndex, keys[i]) ==> i in a.found
  }

  lemma LeaksStay(keys: seq<int>, n: nat, a: Answer, start: Store, startIndex: map<int, Ptr>, others: Others,
                  clock: nat, later: nat)
    requires LeaksNow(keys, n, a, Done(start, others, clock), startIndex) && clock <= later
    ensures LeaksNow(keys, n, a, Done(start, others, later), startIndex)
  {
    hide Done, BeingRead;
    forall i | 0 <= i < n && BeingRead(Done(start, others, later), startIndex, keys[i]) ensures i in a.found {
      ReadEarlier(start, startIndex, others, clock, later, keys[i]);
    }
  }

  lemma LeaksLater(keys: seq<int>, n: nat, a: Answer, b: Answer, start: Store, startIndex: map<int, Ptr>,
                   others: Others, clock: nat, later: nat)
    requires n < |keys| && LeaksNow(keys, n, a, Done(start, others, clock), startIndex) && clock <= later
    requires KeyOutcome(keys, n, a, b)
    requires BeingRead(Done(start, others, later), startIndex, keys[n]) ==> b.found == a.found + [n]
    ensures LeaksNow(keys, n + 1, b, Done(start, others, later), startIndex)
  {
    hide Done, BeingRead;
    LeaksStay(keys, n, a, start, startIndex, others, clock, later);
    assert b.found != a.found ==> b.found == a.found + [n];
    forall i | i in a.found || (i == n && b.found == a.found + [n]) ensures i in b.found {
      assert b.found[..|a.found|] == a.found;
    }
  }

  /** `ReplaceImpl` likewise: it hands out no pointer for the keys it finds, so their
      pins, answer.foundPtr, are never released. Every such key was resident before the
      batch; a key that is being read throughout is among them. */
  method ReplaceShared(policy: CachePolicy, keys: seq<int>, others: Others, horizon: nat)
    returns (positions: seq<int>, pointers: seq<MaybePtr>, done: nat, clock: nat, ghost answer: Answer)
    requires policy.Valid() && Honest(policy.nodes, others) && Over(others, horizon)
    modifies policy, policy.ghostQueue, policy.ghostQueue.data
    ensures policy.Valid() && done <= |keys|
    ensures done < |keys| ==>
      keys[done] !in policy.index && !InsertsLater(policy, keys[done], Later(others, clock))
    ensures |keys| <= old(FinalRoom(policy, others, horizon)) ==> done == |keys|
    ensures SharedOk(keys, done, answer, old(policy.nodes), Done(old(policy.nodes), others, clock), old(policy.index),
                     policy.nodes, policy.index)
    ensures ReplaceAnswer(done, answer, positions, pointers)
    ensures var settled := Done(old(policy.nodes), others, clock);
      && (forall i :: i in answer.found ==> 0 <= i < done && Readable(settled, old(policy.index), keys[i]))
      && (forall i :: 0 <= i < done && BeingRead(settled, old(policy.index), keys[i]) ==> i in answer.found)
  {
    hide Done, Slotted, Counted, Queued, KindOk, CachePolicy.GhostOk, Honest, SharedOk, KeyOutcome, Spare, Pointers;
    hide Linked, InsertsLater, Indexed, Underway, SpareAtLast, Over, BeingRead, RoomAtLast, FinalRoom, ReplaceAnswer;
    hide Readable;
    positions, pointers := [], [];
    var a := Answer([], [], [], [], [], [], []);
    ghost var start, startIndex := policy.nodes, policy.index;
    CountedRefs(policy.kind, start);
    UnderwayNone(keys, others, start, startIndex);
    RoomAtStart(policy, others, horizon);
    ReplaceNone();
    done, clock := 0, 0;
    var stuck := false;
    while done < |keys| && !stuck
      invariant policy.Valid() && done <= |keys|
      invariant UnderwayNow(policy, keys, done, a, start, startIndex, others, clock)
      invariant ReplaceAnswer(done, a, positions, pointers)
      invariant LeaksNow(keys, done, a, Done(start, others, clock), startIndex)
      invariant stuck ==>
        done < |keys| && keys[done] !in policy.index && !InsertsLater(policy, keys[done], Later(others, clock))
      invariant |keys| <= old(RoomAtLast(policy, policy.nodes, others, 0, horizon)) ==>
        !stuck && RoomAtLast(policy, start, others, clock, horizon) >= |keys| - done
      decreases |keys| - done, !stuck
    {
      ghost var began := clock;
      var b;
      b, clock, stuck := KeyNow(policy, keys, done, a, others, clock, horizon, start, startIndex);
      if !stuck {
        ReplaceNext(keys, done, a, b, positions, pointers);
        LeaksLater(keys, done, a, b, start, startIndex, others, began, clock);
        if |b.missing| > |a.missing| {
          positions, pointers := positions + [b.missPos[0]], pointers + [b.missPtr[0]];
        } else {
          positions, pointers := positions + [UNSET_POS], pointers + [Null];
        }
        a := b;
        done := done + 1;
      } else {
        LeaksStay(keys, done, a, start, startIndex, others, began, clock);
      }
    }
    UnderwayAnswer(keys, done, a, start, startIndex, others, clock, policy.nodes, policy.index);
    FoundAtStart(keys, done, a, start, startIndex, others, clock, policy.nodes, policy.index);
    UnderwayHonest(keys, done, a, start, startIndex, others, clock, policy.nodes, policy.index);
    answer := a;
  }
}
