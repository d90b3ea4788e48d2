/** Coherence of the feature cache with its backing store, over every interleaving
    of lookups, insertions, row copies and completions.

    The policy half of a step is whatever the contracts of the policy classes allow
    (`Looked`, `Inserted`); the storage half copies rows at the positions handed out.

    Source: graphbolt/src/cache_policy.h, graphbolt/src/cache_policy.cc,
    graphbolt/src/feature_cache.cc. */
module CacheCoherence {
  import opened CacheEviction
  import opened Policies
  import opened CacheBatch

  /** What a client holds between a lookup and its completion. */
  datatype Ticket = Ticket(ptr: Ptr, key: int, pos: int)

  datatype State<Row> = State(
    nodes: Store, index: map<int, Ptr>, usage: int,
    rows: map<int, Row>,                // the rows written so far, by position
    readers: multiset<Ticket>,          // hits not yet completed
    writers: map<Ticket, bool>,         // entries handed out for writing; true once the row is written
    leaked: multiset<Ptr>)              // pins taken by Replace on readable keys

  datatype Event =
    | Hit(key: int)
    | Miss(key: int)
    | Leak(key: int)
    | Insertion(key: int, p: Ptr, v: MaybePtr)
    | WriteRow(writer: Ticket)
    | ReadRow(reader: Ticket)
    | EndRead(reader: Ticket)
    | EndWrite(writer: Ticket)

  /** One step; ReadRow observes the row at the ticket's position. */
  ghost predicate Next<Row>(backing: int -> Row, kind: Kind, capacity: int, s: State<Row>, e: Event, t: State<Row>) {
    match e
    case Hit(key) =>
      Readable(s.nodes, s.index, key) &&
      var p := s.index[key];
      t == s.(nodes := s.nodes[p := Looked(kind, s.nodes[p])],
              readers := s.readers + multiset{Ticket(p, key, s.nodes[p].pos)})
    case Miss(key) =>
      !Readable(s.nodes, s.index, key) &&
      if key in s.index && s.index[key] in s.nodes then
        var p := s.index[key]; t == s.(nodes := s.nodes[p := Looked(kind, s.nodes[p])])
      else t == s
    case Leak(key) =>
      Readable(s.nodes, s.index, key) &&
      var p := s.index[key];
      t == s.(nodes := s.nodes[p := Looked(kind, s.nodes[p])], leaked := s.leaked + multiset{p})
    case Insertion(key, p, v) =>
      && key !in s.index
      && Inserted(s.nodes, s.usage, capacity, key, p, t.nodes, t.usage, v)
      && t.index == (if v.To? then s.index[key := p] - {s.nodes[v.ptr].key} else s.index[key := p])
      && t.writers == s.writers[Ticket(p, key, t.nodes[p].pos) := false]
      && t.rows == s.rows && t.readers == s.readers && t.leaked == s.leaked
    case WriteRow(w) =>
      w in s.writers && t == s.(rows := s.rows[w.pos := backing(w.key)], writers := s.writers[w := true])
    case ReadRow(r) =>
      r in s.readers && t == s
    case EndRead(r) =>
      r in s.readers && r.ptr in s.nodes &&
      t == s.(nodes := s.nodes[r.ptr := s.nodes[r.ptr].EndUse(false)], readers := s.readers - multiset{r})
    case EndWrite(w) =>
      w in s.writers && s.writers[w] && w.ptr in s.nodes &&
      t == s.(nodes := s.nodes[w.ptr := s.nodes[w.ptr].EndUse(true)], writers := s.writers - {w})
  }

  ghost predicate Initial<Row>(s: State<Row>) {
    s.nodes == map[] && s.index == map[] && s.usage == 0 && s.readers == multiset{} && s.writers == map[]
    && s.leaked == multiset{}
  }

  // ------------------------------------------------------------------
  // The invariant

  ghost predicate Live(nodes: Store, t: Ticket) {
    t.ptr in nodes && nodes[t.ptr].key == t.key && nodes[t.ptr].pos == t.pos
  }

  function TicketOf(nodes: Store, p: Ptr): Ticket
    requires p in nodes
  {
    Ticket(p, nodes[p].key, nodes[p].pos)
  }

  ghost predicate TicketsLive<Row>(s: State<Row>) {
    && (forall r :: r in s.readers ==> Live(s.nodes, r))
    && (forall w :: w in s.writers ==> Live(s.nodes, w))
    && (forall p :: p in s.leaked ==> p in s.nodes)
  }

  /** The reference count of an entry counts its outstanding tickets and leaked pins. */
  ghost predicate CountsOk<Row>(s: State<Row>) {
    forall p :: p in s.nodes ==>
      if TicketOf(s.nodes, p) in s.writers then
        s.nodes[p].refs == -1 && s.readers[TicketOf(s.nodes, p)] == 0 && s.leaked[p] == 0
      else
        s.nodes[p].refs == s.readers[TicketOf(s.nodes, p)] + s.leaked[p]
  }

  /** Every entry that is not being written, or whose writer has copied the row, holds the backing row. */
  ghost predicate RowsOk<Row>(backing: int -> Row, s: State<Row>) {
    forall p :: p in s.nodes ==>
      var w := TicketOf(s.nodes, p);
      (w in s.writers ==> s.writers[w]) ==> w.pos in s.rows && s.rows[w.pos] == backing(w.key)
  }

  ghost predicate Inv<Row>(backing: int -> Row, capacity: int, s: State<Row>) {
    && Indexed(s.nodes, s.index) && Slotted(s.nodes, s.usage, capacity)
    && TicketsLive(s) && CountsOk(s) && RowsOk(backing, s)
  }

  lemma InitialInv<Row>(backing: int -> Row, capacity: int, s: State<Row>)
    requires Initial(s) && capacity >= 0
    ensures Inv(backing, capacity, s)
  {
  }

  /** A changed reference count (and nothing else but a frequency) of one entry. */
  lemma RecountKeeps(nodes: Store, index: map<int, Ptr>, usage: int, capacity: int, p: Ptr, node: CacheKey)
    requires Indexed(nodes, index) && Slotted(nodes, usage, capacity)
    requires p in nodes && node.key == nodes[p].key && node.pos == nodes[p].pos
    ensures Indexed(nodes[p := node], index) && Slotted(nodes[p := node], usage, capacity)
    ensures forall q :: q in nodes ==> TicketOf(nodes[p := node], q) == TicketOf(nodes, q)
    ensures forall t :: Live(nodes, t) <==> Live(nodes[p := node], t)
  {
    hide Indexed, Slotted;
    RecountIndexed(nodes, index, p, node);
    UpdateSlotted(nodes, usage, capacity, p, node);
  }

  lemma RecountIndexed(nodes: Store, index: map<int, Ptr>, p: Ptr, node: CacheKey)
    requires Indexed(nodes, index) && p in nodes && node.key == nodes[p].key
    ensures Indexed(nodes[p := node], index)
  {
  }

  /** One entry gains or loses a user: its count, and its tickets or leaked pins, move together. */
  lemma UserInv<Row>(backing: int -> Row, capacity: int, s: State<Row>, p: Ptr, node: CacheKey,
                     readers: multiset<Ticket>, leaked: multiset<Ptr>)
    requires Inv(backing, capacity, s) && p in s.nodes && node.key == s.nodes[p].key && node.pos == s.nodes[p].pos
    requires var x := TicketOf(s.nodes, p);
             && (forall y :: y != x ==> readers[y] == s.readers[y]) && (forall q :: q != p ==> leaked[q] == s.leaked[q])
             && node.refs + s.readers[x] + s.leaked[p] == s.nodes[p].refs + readers[x] + leaked[p]
             && (x in s.writers ==> readers[x] == s.readers[x] && leaked[p] == s.leaked[p])
    ensures Inv(backing, capacity, s.(nodes := s.nodes[p := node], readers := readers, leaked := leaked))
  {
    hide Indexed, Slotted, CountsOk, RowsOk, TicketsLive, Live;
    var t := s.(nodes := s.nodes[p := node], readers := readers, leaked := leaked);
    RecountKeeps(s.nodes, s.index, s.usage, capacity, p, node);
    TicketsRecounted(s, t, p);
    CountsRecounted(s, t, p);
    RowsRecounted(backing, s, t, p);
  }

  lemma TicketsRecounted<Row>(s: State<Row>, t: State<Row>, p: Ptr)
    requires TicketsLive(s) && p in s.nodes && t.nodes.Keys == s.nodes.Keys && t.writers == s.writers
    requires forall x :: Live(s.nodes, x) <==> Live(t.nodes, x)
    requires forall y :: y != TicketOf(s.nodes, p) ==> t.readers[y] == s.readers[y]
    requires forall q :: q != p ==> t.leaked[q] == s.leaked[q]
    ensures TicketsLive(t)
  {
    var x := TicketOf(s.nodes, p);
    assert Live(s.nodes, x);
    forall r | r in t.readers ensures Live(t.nodes, r) {
      if r != x {
        assert s.readers[r] == t.readers[r];
        assert r in s.readers;
      }
    }
    forall q | q in t.leaked ensures q in t.nodes {
      if q != p {
        assert s.leaked[q] == t.leaked[q];
        assert q in s.leaked;
      }
    }
  }

  lemma RowsRecounted<Row>(backing: int -> Row, s: State<Row>, t: State<Row>, p: Ptr)
    requires RowsOk(backing, s) && t.nodes.Keys == s.nodes.Keys && t.writers == s.writers && t.rows == s.rows
    requires forall q :: q in s.nodes ==> TicketOf(t.nodes, q) == TicketOf(s.nodes, q)
    ensures RowsOk(backing, t)
  {
  }

  lemma CountsRecounted<Row>(s: State<Row>, t: State<Row>, p: Ptr)
    requires CountsOk(s) && t.nodes.Keys == s.nodes.Keys && p in s.nodes && t.writers == s.writers
    requires forall q :: q in t.nodes && q != p ==> t.nodes[q] == s.nodes[q]
    requires TicketOf(t.nodes, p) == TicketOf(s.nodes, p)
    requires var x := TicketOf(s.nodes, p);
             && (forall y :: y != x ==> t.readers[y] == s.readers[y])
             && (forall q :: q != p ==> t.leaked[q] == s.leaked[q])
             && t.nodes[p].refs + s.readers[x] + s.leaked[p] == s.nodes[p].refs + t.readers[x] + t.leaked[p]
             && (x in s.writers ==> t.readers[x] == s.readers[x] && t.leaked[p] == s.leaked[p])
    ensures CountsOk(t)
  {
    forall q | q in t.nodes
      ensures if TicketOf(t.nodes, q) in t.writers
        then t.nodes[q].refs == -1 && t.readers[TicketOf(t.nodes, q)] == 0 && t.leaked[q] == 0
              else t.nodes[q].refs == t.readers[TicketOf(t.nodes, q)] + t.leaked[q]
    {
      assert TicketOf(t.nodes, q) == TicketOf(s.nodes, q);
      if q != p { assert TicketOf(s.nodes, q) != TicketOf(s.nodes, p); }
    }
  }

  lemma LookInv<Row>(backing: int -> Row, kind: Kind, capacity: int, s: State<Row>, e: Event, t: State<Row>)
    requires Inv(backing, capacity, s) && (e.Hit? || e.Miss? || e.Leak?) && Next(backing, kind, capacity, s, e, t)
    ensures Inv(backing, capacity, t)
  {
    hide Inv;
    if e.key in s.index && s.index[e.key] in s.nodes {
      var p := s.index[e.key];
      TouchedBasics(kind, s.nodes[p]);
      assert Touched(kind, s.nodes[p]).refs == s.nodes[p].refs;
      ReadableNotWritten(backing, capacity, s, e.key);
      UserInv(backing, capacity, s, p, Looked(kind, s.nodes[p]), t.readers, t.leaked);
    }
  }

  lemma ReadableNotWritten<Row>(backing: int -> Row, capacity: int, s: State<Row>, key: int)
    requires Inv(backing, capacity, s) && key in s.index && s.index[key] in s.nodes
    ensures s.nodes[s.index[key]].key == key
    ensures Readable(s.nodes, s.index, key) <==> TicketOf(s.nodes, s.index[key]) !in s.writers
  {
  }

  /** An eviction hits no entry with an outstanding ticket or a leaked pin. */
  lemma VictimIsFree<Row>(backing: int -> Row, capacity: int, s: State<Row>, v: Ptr)
    requires Inv(backing, capacity, s) && v in s.nodes && s.nodes[v].refs == 0
    ensures (forall r :: r in s.readers ==> r.ptr != v) && (forall w :: w in s.writers ==> w.ptr != v) && v !in s.leaked
  {
    forall r | r in s.readers ensures r.ptr != v { assert r == TicketOf(s.nodes, r.ptr); }
    forall w | w in s.writers ensures w.ptr != v { assert w == TicketOf(s.nodes, w.ptr); }
  }

  lemma NewIsFree<Row>(backing: int -> Row, capacity: int, s: State<Row>, p: Ptr)
    requires Inv(backing, capacity, s) && p !in s.nodes
    ensures (forall r :: r in s.readers ==> r.ptr != p) && (forall w :: w in s.writers ==> w.ptr != p) && p !in s.leaked
  {
  }

  lemma InsertionInv<Row>(backing: int -> Row, kind: Kind, capacity: int, s: State<Row>, e: Event, t: State<Row>)
    requires Inv(backing, capacity, s) && e.Insertion? && Next(backing, kind, capacity, s, e, t)
    ensures Inv(backing, capacity, t)
  {
    hide Indexed, Slotted, CountsOk, RowsOk, TicketsLive, Live, Inserted;
    InsertedBasics(s.nodes, s.usage, capacity, e.key, e.p, t.nodes, t.usage, e.v);
    InsertedIndexed(s.nodes, s.index, s.usage, capacity, e.key, e.p, t.nodes, t.usage, e.v, t.index);
    InsertedSlotted(s.nodes, s.usage, capacity, e.key, e.p, t.nodes, t.usage, e.v);
    NewIsFree(backing, capacity, s, e.p);
    if e.v.To? { VictimIsFree(backing, capacity, s, e.v.ptr); }
    InsertedOthers(s.nodes, s.usage, capacity, e.key, e.p, t.nodes, t.usage, e.v);
    InsertedTickets(s, t, e.p, e.v);
    InsertedCounts(s, t, e.p);
    InsertedRows(backing, s, t, e.p);
  }

  /** The entries that remain keep their tickets' identity and their counts. */
  lemma InsertedOthers(nodes: Store, usage: int, capacity: int, key: int, p: Ptr, nodes': Store, usage': int,
                       v: MaybePtr)
    requires Inserted(nodes, usage, capacity, key, p, nodes', usage', v)
    ensures forall q :: q in nodes' && q != p ==>
      q in nodes && TicketOf(nodes', q) == TicketOf(nodes, q) && nodes'[q].refs == nodes[q].refs
    ensures forall q :: q in nodes && (v.To? ==> q != v.ptr) ==> q in nodes' && q != p
  {
  }

  lemma InsertedBasics(nodes: Store, usage: int, capacity: int, key: int, p: Ptr, nodes': Store, usage': int,
                       v: MaybePtr)
    requires Inserted(nodes, usage, capacity, key, p, nodes', usage', v)
    ensures p !in nodes && p in nodes' && nodes'[p].key == key && nodes'[p].refs == -1
    ensures v.To? ==> v.ptr in nodes && nodes[v.ptr].refs == 0
  {
  }

  lemma InsertedTickets<Row>(s: State<Row>, t: State<Row>, p: Ptr, v: MaybePtr)
    requires TicketsLive(s) && p in t.nodes && p !in s.nodes
    requires t.writers == s.writers[TicketOf(t.nodes, p) := false] && t.readers == s.readers && t.leaked == s.leaked
    requires forall q :: q in t.nodes && q != p ==> q in s.nodes && TicketOf(t.nodes, q) == TicketOf(s.nodes, q)
    requires forall q :: q in s.nodes && (v.To? ==> q != v.ptr) ==> q in t.nodes && q != p
    requires v.To? ==>
      (forall r :: r in s.readers ==> r.ptr != v.ptr) && (forall w :: w in s.writers ==> w.ptr != v.ptr)
      && v.ptr !in s.leaked
    ensures TicketsLive(t) && s.readers[TicketOf(t.nodes, p)] == 0 && s.leaked[p] == 0
  {
    forall r | Live(s.nodes, r) && (v.To? ==> r.ptr != v.ptr) ensures Live(t.nodes, r) {
      assert r == TicketOf(s.nodes, r.ptr) == TicketOf(t.nodes, r.ptr);
    }
  }

  lemma InsertedCounts<Row>(s: State<Row>, t: State<Row>, p: Ptr)
    requires CountsOk(s) && p in t.nodes && t.nodes[p].refs == -1
    requires t.writers == s.writers[TicketOf(t.nodes, p) := false] && t.readers == s.readers && t.leaked == s.leaked
    requires s.readers[TicketOf(t.nodes, p)] == 0 && s.leaked[p] == 0
    requires forall q :: q in t.nodes && q != p ==>
      q in s.nodes && TicketOf(t.nodes, q) == TicketOf(s.nodes, q) && t.nodes[q].refs == s.nodes[q].refs
    ensures CountsOk(t)
  {
  }

  lemma InsertedRows<Row>(backing: int -> Row, s: State<Row>, t: State<Row>, p: Ptr)
    requires RowsOk(backing, s) && p in t.nodes && t.rows == s.rows
    requires t.writers == s.writers[TicketOf(t.nodes, p) := false]
    requires forall q :: q in t.nodes && q != p ==> q in s.nodes && TicketOf(t.nodes, q) == TicketOf(s.nodes, q)
    ensures RowsOk(backing, t)
  {
  }

  lemma WriteInv<Row>(backing: int -> Row, kind: Kind, capacity: int, s: State<Row>, e: Event, t: State<Row>)
    requires Inv(backing, capacity, s) && e.WriteRow? && Next(backing, kind, capacity, s, e, t)
    ensures Inv(backing, capacity, t)
  {
    hide Indexed, CountsOk, RowsOk, Inserted, Readable, Looked;
    assert Live(s.nodes, e.writer);
    WrittenCounts(s, e.writer, t);
    forall p | p in s.nodes && s.nodes[p].pos == e.writer.pos ensures p == e.writer.ptr { }
    WrittenRows(backing, s, e.writer, t);
  }

  lemma WrittenCounts<Row>(s: State<Row>, w: Ticket, t: State<Row>)
    requires CountsOk(s) && w in s.writers && t.writers == s.writers[w := true]
    requires t.nodes == s.nodes && t.readers == s.readers && t.leaked == s.leaked
    ensures CountsOk(t)
  {
    assert forall x :: x in t.writers <==> x in s.writers;
  }

  lemma WrittenRows<Row>(backing: int -> Row, s: State<Row>, w: Ticket, t: State<Row>)
    requires RowsOk(backing, s) && w in s.writers && Live(s.nodes, w)
    requires t == s.(rows := s.rows[w.pos := backing(w.key)], writers := s.writers[w := true])
    requires forall p :: p in s.nodes && s.nodes[p].pos == w.pos ==> p == w.ptr
    ensures RowsOk(backing, t)
  {
  }

  lemma ReaderIsNoWriter<Row>(s: State<Row>, x: Ticket)
    requires CountsOk(s) && x in s.readers && x.ptr in s.nodes && x == TicketOf(s.nodes, x.ptr)
    ensures x !in s.writers
  {
  }

  lemma EndReadInv<Row>(backing: int -> Row, kind: Kind, capacity: int, s: State<Row>, e: Event, t: State<Row>)
    requires Inv(backing, capacity, s) && e.EndRead? && Next(backing, kind, capacity, s, e, t)
    ensures Inv(backing, capacity, t)
  {
    hide Indexed, Slotted, CountsOk, RowsOk, Inserted, Readable, Looked;
    var x := e.reader;
    assert Live(s.nodes, x) && x == TicketOf(s.nodes, x.ptr);
    ReaderIsNoWriter(s, x);
    UserInv(backing, capacity, s, x.ptr, s.nodes[x.ptr].EndUse(false), t.readers, t.leaked);
  }

  lemma EndWriteInv<Row>(backing: int -> Row, kind: Kind, capacity: int, s: State<Row>, e: Event, t: State<Row>)
    requires Inv(backing, capacity, s) && e.EndWrite? && Next(backing, kind, capacity, s, e, t)
    ensures Inv(backing, capacity, t)
  {
    hide Indexed, Slotted, CountsOk, RowsOk, Inserted, Readable, Looked;
    var x := e.writer;
    assert Live(s.nodes, x) && x == TicketOf(s.nodes, x.ptr);
    RecountKeeps(s.nodes, s.index, s.usage, capacity, x.ptr, s.nodes[x.ptr].EndUse(true));
    forall w | w in t.writers ensures Live(t.nodes, w) { assert w in s.writers; }
    WriterDone(backing, s, x, t);
  }

  /** An entry whose row has been written has no users left, and holds the backing row. */
  lemma WriterDone<Row>(backing: int -> Row, s: State<Row>, x: Ticket, t: State<Row>)
    requires CountsOk(s) && RowsOk(backing, s) && x in s.writers && s.writers[x]
    requires x.ptr in s.nodes && x == TicketOf(s.nodes, x.ptr)
    requires t == s.(nodes := s.nodes[x.ptr := s.nodes[x.ptr].EndUse(true)], writers := s.writers - {x})
    ensures CountsOk(t) && RowsOk(backing, t)
  {
    forall q | q in t.nodes && q != x.ptr
      ensures TicketOf(t.nodes, q) == TicketOf(s.nodes, q) != x && t.nodes[q] == s.nodes[q]
    {
    }
  }

  lemma NextInv<Row>(backing: int -> Row, kind: Kind, capacity: int, s: State<Row>, e: Event, t: State<Row>)
    requires Inv(backing, capacity, s) && Next(backing, kind, capacity, s, e, t)
    ensures Inv(backing, capacity, t)
  {
    hide Inv, Next;
    match e
    case Hit(_) => LookInv(backing, kind, capacity, s, e, t);
    case Miss(_) => LookInv(backing, kind, capacity, s, e, t);
    case Leak(_) => LookInv(backing, kind, capacity, s, e, t);
    case Insertion(_, _, _) => InsertionInv(backing, kind, capacity, s, e, t);
    case WriteRow(_) => WriteInv(backing, kind, capacity, s, e, t);
    case ReadRow(_) => ReadInv(backing, kind, capacity, s, e, t);
    case EndRead(_) => EndReadInv(backing, kind, capacity, s, e, t);
    case EndWrite(_) => EndWriteInv(backing, kind, capacity, s, e, t);
  }

  lemma ReadInv<Row>(backing: int -> Row, kind: Kind, capacity: int, s: State<Row>, e: Event, t: State<Row>)
    requires Inv(backing, capacity, s) && Next(backing, kind, capacity, s, e, t) && e.ReadRow?
    ensures Inv(backing, capacity, t)
  {
  }

  // ------------------------------------------------------------------
  // Runs

  ghost predicate IsRun<Row>(backing: int -> Row, kind: Kind, capacity: int, states: seq<State<Row>>,
                             events: seq<Event>) {
    && |states| == |events| + 1
    && Initial(states[0])
    && forall i :: 0 <= i < |events| ==> Next(backing, kind, capacity, states[i], events[i], states[i + 1])
  }

  lemma {:induction false} RunInv<Row>(backing: int -> Row, kind: Kind, capacity: int, states: seq<State<Row>>,
                                       events: seq<Event>, n: nat)
    requires IsRun(backing, kind, capacity, states, events) && n < |states| && capacity >= 0
    ensures Inv(backing, capacity, states[n])
  {
    hide Inv, Next;
    if n == 0 {
      InitialInv(backing, capacity, states[0]);
    } else {
      RunInv(backing, kind, capacity, states, events, n - 1);
      NextInv(backing, kind, capacity, states[n - 1], events[n - 1], states[n]);
    }
  }

  /** Coherence: in every run, of every policy kind, a row read at a hit position
      before its ReadingCompleted is the backing row of the key that was hit. */
  lemma ReadsAreCoherent<Row>(backing: int -> Row, kind: Kind, capacity: int, states: seq<State<Row>>,
                              events: seq<Event>, n: nat)
    requires IsRun(backing, kind, capacity, states, events) && n < |events| && capacity >= 0
    requires events[n].ReadRow?
    ensures var r := events[n].reader; r.pos in states[n].rows && states[n].rows[r.pos] == backing(r.key)
  {
    RunInv(backing, kind, capacity, states, events, n);
    var r := events[n].reader;
    assert Next(backing, kind, capacity, states[n], events[n], states[n + 1]);
    assert Live(states[n].nodes, r) && r == TicketOf(states[n].nodes, r.ptr);
  }

  /** Pin safety: while a client holds a ticket its pointer is live, with the key and
      position it was handed out with, and the entry cannot be the next victim. */
  lemma TicketsStayLive<Row>(backing: int -> Row, kind: Kind, capacity: int, states: seq<State<Row>>,
                             events: seq<Event>, n: nat, t: Ticket)
    requires IsRun(backing, kind, capacity, states, events) && n < |states| && capacity >= 0
    requires t in states[n].readers || t in states[n].writers
    ensures Live(states[n].nodes, t) && states[n].nodes[t.ptr].InUse()
  {
    RunInv(backing, kind, capacity, states, events, n);
    assert t == TicketOf(states[n].nodes, t.ptr);
  }

  /** Conservation: once all tickets are completed, an entry is unpinned if and only
      if no Replace leaked a pin on it. */
  lemma QuiescentCounts<Row>(backing: int -> Row, kind: Kind, capacity: int, states: seq<State<Row>>,
                             events: seq<Event>, n: nat, p: Ptr)
    requires IsRun(backing, kind, capacity, states, events) && n < |states| && capacity >= 0
    requires states[n].readers == multiset{} && states[n].writers == map[] && p in states[n].nodes
    ensures states[n].nodes[p].refs == states[n].leaked[p]
  {
    RunInv(backing, kind, capacity, states, events, n);
  }

  lemma LeakStays<Row>(backing: int -> Row, kind: Kind, capacity: int, s: State<Row>, e: Event, t: State<Row>, p: Ptr)
    requires Next(backing, kind, capacity, s, e, t) && p in s.leaked
    ensures p in t.leaked
  {
  }

  lemma LeakedIsPinned<Row>(backing: int -> Row, capacity: int, s: State<Row>, p: Ptr)
    requires Inv(backing, capacity, s) && p in s.leaked
    ensures p in s.nodes && s.nodes[p].InUse()
  {
    hide Indexed, Slotted, RowsOk;
  }

  /** A leaked pin is never released: the entry stays pinned in every later state. */
  lemma {:induction false} LeakIsForever<Row>(backing: int -> Row, kind: Kind, capacity: int, states: seq<State<Row>>,
                                              events: seq<Event>, m: nat, n: nat, p: Ptr)
    requires IsRun(backing, kind, capacity, states, events) && m <= n < |states| && capacity >= 0
    requires p in states[m].leaked
    ensures p in states[n].leaked && p in states[n].nodes && states[n].nodes[p].InUse()
    decreases n
  {
    hide Inv, Next;
    if m < n {
      LeakIsForever(backing, kind, capacity, states, events, m, n - 1, p);
      LeakStays(backing, kind, capacity, states[n - 1], events[n - 1], states[n], p);
    }
    RunInv(backing, kind, capacity, states, events, n);
    LeakedIsPinned(backing, capacity, states[n], p);
  }
}
