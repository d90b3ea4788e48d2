/** The row storage of the feature cache, and clients that use it together with a
    policy: the coherence argument carried out on the objects themselves.

    Source: graphbolt/src/feature_cache.cc, graphbolt/src/cache_policy.cc. */
module FeatureStorage {
  import opened CacheEviction
  import opened Policies
  import opened CacheBatch
  import opened CacheCoherence

  class FeatureCache<Row(0)> {
    const tensor: array<Row>
    const rowBytes: nat

    constructor (capacity: nat, rowBytes: nat)
      ensures tensor.Length == capacity && fresh(tensor) && this.rowBytes == rowBytes
    {
      tensor := new Row[capacity];
      this.rowBytes := rowBytes;
    }

    /** The number of bytes in the first row, of which a cache without rows has none. */
    function FirstRowBytes(): nat { if tensor.Length == 0 then 0 else rowBytes }

    /** `Query`: row positions[i] is copied to output row indices[i]; other output rows are arbitrary. */
    method Query(positions: seq<int>, indices: seq<int>, size: nat) returns (values: array<Row>)
      requires |indices| >= |positions|
      requires forall i :: 0 <= i < |positions| ==> 0 <= positions[i] < tensor.Length && 0 <= indices[i] < size
      requires forall i, j :: 0 <= i < j < |positions| ==> indices[i] != indices[j]
      ensures fresh(values) && values.Length == size
      ensures forall i :: 0 <= i < |positions| ==> values[indices[i]] == tensor[positions[i]]
    {
      values := new Row[size];
      for i := 0 to |positions|
        invariant forall j :: 0 <= j < i ==> values[indices[j]] == tensor[positions[j]]
      {
        values[indices[i]] := tensor[positions[i]];
      }
    }

    /** `Replace`, for values whose rows have `valueBytes` bytes: refused if there are not as
        many rows as positions or the rows have another size; without any bytes nothing is
        stored. Rows with a negative position are skipped. The positions that are not
        negative must differ, since the copies run in parallel. */
    method Replace(positions: seq<int>, values: seq<Row>, valueBytes: nat) returns (ok: bool)
      requires forall i :: 0 <= i < |positions| ==> positions[i] < tensor.Length
      requires forall i, j :: 0 <= i < j < |positions| && positions[i] >= 0 ==> positions[i] != positions[j]
      modifies tensor
      ensures ok <==>
        |positions| == |values| && (values == [] || valueBytes == 0 || (tensor.Length > 0 && valueBytes == rowBytes))
      ensures ok && valueBytes > 0 ==>
        forall i :: 0 <= i < |positions| && positions[i] >= 0 ==> tensor[positions[i]] == values[i]
      ensures forall p :: 0 <= p < tensor.Length && (p !in positions || !ok || valueBytes == 0) ==>
        tensor[p] == old(tensor[p])
    {
      ok := |positions| == |values|;
      if !ok || values == [] || valueBytes == 0 { return; }
      ok := valueBytes == FirstRowBytes();
      if !ok { return; }
      for i := 0 to |positions|
        invariant forall j :: 0 <= j < i && positions[j] >= 0 ==> tensor[positions[j]] == values[j]
        invariant forall p :: 0 <= p < tensor.Length && p !in positions[..i] ==> tensor[p] == old(tensor[p])
      {
        if positions[i] >= 0 { tensor[positions[i]] := values[i]; }
        assert positions[..i + 1] == positions[..i] + [positions[i]];
      }
      assert positions[..|positions|] == positions;
    }
  }

  /** What clients may do; commands that hold no matching ticket are ignored. */
  datatype Command =
    | DoQuery(key: int)
    | DoQueryAndReplace(key: int)
    | DoReplace(key: int)
    | DoWriteRow(ticket: Ticket)
    | DoReadRow(ticket: Ticket)
    | DoEndRead(ticket: Ticket)
    | DoEndWrite(ticket: Ticket)

  /** What one command does to the abstract state: the step of its outcome, or nothing
      while an insertion waits and when the client holds no matching ticket. */
  ghost predicate Performs<Row>(
    backing: int -> Row, kind: Kind, capacity: int, s: State<Row>, c: Command, t: State<Row>)
  {
    match c
    case DoQuery(key) =>
      Next(backing, kind, capacity, s, Hit(key), t) || Next(backing, kind, capacity, s, Miss(key), t)
    case DoQueryAndReplace(key) =>
      || Next(backing, kind, capacity, s, Hit(key), t) || Fills(backing, kind, capacity, s, key, t)
      || (key in s.index && Next(backing, kind, capacity, s, Miss(key), t)) || (key !in s.index && t == s)
    case DoReplace(key) =>
      || Next(backing, kind, capacity, s, Leak(key), t) || Fills(backing, kind, capacity, s, key, t)
      || (key in s.index && Next(backing, kind, capacity, s, Miss(key), t)) || (key !in s.index && t == s)
    case DoWriteRow(w) =>
      if w in s.writers then Next(backing, kind, capacity, s, WriteRow(w), t) else t == s
    case DoReadRow(r) => t == s
    case DoEndRead(r) =>
      if r in s.readers then Next(backing, kind, capacity, s, EndRead(r), t) else t == s
    case DoEndWrite(w) =>
      if w in s.writers && s.writers[w] then Next(backing, kind, capacity, s, EndWrite(w), t) else t == s
  }

  ghost predicate Fills<Row>(backing: int -> Row, kind: Kind, capacity: int, s: State<Row>, key: int, t: State<Row>) {
    exists p: Ptr, v: MaybePtr :: Next(backing, kind, capacity, s, Insertion(key, p, v), t)
  }

  /** All clients of one cache: their outstanding tickets, and the operations they may perform. */
  class Clients<Row(0)> {
    const policy: CachePolicy
    const cache: FeatureCache<Row>
    var readers: multiset<Ticket>
    var writers: map<Ticket, bool>
    ghost var rows: map<int, Row>
    ghost var leaked: multiset<Ptr>

    ghost function View(): State<Row>
      reads this, policy
    {
      State(policy.nodes, policy.index, policy.usage, rows, readers, writers, leaked)
    }

    ghost predicate Ok(backing: int -> Row)
      reads this, policy, policy.ghostQueue, policy.ghostQueue.data, cache.tensor
    {
      && policy.Valid() && cache.tensor.Length == policy.capacity && cache.rowBytes > 0
      && policy.ghostQueue.data as object != cache.tensor as object
      && (forall pos :: pos in rows ==> 0 <= pos < policy.capacity && cache.tensor[pos] == rows[pos])
      && Inv(backing, policy.capacity, View())
    }

    constructor (kind: Kind, capacity: int, rowBytes: nat, ghost backing: int -> Row)
      requires rowBytes > 0 && capacity > 0 && (kind == S3Fifo ==> capacity / 10 > 0)
      ensures Ok(backing) && Initial(View()) && policy.kind == kind && policy.capacity == capacity
      ensures fresh(policy) && fresh(policy.ghostQueue) && fresh(policy.ghostQueue.data) && fresh(cache.tensor)
    {
      hide Inv, Slotted, Queued, Counted, Linked, KindOk;
      policy := new CachePolicy(kind, capacity);
      cache := new FeatureCache<Row>(capacity, rowBytes);
      readers, writers, rows, leaked := multiset{}, map[], map[], multiset{};
      new;
      InitialInv(backing, policy.capacity, View());
    }

    /** A lookup that pins on a hit. */
    method Query(ghost backing: int -> Row, key: int) returns (ticket: MaybeTicket)
      requires Ok(backing)
      modifies this`readers, policy`nodes, policy`main
      ensures Ok(backing)
      ensures Performs(backing, policy.kind, policy.capacity, old(View()), DoQuery(key), View())
      ensures ticket.Held? ==> ticket.ticket.key == key && ticket.ticket in readers
    {
      hide Inv, Next, Slotted, Queued, Counted, Indexed, Linked, KindOk;
      ghost var before := View();
      Residents(backing, policy.capacity, before, key);
      var r := policy.Read(key);
      ticket := Nothing;
      if r.To? {
        ticket := Held(Ticket(r.ptr, key, policy.nodes[r.ptr].pos));
        readers := readers + multiset{ticket.ticket};
        HitIsNext(backing, policy.kind, policy.capacity, before, key, View());
      } else {
        MissIsNext(backing, policy.kind, policy.capacity, before, key, View());
      }
    }

    /** A lookup that hands out an entry to write when the key is absent; the source
        waits while the eviction scan finds every entry in use, here nothing happens. */
    method QueryAndReplace(ghost backing: int -> Row, key: int) returns (ticket: MaybeTicket)
      requires Ok(backing)
      modifies this, policy, policy.ghostQueue, policy.ghostQueue.data
      ensures Ok(backing)
      ensures Performs(backing, policy.kind, policy.capacity, old(View()), DoQueryAndReplace(key), View())
      ensures ticket.Held? ==> ticket.ticket.key == key && (ticket.ticket in readers || ticket.ticket in writers)
    {
      hide Inv, Next, Slotted, Queued, Counted, Indexed, Linked, KindOk, Inserted;
      ghost var before := View();
      ticket := Nothing;
      if key !in policy.index && !policy.CanInsert(key) { return; }
      Residents(backing, policy.capacity, before, key);
      var it, readable := policy.Emplace(key);
      if readable {
        ticket := Held(Ticket(it.ptr, key, policy.nodes[it.ptr].pos));
        readers := readers + multiset{ticket.ticket};
        HitIsNext(backing, policy.kind, policy.capacity, before, key, View());
      } else if it == Null {
        ticket := Fill(backing, key);
      } else {
        MissIsNext(backing, policy.kind, policy.capacity, before, key, View());
      }
    }

    /** The insertion half of `QueryAndReplace` and `Replace`. */
    method Fill(ghost backing: int -> Row, key: int) returns (ticket: MaybeTicket)
      requires Ok(backing) && key !in policy.index && policy.CanInsert(key)
      modifies this, policy, policy.ghostQueue, policy.ghostQueue.data
      ensures Ok(backing) && readers == old(readers) && leaked == old(leaked)
      ensures ticket.Held? && ticket.ticket.key == key && writers == old(writers)[ticket.ticket := false]
      ensures Fills(backing, policy.kind, policy.capacity, old(View()), key, View())
    {
      hide Inv, Slotted, Queued, Counted, Indexed, Linked, KindOk, Inserted;
      ghost var before := View();
      var p;
      ghost var v;
      p, v := policy.Insert(key);
      InsertedBasics(before.nodes, before.usage, policy.capacity, key, p, policy.nodes, policy.usage, v);
      ticket := Held(Ticket(p, key, policy.nodes[p].pos));
      writers := writers[ticket.ticket := false];
      InsertionIsNext(backing, policy.kind, policy.capacity, before, key, p, v, View());
    }

    /** An insertion that returns no pointer for a readable key, and so leaks its pin. */
    method Replace(ghost backing: int -> Row, key: int) returns (ticket: MaybeTicket)
      requires Ok(backing)
      modifies this, policy, policy.ghostQueue, policy.ghostQueue.data
      ensures Ok(backing) && readers == old(readers)
      ensures Performs(backing, policy.kind, policy.capacity, old(View()), DoReplace(key), View())
      ensures leaked == if Readable(old(policy.nodes), old(policy.index), key)
                        then old(leaked) + multiset{old(policy.index)[key]} else old(leaked)
    {
      hide Inv, Next, Slotted, Queued, Counted, Indexed, Linked, KindOk, Inserted;
      ghost var before := View();
      ticket := Nothing;
      Residents(backing, policy.capacity, before, key);
      if key !in policy.index && !policy.CanInsert(key) { return; }
      var it, readable := policy.Emplace(key);
      if it == Null {
        ticket := Fill(backing, key);
      } else if readable {
        leaked := leaked + multiset{it.ptr};
        LeakIsNext(backing, policy.kind, policy.capacity, before, key, View());
      } else {
        MissIsNext(backing, policy.kind, policy.capacity, before, key, View());
      }
    }

    /** The client's copy of the backing row into the position it was given. */
    method WriteRow(backing: int -> Row, ticket: Ticket)
      requires Ok(backing) && ticket in writers
      modifies this`writers, this`rows, cache.tensor
      ensures Ok(backing) && writers == old(writers)[ticket := true]
      ensures Performs(backing, policy.kind, policy.capacity, old(View()), DoWriteRow(ticket), View())
    {
      hide Inv, Next, Slotted, Queued, Counted, Indexed, Linked, KindOk;
      ghost var before := View();
      TicketPosition(backing, policy.capacity, before, ticket);
      var ok := cache.Replace([ticket.pos], [backing(ticket.key)], cache.rowBytes);
      rows := rows[ticket.pos := backing(ticket.key)];
      writers := writers[ticket := true];
      assert cache.tensor[[ticket.pos][0]] == backing(ticket.key);
      WriteIsNext(backing, policy.kind, policy.capacity, before, ticket, View());
    }

    /** A read of the row at a hit position yields the backing row of the key. */
    method ReadRow(ghost backing: int -> Row, ticket: Ticket) returns (row: Row)
      requires Ok(backing) && ticket in readers
      ensures row == backing(ticket.key)
    {
      hide Inv, Slotted, Queued, Counted, Indexed, Linked, KindOk;
      TicketPosition(backing, policy.capacity, View(), ticket);
      ReaderRow(backing, policy.capacity, View(), ticket);
      var values := cache.Query([ticket.pos], [0], 1);
      assert values[[0][0]] == cache.tensor[[ticket.pos][0]];
      row := values[0];
    }

    /** `ReadingCompleted` for one pointer. */
    method ReadingCompleted(ghost backing: int -> Row, ticket: Ticket)
      requires Ok(backing) && ticket in readers
      modifies this`readers, policy`nodes
      ensures Ok(backing) && readers == old(readers) - multiset{ticket}
      ensures Performs(backing, policy.kind, policy.capacity, old(View()), DoEndRead(ticket), View())
    {
      hide Inv, Next, Slotted, Queued, Counted, Indexed, Linked, KindOk;
      ghost var before := View();
      ReaderCount(backing, policy.capacity, before, ticket);
      policy.EndUse(ticket.ptr, false);
      readers := readers - multiset{ticket};
      EndReadIsNext(backing, policy.kind, policy.capacity, before, ticket, View());
    }

    /** `WritingCompleted` for one pointer, after its row has been written. */
    method WritingCompleted(ghost backing: int -> Row, ticket: Ticket)
      requires Ok(backing) && ticket in writers && writers[ticket]
      modifies this`writers, policy`nodes
      ensures Ok(backing) && writers == old(writers) - {ticket}
      ensures Performs(backing, policy.kind, policy.capacity, old(View()), DoEndWrite(ticket), View())
    {
      hide Inv, Next, Slotted, Queued, Counted, Indexed, Linked, KindOk;
      ghost var before := View();
      WriterCount(backing, policy.capacity, before, ticket);
      policy.EndUse(ticket.ptr, true);
      writers := writers - {ticket};
      EndWriteIsNext(backing, policy.kind, policy.capacity, before, ticket, View());
    }
  }

  /** The rows that the first n commands observe: one for every read with a held ticket. */
  ghost function Observations<Row>(
    backing: int -> Row, script: seq<Command>, trace: seq<State<Row>>, n: nat): seq<(int, Row)>
    requires n <= |script| && n <= |trace|
  {
    if n == 0 then []
    else
      var c := script[n - 1];
      Observations(backing, script, trace, n - 1) +
      if c.DoReadRow? && c.ticket in trace[n - 1].readers then [(c.ticket.key, backing(c.ticket.key))] else []
  }

  /** A trace of the abstract states before, between and after the commands. */
  ghost predicate Traces<Row>(
    backing: int -> Row, kind: Kind, capacity: int, script: seq<Command>, trace: seq<State<Row>>, n: nat)
  {
    && n <= |script| && |trace| == n + 1 && Initial(trace[0])
    && forall k :: 0 <= k < n ==> Performs(backing, kind, capacity, trace[k], script[k], trace[k + 1])
  }

  /** Any script of interleaved client commands, on any policy: every read with a held
      ticket is observed, in order, and yields the backing row of the key that was hit. */
  method RunScript<Row(0)>(kind: Kind, capacity: int, rowBytes: nat, backing: int -> Row, script: seq<Command>)
    returns (observed: seq<(int, Row)>, ghost trace: seq<State<Row>>)
    requires rowBytes > 0 && capacity > 0 && (kind == S3Fifo ==> capacity / 10 > 0)
    ensures Traces(backing, kind, capacity, script, trace, |script|)
    ensures observed == Observations(backing, script, trace, |script|)
  {
    hide Inv, Slotted, Queued, Counted, Indexed, Linked, KindOk, Performs, Initial, Clients.Ok, Traces, Observations;
    observed := [];
    var clients := new Clients<Row>(kind, capacity, rowBytes, backing);
    trace := [clients.View()];
    NoTrace(backing, kind, capacity, script, clients.View());
    for n := 0 to |script|
      invariant clients.Ok(backing) && clients.policy.kind == kind && clients.policy.capacity == capacity
      invariant fresh(clients.policy) && fresh(clients.policy.ghostQueue)
      invariant fresh(clients.policy.ghostQueue.data) && fresh(clients.cache.tensor)
      invariant Traces(backing, kind, capacity, script, trace, n) && |trace| == n + 1 && clients.View() == trace[n]
      invariant observed == Observations(backing, script, trace, n)
    {
      var seen := Perform(clients, backing, script[n]);
      ObserveNext(backing, script, trace, clients.View(), n);
      TraceNext(backing, kind, capacity, script, trace, clients.View(), n);
      observed := observed + seen;
      trace := trace + [clients.View()];
    }
  }

  lemma NoTrace<Row>(backing: int -> Row, kind: Kind, capacity: int, script: seq<Command>, s: State<Row>)
    requires Initial(s)
    ensures Traces(backing, kind, capacity, script, [s], 0) && Observations(backing, script, [s], 0) == []
  {
  }

  lemma TraceNext<Row>(backing: int -> Row, kind: Kind, capacity: int, script: seq<Command>, trace: seq<State<Row>>,
                       t: State<Row>, n: nat)
    requires n < |script| && Traces(backing, kind, capacity, script, trace, n) && |trace| == n + 1
    requires Performs(backing, kind, capacity, trace[n], script[n], t)
    ensures Traces(backing, kind, capacity, script, trace + [t], n + 1)
  {
    hide Performs;
  }

  lemma {:induction false} ObservePrefix<Row>(
    backing: int -> Row, script: seq<Command>, trace: seq<State<Row>>, t: State<Row>, n: nat)
    requires n <= |script| && n <= |trace|
    ensures Observations(backing, script, trace + [t], n) == Observations(backing, script, trace, n)
  {
    if n > 0 { ObservePrefix(backing, script, trace, t, n - 1); }
  }

  lemma ObserveNext<Row>(backing: int -> Row, script: seq<Command>, trace: seq<State<Row>>, t: State<Row>, n: nat)
    requires n < |script| && |trace| == n + 1
    ensures var c := script[n];
      Observations(backing, script, trace + [t], n + 1) ==
      Observations(backing, script, trace, n) +
      if c.DoReadRow? && c.ticket in trace[n].readers then [(c.ticket.key, backing(c.ticket.key))] else []
  {
    ObservePrefix(backing, script, trace, t, n);
  }

  /** One command of a script, and the row it observes if any. */
  method Perform<Row(0)>(clients: Clients<Row>, backing: int -> Row, c: Command) returns (seen: seq<(int, Row)>)
    requires clients.Ok(backing)
    modifies clients, clients.policy, clients.policy.ghostQueue, clients.policy.ghostQueue.data, clients.cache.tensor
    ensures clients.Ok(backing)
    ensures Performs(backing, clients.policy.kind, clients.policy.capacity, old(clients.View()), c, clients.View())
    ensures seen ==
      if c.DoReadRow? && c.ticket in old(clients.readers) then [(c.ticket.key, backing(c.ticket.key))] else []
  {
    hide Inv, Slotted, Queued, Counted, Indexed, Linked, KindOk, Next, Fills, GhostAfter;
    seen := [];
    match c
    case DoQuery(key) => var _ := clients.Query(backing, key);
    case DoQueryAndReplace(key) => var _ := clients.QueryAndReplace(backing, key);
    case DoReplace(key) => var _ := clients.Replace(backing, key);
    case DoWriteRow(t) => if t in clients.writers { clients.WriteRow(backing, t); }
    case DoReadRow(t) =>
      if t in clients.readers {
        var row := clients.ReadRow(backing, t);
        seen := [(t.key, row)];
      }
    case DoEndRead(t) => if t in clients.readers { clients.ReadingCompleted(backing, t); }
    case DoEndWrite(t) => if t in clients.writers && clients.writers[t] { clients.WritingCompleted(backing, t); }
  }

  datatype MaybeTicket = Nothing | Held(ticket: Ticket)

  lemma Residents<Row>(backing: int -> Row, capacity: int, s: State<Row>, key: int)
    requires Inv(backing, capacity, s)
    ensures key in s.index ==> s.index[key] in s.nodes
  {
  }

  lemma HitIsNext<Row>(backing: int -> Row, kind: Kind, capacity: int, s: State<Row>, key: int, t: State<Row>)
    requires Inv(backing, capacity, s) && Readable(s.nodes, s.index, key)
    requires var p := s.index[key];
      && t.nodes == s.nodes[p := Looked(kind, s.nodes[p])]
      && t == s.(nodes := t.nodes, readers := s.readers + multiset{Ticket(p, key, t.nodes[p].pos)})
    ensures Inv(backing, capacity, t) && Next(backing, kind, capacity, s, Hit(key), t)
  {
    hide Inv, Inserted;
    TouchedBasics(kind, s.nodes[s.index[key]]);
    NextInv(backing, kind, capacity, s, Hit(key), t);
  }

  lemma MissIsNext<Row>(backing: int -> Row, kind: Kind, capacity: int, s: State<Row>, key: int, t: State<Row>)
    requires Inv(backing, capacity, s) && !Readable(s.nodes, s.index, key)
    requires if key in s.index && s.index[key] in s.nodes
             then t == s.(nodes := s.nodes[s.index[key] := Looked(kind, s.nodes[s.index[key]])]) else t == s
    ensures Inv(backing, capacity, t) && Next(backing, kind, capacity, s, Miss(key), t)
  {
    hide Inv, Inserted, Readable, Looked;
    NextInv(backing, kind, capacity, s, Miss(key), t);
  }

  lemma InsertionIsNext<Row>(
    backing: int -> Row, kind: Kind, capacity: int, s: State<Row>, key: int, p: Ptr, v: MaybePtr, t: State<Row>)
    requires Inv(backing, capacity, s) && Next(backing, kind, capacity, s, Insertion(key, p, v), t)
    ensures Inv(backing, capacity, t) && Fills(backing, kind, capacity, s, key, t)
  {
    hide Inv, Next;
    NextInv(backing, kind, capacity, s, Insertion(key, p, v), t);
  }

  lemma LeakIsNext<Row>(backing: int -> Row, kind: Kind, capacity: int, s: State<Row>, key: int, t: State<Row>)
    requires Inv(backing, capacity, s) && Readable(s.nodes, s.index, key)
    requires var p := s.index[key];
      t == s.(nodes := s.nodes[p := Looked(kind, s.nodes[p])], leaked := s.leaked + multiset{p})
    ensures Inv(backing, capacity, t) && Next(backing, kind, capacity, s, Leak(key), t)
  {
    hide Inv, Inserted, Looked;
    NextInv(backing, kind, capacity, s, Leak(key), t);
  }

  lemma WriteIsNext<Row>(backing: int -> Row, kind: Kind, capacity: int, s: State<Row>, w: Ticket, t: State<Row>)
    requires Inv(backing, capacity, s) && w in s.writers
    requires t == s.(rows := s.rows[w.pos := backing(w.key)], writers := s.writers[w := true])
    ensures Inv(backing, capacity, t) && Next(backing, kind, capacity, s, WriteRow(w), t)
  {
    hide Inv, Inserted, Readable, Looked;
    NextInv(backing, kind, capacity, s, WriteRow(w), t);
  }

  lemma EndReadIsNext<Row>(backing: int -> Row, kind: Kind, capacity: int, s: State<Row>, r: Ticket, t: State<Row>)
    requires Inv(backing, capacity, s) && r in s.readers && r.ptr in s.nodes
    requires t == s.(nodes := s.nodes[r.ptr := s.nodes[r.ptr].EndUse(false)], readers := s.readers - multiset{r})
    ensures Inv(backing, capacity, t) && Next(backing, kind, capacity, s, EndRead(r), t)
  {
    hide Inv, Inserted, Readable, Looked;
    NextInv(backing, kind, capacity, s, EndRead(r), t);
  }

  lemma EndWriteIsNext<Row>(backing: int -> Row, kind: Kind, capacity: int, s: State<Row>, w: Ticket, t: State<Row>)
    requires Inv(backing, capacity, s) && w in s.writers && s.writers[w] && w.ptr in s.nodes
    requires t == s.(nodes := s.nodes[w.ptr := s.nodes[w.ptr].EndUse(true)], writers := s.writers - {w})
    ensures Inv(backing, capacity, t) && Next(backing, kind, capacity, s, EndWrite(w), t)
  {
    hide Inv, Inserted, Readable, Looked;
    NextInv(backing, kind, capacity, s, EndWrite(w), t);
  }

  lemma TicketPosition<Row>(backing: int -> Row, capacity: int, s: State<Row>, x: Ticket)
    requires Inv(backing, capacity, s) && (x in s.readers || x in s.writers)
    ensures 0 <= x.pos < capacity
  {
    assert Live(s.nodes, x);
  }

  lemma ReaderRow<Row>(backing: int -> Row, capacity: int, s: State<Row>, r: Ticket)
    requires Inv(backing, capacity, s) && r in s.readers
    ensures r.pos in s.rows && s.rows[r.pos] == backing(r.key)
  {
    assert Live(s.nodes, r) && r == TicketOf(s.nodes, r.ptr);
  }

  lemma ReaderCount<Row>(backing: int -> Row, capacity: int, s: State<Row>, r: Ticket)
    requires Inv(backing, capacity, s) && r in s.readers
    ensures r.ptr in s.nodes && s.nodes[r.ptr].refs > 0
  {
    assert Live(s.nodes, r) && r == TicketOf(s.nodes, r.ptr);
  }

  lemma WriterCount<Row>(backing: int -> Row, capacity: int, s: State<Row>, w: Ticket)
    requires Inv(backing, capacity, s) && w in s.writers
    ensures w.ptr in s.nodes && s.nodes[w.ptr].refs == -1
  {
    assert Live(s.nodes, w) && w == TicketOf(s.nodes, w.ptr);
  }
}
