/** The request ring of the on-disk reader's workers: a worker hands out pointers to
    ring cells with its requests and reads the requests back through them when they complete.

    Source: graphbolt/src/cnumpy.cc, graphbolt/src/circular_queue.h. */
module RequestRing {
  import opened Arithmetic
  import opened Circular
  import opened OnDiskReader

  const CELLS: nat := 8 * G + 1

  /** The ring holds the worker's queued requests, and the cell of every request in
      flight still holds that request. */
  ghost predicate Mirrors(ring: CircularQueue<Request>, w: Worker)
    reads ring, ring.data
  {
    && ring.Valid() && ring.capacity == CELLS && ring.Contents() == w.queued
    && |w.queued| <= w.pushes && ring.tail == w.pushes % CELLS
    && forall n :: n in w.flight ==> ring.data[n % CELLS] == w.flight[n]
  }

  method NewRing() returns (ring: CircularQueue<Request>)
    ensures fresh(ring) && fresh(ring.data) && Mirrors(ring, Worker(Top, [], map[], 0, 0, 0, 0, 0, 0))
  {
    ring := new CircularQueue<Request>(8 * G);
  }

  /** Going back from cell t of a ring. */
  lemma CellBehind(pushes: nat, back: nat, cells: nat)
    requires cells >= 1 && back <= pushes && back <= cells
    ensures (pushes - back) % cells == pushes % cells - back + (if back <= pushes % cells then 0 else cells)
  {
    var q, t := pushes / cells, pushes % cells;
    assert pushes == q * cells + t;
    if back <= t {
      QuotientIs(pushes - back, cells, q);
    } else {
      assert (q - 1) * cells == q * cells - cells;
      QuotientIs(pushes - back, cells, q - 1);
    }
  }

  lemma CellAfter(pushes: nat, cells: nat)
    requires cells >= 1
    ensures (pushes + 1) % cells ==
      if pushes % cells + 1 >= cells then pushes % cells + 1 - cells else pushes % cells + 1
  {
    var q, t := pushes / cells, pushes % cells;
    assert pushes == q * cells + t;
    if t + 1 >= cells {
      assert (q + 1) * cells == q * cells + cells;
      QuotientIs(pushes + 1, cells, q + 1);
    } else {
      QuotientIs(pushes + 1, cells, q);
    }
  }

  /** The k-th queued request lies in the cell of its number. */
  lemma QueuedCell(ring: CircularQueue<Request>, w: Worker, k: nat)
    requires Mirrors(ring, w) && k < |w.queued|
    ensures ring.data[(w.pushes - |w.queued| + k) % CELLS] == w.queued[k]
  {
    ring.ContentsAt(k);
    CellBehind(w.pushes, |w.queued| - k, CELLS);
    assert ring.Size() == |w.queued|;
  }

  lemma FlightFits(w: Worker, n: nat)
    requires Bounded(w) && n in w.flight
    ensures n < w.pushes && n % CELLS != w.pushes % CELLS
  {
    hide Bounded;
    LiveWindow(w, n);
    NotPushed(w, n);
    SlotsNotReused(w, n, w.pushes);
  }

  lemma NotPushed(w: Worker, n: nat)
    requires Bounded(w) && n in w.flight
    ensures n != w.pushes
  {
    hide CountsBooked, Range;
    RangeHas(w.mark, w.pushes - |w.queued|);
    RangeHas(w.prev, w.mark);
  }

  /** `read_queue.Push`: the cell is not in use, so nothing in flight is overwritten. */
  method PushRequest(ring: CircularQueue<Request>, r: Request, ghost w: Worker) returns (cell: int)
    requires Mirrors(ring, w) && Bounded(w)
    modifies ring`tail, ring.data
    ensures Mirrors(ring, w.(queued := w.queued + [r], pushes := w.pushes + 1))
    ensures cell == w.pushes % CELLS && ring.data[cell] == r
  {
    hide Booked;
    CellAfter(w.pushes, CELLS);
    assert !ring.IsFull();
    forall n | n in w.flight ensures n % CELLS != w.pushes % CELLS { FlightFits(w, n); }
    cell := ring.Push(r);
  }

  /** How many entries the kernel takes at its k-th call; it may take none for a while. */
  type Kernel = nat -> nat

  ghost predicate TakesSome(kernel: Kernel, k: nat) {
    exists m: nat :: m >= k && kernel(m) > 0
  }

  ghost predicate Progresses(kernel: Kernel) {
    forall k: nat :: TakesSome(kernel, k)
  }

  /** `submit_fn`: however the kernel takes the queued requests, in the end all of them
      are in flight, each in its cell, and counted. */
  method SubmitRequests(ring: CircularQueue<Request>, minimum: nat, numSubmitted: nat, kernel: Kernel, ghost w: Worker)
    returns (total: nat)
    requires Mirrors(ring, w) && numSubmitted == w.submitted && Progresses(kernel)
    modifies ring`head
    ensures Mirrors(ring, Submit(w, minimum)) && total == Submit(w, minimum).submitted
  {
    hide Progresses, Mirrors, Submit, CircularQueue.Contents;
    MirrorsFacts(ring, w);
    total := numSubmitted;
    if ring.Size() < minimum {
      SubmitNothing(w, minimum);
      return;
    }
    ghost var data := ring.data[..];
    forall k: nat | k < |w.queued|
      ensures data[(w.pushes - |w.queued| + k) % CELLS] == w.queued[k]
    {
      QueuedCell(ring, w, k);
    }
    ghost var done: nat := 0;
    var call: nat := 0;
    ghost var next := NextTaken(kernel, call);
    while !ring.IsEmpty()
      invariant ring.Valid() && done <= |w.queued| && ring.Contents() == w.queued[done..] && total == w.submitted + done
      invariant call <= next && kernel(next) > 0
      decreases |w.queued| - done, next - call
    {
      var size := ring.Size();
      var taken := kernel(call);
      var submitted := if taken < size then taken else size;
      total := total + submitted;
      ring.PopN(submitted);
      done := done + submitted;
      call := call + 1;
      if submitted > 0 { next := NextTaken(kernel, call); }
    }
    MirrorsSubmitted(ring, w, minimum, data);
  }

  lemma NextTaken(kernel: Kernel, k: nat) returns (m: nat)
    requires Progresses(kernel)
    ensures m >= k && kernel(m) > 0
  {
    assert TakesSome(kernel, k);
    m :| m >= k && kernel(m) > 0;
  }

  lemma MirrorsFacts(ring: CircularQueue<Request>, w: Worker)
    requires Mirrors(ring, w)
    ensures ring.Valid() && ring.Contents() == w.queued && ring.capacity == CELLS == |ring.data[..]|
    ensures |w.queued| <= w.pushes
    ensures ring.tail == w.pushes % CELLS && forall n :: n in w.flight ==> ring.data[..][n % CELLS] == w.flight[n]
  {
  }

  lemma SubmitNothing(w: Worker, minimum: nat)
    requires |w.queued| < minimum
    ensures Submit(w, minimum) == w
  {
  }

  /** Requests in flight are found in their cells although the ring has given them up. */
  lemma MirrorsSubmitted(ring: CircularQueue<Request>, w: Worker, minimum: nat, data: seq<Request>)
    requires minimum <= |w.queued| <= w.pushes && ring.Valid() && ring.capacity == CELLS && ring.Contents() == []
    requires ring.tail == w.pushes % CELLS && data == ring.data[..]
    requires forall n :: n in w.flight ==> data[n % CELLS] == w.flight[n]
    requires forall k: nat :: k < |w.queued| ==> data[(w.pushes - |w.queued| + k) % CELLS] == w.queued[k]
    ensures Mirrors(ring, Submit(w, minimum)) && Submit(w, minimum).submitted == w.submitted + |w.queued|
  {
    hide CircularQueue.Contents, Numbered;
    FlightStored(w, data);
  }

  lemma FlightStored(w: Worker, data: seq<Request>)
    requires |w.queued| <= w.pushes && |data| == CELLS
    requires forall n :: n in w.flight ==> data[n % CELLS] == w.flight[n]
    requires forall k: nat :: k < |w.queued| ==> data[(w.pushes - |w.queued| + k) % CELLS] == w.queued[k]
    ensures var f := w.flight + Numbered(w.queued, w.pushes - |w.queued|);
      forall n :: n in f ==> data[n % CELLS] == f[n]
  {
    var first := w.pushes - |w.queued|;
    forall n | n in Numbered(w.queued, first) ensures data[n % CELLS] == Numbered(w.queued, first)[n] {
      var k: nat := n - first;
      assert data[(first + k) % CELLS] == w.queued[k];
    }
  }

  /** One request on its way: pushed, and submitted with the others once there are enough. */
  method Enqueue(ring: CircularQueue<Request>, r: Request, numSubmitted: nat, kernel: Kernel, ghost w: Worker)
    returns (cell: int, total: nat)
    requires Mirrors(ring, w) && Bounded(w) && numSubmitted == w.submitted && Progresses(kernel)
    modifies ring`tail, ring`head, ring.data
    ensures Mirrors(ring, Push(w, r)) && total == Push(w, r).submitted
    ensures cell == w.pushes % CELLS && ring.data[cell] == r
  {
    hide Mirrors, Submit, Bounded, Progresses;
    cell := PushRequest(ring, r, w);
    total := SubmitRequests(ring, G, numSubmitted, kernel, w.(queued := w.queued + [r], pushes := w.pushes + 1));
  }

  lemma FewerInFlight(ring: CircularQueue<Request>, w: Worker, t: Worker)
    requires Mirrors(ring, w) && t.queued == w.queued && t.pushes == w.pushes
    requires forall n :: n in t.flight ==> n in w.flight && t.flight[n] == w.flight[n]
    ensures Mirrors(ring, t)
  {
  }

  /** A completion reads its request through the pointer into the ring: it is the
      request that was submitted, and the follow-up of a short read joins the queue. */
  method HandleCompletion(c: Config, ring: CircularQueue<Request>, cell: nat, actual: nat, numSubmitted: nat,
                          kernel: Kernel, ghost w: Worker, ghost n: nat)
    returns (r: Request, total: nat)
    requires Mirrors(ring, w) && Bounded(w) && numSubmitted == w.submitted && Progresses(kernel) && c.Valid()
    requires w.phase.Sweep? && n in w.phase.awaited && n in w.flight && cell == n % CELLS
    modifies ring`tail, ring`head, ring.data
    ensures r == w.flight[n]
    ensures var pushed := if RemainingLen(c, r, actual) > 0 then Push(w, Rest(c, r, actual)) else w;
      var awaited := Sweep(w.phase.awaited - {n});
      && Mirrors(ring, pushed.(phase := awaited, flight := pushed.flight - {n}, handled := w.handled + 1))
      && total == pushed.submitted
  {
    hide Submit, Bounded, Progresses, OnDiskReader.Push, RemainingLen, Rest;
    r := ring.data[cell];
    total := numSubmitted;
    ghost var pushed := w;
    if RemainingLen(c, r, actual) > 0 {
      var next;
      next, total := Enqueue(ring, Rest(c, r, actual), numSubmitted, kernel, w);
      pushed := OnDiskReader.Push(w, Rest(c, r, actual));
    }
    FewerInFlight(ring, pushed, pushed.(phase := Sweep(w.phase.awaited - {n}), flight := pushed.flight - {n},
                                        handled := w.handled + 1));
  }
}
