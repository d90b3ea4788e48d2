/** The shared pool of submission queues: a counting semaphore in front of a free
    list, with one ticket taken when a read starts.

    Source: graphbolt/src/cnumpy.h. */
module QueuePool {
  import opened Collections

  /** semaphore: free tickets; available: the free list, used from its end;
      unentered: reads that hold the ticket of their constructor and have not handed
      it to a thread; ready: threads with a ticket and no queue yet; held: queues in
      use; returned: threads that gave their queue back and not yet their ticket. */
  datatype Pool = Pool(semaphore: nat, available: seq<int>, unentered: nat, ready: nat, held: set<int>, returned: nat)

  datatype Event = Construct | EnterFirst | EnterLater | Pop | GiveBack(id: int) | Release | Destroy

  ghost predicate Next(p: Pool, e: Event, q: Pool) {
    match e
    // QueueAndBufferAcquirer(): waits for a ticket.
    case Construct => p.semaphore > 0 && q == p.(semaphore := p.semaphore - 1, unentered := p.unentered + 1)
    // get(): the first thread of a read uses the constructor's ticket, the others wait for one.
    case EnterFirst => p.unentered > 0 && q == p.(unentered := p.unentered - 1, ready := p.ready + 1)
    case EnterLater => p.semaphore > 0 && q == p.(semaphore := p.semaphore - 1, ready := p.ready + 1)
    case Pop =>
      && p.ready > 0 && |p.available| > 0
      && var last := |p.available| - 1;
         q == p.(ready := p.ready - 1, available := p.available[..last], held := p.held + {p.available[last]})
    // ~UniqueQueue(): the queue first, then the ticket.
    case GiveBack(id) =>
      id in p.held && q == p.(held := p.held - {id}, available := p.available + [id], returned := p.returned + 1)
    case Release => p.returned > 0 && q == p.(returned := p.returned - 1, semaphore := p.semaphore + 1)
    // ~QueueAndBufferAcquirer(): a ticket no thread has used is released.
    case Destroy => p.unentered > 0 && q == p.(unentered := p.unentered - 1, semaphore := p.semaphore + 1)
  }

  ghost predicate Initial(p: Pool, n: nat) {
    p == Pool(n, p.available, 0, 0, {}, 0) && |p.available| == n && forall i :: 0 <= i < n ==> p.available[i] == i
  }

  /** Every ticket and every queue is in exactly one place. */
  ghost predicate Inv(p: Pool, n: nat) {
    && p.semaphore + p.unentered + p.ready + |p.held| + p.returned == n
    && |p.available| + |p.held| == n && Distinct(p.available)
    && (forall i :: 0 <= i < |p.available| ==> 0 <= p.available[i] < n && p.available[i] !in p.held)
    && (forall id :: id in p.held ==> 0 <= id < n)
  }

  lemma NextInv(p: Pool, e: Event, q: Pool, n: nat)
    requires Inv(p, n) && Next(p, e, q)
    ensures Inv(q, n)
  {
    match e {
      case Pop => { PopInv(p, q, n); }
      case GiveBack(id) => { GiveBackInv(p, id, q, n); }
      case _ => { }
    }
  }

  lemma PopInv(p: Pool, q: Pool, n: nat)
    requires Inv(p, n) && Next(p, Event.Pop, q)
    ensures Inv(q, n)
  {
    assert p.available[|p.available| - 1] !in p.held;
  }

  lemma GiveBackInv(p: Pool, id: int, q: Pool, n: nat)
    requires Inv(p, n) && Next(p, GiveBack(id), q)
    ensures Inv(q, n)
  {
    assert |p.held - {id}| == |p.held| - 1;
    assert forall i :: 0 <= i < |p.available| ==> p.available[i] != id;
  }

  ghost predicate IsRun(run: seq<Pool>, events: seq<Event>, n: nat) {
    && |run| == |events| + 1 && Initial(run[0], n)
    && forall t :: 0 <= t < |events| ==> Next(run[t], events[t], run[t + 1])
  }

  lemma {:induction false} RunInv(run: seq<Pool>, events: seq<Event>, n: nat, t: nat)
    requires IsRun(run, events, n) && t < |run|
    ensures Inv(run[t], n)
  {
    hide Inv, Next;
    if t == 0 {
      InitialInv(run[0], n);
    } else {
      RunInv(run, events, n, t - 1);
      NextInv(run[t - 1], events[t - 1], run[t], n);
    }
  }

  lemma InitialInv(p: Pool, n: nat)
    requires Initial(p, n)
    ensures Inv(p, n)
  {
  }

  /** The free list is never empty when a thread with a ticket takes a queue from it,
      and the queue is one that nobody else uses. */
  lemma TicketMeansQueue(run: seq<Pool>, events: seq<Event>, n: nat, t: nat)
    requires IsRun(run, events, n) && t < |run| && run[t].ready > 0
    ensures var free := run[t].available;
      |free| >= run[t].ready && 0 <= free[|free| - 1] < n && free[|free| - 1] !in run[t].held
  {
    RunInv(run, events, n, t);
  }

  /** When all reads are over every ticket is back and every queue is free. */
  lemma AllReturned(run: seq<Pool>, events: seq<Event>, n: nat, t: nat)
    requires IsRun(run, events, n) && t < |run|
    requires run[t].unentered == 0 && run[t].ready == 0 && run[t].held == {} && run[t].returned == 0
    ensures run[t].semaphore == n && |run[t].available| == n && forall id :: 0 <= id < n ==> id in run[t].available
  {
    RunInv(run, events, n, t);
    InjectiveOnto(run[t].available, n);
  }
}
