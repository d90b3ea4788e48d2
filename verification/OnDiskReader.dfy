/** The on-disk reader: aligned read requests, and worker threads that keep a bounded
    number of them in flight and put short reads together.

    Source: graphbolt/src/cnumpy.cc, graphbolt/src/cnumpy.h. */
module OnDiskReader {
  import opened Arithmetic

  const G: nat := 256   // kGroupSize

  // ------------------------------------------------------------------
  // Aligned reads

  function RoundDown(x: nat, block: nat): (r: nat)
    requires block > 0
    ensures r <= x < r + block && r % block == 0
  {
    MultipleOf(x / block, block);
    x / block * block
  }

  function RoundUp(x: nat, block: nat): (r: nat)
    requires block > 0
    ensures x <= r < x + block && r % block == 0
  {
    RoundDown(x + block - 1, block)
  }

  lemma MultipleOf(q: nat, block: nat)
    requires block > 0
    ensures q * block % block == 0
  {
    QuotientIs(q * block, block, q);
  }

  /** Two multiples less than a block apart, plus a block: one step at most. */
  lemma MultipleStep(x: nat, y: nat, block: nat)
    requires block > 0 && x % block == 0 && y % block == 0 && x < y + 2 * block
    ensures x <= y + block
  {
    var m, n := x / block, y / block;
    Recomposed(x, block);
    Recomposed(y, block);
    OneMore(n, block);
    if m > n + 1 { LessScaled(n + 1, m, block); } else { Scaled(m, n + 1, block); }
  }

  lemma Recomposed(x: nat, block: nat)
    requires block > 0 && x % block == 0
    ensures x == x / block * block
  {
  }

  lemma OneMore(n: nat, block: nat)
    ensures (n + 1) * block == n * block + block
  {
  }

  /** The file, the index and the shape of the rows. */
  datatype Config = Config(index: seq<int>, rows: nat, size: nat, prefix: nat, block: nat, file: int -> int)
  {
    predicate Valid() {
      size > 0 && block > 0
    }

    function Id(i: nat): int
      requires i < |index|
    {
      if index[i] < 0 then index[i] + rows else index[i]
    }

    /** Whether item i names a row; others are skipped and reported. */
    predicate InRange(i: nat)
      requires i < |index|
    {
      0 <= Id(i) < rows
    }

    function Base(i: nat): nat
      requires i < |index| && InRange(i)
    {
      Id(i) * size + prefix
    }

    function AlignedLength(): nat
      requires Valid()
    {
      RoundUp(size, block)
    }

    /** The bytes of one buffer slot. */
    function SlotSize(): nat
      requires Valid()
    {
      AlignedLength() + block
    }
  }

  /** A read of len bytes at file position offset, wanted at byte `at` of output row
      `item`; the n-th request uses buffer slot n and queue cell n, both cyclic. */
  datatype Request = Request(item: nat, at: nat, len: nat, offset: nat)
  {
    function AlignedOffset(c: Config): nat
      requires c.Valid()
    {
      RoundDown(offset, c.block)
    }

    function AlignedReadSize(c: Config): nat
      requires c.Valid()
    {
      RoundUp(offset + len, c.block) - RoundDown(offset, c.block)
    }

    function MinimumReadSize(c: Config): nat
      requires c.Valid()
    {
      offset + len - RoundDown(offset, c.block)
    }

    ghost predicate Ok(c: Config) {
      && c.Valid() && item < |c.index| && c.InRange(item)
      && len > 0 && at + len <= c.size && offset == c.Base(item) + at
    }

    ghost predicate Covers(i: nat, b: nat) {
      item == i && at <= b < at + len
    }
  }

  /** An aligned read starts and ends on block boundaries, contains the wanted bytes,
      and fits its slot. */
  lemma ReadFitsSlot(c: Config, r: Request)
    requires r.Ok(c)
    ensures r.AlignedOffset(c) % c.block == 0 && (r.AlignedOffset(c) + r.AlignedReadSize(c)) % c.block == 0
    ensures r.AlignedOffset(c) <= r.offset && r.MinimumReadSize(c) <= r.AlignedReadSize(c)
    ensures r.AlignedReadSize(c) <= c.SlotSize() == (c.size + c.block - 1) / c.block * c.block + c.block
  {
    var lo, hi := RoundDown(r.offset, c.block), RoundUp(r.offset + r.len, c.block);
    MultipleStep(hi, lo + RoundUp(c.size, c.block), c.block) by { SumMultiple(lo, RoundUp(c.size, c.block), c.block); }
  }

  lemma SumMultiple(x: nat, y: nat, block: nat)
    requires block > 0 && x % block == 0 && y % block == 0
    ensures (x + y) % block == 0
  {
    var m, n := x / block, y / block;
    assert x + y == (m + n) * block;
    MultipleOf(m + n, block);
  }

  // ------------------------------------------------------------------
  // One completion

  /** The rest of a request after `actual` bytes were read, and how many wanted bytes came. */
  function RemainingLen(c: Config, r: Request, actual: nat): nat
    requires c.Valid()
  {
    if actual < r.MinimumReadSize(c) then r.MinimumReadSize(c) - actual else 0
  }

  function UsefulLen(c: Config, r: Request, actual: nat): (u: nat)
    requires c.Valid()
    ensures u <= r.len
  {
    var remaining := RemainingLen(c, r, actual);
    r.len - if remaining < r.len then remaining else r.len
  }

  function Rest(c: Config, r: Request, actual: nat): Request
    requires c.Valid()
  {
    var useful := UsefulLen(c, r, actual);
    Request(r.item, r.at + useful, r.len - useful, r.offset + useful)
  }

  /** What the kernel may leave in the slot: file bytes as far as it read. */
  ghost predicate Delivered(c: Config, r: Request, actual: nat, buffer: seq<int>)
    requires c.Valid()
  {
    && actual <= r.AlignedReadSize(c) == |buffer|
    && forall k :: 0 <= k < actual ==> buffer[k] == c.file(r.AlignedOffset(c) + k)
  }

  /** The row after the useful bytes are copied out of the slot. */
  function Copied(c: Config, r: Request, actual: nat, buffer: seq<int>, row: seq<int>): (row': seq<int>)
    requires r.Ok(c) && actual <= r.AlignedReadSize(c) == |buffer| && |row| == c.size
    ensures |row'| == |row|
  {
    ReadFitsSlot(c, r);
    var from := r.offset - r.AlignedOffset(c);
    var useful := UsefulLen(c, r, actual);
    row[..r.at] + buffer[from..from + useful] + row[r.at + useful..]
  }

  /** A short read loses nothing: the bytes copied are the file's, only bytes the
      request wanted are written, and the rest asks for exactly the others. */
  lemma ShortReadReassembles(c: Config, r: Request, actual: nat, buffer: seq<int>, row: seq<int>)
    requires r.Ok(c) && Delivered(c, r, actual, buffer) && |row| == c.size
    ensures var row' := Copied(c, r, actual, buffer, row); var rest := Rest(c, r, actual);
      && (RemainingLen(c, r, actual) > 0 <==> rest.len > 0) && (rest.len > 0 ==> rest.Ok(c))
      && forall b: nat :: b < c.size ==>
        if r.Covers(r.item, b) && !rest.Covers(r.item, b)
        then row'[b] == c.file(c.Base(r.item) + b) else row'[b] == row[b]
  {
    ReadFitsSlot(c, r);
    var from := r.offset - r.AlignedOffset(c);
    var useful := UsefulLen(c, r, actual);
    assert useful > 0 ==> from + useful <= actual;
    var row' := Copied(c, r, actual, buffer, row);
    forall b: nat | r.at <= b < r.at + useful ensures row'[b] == c.file(c.Base(r.item) + b) {
      assert row'[b] == buffer[from + (b - r.at)];
    }
  }

  // ------------------------------------------------------------------
  // Workers

  /** Where a worker is: at the top of its loop, putting the items [cur, end) into the
      queue, handling the completions it waited for, or finished. */
  datatype Phase = Top | Issue(cur: nat, end: nat) | Sweep(awaited: set<nat>) | Done

  /** queued: requests put into the submission ring and not yet submitted; the last of
      them is number pushes - 1. flight: submitted requests by number. prev and mark are
      auxiliary: the numbers reached when the last two sweeps began. */
  datatype Worker = Worker(phase: Phase, queued: seq<Request>, flight: map<nat, Request>, pushes: nat,
                           submitted: nat, completed: nat, handled: nat, prev: nat, mark: nat)

  /** The requests with numbers from n on. */
  function Numbered(requests: seq<Request>, n: nat): (m: map<nat, Request>)
    ensures forall k :: k in m <==> n <= k < n + |requests|
    ensures forall k :: n <= k < n + |requests| ==> m[k] == requests[k - n]
  {
    if requests == [] then map[]
    else
      var last := |requests| - 1;
      Numbered(requests[..last], n)[n + last := requests[last]]
  }

  /** `submit_fn(minimum)`: all queued requests go into flight once there are enough. */
  function Submit(w: Worker, minimum: nat): Worker {
    if |w.queued| < minimum || w.pushes < |w.queued| then w
    else w.(queued := [], flight := w.flight + Numbered(w.queued, w.pushes - |w.queued|),
            submitted := w.submitted + |w.queued|)
  }

  /** The checks of `submit_fn`. */
  predicate SubmitChecks(w: Worker): (ok: bool)
    ensures ok <==> |w.queued| <= 512 && |w.queued| + w.submitted - w.completed <= 1024
  {
    |w.queued| <= 2 * G && |w.queued| + w.submitted - w.completed <= 4 * G
  }

  function Push(w: Worker, r: Request): Worker {
    Submit(w.(queued := w.queued + [r], pushes := w.pushes + 1), G)
  }

  /** How many items the worker asks for. */
  function Requested(w: Worker): nat {
    var room := 2 * G - (|w.queued| + w.submitted - w.completed);
    var slots := G - |w.queued|;
    var least := if room < slots then room else slots;
    if least < 0 then 0 else least
  }

  datatype State = State(next: nat, error: bool, rows: seq<seq<int>>, workers: seq<Worker>)

  datatype Event = Fetch | IssueItem | SubmitAll | Complete(n: nat, actual: nat, buffer: seq<int>) | EndSweep

  /** One step of worker w, given the shared counter, flag and rows. */
  ghost predicate Step(c: Config, next: nat, error: bool, rows: seq<seq<int>>, w: Worker,
                       next': nat, error': bool, rows': seq<seq<int>>, w': Worker, e: Event)
    requires c.Valid()
  {
    match e
    case Fetch =>
      var k := Requested(w);
      && w.phase.Top? && next' == next + k && error' == error && rows' == rows
      && (if next >= |c.index| && w.queued == [] && w.completed >= w.submitted then w' == w.(phase := Done)
          else w' == w.(phase := Issue(next, if next + k < |c.index| then next + k else |c.index|)))
    case IssueItem =>
      && w.phase.Issue? && w.phase.cur < w.phase.end <= |c.index| && next' == next && rows' == rows
      && var i := w.phase.cur;
         var after := w.(phase := Issue(i + 1, w.phase.end));
         if c.InRange(i) then error' == error && w' == Push(after, Request(i, 0, c.size, c.Base(i)))
         else error' && w' == after
    case SubmitAll =>
      && w.phase.Issue? && w.phase.cur >= w.phase.end && next' == next && error' == error && rows' == rows
      && var s := Submit(w, 1);
         w' == s.(phase := Sweep(s.flight.Keys), prev := w.mark, mark := w.pushes)
    case Complete(n, actual, buffer) =>
      && w.phase.Sweep? && n in w.phase.awaited && n in w.flight && next' == next && error' == error
      && var r := w.flight[n];
         && r.Ok(c) && Delivered(c, r, actual, buffer) && r.item < |rows| && |rows[r.item]| == c.size
         && rows' == rows[r.item := Copied(c, r, actual, buffer, rows[r.item])]
         && var pushed := if RemainingLen(c, r, actual) > 0 then Push(w, Rest(c, r, actual)) else w;
            w' == pushed.(phase := Sweep(w.phase.awaited - {n}), flight := pushed.flight - {n},
                          handled := w.handled + 1)
    case EndSweep =>
      && w.phase.Sweep? && w.phase.awaited == {} && next' == next && error' == error && rows' == rows
      && w' == w.(phase := Top, completed := w.completed + w.handled, handled := 0)
  }

  ghost predicate Next(c: Config, s: State, s': State, i: nat, e: Event)
    requires c.Valid()
  {
    && i < |s.workers| == |s'.workers| && s'.workers == s.workers[i := s'.workers[i]]
    && Step(c, s.next, s.error, s.rows, s.workers[i], s'.next, s'.error, s'.rows, s'.workers[i], e)
  }

  ghost predicate Init(c: Config, s: State) {
    && c.Valid() && s.next == 0 && !s.error && |s.rows| == |c.index|
    && (forall i :: 0 <= i < |s.rows| ==> |s.rows[i]| == c.size)
    && |s.workers| > 0 && forall i :: 0 <= i < |s.workers| ==> s.workers[i] == Worker(Top, [], map[], 0, 0, 0, 0, 0, 0)
  }

  // ------------------------------------------------------------------
  // The bounds

  function Range(lo: nat, hi: nat): set<nat>
    decreases hi
  {
    if hi <= lo then {} else Range(lo, hi - 1) + {hi - 1}
  }

  lemma {:induction false} RangeHas(lo: nat, hi: nat)
    ensures |Range(lo, hi)| == (if lo <= hi then hi - lo else 0) && forall n :: n in Range(lo, hi) <==> lo <= n < hi
    decreases hi
  {
    if lo < hi { RangeHas(lo, hi - 1); }
  }

  function Awaited(w: Worker): set<nat> {
    if w.phase.Sweep? then w.phase.awaited else {}
  }

  /** The numbers of the requests in flight. */
  ghost predicate KeysBooked(w: Worker) {
    && w.prev <= w.mark <= w.pushes - |w.queued|
    && w.flight.Keys == Awaited(w) + Range(w.mark, w.pushes - |w.queued|)
    && Awaited(w) <= Range(w.prev, w.mark)
  }

  /** The counters agree with what is in flight. */
  ghost predicate CountsBooked(w: Worker) {
    w.submitted - w.completed == (w.pushes - |w.queued| - w.mark) + |Awaited(w)| + w.handled
  }

  /** The bookkeeping of one worker: what is in flight or queued, by number. */
  ghost predicate Booked(w: Worker) {
    KeysBooked(w) && CountsBooked(w)
  }

  ghost predicate Bounded(w: Worker) {
    && Booked(w) && |w.queued| < G
    && match w.phase
       case Top => w.handled == 0 && w.pushes - w.mark <= 2 * G
       case Issue(cur, end) => w.handled == 0 && w.pushes - w.mark + (if cur < end then end - cur else 0) <= 2 * G
       case Sweep(awaited) => |awaited| + w.handled == w.mark - w.prev <= 2 * G && w.pushes - w.mark <= w.handled
       case Done => w.handled == 0 && w.pushes == w.mark && w.queued == []
  }

  /** Queued requests and requests in flight together never exceed twice the group size. */
  lemma InFlightBounded(w: Worker)
    requires Bounded(w)
    ensures |w.queued| + |w.flight| <= 512
  {
    hide Range;
    var recent := Range(w.mark, w.pushes - |w.queued|);
    RangesApart(w.prev, w.mark, w.pushes - |w.queued|);
    RangeSize(w.mark, w.pushes - |w.queued|);
    assert Awaited(w) !! recent;
    assert |w.flight| == |w.flight.Keys| == |Awaited(w)| + |recent|;
  }

  /** At the top of its loop a worker asks for as many items as the rings have room for. */
  lemma AsksForRoom(w: Worker)
    requires Bounded(w) && w.phase.Top?
    ensures Requested(w)
         == if |w.flight| <= 256 then 256 - |w.queued| else 512 - |w.queued| - |w.flight|
  {
    hide Range;
    RangeSize(w.mark, w.pushes - |w.queued|);
    assert |w.flight| == |w.flight.Keys|;
  }

  /** The numbers of live requests lie close together. */
  lemma LiveWindow(w: Worker, n: nat)
    requires Bounded(w) && (n in w.flight || w.pushes - |w.queued| <= n <= w.pushes)
    ensures var first := if w.phase.Sweep? then w.prev else w.mark; first <= n <= w.pushes < first + 8 * G
  {
    hide CountsBooked, Range;
    RangeHas(w.mark, w.pushes - |w.queued|);
    RangeHas(w.prev, w.mark);
  }

  /** No live request shares its buffer slot, or its cell of the request ring, with
      another live one or with the next one. */
  lemma SlotsNotReused(w: Worker, n: nat, m: nat)
    requires Bounded(w) && n != m
    requires n in w.flight || w.pushes - |w.queued| <= n <= w.pushes
    requires m in w.flight || w.pushes - |w.queued| <= m <= w.pushes
    ensures n % 2048 != m % 2048 && n % 2049 != m % 2049
  {
    hide Bounded;
    LiveWindow(w, n);
    LiveWindow(w, m);
    var lo, hi := if n < m then n else m, if n < m then m else n;
    RemaindersDiffer(lo, hi, 8 * G);
    RemaindersDiffer(lo, hi, 8 * G + 1);
  }

  lemma RangeJoin(a: nat, b: nat, d: nat)
    requires a <= b <= d
    ensures Range(a, b) + Range(b, d) == Range(a, d) && Range(d, d) == {}
  {
    RangeHas(a, b);
    RangeHas(b, d);
    RangeHas(a, d);
  }

  /** What submitting does, as numbers and sets. */
  lemma SubmitEffect(w: Worker, minimum: nat)
    requires |w.queued| <= w.pushes
    ensures var s := Submit(w, minimum);
      && s == w.(queued := s.queued, flight := s.flight, submitted := s.submitted)
      && (|w.queued| < minimum ==> s == w)
      && (|w.queued| >= minimum ==>
        s.queued == [] && s.submitted == w.submitted + |w.queued|
        && s.flight.Keys == w.flight.Keys + Range(w.pushes - |w.queued|, w.pushes))
  {
    hide Range;
    KeysOf(w.queued, w.pushes - |w.queued|);
  }

  lemma KeysOf(requests: seq<Request>, n: nat)
    ensures Numbered(requests, n).Keys == Range(n, n + |requests|)
  {
    RangeHas(n, n + |requests|);
  }

  lemma SubmitBooked(w: Worker, minimum: nat)
    requires Booked(w)
    ensures var s := Submit(w, minimum);
      && Booked(s) && s == w.(queued := s.queued, flight := s.flight, submitted := s.submitted)
      && (|s.queued| < minimum || s.queued == []) && |s.queued| <= |w.queued|
  {
    hide Submit, KeysBooked, Awaited, Range;
    QueueFits(w);
    SubmitEffect(w, minimum);
    SubmitKeys(w, Submit(w, minimum));
    SameAwaited(w, Submit(w, minimum));
  }

  /** The books do not mention the phase beyond what is awaited. */
  lemma BookedSame(w: Worker, t: Worker)
    requires Booked(w) && t == w.(phase := t.phase) && Awaited(t) == Awaited(w)
    ensures Booked(t)
  {
    hide Awaited;
  }

  lemma QueueFits(w: Worker)
    requires KeysBooked(w)
    ensures w.prev <= w.mark <= w.pushes - |w.queued|
  {
  }

  lemma SameAwaited(w: Worker, s: Worker)
    requires w.phase == s.phase
    ensures Awaited(w) == Awaited(s)
  {
  }

  lemma SubmitKeys(w: Worker, s: Worker)
    requires KeysBooked(w) && s == w.(queued := s.queued, flight := s.flight, submitted := s.submitted)
    requires s == w || (s.queued == [] && s.flight.Keys == w.flight.Keys + Range(w.pushes - |w.queued|, w.pushes))
    ensures KeysBooked(s)
  {
    hide Range;
    SameAwaited(w, s);
    RangeJoin(w.mark, w.pushes - |w.queued|, w.pushes);
    UnionAssociates(Awaited(w), Range(w.mark, w.pushes - |w.queued|), Range(w.pushes - |w.queued|, w.pushes));
  }

  lemma UnionAssociates(a: set<nat>, b: set<nat>, d: set<nat>)
    ensures (a + b) + d == a + (b + d)
  {
  }

  /** A push keeps the books. */
  lemma PushBooked(w: Worker, r: Request)
    requires Booked(w) && |w.queued| < G
    ensures var s := Push(w, r);
      && Booked(s) && |s.queued| < G
      && s == w.(queued := s.queued, flight := s.flight, submitted := s.submitted, pushes := w.pushes + 1)
  {
    hide Submit, Range, Awaited, Booked;
    QueuedBooked(w, r);
    SubmitBooked(w.(queued := w.queued + [r], pushes := w.pushes + 1), G);
  }

  lemma QueuedBooked(w: Worker, r: Request)
    requires Booked(w)
    ensures Booked(w.(queued := w.queued + [r], pushes := w.pushes + 1))
  {
    hide Range, Awaited;
    var t := w.(queued := w.queued + [r], pushes := w.pushes + 1);
    assert t.pushes - |t.queued| == w.pushes - |w.queued|;
    SameAwaited(w, t);
  }

  /** With few enough live requests a push passes the overflow checks of the submission. */
  lemma PushChecked(w: Worker, r: Request)
    requires Booked(w) && |w.queued| < G && w.pushes - w.mark + |Awaited(w)| + w.handled < 4 * G
    ensures SubmitChecks(w.(queued := w.queued + [r], pushes := w.pushes + 1))
  {
  }

  /** The checks the source makes along a step of a worker. */
  predicate ChecksPass(c: Config, w: Worker, e: Event)
    requires c.Valid()
  {
    match e
    case IssueItem =>
      w.phase.Issue? && w.phase.cur < |c.index| && c.InRange(w.phase.cur) ==>
        SubmitChecks(w.(queued := w.queued + [Request(w.phase.cur, 0, c.size, c.Base(w.phase.cur))],
                        pushes := w.pushes + 1))
    case SubmitAll => SubmitChecks(w) && Submit(w, 1).submitted - w.completed <= 2 * G
    case Complete(n, actual, buffer) =>
      n in w.flight ==> SubmitChecks(w.(queued := w.queued + [Rest(c, w.flight[n], actual)], pushes := w.pushes + 1))
    case _ => true
  }

  lemma StepBounded(c: Config, next: nat, error: bool, rows: seq<seq<int>>, w: Worker,
                    next': nat, error': bool, rows': seq<seq<int>>, w': Worker, e: Event)
    requires c.Valid() && Bounded(w) && Step(c, next, error, rows, w, next', error', rows', w', e)
    ensures Bounded(w') && ChecksPass(c, w, e)
  {
    hide Submit, Push, Range, Delivered, SubmitChecks, Booked;
    match e {
      case Fetch => { FetchBounded(c, next, w, w'); }
      case IssueItem => { IssueBounded(c, w, w'); }
      case SubmitAll => { SweepBegins(w); }
      case Complete(n, actual, buffer) => { HandleBounded(c, w, n, actual); }
      case EndSweep => { EndBounded(w); }
    }
  }

  lemma FetchBounded(c: Config, next: nat, w: Worker, w': Worker)
    requires Bounded(w) && w.phase.Top?
    requires if next >= |c.index| && w.queued == [] && w.completed >= w.submitted then w' == w.(phase := Done)
      else w' == w.(phase := Issue(next, if next + Requested(w) < |c.index| then next + Requested(w) else |c.index|))
    ensures Bounded(w')
  {
    hide KeysBooked;
    QueueFits(w);
    BookedSame(w, w');
  }

  lemma IssueBounded(c: Config, w: Worker, w': Worker)
    requires c.Valid() && Bounded(w) && w.phase.Issue? && w.phase.cur < w.phase.end <= |c.index|
    requires var i := w.phase.cur; var after := w.(phase := Issue(i + 1, w.phase.end));
      w' == if c.InRange(i) then Push(after, Request(i, 0, c.size, c.Base(i))) else after
    ensures Bounded(w') && ChecksPass(c, w, IssueItem)
  {
    hide Push, SubmitChecks, Booked;
    var i := w.phase.cur;
    var after := w.(phase := Issue(i + 1, w.phase.end));
    BookedSame(w, after);
    if c.InRange(i) {
      PushBooked(after, Request(i, 0, c.size, c.Base(i)));
      PushChecked(w, Request(i, 0, c.size, c.Base(i)));
    }
  }

  /** A sweep waits for everything in flight. */
  lemma SweepBegins(w: Worker)
    requires Bounded(w) && w.phase.Issue? && w.phase.cur >= w.phase.end
    ensures var s := Submit(w, 1);
      && Bounded(s.(phase := Sweep(s.flight.Keys), prev := w.mark, mark := w.pushes))
      && SubmitChecks(w) && s.submitted - w.completed <= 2 * G
  {
    hide Submit;
    SubmitBooked(w, 1);
    SweepBooked(Submit(w, 1));
  }

  lemma SweepBooked(s: Worker)
    requires Booked(s) && s.phase.Issue? && s.queued == []
    ensures var t := s.(phase := Sweep(s.flight.Keys), prev := s.mark, mark := s.pushes);
      Booked(t) && |Awaited(t)| == s.pushes - s.mark
  {
    RangeJoin(s.mark, s.pushes, s.pushes);
    RangeSize(s.mark, s.pushes);
  }

  lemma RangeSize(a: nat, b: nat)
    requires a <= b
    ensures |Range(a, b)| == b - a
  {
    RangeHas(a, b);
  }

  lemma HandleBounded(c: Config, w: Worker, n: nat, actual: nat)
    requires c.Valid() && Bounded(w) && w.phase.Sweep? && n in w.phase.awaited && n in w.flight
    ensures SubmitChecks(w.(queued := w.queued + [Rest(c, w.flight[n], actual)], pushes := w.pushes + 1))
    ensures var pushed := if RemainingLen(c, w.flight[n], actual) > 0 then Push(w, Rest(c, w.flight[n], actual)) else w;
      Bounded(pushed.(phase := Sweep(w.phase.awaited - {n}), flight := pushed.flight - {n}, handled := w.handled + 1))
  {
    hide Submit, Push, Range, SubmitChecks;
    PushBooked(w, Rest(c, w.flight[n], actual));
    AwaitedLeft(w, n);
    PushChecked(w, Rest(c, w.flight[n], actual));
    var pushed := if RemainingLen(c, w.flight[n], actual) > 0 then Push(w, Rest(c, w.flight[n], actual)) else w;
    HandleBooked(pushed, n);
  }

  lemma AwaitedLeft(w: Worker, n: nat)
    requires w.phase.Sweep? && n in w.phase.awaited
    ensures |w.phase.awaited| >= 1
  {
  }

  lemma EndBounded(w: Worker)
    requires Bounded(w) && w.phase.Sweep? && w.phase.awaited == {}
    ensures Bounded(w.(phase := Top, completed := w.completed + w.handled, handled := 0))
  {
    hide Range;
  }

  lemma HandleBooked(w: Worker, n: nat)
    requires Booked(w) && |w.queued| < G && w.phase.Sweep? && n in w.phase.awaited
    ensures var t := w.(phase := Sweep(w.phase.awaited - {n}), flight := w.flight - {n}, handled := w.handled + 1);
      Booked(t) && |Awaited(t)| == |Awaited(w)| - 1
  {
    hide Range, KeysBooked;
    HandleKeys(w, n);
  }

  lemma HandleKeys(w: Worker, n: nat)
    requires KeysBooked(w) && w.phase.Sweep? && n in w.phase.awaited
    ensures KeysBooked(w.(phase := Sweep(w.phase.awaited - {n}), flight := w.flight - {n}, handled := w.handled + 1))
  {
    hide Range;
    var recent := Range(w.mark, w.pushes - |w.queued|);
    RangesApart(w.prev, w.mark, w.pushes - |w.queued|);
    assert n !in recent;
    assert (w.flight - {n}).Keys == w.flight.Keys - {n} == (w.phase.awaited - {n}) + recent;
  }

  lemma RangesApart(a: nat, b: nat, d: nat)
    ensures Range(a, b) !! Range(b, d)
  {
    RangeHas(a, b);
    RangeHas(b, d);
  }

  // ------------------------------------------------------------------
  // The bytes

  /** A request that is queued or in flight. */
  ghost predicate Live(w: Worker, r: Request) {
    r in w.flight.Values || r in w.queued
  }

  ghost predicate RequestsOk(c: Config, w: Worker) {
    && (forall r :: Live(w, r) ==> r.Ok(c))
    && (w.phase.Issue? ==> w.phase.end <= |c.index|)
  }

  ghost predicate Pending(w: Worker, i: nat) {
    w.phase.Issue? && w.phase.cur <= i < w.phase.end
  }

  /** Byte b of item i is still this worker's to fetch. */
  ghost predicate Owes(w: Worker, i: nat, b: nat) {
    Pending(w, i) || exists r :: Live(w, r) && r.Covers(i, b)
  }

  /** Submitting moves requests and loses none. */
  lemma SubmitLive(w: Worker, minimum: nat)
    requires Booked(w)
    ensures forall r :: Live(Submit(w, minimum), r) <==> Live(w, r)
  {
    hide KeysBooked, CountsBooked, Numbered, Range;
    QueueFits(w);
    FlightBelow(w);
    if Submit(w, minimum) != w { UnionLive(w.flight, w.queued, w.pushes - |w.queued|); }
  }

  lemma FlightBelow(w: Worker)
    requires KeysBooked(w)
    ensures forall k :: k in w.flight ==> k < w.pushes - |w.queued|
  {
    RangeHas(w.mark, w.pushes - |w.queued|);
    RangeHas(w.prev, w.mark);
  }

  lemma UnionLive(flight: map<nat, Request>, queued: seq<Request>, n: nat)
    requires forall k :: k in flight ==> k < n
    ensures forall r :: r in (flight + Numbered(queued, n)).Values <==> r in flight.Values || r in queued
  {
    var all := flight + Numbered(queued, n);
    forall r | r in flight.Values ensures r in all.Values {
      var k :| k in flight && flight[k] == r;
      assert all[k] == r;
    }
    forall r | r in queued ensures r in all.Values {
      var x :| 0 <= x < |queued| && queued[x] == r;
      assert all[n + x] == r;
    }
    forall r | r in all.Values ensures r in flight.Values || r in queued {
      var k :| k in all && all[k] == r;
      assert k in flight || r == queued[k - n];
    }
  }

  lemma PushLive(w: Worker, r: Request)
    requires Booked(w)
    ensures forall x :: Live(Push(w, r), x) <==> Live(w, x) || x == r
  {
    hide Submit, Booked;
    QueuedBooked(w, r);
    SubmitLive(w.(queued := w.queued + [r], pushes := w.pushes + 1), G);
  }

  /** Handling a completion drops one request and keeps the others. */
  lemma HandleLive(w: Worker, n: nat, t: Worker)
    requires n in w.flight && t.queued == w.queued && t.flight == w.flight - {n}
    ensures forall x :: Live(t, x) ==> Live(w, x)
    ensures forall x :: Live(w, x) && x != w.flight[n] ==> Live(t, x)
  {
    forall x | Live(w, x) && x != w.flight[n] ensures Live(t, x) {
      if x in w.flight.Values {
        var k :| k in w.flight && w.flight[k] == x;
        assert t.flight[k] == x;
      }
    }
  }

  ghost predicate RowsShape(c: Config, rows: seq<seq<int>>) {
    |rows| == |c.index| && forall i :: 0 <= i < |rows| ==> |rows[i]| == c.size
  }

  ghost predicate Right(c: Config, rows: seq<seq<int>>, i: nat, b: nat)
    requires RowsShape(c, rows) && i < |c.index| && b < c.size && c.InRange(i)
  {
    rows[i][b] == c.file(c.Base(i) + b)
  }

  /** What one step does to one wanted byte. */
  ghost predicate ByteKept(c: Config, next: nat, rows: seq<seq<int>>, w: Worker, next': nat, rows': seq<seq<int>>,
                           w': Worker, i: nat, b: nat)
    requires RowsShape(c, rows) && RowsShape(c, rows') && i < |c.index| && b < c.size && c.InRange(i)
  {
    && (next <= i < next' ==> Pending(w', i))
    && (Owes(w, i, b) ==> Owes(w', i, b) || Right(c, rows', i, b))
    && (Right(c, rows, i, b) ==> Right(c, rows', i, b))
  }

  lemma IssueData(c: Config, w: Worker, w': Worker, rows: seq<seq<int>>, next: nat, i: nat, b: nat)
    requires c.Valid() && Bounded(w) && RequestsOk(c, w) && w.phase.Issue? && w.phase.cur < w.phase.end <= |c.index|
    requires var k := w.phase.cur; var after := w.(phase := Issue(k + 1, w.phase.end));
      w' == if c.InRange(k) then Push(after, Request(k, 0, c.size, c.Base(k))) else after
    requires RowsShape(c, rows) && i < |c.index| && b < c.size && c.InRange(i)
    ensures ByteKept(c, next, rows, w, next, rows, w', i, b)
  {
    hide Push, Booked;
    var k := w.phase.cur;
    var after := w.(phase := Issue(k + 1, w.phase.end));
    BookedSame(w, after);
    var r := Request(k, 0, c.size, if c.InRange(k) then c.Base(k) else 0);
    assert forall x :: Live(after, x) <==> Live(w, x);
    if c.InRange(k) {
      PushBooked(after, r);
      PushLive(after, r);
      assert i == k ==> Live(w', r) && r.Covers(i, b);
    }
    assert Owes(w, i, b) && !Pending(w', i) && i != k ==> exists x :: Live(w', x) && x.Covers(i, b);
  }

  lemma SubmitData(c: Config, w: Worker, w': Worker, rows: seq<seq<int>>, next: nat, i: nat, b: nat)
    requires c.Valid() && Bounded(w) && RequestsOk(c, w) && w.phase.Issue? && w.phase.cur >= w.phase.end
    requires var s := Submit(w, 1); w' == s.(phase := Sweep(s.flight.Keys), prev := w.mark, mark := w.pushes)
    requires RowsShape(c, rows) && i < |c.index| && b < c.size && c.InRange(i)
    ensures ByteKept(c, next, rows, w, next, rows, w', i, b)
  {
    hide Submit, Booked;
    SubmitLive(w, 1);
    assert forall x :: Live(w', x) <==> Live(Submit(w, 1), x);
  }

  lemma CompleteData(c: Config, w: Worker, n: nat, actual: nat, buffer: seq<int>, rows: seq<seq<int>>, next: nat,
                     w': Worker, i: nat, b: nat)
    requires c.Valid() && Bounded(w) && RequestsOk(c, w) && w.phase.Sweep? && n in w.phase.awaited && n in w.flight
    requires w.flight[n].Ok(c) && Delivered(c, w.flight[n], actual, buffer) && RowsShape(c, rows)
    requires var r := w.flight[n];
      var pushed := if RemainingLen(c, r, actual) > 0 then Push(w, Rest(c, r, actual)) else w;
      w' == pushed.(phase := Sweep(w.phase.awaited - {n}), flight := pushed.flight - {n}, handled := w.handled + 1)
    requires i < |c.index| && b < c.size && c.InRange(i)
    ensures var r := w.flight[n]; var rows' := rows[r.item := Copied(c, r, actual, buffer, rows[r.item])];
      RowsShape(c, rows') && ByteKept(c, next, rows, w, next, rows', w', i, b)
  {
    hide Push, Booked, Copied, RemainingLen, Rest, Request.Ok;
    var r := w.flight[n];
    RequestItem(c, r);
    ShortReadReassembles(c, r, actual, buffer, rows[r.item]);
    var rest := Rest(c, r, actual);
    var pushed := if RemainingLen(c, r, actual) > 0 then Push(w, rest) else w;
    PushBooked(w, rest);
    PushLive(w, rest);
    PushKeeps(w, rest, n);
    HandleLive(pushed, n, w');
    if RemainingLen(c, r, actual) > 0 { RestLive(w, rest, n, w'); }
    var rows' := rows[r.item := Copied(c, r, actual, buffer, rows[r.item])];
    assert RowsShape(c, rows');
    if Owes(w, i, b) && !Right(c, rows', i, b) {
      var x :| Live(w, x) && x.Covers(i, b);
      assert x == r ==> rest.Covers(i, b) && rest.len > 0;
      var y := if x == r then rest else x;
      assert Live(w', y) && y.Covers(i, b);
    }
  }

  /** The rest stays live when the request it continues is dropped, even if it looks the same. */
  lemma RestLive(w: Worker, rest: Request, n: nat, t: Worker)
    requires Booked(w) && n in w.flight && t.queued == Push(w, rest).queued && t.flight == Push(w, rest).flight - {n}
    ensures Live(t, rest)
  {
    hide Numbered, CountsBooked;
    QueueFits(w);
    FlightBelow(w);
    var p := w.(queued := w.queued + [rest], pushes := w.pushes + 1);
    if Push(w, rest) == p {
      assert t.queued[|w.queued|] == rest;
    } else {
      assert t.flight[w.pushes] == rest;
    }
  }

  lemma RequestItem(c: Config, r: Request)
    requires r.Ok(c)
    ensures r.item < |c.index| && c.InRange(r.item)
  {
  }

  lemma PushKeeps(w: Worker, r: Request, n: nat)
    requires Booked(w) && n in w.flight
    ensures n in Push(w, r).flight && Push(w, r).flight[n] == w.flight[n]
  {
    QueueFits(w);
    FlightBelow(w);
  }

  // ------------------------------------------------------------------
  // All workers

  ghost predicate WorkerOk(c: Config, next: nat, w: Worker) {
    Bounded(w) && RequestsOk(c, w) && (w.phase.Done? ==> next >= |c.index|)
  }

  /** A wanted byte is right, or some worker owes it, or nobody has claimed it yet. */
  ghost predicate ByteOk(c: Config, s: State, i: nat, b: nat)
    requires RowsShape(c, s.rows) && i < |c.index| && b < c.size && c.InRange(i)
  {
    i >= s.next || Right(c, s.rows, i, b) || exists k :: 0 <= k < |s.workers| && Owes(s.workers[k], i, b)
  }

  /** An item out of range is reported once nobody has it ahead. */
  ghost predicate FlagOk(c: Config, s: State, i: nat)
    requires i < |c.index|
  {
    !c.InRange(i) ==> i >= s.next || s.error || exists k :: 0 <= k < |s.workers| && Pending(s.workers[k], i)
  }

  ghost predicate Inv(c: Config, s: State) {
    && c.Valid() && RowsShape(c, s.rows) && |s.workers| > 0
    && (forall k :: 0 <= k < |s.workers| ==> WorkerOk(c, s.next, s.workers[k]))
    && (forall i: nat, b: nat :: i < |c.index| && b < c.size && c.InRange(i) ==> ByteOk(c, s, i, b))
    && (forall i: nat :: i < |c.index| ==> FlagOk(c, s, i))
    && (s.error ==> exists i: nat :: i < |c.index| && !c.InRange(i))
  }

  lemma InitInv(c: Config, s: State)
    requires Init(c, s)
    ensures Inv(c, s)
  {
    RangeHas(0, 0);
  }

  /** One step, seen from its worker. */
  lemma StepWorker(c: Config, next: nat, error: bool, rows: seq<seq<int>>, w: Worker,
                   next': nat, error': bool, rows': seq<seq<int>>, w': Worker, e: Event)
    requires c.Valid() && WorkerOk(c, next, w) && RowsShape(c, rows)
    requires Step(c, next, error, rows, w, next', error', rows', w', e)
    ensures WorkerOk(c, next', w') && RowsShape(c, rows') && next <= next' && ChecksPass(c, w, e)
    ensures forall i: nat, b: nat :: i < |c.index| && b < c.size && c.InRange(i) ==>
      ByteKept(c, next, rows, w, next', rows', w', i, b)
    ensures forall i: nat :: i < |c.index| && !c.InRange(i) ==>
      (next <= i < next' ==> Pending(w', i)) && (Pending(w, i) ==> Pending(w', i) || error')
    ensures (error ==> error') && (error' && !error ==> exists i: nat :: i < |c.index| && !c.InRange(i))
  {
    hide Submit, Push, Bounded, Delivered, ChecksPass, RequestsOk, Owes, Right, Copied, Rest, RemainingLen, Request.Ok;
    StepBounded(c, next, error, rows, w, next', error', rows', w', e);
    RowsKept(c, next, error, rows, w, next', error', rows', w', e);
    forall i: nat, b: nat | i < |c.index| && b < c.size && c.InRange(i)
      ensures ByteKept(c, next, rows, w, next', rows', w', i, b)
    {
      StepByte(c, next, error, rows, w, next', error', rows', w', e, i, b);
    }
    StepRequests(c, next, error, rows, w, next', error', rows', w', e);
    PushPhase(c, next, error, rows, w, next', error', rows', w', e);
  }

  lemma RowsKept(c: Config, next: nat, error: bool, rows: seq<seq<int>>, w: Worker,
                 next': nat, error': bool, rows': seq<seq<int>>, w': Worker, e: Event)
    requires c.Valid() && RowsShape(c, rows) && Step(c, next, error, rows, w, next', error', rows', w', e)
    ensures RowsShape(c, rows')
  {
    hide Submit, Push, Delivered, Copied;
  }

  lemma StepRequests(c: Config, next: nat, error: bool, rows: seq<seq<int>>, w: Worker,
                     next': nat, error': bool, rows': seq<seq<int>>, w': Worker, e: Event)
    requires c.Valid() && WorkerOk(c, next, w) && RowsShape(c, rows)
    requires Step(c, next, error, rows, w, next', error', rows', w', e)
    ensures RequestsOk(c, w')
  {
    hide Submit, Push, Bounded, Delivered, Copied, Rest, RemainingLen, Request.Ok, Requested;
    match e {
      case Fetch => { assert forall x :: Live(w', x) <==> Live(w, x); }
      case EndSweep => { assert forall x :: Live(w', x) <==> Live(w, x); }
      case IssueItem => { IssueRequests(c, w, w'); }
      case SubmitAll => { SubmitRequests(c, w, w'); }
      case Complete(n, actual, buffer) => { CompleteRequests(c, w, n, actual, buffer, rows, w'); }
    }
  }

  lemma IssueRequests(c: Config, w: Worker, w': Worker)
    requires c.Valid() && Bounded(w) && RequestsOk(c, w) && w.phase.Issue? && w.phase.cur < w.phase.end <= |c.index|
    requires var k := w.phase.cur; var after := w.(phase := Issue(k + 1, w.phase.end));
      w' == if c.InRange(k) then Push(after, Request(k, 0, c.size, c.Base(k))) else after
    ensures RequestsOk(c, w')
  {
    hide Push, Booked;
    var k := w.phase.cur;
    var after := w.(phase := Issue(k + 1, w.phase.end));
    BookedSame(w, after);
    assert forall x :: Live(after, x) <==> Live(w, x);
    if c.InRange(k) {
      PushBooked(after, Request(k, 0, c.size, c.Base(k)));
      PushLive(after, Request(k, 0, c.size, c.Base(k)));
    }
  }

  lemma SubmitRequests(c: Config, w: Worker, w': Worker)
    requires c.Valid() && Bounded(w) && RequestsOk(c, w) && w.phase.Issue?
    requires var s := Submit(w, 1); w' == s.(phase := Sweep(s.flight.Keys), prev := w.mark, mark := w.pushes)
    ensures RequestsOk(c, w')
  {
    hide Submit, Booked;
    SubmitLive(w, 1);
    assert forall x :: Live(w', x) <==> Live(Submit(w, 1), x);
  }

  lemma CompleteRequests(c: Config, w: Worker, n: nat, actual: nat, buffer: seq<int>, rows: seq<seq<int>>, w': Worker)
    requires c.Valid() && Bounded(w) && RequestsOk(c, w) && w.phase.Sweep? && n in w.flight
    requires w.flight[n].Ok(c) && Delivered(c, w.flight[n], actual, buffer) && RowsShape(c, rows)
    requires var r := w.flight[n];
      var pushed := if RemainingLen(c, r, actual) > 0 then Push(w, Rest(c, r, actual)) else w;
      w' == pushed.(phase := Sweep(w.phase.awaited - {n}), flight := pushed.flight - {n}, handled := w.handled + 1)
    ensures RequestsOk(c, w')
  {
    hide Push, Booked, Copied, RemainingLen, Rest, Request.Ok;
    var r := w.flight[n];
    RequestItem(c, r);
    ShortReadReassembles(c, r, actual, buffer, rows[r.item]);
    var rest := Rest(c, r, actual);
    var pushed := if RemainingLen(c, r, actual) > 0 then Push(w, rest) else w;
    PushLive(w, rest);
    PushKeeps(w, rest, n);
    HandleLive(pushed, n, w');
  }

  lemma StepByte(c: Config, next: nat, error: bool, rows: seq<seq<int>>, w: Worker,
                 next': nat, error': bool, rows': seq<seq<int>>, w': Worker, e: Event, i: nat, b: nat)
    requires c.Valid() && WorkerOk(c, next, w) && RowsShape(c, rows) && RowsShape(c, rows')
    requires Step(c, next, error, rows, w, next', error', rows', w', e)
    requires i < |c.index| && b < c.size && c.InRange(i)
    ensures ByteKept(c, next, rows, w, next', rows', w', i, b)
  {
    hide Submit, Push, Bounded, Delivered, Copied, Rest, RemainingLen, Request.Ok, Requested;
    match e {
      case Fetch => { assert forall x :: Live(w', x) <==> Live(w, x); }
      case EndSweep => { assert forall x :: Live(w', x) <==> Live(w, x); }
      case IssueItem => { IssueData(c, w, w', rows, next, i, b); }
      case SubmitAll => { SubmitData(c, w, w', rows, next, i, b); }
      case Complete(n, actual, buffer) => { CompleteData(c, w, n, actual, buffer, rows, next, w', i, b); }
    }
  }

  lemma PushPhase(c: Config, next: nat, error: bool, rows: seq<seq<int>>, w: Worker,
                  next': nat, error': bool, rows': seq<seq<int>>, w': Worker, e: Event)
    requires c.Valid() && WorkerOk(c, next, w) && Step(c, next, error, rows, w, next', error', rows', w', e)
    ensures (w'.phase.Done? ==> next' >= |c.index|) && next <= next'
    ensures forall i: nat :: i < |c.index| && !c.InRange(i) ==>
      (next <= i < next' ==> Pending(w', i)) && (Pending(w, i) ==> Pending(w', i) || error')
    ensures (error ==> error') && (error' && !error ==> exists i: nat :: i < |c.index| && !c.InRange(i))
  {
    hide Numbered, Delivered, Copied, Rest, RemainingLen, Request.Ok, Bounded, RequestsOk;
  }

  lemma NextInv(c: Config, s: State, s': State, k: nat, e: Event)
    requires Inv(c, s) && Next(c, s, s', k, e)
    ensures Inv(c, s') && ChecksPass(c, s.workers[k], e)
  {
    hide Step, WorkerOk, ChecksPass, Owes, Right, Pending;
    assert WorkerOk(c, s.next, s.workers[k]);
    StepWorker(c, s.next, s.error, s.rows, s.workers[k], s'.next, s'.error, s'.rows, s'.workers[k], e);
    forall j | 0 <= j < |s'.workers| ensures WorkerOk(c, s'.next, s'.workers[j]) {
      if j != k { WorkerLater(c, s.next, s.workers[j], s'.next); }
    }
    forall i: nat, b: nat | i < |c.index| && b < c.size && c.InRange(i)
      ensures ByteOk(c, s', i, b)
    {
      NextByte(c, s, s', k, i, b);
    }
    forall i: nat | i < |c.index| ensures FlagOk(c, s', i) { NextFlag(c, s, s', k, i); }
  }

  lemma WorkerLater(c: Config, next: nat, w: Worker, next': nat)
    requires WorkerOk(c, next, w) && next <= next'
    ensures WorkerOk(c, next', w)
  {
  }

  lemma NextByte(c: Config, s: State, s': State, k: nat, i: nat, b: nat)
    requires k < |s.workers| == |s'.workers| && s'.workers == s.workers[k := s'.workers[k]]
    requires RowsShape(c, s.rows) && RowsShape(c, s'.rows) && i < |c.index| && b < c.size && c.InRange(i)
    requires ByteOk(c, s, i, b) && ByteKept(c, s.next, s.rows, s.workers[k], s'.next, s'.rows, s'.workers[k], i, b)
    ensures ByteOk(c, s', i, b)
  {
    hide Live, Right, Pending;
    if s.next <= i < s'.next {
      assert Owes(s'.workers[k], i, b);
    } else if i < s.next && !Right(c, s.rows, i, b) {
      var j :| 0 <= j < |s.workers| && Owes(s.workers[j], i, b);
      assert j != k ==> s'.workers[j] == s.workers[j];
      assert Owes(s'.workers[j], i, b) || Right(c, s'.rows, i, b);
    }
  }

  lemma NextFlag(c: Config, s: State, s': State, k: nat, i: nat)
    requires k < |s.workers| == |s'.workers| && s'.workers == s.workers[k := s'.workers[k]] && i < |c.index|
    requires !c.InRange(i) ==>
      (s.next <= i < s'.next ==> Pending(s'.workers[k], i))
      && (Pending(s.workers[k], i) ==> Pending(s'.workers[k], i) || s'.error)
    requires FlagOk(c, s, i) && (s.error ==> s'.error)
    ensures FlagOk(c, s', i)
  {
    hide Pending;
    if !c.InRange(i) && !s.error && i < s.next {
      var j :| 0 <= j < |s.workers| && Pending(s.workers[j], i);
      assert j != k ==> s'.workers[j] == s.workers[j];
      assert Pending(s'.workers[j], i) || s'.error;
    }
  }

  ghost predicate IsRun(c: Config, run: seq<State>) {
    && |run| > 0 && Init(c, run[0])
    && forall t: nat :: t + 1 < |run| ==> Steps(c, run[t], run[t + 1])
  }

  ghost predicate Steps(c: Config, s: State, s': State)
    requires c.Valid()
  {
    exists k: nat, e: Event :: Next(c, s, s', k, e)
  }

  lemma ValidRun(c: Config, run: seq<State>)
    requires IsRun(c, run)
    ensures c.Valid()
  {
  }

  lemma {:induction false} RunInv(c: Config, run: seq<State>, t: nat)
    requires IsRun(c, run) && t < |run|
    ensures Inv(c, run[t])
  {
    hide Inv, Init, Next;
    ValidRun(c, run);
    if t == 0 {
      InitInv(c, run[0]);
    } else {
      RunInv(c, run, t - 1);
      assert Steps(c, run[t - 1], run[(t - 1) + 1]);
      var k: nat, e: Event :| Next(c, run[t - 1], run[t], k, e);
      NextInv(c, run[t - 1], run[t], k, e);
    }
  }

  /** Whatever the order of the workers and the lengths of the reads: when all workers
      have finished, an index is reported exactly if one is out of range, and every row
      in range is that row of the file behind its header; a negative index counts from
      the end. */
  lemma FinishedReads(c: Config, run: seq<State>, t: nat)
    requires IsRun(c, run) && t < |run| && forall k :: 0 <= k < |run[t].workers| ==> run[t].workers[k].phase.Done?
    ensures run[t].error <==> exists i :: 0 <= i < |c.index| && !(0 <= c.index[i] + c.rows < 2 * c.rows)
    ensures |run[t].rows| == |c.index| && forall i :: 0 <= i < |c.index| ==> |run[t].rows[i]| == c.size
    ensures forall i, b :: 0 <= i < |c.index| && 0 <= b < c.size && 0 <= c.index[i] + c.rows < 2 * c.rows ==>
      run[t].rows[i][b]
      == c.file(c.prefix + (if c.index[i] < 0 then c.index[i] + c.rows else c.index[i]) * c.size + b)
  {
    hide Right, Bounded, RequestsOk, Init, Config.Base, Config.InRange;
    RunInv(c, run, t);
    var s := run[t];
    assert WorkerOk(c, s.next, s.workers[0]);
    forall k, i: nat, b: nat | 0 <= k < |s.workers| ensures !Owes(s.workers[k], i, b) && !Pending(s.workers[k], i) {
      assert WorkerOk(c, s.next, s.workers[k]);
      NothingOwed(s.workers[k], i, b);
    }
    forall i: nat | i < |c.index| ensures c.InRange(i) <==> 0 <= c.index[i] + c.rows < 2 * c.rows { InRangeIs(c, i); }
    forall i: nat, b: nat | i < |c.index| && b < c.size && c.InRange(i)
      ensures s.rows[i][b]
           == c.file(c.prefix + (if c.index[i] < 0 then c.index[i] + c.rows else c.index[i]) * c.size + b)
    {
      assert ByteOk(c, s, i, b);
      RightByte(c, s.rows, i, b);
    }
    forall i: nat | i < |c.index| && !c.InRange(i) ensures s.error { assert FlagOk(c, s, i); }
  }

  lemma InRangeIs(c: Config, i: nat)
    requires i < |c.index|
    ensures c.InRange(i) <==> 0 <= c.index[i] + c.rows < 2 * c.rows
  {
  }

  lemma RightByte(c: Config, rows: seq<seq<int>>, i: nat, b: nat)
    requires RowsShape(c, rows) && i < |c.index| && b < c.size && c.InRange(i) && Right(c, rows, i, b)
    ensures rows[i][b] == c.file(c.prefix + (if c.index[i] < 0 then c.index[i] + c.rows else c.index[i]) * c.size + b)
  {
  }

  lemma NothingOwed(w: Worker, i: nat, b: nat)
    requires Bounded(w) && w.phase.Done?
    ensures !Owes(w, i, b) && !Pending(w, i)
  {
    RangeHas(w.mark, w.pushes);
  }

  /** In every reachable state a worker keeps within its bounds, an awaited completion
      can be handled, and every check the source makes on the next step passes. */
  lemma RunBounded(c: Config, run: seq<State>, t: nat, k: nat)
    requires IsRun(c, run) && t < |run| && k < |run[t].workers|
    ensures var w := run[t].workers[k];
      && |w.queued| + |w.flight| <= 512
      && (w.phase.Sweep? ==> forall n :: n in w.phase.awaited ==>
        n in w.flight && w.flight[n].Ok(c) && w.flight[n].AlignedReadSize(c) <= c.SlotSize())
    ensures t + 1 < |run| ==>
      forall e, j: nat :: Next(c, run[t], run[t + 1], j, e) ==> ChecksPass(c, run[t].workers[j], e)
  {
    hide Init, ChecksPass, Step;
    RunInv(c, run, t);
    var w := run[t].workers[k];
    assert WorkerOk(c, run[t].next, w);
    InFlightBounded(w);
    if w.phase.Sweep? {
      forall n | n in w.phase.awaited
        ensures n in w.flight && w.flight[n].Ok(c) && w.flight[n].AlignedReadSize(c) <= c.SlotSize()
      {
        assert n in Awaited(w);
        assert n in w.flight.Keys;
        assert Live(w, w.flight[n]);
        ReadFitsSlot(c, w.flight[n]);
      }
    }
    if t + 1 < |run| {
      forall e, j: nat | Next(c, run[t], run[t + 1], j, e) ensures ChecksPass(c, run[t].workers[j], e) {
        NextInv(c, run[t], run[t + 1], j, e);
      }
    }
  }
}
