/** The lock-free insertion phase of the concurrent id hash map, as a state
    machine over compare-and-swap instructions.

    One task per input index runs `InsertAndSetMin(ids[i], i)`. A schedule is any
    sequence of (task, spurious) choices, so it covers every assignment of tasks
    to threads and every interleaving; `spurious` makes the weak
    compare-and-swap fail although the expected value matched.

    Source: graphbolt/src/concurrent_id_hash_map.cc. */
module ConcurrentInsert {
  import opened Probing
  import opened Collections

  const EMPTY := -1

  /** Program counter of one `InsertAndSetMin` call. */
  datatype Task =
    | Seeking(k: nat)                    // next: AttemptInsertAt the k-th probe
    | Lowering(slot: nat, seen: int)     // next: compare_exchange_weak(seen, i)
    | Finished(slot: nat)

  datatype State = State(keys: seq<int>, vals: seq<int>, tasks: seq<Task>)

  ghost predicate Input(ids: seq<int>, m: nat) {
    && |ids| >= 1
    && m == MapBits(|ids|)
    && forall i :: 0 <= i < |ids| ==> ids[i] != EMPTY
  }

  function Start(ids: seq<int>, m: nat): State {
    State(seq(Pow2(m), _ => EMPTY), seq(Pow2(m), _ => EMPTY), seq(|ids|, _ => Seeking(0)))
  }

  ghost predicate Shape(ids: seq<int>, m: nat, s: State) {
    && |s.keys| == |s.vals| == Pow2(m)
    && |s.tasks| == |ids|
    && forall i :: 0 <= i < |ids| ==>
      match s.tasks[i]
      case Seeking(_) => true
      case Lowering(slot, _) => slot < Pow2(m)
      case Finished(slot) => slot < Pow2(m)
  }

  /** `AttemptInsertAt` at the probe position of one insertion (strong compare-and-swap). */
  function SeekStep(ids: seq<int>, m: nat, s: State, i: nat): (t: State)
    requires i < |ids| && Shape(ids, m, s) && s.tasks[i].Seeking?
    ensures Shape(ids, m, t)
  {
    var slot := Slot(ids[i], s.tasks[i].k, Pow2(m));
    if s.keys[slot] == EMPTY then
      s.(keys := s.keys[slot := ids[i]], tasks := s.tasks[i := Lowering(slot, EMPTY)])
    else if s.keys[slot] == ids[i] then
      s.(tasks := s.tasks[i := Lowering(slot, EMPTY)])
    else
      s.(tasks := s.tasks[i := Seeking(s.tasks[i].k + 1)])
  }

  /** One weak compare-and-swap of the value, followed by the loop test. */
  function LowerStep(ids: seq<int>, m: nat, s: State, i: nat, spurious: bool): (t: State)
    requires i < |ids| && Shape(ids, m, s) && s.tasks[i].Lowering?
    ensures Shape(ids, m, t)
  {
    var Lowering(slot, seen) := s.tasks[i];
    var current := s.vals[slot];
    if current == seen && !spurious then
      s.(vals := s.vals[slot := i], tasks := s.tasks[i := Finished(slot)])
    else if current == EMPTY || current > i then
      s.(tasks := s.tasks[i := Lowering(slot, current)])
    else
      s.(tasks := s.tasks[i := Finished(slot)])
  }

  datatype Choice = Choice(task: nat, spurious: bool)

  /** One scheduled instruction; a finished or unknown task does nothing. */
  function Step(ids: seq<int>, m: nat, s: State, c: Choice): (t: State)
    requires Shape(ids, m, s)
    ensures Shape(ids, m, t)
  {
    if c.task >= |ids| then s
    else match s.tasks[c.task]
      case Seeking(_) => SeekStep(ids, m, s, c.task)
      case Lowering(_, _) => LowerStep(ids, m, s, c.task, c.spurious)
      case Finished(_) => s
  }

  function Run(ids: seq<int>, m: nat, schedule: seq<Choice>): (s: State)
    ensures Shape(ids, m, s)
  {
    if schedule == [] then Start(ids, m)
    else Step(ids, m, Run(ids, m, schedule[..|schedule| - 1]), schedule[|schedule| - 1])
  }

  // ------------------------------------------------------------------
  // The invariant of every reachable state

  /** The first k probes for id all hit other ids. */
  ghost predicate PathFull(keys: seq<int>, id: int, k: nat)
    requires |keys| >= 1
  {
    forall j :: 0 <= j < k ==> keys[Slot(id, j, |keys|)] != EMPTY && keys[Slot(id, j, |keys|)] != id
  }

  /** id sits in slot, and no empty slot (nor another copy) precedes it on its probe path. */
  ghost predicate Placed(keys: seq<int>, id: int, slot: nat)
    requires |keys| >= 1
  {
    && slot < |keys|
    && keys[slot] == id
    && exists k: nat :: Slot(id, k, |keys|) == slot && PathFull(keys, id, k)
  }

  ghost predicate KeysOk(ids: seq<int>, keys: seq<int>) {
    && |keys| >= 1
    && forall slot :: 0 <= slot < |keys| && keys[slot] != EMPTY ==> keys[slot] in ids && Placed(keys, keys[slot], slot)
  }

  ghost predicate ValsOk(ids: seq<int>, s: State)
    requires |s.keys| == |s.vals|
  {
    forall slot :: 0 <= slot < |s.vals| && s.vals[slot] != EMPTY ==>
      0 <= s.vals[slot] < |ids| && ids[s.vals[slot]] == s.keys[slot]
  }

  ghost predicate TaskOk(ids: seq<int>, s: State, i: nat)
    requires i < |ids| == |s.tasks| && |s.keys| == |s.vals| && |s.keys| >= 1
  {
    match s.tasks[i]
    case Seeking(k) => PathFull(s.keys, ids[i], k)
    case Lowering(slot, seen) => slot < |s.keys| && s.keys[slot] == ids[i] && (seen == EMPTY || seen > i)
    case Finished(slot) => slot < |s.keys| && s.keys[slot] == ids[i] && 0 <= s.vals[slot] <= i
  }

  ghost predicate Inv(ids: seq<int>, m: nat, s: State) {
    && Shape(ids, m, s)
    && KeysOk(ids, s.keys)
    && ValsOk(ids, s)
    && forall i :: 0 <= i < |ids| ==> TaskOk(ids, s, i)
  }

  /** Filling an empty slot disturbs no probe path and no placed id. */
  lemma FillKeepsPaths(keys: seq<int>, slot: nat, x: int, id: int, k: nat)
    requires slot < |keys| && keys[slot] == EMPTY && PathFull(keys, id, k)
    ensures PathFull(keys[slot := x], id, k)
  {
  }

  lemma FillKeepsKeysOk(ids: seq<int>, keys: seq<int>, slot: nat, id: int, k: nat)
    requires KeysOk(ids, keys) && slot < |keys| && keys[slot] == EMPTY
    requires id in ids && id != EMPTY && slot == Slot(id, k, |keys|) && PathFull(keys, id, k)
    ensures KeysOk(ids, keys[slot := id])
  {
    var keys' := keys[slot := id];
    FillKeepsPaths(keys, slot, id, id, k);
    assert Placed(keys', id, slot);
    forall a | 0 <= a < |keys'| && keys'[a] != EMPTY && a != slot
      ensures keys'[a] in ids && Placed(keys', keys'[a], a)
    {
      assert Placed(keys, keys[a], a);
      var j: nat :| Slot(keys[a], j, |keys|) == a && PathFull(keys, keys[a], j);
      FillKeepsPaths(keys, slot, id, keys[a], j);
    }
  }

  lemma SeekKeepsInv(ids: seq<int>, m: nat, s: State, i: nat)
    requires Input(ids, m) && Inv(ids, m, s) && i < |ids| && s.tasks[i].Seeking?
    ensures Inv(ids, m, SeekStep(ids, m, s, i))
  {
    hide KeysOk, ValsOk, TaskOk, SeekStep;
    SeekKeys(ids, m, s, i);
    SeekVals(ids, m, s, i);
    forall j | 0 <= j < |ids| ensures TaskOk(ids, SeekStep(ids, m, s, i), j) { SeekTask(ids, m, s, i, j); }
  }

  lemma SeekKeys(ids: seq<int>, m: nat, s: State, i: nat)
    requires Input(ids, m) && Inv(ids, m, s) && i < |ids| && s.tasks[i].Seeking?
    ensures KeysOk(ids, SeekStep(ids, m, s, i).keys)
  {
    hide KeysOk, Placed, ValsOk, PathFull;
    assert TaskOk(ids, s, i);
    var slot := Slot(ids[i], s.tasks[i].k, Pow2(m));
    if s.keys[slot] == EMPTY { FillKeepsKeysOk(ids, s.keys, slot, ids[i], s.tasks[i].k); }
  }

  lemma SeekVals(ids: seq<int>, m: nat, s: State, i: nat)
    requires Input(ids, m) && Inv(ids, m, s) && i < |ids| && s.tasks[i].Seeking?
    ensures ValsOk(ids, SeekStep(ids, m, s, i))
  {
    hide KeysOk, TaskOk;
  }

  lemma SeekTask(ids: seq<int>, m: nat, s: State, i: nat, j: nat)
    requires Input(ids, m) && Inv(ids, m, s) && i < |ids| && s.tasks[i].Seeking? && j < |ids|
    ensures TaskOk(ids, SeekStep(ids, m, s, i), j)
  {
    hide KeysOk, ValsOk;
    var k, slot := s.tasks[i].k, Slot(ids[i], s.tasks[i].k, Pow2(m));
    assert TaskOk(ids, s, i) && TaskOk(ids, s, j);
    if s.keys[slot] == EMPTY && s.tasks[j].Seeking? { FillKeepsPaths(s.keys, slot, ids[i], ids[j], s.tasks[j].k); }
  }

  lemma LowerKeepsInv(ids: seq<int>, m: nat, s: State, i: nat, spurious: bool)
    requires Input(ids, m) && Inv(ids, m, s) && i < |ids| && s.tasks[i].Lowering?
    ensures Inv(ids, m, LowerStep(ids, m, s, i, spurious))
  {
    hide KeysOk, ValsOk, TaskOk, LowerStep;
    LowerVals(ids, m, s, i, spurious);
    forall j | 0 <= j < |ids|
      ensures TaskOk(ids, LowerStep(ids, m, s, i, spurious), j)
    {
      LowerTask(ids, m, s, i, spurious, j);
    }
  }

  lemma LowerVals(ids: seq<int>, m: nat, s: State, i: nat, spurious: bool)
    requires Input(ids, m) && Inv(ids, m, s) && i < |ids| && s.tasks[i].Lowering?
    ensures LowerStep(ids, m, s, i, spurious).keys == s.keys && ValsOk(ids, LowerStep(ids, m, s, i, spurious))
  {
    hide KeysOk, PathFull;
    assert TaskOk(ids, s, i);
  }

  lemma LowerTask(ids: seq<int>, m: nat, s: State, i: nat, spurious: bool, j: nat)
    requires Input(ids, m) && Inv(ids, m, s) && i < |ids| && s.tasks[i].Lowering? && j < |ids|
    ensures TaskOk(ids, LowerStep(ids, m, s, i, spurious), j)
  {
    hide KeysOk, PathFull;
    assert TaskOk(ids, s, i) && TaskOk(ids, s, j);
  }

  lemma StepKeepsInv(ids: seq<int>, m: nat, s: State, c: Choice)
    requires Input(ids, m) && Inv(ids, m, s)
    ensures Inv(ids, m, Step(ids, m, s, c))
  {
    if c.task < |ids| {
      match s.tasks[c.task]
      case Seeking(_) => SeekKeepsInv(ids, m, s, c.task);
      case Lowering(_, _) => LowerKeepsInv(ids, m, s, c.task, c.spurious);
      case Finished(_) =>
    }
  }

  /** Every state reached by any interleaving satisfies the invariant. */
  lemma {:induction false} RunInv(ids: seq<int>, m: nat, schedule: seq<Choice>)
    requires Input(ids, m)
    ensures Inv(ids, m, Run(ids, m, schedule))
  {
    if schedule != [] {
      RunInv(ids, m, schedule[..|schedule| - 1]);
      StepKeepsInv(ids, m, Run(ids, m, schedule[..|schedule| - 1]), schedule[|schedule| - 1]);
    }
  }

  /** Occupied keys never change: the table of an earlier state persists. */
  lemma {:induction false} KeysPersist(ids: seq<int>, m: nat, before: seq<Choice>, after: seq<Choice>, slot: nat)
    requires Input(ids, m) && slot < Pow2(m)
    ensures Run(ids, m, before).keys[slot] != EMPTY ==>
              Run(ids, m, before + after).keys[slot] == Run(ids, m, before).keys[slot]
    decreases |after|
  {
    if after == [] {
      assert before + after == before;
    } else {
      var last := |after| - 1;
      KeysPersist(ids, m, before, after[..last], slot);
      assert (before + after)[..|before + after| - 1] == before + after[..last];
    }
  }

  // ------------------------------------------------------------------
  // Consequences

  lemma PlacedUnique(keys: seq<int>, id: int, a: nat, b: nat)
    requires |keys| >= 1 && Placed(keys, id, a) && Placed(keys, id, b)
    ensures a == b
  {
    var j: nat :| Slot(id, j, |keys|) == a && PathFull(keys, id, j);
    var k: nat :| Slot(id, k, |keys|) == b && PathFull(keys, id, k);
  }

  /** A consistent table always has a free slot. */
  lemma FreeSlotExists(ids: seq<int>, m: nat, keys: seq<int>)
    requires |ids| >= 1 && m == MapBits(|ids|) && |keys| == Pow2(m) && KeysOk(ids, keys)
    ensures EMPTY in keys
  {
    assert MapSize(|ids|) > 3 * |ids|;
    if EMPTY !in keys {
      forall a, b | 0 <= a < b < |keys| ensures keys[a] != keys[b] {
        if keys[a] == keys[b] { PlacedUnique(keys, keys[a], a, b); }
      }
      DistinctSize(keys);
      SubsetSize(Elements(keys), Elements(ids));
    }
  }

  /** A full path is shorter than 2 * capacity, so every probe loop stops. */
  lemma PathBounded(ids: seq<int>, m: nat, keys: seq<int>, id: int, k: nat)
    requires |ids| >= 1 && m == MapBits(|ids|) && |keys| == Pow2(m) && KeysOk(ids, keys)
    requires PathFull(keys, id, k)
    ensures k < 2 * Pow2(m)
  {
    FreeSlotExists(ids, m, keys);
    var free :| 0 <= free < |keys| && keys[free] == EMPTY;
    var j := ProbesCoverTable(id, m, free);
  }

  /** Under every interleaving no task ever probes 2 * capacity times in vain. */
  lemma InsertionFindsPlace(ids: seq<int>, m: nat, schedule: seq<Choice>, i: nat)
    requires Input(ids, m) && i < |ids|
    ensures var t := Run(ids, m, schedule).tasks[i]; t.Seeking? ==> t.k < 2 * Pow2(m)
  {
    RunInv(ids, m, schedule);
    var s := Run(ids, m, schedule);
    assert TaskOk(ids, s, i);
    if s.tasks[i].Seeking? { PathBounded(ids, m, s.keys, ids[i], s.tasks[i].k); }
  }

  ghost predicate Complete(s: State) {
    forall i :: 0 <= i < |s.tasks| ==> s.tasks[i].Finished?
  }

  /** How many more steps of its own task i needs if nobody interferes. */
  ghost function StepsLeft(ids: seq<int>, m: nat, s: State, i: nat): int
    requires i < |ids| && Shape(ids, m, s)
  {
    match s.tasks[i]
    case Seeking(k) => 2 * Pow2(m) - k + 2
    case Lowering(slot, seen) => if seen == s.vals[slot] then 1 else 2
    case Finished(_) => 0
  }

  /** A step of its own that does not fail spuriously brings a task closer to its end. */
  lemma OwnStep(ids: seq<int>, m: nat, s: State, i: nat)
    requires i < |ids| && Shape(ids, m, s) && !s.tasks[i].Finished?
    requires s.tasks[i].Seeking? ==> s.tasks[i].k < 2 * Pow2(m)
    ensures StepsLeft(ids, m, Step(ids, m, s, Choice(i, false)), i) < StepsLeft(ids, m, s, i)
    ensures forall j :: 0 <= j < |ids| && j != i ==> Step(ids, m, s, Choice(i, false)).tasks[j] == s.tasks[j]
  {
  }

  /** The same along a run, which takes at most 2 * capacity + 2 such steps. */
  lemma SoloStep(ids: seq<int>, m: nat, schedule: seq<Choice>, next: seq<Choice>, i: nat)
    requires Input(ids, m) && i < |ids| && next == schedule + [Choice(i, false)]
    ensures StepsLeft(ids, m, Run(ids, m, schedule), i) <= 2 * Pow2(m) + 2
    ensures !Run(ids, m, schedule).tasks[i].Finished? ==>
      StepsLeft(ids, m, Run(ids, m, next), i) < StepsLeft(ids, m, Run(ids, m, schedule), i)
    ensures Run(ids, m, schedule).tasks[i].Finished? ==> StepsLeft(ids, m, Run(ids, m, schedule), i) == 0
    ensures !Run(ids, m, schedule).tasks[i].Finished? ==>
      forall j :: 0 <= j < |ids| && j != i ==> Run(ids, m, next).tasks[j] == Run(ids, m, schedule).tasks[j]
  {
    hide Step, Pow2;
    InsertionFindsPlace(ids, m, schedule, i);
    assert next[..|next| - 1] == schedule;
    if !Run(ids, m, schedule).tasks[i].Finished? { OwnStep(ids, m, Run(ids, m, schedule), i); }
  }

  /** From every reachable state a task finishes within 2 * capacity + 2 steps of its
      own, wherever the other tasks have stopped: no insertion can block another. */
  lemma {:induction false} SoloFinishes(ids: seq<int>, m: nat, schedule: seq<Choice>, i: nat)
    returns (more: seq<Choice>)
    requires Input(ids, m) && i < |ids|
    ensures |more| <= StepsLeft(ids, m, Run(ids, m, schedule), i) <= 2 * Pow2(m) + 2
    ensures forall c :: c in more ==> c.task == i
    ensures Run(ids, m, schedule + more).tasks[i].Finished?
    ensures forall j :: 0 <= j < |ids| && j != i ==>
      Run(ids, m, schedule + more).tasks[j] == Run(ids, m, schedule).tasks[j]
    decreases StepsLeft(ids, m, Run(ids, m, schedule), i)
  {
    hide Run, Step, StepsLeft, Pow2, Input;
    var next := schedule + [Choice(i, false)];
    SoloStep(ids, m, schedule, next, i);
    if Run(ids, m, schedule).tasks[i].Finished? {
      more := [];
      assert schedule + more == schedule;
    } else {
      SoloStep(ids, m, next, next + [Choice(i, false)], i);
      StepsNonnegative(ids, m, next, i);
      var rest := SoloFinishes(ids, m, next, i);
      more := [Choice(i, false)] + rest;
      assert schedule + more == next + rest;
    }
  }

  lemma StepsNonnegative(ids: seq<int>, m: nat, schedule: seq<Choice>, i: nat)
    requires Input(ids, m) && i < |ids|
    ensures StepsLeft(ids, m, Run(ids, m, schedule), i) >= 0
  {
    hide Run, Pow2;
    InsertionFindsPlace(ids, m, schedule, i);
  }

  /** Every run can be continued to one in which the first n tasks are finished. */
  lemma {:induction false} CanComplete(ids: seq<int>, m: nat, schedule: seq<Choice>, n: nat) returns (more: seq<Choice>)
    requires Input(ids, m) && n <= |ids|
    ensures forall i :: 0 <= i < n ==> Run(ids, m, schedule + more).tasks[i].Finished?
    ensures n == |ids| ==> Complete(Run(ids, m, schedule + more))
  {
    hide Run, Input;
    if n == 0 {
      more := [];
    } else {
      var first := CanComplete(ids, m, schedule, n - 1);
      var last := SoloFinishes(ids, m, schedule + first, n - 1);
      more := first + last;
      assert schedule + more == schedule + first + last;
    }
  }

  /** The least index at which x occurs. */
  function FirstIndex(ids: seq<int>, x: int): (f: nat)
    requires x in ids
    ensures f < |ids| && ids[f] == x && forall j :: 0 <= j < f ==> ids[j] != x
  {
    if ids[0] == x then 0 else 1 + FirstIndex(ids[1..], x)
  }

  /** The table after the insertion phase: each id in one slot, on an unbroken
      probe path, with the least index of the id as its value; nothing else. */
  ghost predicate Built(ids: seq<int>, m: nat, keys: seq<int>, vals: seq<int>) {
    && |keys| == |vals| == Pow2(m)
    && KeysOk(ids, keys)
    && (forall x :: x in ids ==>
      exists slot :: 0 <= slot < |keys| && keys[slot] == x && vals[slot] == FirstIndex(ids, x))
    && (forall a, b :: 0 <= a < b < |keys| && keys[a] != EMPTY ==> keys[a] != keys[b])
  }

  /** Whatever the interleaving, once all tasks are finished the table is Built. */
  lemma CompleteRunIsBuilt(ids: seq<int>, m: nat, schedule: seq<Choice>)
    requires Input(ids, m) && Complete(Run(ids, m, schedule))
    ensures var s := Run(ids, m, schedule); Built(ids, m, s.keys, s.vals)
  {
    var s := Run(ids, m, schedule);
    RunInv(ids, m, schedule);
    forall a, b | 0 <= a < b < |s.keys| && s.keys[a] != EMPTY ensures s.keys[a] != s.keys[b] {
      if s.keys[a] == s.keys[b] { PlacedUnique(s.keys, s.keys[a], a, b); }
    }
    forall x | x in ids
      ensures exists slot :: 0 <= slot < |s.keys| && s.keys[slot] == x && s.vals[slot] == FirstIndex(ids, x)
    {
      var f := FirstIndex(ids, x);
      assert TaskOk(ids, s, f);
      var slot := s.tasks[f].slot;
      assert s.keys[slot] == x && 0 <= s.vals[slot] <= f && ids[s.vals[slot]] == x;
    }
  }
}
