/** The id hash map after insertion: lookup, the count / prefix-sum / relabel
    phases of the constructor, and UniqueAndCompact on top of it.

    Source: graphbolt/src/concurrent_id_hash_map.cc, graphbolt/src/unique_and_compact.cc. */
module IdHashMap {
  import opened Probing
  import opened ConcurrentInsert
  import opened Collections

  datatype Result<T> = Ok(value: T) | OutOfRange(id: int) | Unsupported

  // ------------------------------------------------------------------
  // The specification: first occurrences, in order

  /** ids with later duplicates removed. */
  function Dedup(ids: seq<int>): (r: seq<int>)
    ensures |r| <= |ids|
    ensures forall x :: x in r <==> x in ids
    ensures forall i, j :: 0 <= i < j < |r| ==> r[i] != r[j]
  {
    if ids == [] then []
    else
      var init, last := ids[..|ids| - 1], ids[|ids| - 1];
      assert ids == init + [last];
      if last in init then Dedup(init) else Dedup(init) + [last]
  }

  /** Position i holds the first occurrence of its id. */
  ghost predicate IsFirst(ids: seq<int>, i: nat)
    requires i < |ids|
  {
    ids[i] !in ids[..i]
  }

  /** The first occurrences in positions lo .. hi - 1, in order. */
  ghost function Firsts(ids: seq<int>, lo: nat, hi: nat): (r: seq<int>)
    requires lo <= hi <= |ids|
    ensures |r| <= hi - lo
  {
    if lo == hi then []
    else Firsts(ids, lo, hi - 1) + if IsFirst(ids, hi - 1) then [ids[hi - 1]] else []
  }

  /** The unique ids once the positions before i are handled: the seeds as they are,
      then the first occurrences behind them. */
  ghost function Kept(ids: seq<int>, numSeeds: nat, i: nat): (r: seq<int>)
    requires numSeeds <= i <= |ids|
    ensures numSeeds <= |r| <= i
  {
    ids[..numSeeds] + Firsts(ids, numSeeds, i)
  }

  /** The label of a first occurrence at i: its own position among the seeds, else
      the number of ids kept before it. */
  ghost function Label(ids: seq<int>, numSeeds: nat, i: nat): nat
    requires numSeeds <= |ids| && i <= |ids|
  {
    if i < numSeeds then i else |Kept(ids, numSeeds, i)|
  }

  lemma DedupStep(ids: seq<int>, i: nat)
    requires i < |ids|
    ensures Dedup(ids[..i + 1]) == if IsFirst(ids, i) then Dedup(ids[..i]) + [ids[i]] else Dedup(ids[..i])
  {
    assert ids[..i + 1][..i] == ids[..i];
  }

  lemma KeptStep(ids: seq<int>, numSeeds: nat, i: nat)
    requires numSeeds <= i < |ids|
    ensures Kept(ids, numSeeds, i + 1) == Kept(ids, numSeeds, i) + if IsFirst(ids, i) then [ids[i]] else []
    ensures Label(ids, numSeeds, i + 1) == Label(ids, numSeeds, i) + if IsFirst(ids, i) then 1 else 0
  {
  }

  lemma {:induction false} KeptPrefix(ids: seq<int>, numSeeds: nat, i: nat, j: nat)
    requires numSeeds <= i <= j <= |ids|
    ensures Kept(ids, numSeeds, i) <= Kept(ids, numSeeds, j)
    decreases j - i
  {
    hide Kept, IsFirst;
    if i < j {
      KeptPrefix(ids, numSeeds, i, j - 1);
      KeptStep(ids, numSeeds, j - 1);
    }
  }

  lemma {:induction false} DedupDistinct(ids: seq<int>, i: nat)
    requires i <= |ids| && Distinct(ids[..i])
    ensures Dedup(ids[..i]) == ids[..i]
  {
    if i > 0 {
      assert ids[..i][..i - 1] == ids[..i - 1];
      DedupDistinct(ids, i - 1);
      forall j | 0 <= j < i - 1 ensures ids[j] != ids[i - 1] {
        assert ids[..i][j] != ids[..i][i - 1];
      }
      DedupStep(ids, i - 1);
    }
  }

  /** Behind distinct seeds the kept ids are the deduplicated ones. */
  lemma {:induction false} KeptDedup(ids: seq<int>, numSeeds: nat, i: nat)
    requires numSeeds <= i <= |ids| && Distinct(ids[..numSeeds])
    ensures Kept(ids, numSeeds, i) == Dedup(ids[..i])
  {
    hide Dedup, IsFirst, Distinct;
    if i == numSeeds {
      DedupDistinct(ids, numSeeds);
    } else {
      KeptDedup(ids, numSeeds, i - 1);
      KeptStep(ids, numSeeds, i - 1);
      DedupStep(ids, i - 1);
    }
  }

  /** Seeds are copied unchecked: the unique ids are the deduplicated input if and
      only if the seeds are distinct. */
  lemma KeptIsDedup(ids: seq<int>, numSeeds: nat)
    requires numSeeds <= |ids|
    ensures Kept(ids, numSeeds, |ids|) == Dedup(ids) <==> Distinct(ids[..numSeeds])
  {
    var kept := Kept(ids, numSeeds, |ids|);
    assert kept[..numSeeds] == ids[..numSeeds];
    if Distinct(ids[..numSeeds]) {
      KeptDedup(ids, numSeeds, |ids|);
      assert ids[..|ids|] == ids;
    } else {
      var a, b :| 0 <= a < b < numSeeds && ids[..numSeeds][a] == ids[..numSeeds][b];
      assert kept[a] == kept[b];
    }
  }

  /** One seed given twice is kept twice. */
  lemma RepeatedSeedIsKept(x: int)
    ensures Kept([x, x], 2, 2) == [x, x] && Dedup([x, x]) == [x]
  {
    assert [x, x][..1] == [x] && [x][..0] == [];
    assert Dedup([x]) == [x];
  }

  /** A first occurrence at i is found under its label, repeated seeds or not. */
  lemma LabelDecodes(ids: seq<int>, numSeeds: nat, i: nat)
    requires i < |ids| && numSeeds <= |ids| && IsFirst(ids, i)
    ensures Label(ids, numSeeds, i) < |Kept(ids, numSeeds, |ids|)|
    ensures Kept(ids, numSeeds, |ids|)[Label(ids, numSeeds, i)] == ids[i]
  {
    if numSeeds <= i {
      KeptStep(ids, numSeeds, i);
      KeptPrefix(ids, numSeeds, i + 1, |ids|);
      assert Kept(ids, numSeeds, i + 1)[Label(ids, numSeeds, i)] == ids[i];
    }
  }

  /** Two first occurrences get different labels: no two workers of the relabel
      phase write the same cell of unique_ids_. */
  lemma LabelsDisjoint(ids: seq<int>, numSeeds: nat, i: nat, j: nat)
    requires i < j < |ids| && numSeeds <= |ids| && IsFirst(ids, i) && IsFirst(ids, j)
    ensures Label(ids, numSeeds, i) < Label(ids, numSeeds, j) < |Kept(ids, numSeeds, |ids|)|
  {
    if numSeeds <= i {
      KeptStep(ids, numSeeds, i);
      KeptPrefix(ids, numSeeds, i + 1, j);
    }
    LabelDecodes(ids, numSeeds, j);
  }

  lemma FirstIsFirst(ids: seq<int>, i: nat)
    requires i < |ids|
    ensures IsFirst(ids, i) <==> FirstIndex(ids, ids[i]) == i
  {
    var f := FirstIndex(ids, ids[i]);
    if f < i { assert ids[..i][f] == ids[i]; }
    if ids[i] in ids[..i] {
      var j :| 0 <= j < i && ids[..i][j] == ids[i];
      assert ids[j] == ids[i];
    }
  }

  // ------------------------------------------------------------------
  // The table

  ghost predicate Maps(keys: seq<int>, vals: seq<int>, id: int, v: int)
    requires |keys| == |vals|
  {
    exists slot :: 0 <= slot < |keys| && keys[slot] == id && vals[slot] == v
  }

  /** What the probe loops need of a table over ids. */
  ghost predicate Searchable(ids: seq<int>, m: nat, keys: seq<int>) {
    && |ids| >= 1 && m == MapBits(|ids|)
    && |keys| == Pow2(m) && KeysOk(ids, keys)
    && forall x :: x in ids ==> x != EMPTY && x in keys
  }

  /** A free slot on an id's probe path means that the id is absent. */
  lemma FreeMeansAbsent(ids: seq<int>, m: nat, keys: seq<int>, id: int, k: nat)
    requires Searchable(ids, m, keys) && id != EMPTY && PathFull(keys, id, k)
    requires keys[Slot(id, k, Pow2(m))] == EMPTY
    ensures id !in keys
  {
  }

  lemma PresentMeansFull(ids: seq<int>, m: nat, keys: seq<int>, id: int, k: nat)
    requires Searchable(ids, m, keys) && id in ids && PathFull(keys, id, k)
    ensures keys[Slot(id, k, Pow2(m))] != EMPTY
  {
    if keys[Slot(id, k, Pow2(m))] == EMPTY { FreeMeansAbsent(ids, m, keys, id, k); }
  }

  /** One more failed probe: the walk goes on, and it cannot go on forever. */
  lemma ProbeAdvances(ids: seq<int>, m: nat, keys: seq<int>, id: int, k: nat)
    requires Searchable(ids, m, keys) && PathFull(keys, id, k)
    requires keys[Slot(id, k, Pow2(m))] != EMPTY && keys[Slot(id, k, Pow2(m))] != id
    ensures PathFull(keys, id, k + 1) && k + 1 < 2 * Pow2(m)
    ensures Next(Slot(id, k, Pow2(m)), k + 1, Pow2(m)) == (Slot(id, k + 1, Pow2(m)), k + 2)
  {
    hide Slot, Next, Pow2, KeysOk, MapBits;
    PathBounded(ids, m, keys, id, k + 1);
    WalkGoesOn(id, k, Pow2(m));
  }

  lemma WalkGoesOn(id: int, k: nat, capacity: nat)
    requires capacity >= 1
    ensures Next(Slot(id, k, capacity), k + 1, capacity) == (Slot(id, k + 1, capacity), k + 2)
  {
    hide Slot, Next;
    WalkIsSlot(id, k, capacity);
    WalkIsSlot(id, k + 1, capacity);
    var (pos, delta) := Walk(id, k, capacity);
    assert Walk(id, k + 1, capacity) == Next(pos, delta, capacity);
  }

  lemma HomeSlot(id: int, capacity: nat)
    requires capacity >= 1
    ensures Slot(id, 0, capacity) == Masked(id, capacity)
  {
  }

  lemma UniqueSlot(ids: seq<int>, m: nat, keys: seq<int>, a: nat)
    requires Searchable(ids, m, keys) && a < |keys| && keys[a] != EMPTY
    ensures forall b :: 0 <= b < |keys| && keys[b] == keys[a] ==> b == a
  {
    forall b | 0 <= b < |keys| && keys[b] == keys[a] ensures b == a { PlacedUnique(keys, keys[a], a, b); }
  }

  lemma EmptyPath(keys: seq<int>, id: int)
    requires |keys| >= 1
    ensures PathFull(keys, id, 0)
  {
  }

  lemma KeysPresent(ids: seq<int>, m: nat, keys: seq<int>, id: int)
    requires Searchable(ids, m, keys) && id in ids
    ensures id != EMPTY
  {
  }

  lemma InTable(ids: seq<int>, m: nat, keys: seq<int>, slot: nat)
    requires Searchable(ids, m, keys) && slot < |keys| && keys[slot] != EMPTY
    ensures keys[slot] in ids
  {
  }

  class ConcurrentIdHashMap {
    const ids: seq<int>          // the constructor's input, kept for the specification
    const numSeeds: nat          // how many of the ids are seeds
    const bits: nat              // mask_ == 2^bits - 1
    const hashMap: array<int>    // keys at even, values at odd indices
    ghost var keys: seq<int>
    ghost var vals: seq<int>
    var uniqueIds: seq<int>

    ghost predicate Layout()
      reads this, hashMap
    {
      && |keys| == |vals| == Pow2(bits)
      && hashMap.Length == 2 * Pow2(bits)
      && forall p :: 0 <= p < |keys| ==> hashMap[2 * p] == keys[p] && hashMap[2 * p + 1] == vals[p]
    }

    ghost predicate Valid()
      reads this, hashMap
    {
      Layout() && Searchable(ids, bits, keys)
    }

    /** The finished map: the seeds, then the other ids in first-occurrence order, and
        for every id an index where it stands. */
    ghost predicate Relabelled()
      reads this, hashMap
    {
      && Valid()
      && numSeeds <= |ids| && uniqueIds == Kept(ids, numSeeds, |ids|)
      && forall x :: x in ids ==>
        exists v :: 0 <= v < |uniqueIds| && uniqueIds[v] == x && Maps(keys, vals, x, v)
    }

    /** Insert under any schedule, count, prefix-sum and relabel. The schedule must
        run every insertion to its end (the parallel loop joins its threads). */
    constructor (ids: seq<int>, numSeeds: nat, schedule: seq<Choice>, bounds: seq<nat>)
      requires |ids| >= 1 && -1 !in ids
      requires numSeeds <= |ids| && Chunks(bounds, numSeeds, |ids|)
      requires Complete(Run(ids, MapBits(|ids|), schedule))
      ensures this.ids == ids && this.numSeeds == numSeeds && Relabelled()
      ensures uniqueIds == ids[..numSeeds] + Firsts(ids, numSeeds, |ids|)
      ensures uniqueIds == Dedup(ids) <==> Distinct(ids[..numSeeds])
    {
      hide Searchable, Run, Complete, Dedup, Firsts;
      this.ids := ids;
      this.numSeeds := numSeeds;
      bits := MapBits(|ids|);
      hashMap := new int[2 * MapSize(|ids|)](_ => EMPTY);
      keys, vals := Start(ids, MapBits(|ids|)).keys, Start(ids, MapBits(|ids|)).vals;
      uniqueIds := [];
      new;
      InsertAll(schedule);
      RelabelAll(bounds);
      KeptIsDedup(ids, numSeeds);
    }

    /** The relabel phase over all workers. */
    method RelabelAll(bounds: seq<nat>)
      requires Valid() && Built(ids, bits, keys, vals)
      requires numSeeds <= |ids| && Chunks(bounds, numSeeds, |ids|)
      modifies hashMap, this`vals, this`uniqueIds
      ensures Relabelled()
    {
      hide Searchable, Labelled, IsFirst, Built, Maps, Label, Kept;
      LabelledStart(ids, numSeeds, bits, keys, vals);
      var valid, blockOffset := CountFirsts(bounds);
      var unique := new int[|ids|](i requires 0 <= i < |ids| => ids[i]);
      assert unique[..numSeeds] == ids[..numSeeds];
      SeedLabel(ids, numSeeds);
      for t := 0 to |bounds| - 1
        invariant Valid() && Labelled(ids, numSeeds, keys, vals, bounds[t])
        invariant forall i :: numSeeds <= i < |ids| ==> valid[i] == IsFirst(ids, i)
        invariant forall u :: 0 <= u < |bounds| ==> blockOffset[u] == Label(ids, numSeeds, bounds[u]) - numSeeds
        invariant numSeeds <= bounds[t] && Written(unique[..], bounds[t])
      {
        RelabelChunk(valid, unique, blockOffset[t] + numSeeds, bounds[t], bounds[t + 1]);
      }
      uniqueIds := unique[..numSeeds + blockOffset[|bounds| - 1]];
      LabelledEnd(ids, numSeeds, bits, keys, vals);
    }

    /** The unique ids of the positions before i are in place. */
    ghost predicate Written(unique: seq<int>, i: nat)
      requires numSeeds <= i <= |ids|
    {
      Label(ids, numSeeds, i) <= |unique| && unique[..Label(ids, numSeeds, i)] == Kept(ids, numSeeds, i)
    }

    /** `MapId`: stops for every id, present or not. */
    method MapId(id: int) returns (r: Result<int>)
      requires Valid()
      ensures r.Ok? ==> Maps(keys, vals, id, r.value)
      ensures r.Ok? <==> id in ids
      ensures !r.Ok? ==> r == OutOfRange(id)
    {
      hide Probing.SumSquares, Probing.Slot;
      var capacity := Pow2(bits);
      var pos, delta := Masked(id, capacity), 1;
      ghost var k := 0;
      HomeSlot(id, capacity);
      var key := hashMap[2 * pos];
      assert key == keys[pos];
      while key != EMPTY && key != id
        invariant pos == Slot(id, k, capacity) && delta == k + 1
        invariant key == keys[pos]
        invariant PathFull(keys, id, k)
        decreases 2 * capacity as int - k
      {
        ProbeAdvances(ids, bits, keys, id, k);
        var (pos', delta') := Next(pos, delta, capacity);
        pos, delta, k := pos', delta', k + 1;
        key := hashMap[2 * pos];
        assert key == keys[pos];
      }
      if key == EMPTY {
        if id != EMPTY { FreeMeansAbsent(ids, bits, keys, id, k); }
        return OutOfRange(id);
      }
      InTable(ids, bits, keys, pos);
      assert vals[pos] == hashMap[2 * pos + 1];
      r := Ok(hashMap[2 * pos + 1]);
    }

    /** `MapIds`: the label of every queried id, or the exception for an unknown one. */
    method MapIds(queries: seq<int>) returns (r: Result<seq<int>>)
      requires Relabelled()
      ensures r.Ok? <==> forall i :: 0 <= i < |queries| ==> queries[i] in ids
      ensures r.Ok? ==> Decodes(uniqueIds, r.value, queries)
      ensures !r.Ok? ==> r.OutOfRange? && r.id in queries && r.id !in ids
    {
      hide Searchable, Kept, PathFull;
      var values: seq<int> := [];
      for i := 0 to |queries|
        invariant Decodes(uniqueIds, values, queries[..i])
        invariant forall j :: 0 <= j < i ==> queries[j] in ids
      {
        var found := MapId(queries[i]);
        if found.OutOfRange? { return OutOfRange(found.id); }
        ValueDecodes(queries[i], found.value);
        values := values + [found.value];
      }
      assert queries[..|queries|] == queries;
      r := Ok(values);
    }

    /** In a finished map the stored value of an id is its index among the distinct ids. */
    lemma ValueDecodes(id: int, v: int)
      requires Relabelled() && id in ids && Maps(keys, vals, id, v)
      ensures 0 <= v < |uniqueIds| && uniqueIds[v] == id
    {
      var w :| 0 <= w < |uniqueIds| && uniqueIds[w] == id && Maps(keys, vals, id, w);
      var a :| 0 <= a < |keys| && keys[a] == id && vals[a] == v;
      KeysPresent(ids, bits, keys, id);
      UniqueSlot(ids, bits, keys, a);
    }

    /** `Set`: changes the value of one present key and nothing else. */
    method Set(key: int, value: int)
      requires Valid() && key in ids
      modifies hashMap, this`vals
      ensures Valid() && |vals| == |old(vals)|
      ensures forall p :: 0 <= p < |vals| ==> vals[p] == if keys[p] == key then value else old(vals)[p]
    {
      hide Probing.SumSquares, Probing.Slot, Probing.Next, Probing.Masked, PathFull, Searchable;
      var capacity := Pow2(bits);
      var pos, delta := Masked(key, capacity), 1;
      ghost var k := 0;
      HomeSlot(key, capacity);
      assert hashMap[2 * pos] == keys[pos];
      EmptyPath(keys, key);
      while hashMap[2 * pos] != key
        invariant pos == Slot(key, k, capacity) && delta == k + 1
        invariant Valid() && vals == old(vals)
        invariant hashMap[2 * pos] == keys[pos]
        invariant PathFull(keys, key, k)
        decreases 2 * capacity as int - k
      {
        PresentMeansFull(ids, bits, keys, key, k);
        ProbeAdvances(ids, bits, keys, key, k);
        var (pos', delta') := Next(pos, delta, capacity);
        pos, delta, k := pos', delta', k + 1;
        assert hashMap[2 * pos] == keys[pos];
      }
      KeysPresent(ids, bits, keys, key);
      UniqueSlot(ids, bits, keys, pos);
      hashMap[2 * pos + 1] := value;
      vals := vals[pos := value];
    }

    /** One scheduled instruction of the insertion phase, on the shared table. */
    method Execute(tasks: seq<Task>, c: Choice) returns (tasks': seq<Task>)
      requires Layout() && Shape(ids, bits, State(keys, vals, tasks))
      modifies hashMap, this`keys, this`vals
      ensures Layout() && Shape(ids, bits, State(keys, vals, tasks'))
      ensures State(keys, vals, tasks') == Step(ids, bits, State(old(keys), old(vals), tasks), c)
    {
      hide Probing.Slot, Probing.SumSquares;
      tasks' := tasks;
      if c.task >= |ids| { return; }
      match tasks[c.task] {
        case Seeking(k) =>
          var id := ids[c.task];
          var slot := Slot(id, k, Pow2(bits));
          var found := hashMap[2 * slot];
          assert found == keys[slot];
          if found == EMPTY {
            hashMap[2 * slot] := id;
            keys := keys[slot := id];
            tasks' := tasks[c.task := Lowering(slot, EMPTY)];
          } else if found == id {
            tasks' := tasks[c.task := Lowering(slot, EMPTY)];
          } else {
            tasks' := tasks[c.task := Seeking(k + 1)];
          }
        case Lowering(slot, seen) =>
          var current := hashMap[2 * slot + 1];
          assert current == vals[slot];
          if current == seen && !c.spurious {
            hashMap[2 * slot + 1] := c.task;
            vals := vals[slot := c.task];
            tasks' := tasks[c.task := Finished(slot)];
          } else if current == EMPTY || current > c.task {
            tasks' := tasks[c.task := Lowering(slot, current)];
          } else {
            tasks' := tasks[c.task := Finished(slot)];
          }
        case Finished(_) =>
      }
    }

    /** The insertion phase under an arbitrary schedule. */
    method InsertAll(schedule: seq<Choice>)
      requires Input(ids, bits) && Layout()
      requires Complete(Run(ids, bits, schedule))
      requires keys == Start(ids, bits).keys && vals == Start(ids, bits).vals
      modifies hashMap, this`keys, this`vals
      ensures Valid() && Built(ids, bits, keys, vals)
    {
      var tasks: seq<Task> := Start(ids, bits).tasks;
      assert State(keys, vals, tasks) == Start(ids, bits);
      for n := 0 to |schedule|
        invariant Layout()
        invariant State(keys, vals, tasks) == Run(ids, bits, schedule[..n])
      {
        assert schedule[..n + 1][..n] == schedule[..n];
        tasks := Execute(tasks, schedule[n]);
      }
      assert schedule[..|schedule|] == schedule;
      CompleteRunIsBuilt(ids, bits, schedule);
    }

    /** One worker of the counting phase: mark and count the first occurrences in [lo, hi). */
    method CountChunk(valid: array<bool>, lo: nat, hi: nat) returns (count: nat)
      requires Valid() && Built(ids, bits, keys, vals)
      requires numSeeds <= lo <= hi <= |ids| == valid.Length
      modifies valid
      ensures forall j :: 0 <= j < lo ==> valid[j] == old(valid[j])
      ensures forall j :: lo <= j < hi ==> valid[j] == IsFirst(ids, j)
      ensures count == Label(ids, numSeeds, hi) - Label(ids, numSeeds, lo)
    {
      hide Built, Searchable, IsFirst, Label, Kept, FirstIndex, Maps;
      count := 0;
      for i := lo to hi
        invariant forall j :: 0 <= j < lo ==> valid[j] == old(valid[j])
        invariant forall j :: lo <= j < i ==> valid[j] == IsFirst(ids, j)
        invariant count == Label(ids, numSeeds, i) - Label(ids, numSeeds, lo)
      {
        KeysPresent(ids, bits, keys, ids[i]);
        var found := MapId(ids[i]);
        BuiltValue(ids, bits, keys, vals, i, found.value);
        KeptStep(ids, numSeeds, i);
        if found.value == i {
          count := count + 1;
          valid[i] := true;
        } else {
          valid[i] := false;
        }
      }
    }

    /** The counting phase over all workers, and the prefix sum of their counts. */
    method CountFirsts(bounds: seq<nat>) returns (valid: array<bool>, blockOffset: array<int>)
      requires Valid() && Built(ids, bits, keys, vals)
      requires numSeeds <= |ids| && Chunks(bounds, numSeeds, |ids|)
      ensures fresh(valid) && fresh(blockOffset) && valid.Length == |ids| && blockOffset.Length == |bounds|
      ensures forall i :: numSeeds <= i < |ids| ==> valid[i] == IsFirst(ids, i)
      ensures forall t :: 0 <= t < |bounds| ==> blockOffset[t] == Label(ids, numSeeds, bounds[t]) - numSeeds
    {
      hide Built, Searchable, Label, IsFirst;
      valid := new bool[|ids|];
      blockOffset := new int[|bounds|](_ => 0);
      ghost var labels := seq(|bounds|, t requires 0 <= t < |bounds| => Label(ids, numSeeds, bounds[t]));
      for t := 0 to |bounds| - 1
        invariant forall i :: numSeeds <= i < bounds[t] ==> valid[i] == IsFirst(ids, i)
        invariant blockOffset[0] == 0
        invariant forall u :: 1 <= u <= t ==> blockOffset[u] == labels[u] - labels[u - 1]
      {
        var count := CountChunk(valid, bounds[t], bounds[t + 1]);
        blockOffset[t + 1] := count;
      }
      SeedLabel(ids, numSeeds);
      PartialSum(blockOffset, labels);
    }

    /** One worker of the relabel phase: write the first occurrences of [lo, hi) and their labels. */
    method RelabelChunk(valid: array<bool>, unique: array<int>, start: int, lo: nat, hi: nat)
      requires Valid() && unique != hashMap && numSeeds <= lo <= hi <= |ids| == valid.Length == unique.Length
      requires start == Label(ids, numSeeds, lo) && Labelled(ids, numSeeds, keys, vals, lo)
      requires forall j :: lo <= j < hi ==> valid[j] == IsFirst(ids, j)
      requires Written(unique[..], lo)
      modifies unique, hashMap, this`vals
      ensures Valid() && Labelled(ids, numSeeds, keys, vals, hi)
      ensures Written(unique[..], hi)
    {
      hide Searchable, Labelled, IsFirst, Kept;
      var pos := start;
      for i := lo to hi
        invariant Valid() && Labelled(ids, numSeeds, keys, vals, i)
        invariant pos == Label(ids, numSeeds, i) <= i && unique[..pos] == Kept(ids, numSeeds, i)
      {
        KeptStep(ids, numSeeds, i);
        if valid[i] {
          ghost var before := vals;
          unique[pos] := ids[i];
          Set(ids[i], pos);
          LabelledSet(ids, numSeeds, keys, before, vals, i);
          pos := pos + 1;
        } else {
          LabelledSkip(ids, numSeeds, keys, vals, i);
        }
      }
      assert unique[..][..pos] == unique[..pos];
    }
  }

  lemma SeedLabel(ids: seq<int>, numSeeds: nat)
    requires numSeeds <= |ids|
    ensures Label(ids, numSeeds, numSeeds) == numSeeds && Kept(ids, numSeeds, numSeeds) == ids[..numSeeds]
  {
  }

  /** In-place prefix sum of the differences of `total`. */
  method PartialSum(a: array<int>, ghost total: seq<int>)
    requires a.Length == |total| >= 1 && a[0] == 0
    requires forall u :: 1 <= u < a.Length ==> a[u] == total[u] - total[u - 1]
    modifies a
    ensures forall u :: 0 <= u < a.Length ==> a[u] == total[u] - total[0]
  {
    for t := 1 to a.Length
      invariant forall u :: 0 <= u < t ==> a[u] == total[u] - total[0]
      invariant forall u :: t <= u < a.Length ==> a[u] == total[u] - total[u - 1]
    {
      a[t] := a[t] + a[t - 1];
    }
  }

  /** Thread-ordered contiguous chunks of [lo, hi). */
  ghost predicate Chunks(bounds: seq<nat>, lo: nat, hi: nat) {
    && |bounds| >= 1 && bounds[0] == lo && bounds[|bounds| - 1] == hi
    && forall t, u :: 0 <= t <= u < |bounds| ==> bounds[t] <= bounds[u]
  }

  lemma BuiltValue(ids: seq<int>, m: nat, keys: seq<int>, vals: seq<int>, i: nat, v: int)
    requires i < |ids| && Built(ids, m, keys, vals) && ids[i] != EMPTY && |keys| == |vals|
    requires Maps(keys, vals, ids[i], v)
    ensures v == FirstIndex(ids, ids[i])
    ensures v == i <==> IsFirst(ids, i)
  {
    FirstIsFirst(ids, i);
  }

  // ------------------------------------------------------------------
  // Values during the relabel phase

  /** First occurrences below i carry their label, the others still their index. */
  ghost predicate Labelled(ids: seq<int>, numSeeds: nat, keys: seq<int>, vals: seq<int>, i: nat) {
    && numSeeds <= i <= |ids| && |keys| == |vals|
    && forall p :: 0 <= p < |keys| && keys[p] in ids ==>
      var f := FirstIndex(ids, keys[p]); vals[p] == if f < i then Label(ids, numSeeds, f) else f
  }

  lemma LabelledStart(ids: seq<int>, numSeeds: nat, m: nat, keys: seq<int>, vals: seq<int>)
    requires Built(ids, m, keys, vals) && Searchable(ids, m, keys) && numSeeds <= |ids|
    ensures Labelled(ids, numSeeds, keys, vals, numSeeds)
  {
    forall p | 0 <= p < |keys| && keys[p] in ids ensures vals[p] == FirstIndex(ids, keys[p]) {
      var slot :| 0 <= slot < |keys| && keys[slot] == keys[p] && vals[slot] == FirstIndex(ids, keys[p]);
    }
  }

  lemma LabelledSkip(ids: seq<int>, numSeeds: nat, keys: seq<int>, vals: seq<int>, i: nat)
    requires i < |ids| && !IsFirst(ids, i) && Labelled(ids, numSeeds, keys, vals, i)
    ensures Labelled(ids, numSeeds, keys, vals, i + 1)
  {
    FirstIsFirst(ids, i);
  }

  lemma LabelledSet(ids: seq<int>, numSeeds: nat, keys: seq<int>, vals: seq<int>, vals': seq<int>, i: nat)
    requires i < |ids| && IsFirst(ids, i) && Labelled(ids, numSeeds, keys, vals, i) && |vals'| == |vals|
    requires forall p :: 0 <= p < |vals| ==> vals'[p] == if keys[p] == ids[i] then Label(ids, numSeeds, i) else vals[p]
    ensures Labelled(ids, numSeeds, keys, vals', i + 1)
  {
    FirstIsFirst(ids, i);
  }

  /** After the last chunk every id maps to an index where it stands among the unique ids. */
  lemma LabelledEnd(ids: seq<int>, numSeeds: nat, m: nat, keys: seq<int>, vals: seq<int>)
    requires Labelled(ids, numSeeds, keys, vals, |ids|) && Searchable(ids, m, keys)
    ensures forall x :: x in ids ==>
      exists v :: 0 <= v < |Kept(ids, numSeeds, |ids|)| && Kept(ids, numSeeds, |ids|)[v] == x && Maps(keys, vals, x, v)
  {
    forall x | x in ids
      ensures exists v ::
        0 <= v < |Kept(ids, numSeeds, |ids|)| && Kept(ids, numSeeds, |ids|)[v] == x && Maps(keys, vals, x, v)
    {
      var f := FirstIndex(ids, x);
      FirstIsFirst(ids, f);
      LabelDecodes(ids, numSeeds, f);
      var p :| 0 <= p < |keys| && keys[p] == x;
      assert vals[p] == Label(ids, numSeeds, f);
    }
  }

  // ------------------------------------------------------------------
  // UniqueAndCompact

  /** labels[i] is a position of queries[i] in unique. */
  ghost predicate Decodes(unique: seq<int>, labels: seq<int>, queries: seq<int>) {
    && |labels| == |queries|
    && forall i :: 0 <= i < |labels| ==> 0 <= labels[i] < |unique| && unique[labels[i]] == queries[i]
  }

  datatype Compacted = Compacted(unique: seq<int>, src: seq<int>, dst: seq<int>, offsets: seq<int>)

  /** `UniqueAndCompact` on the CPU: relabel the edges' endpoints to [0, |unique|). */
  method UniqueAndCompact(src: seq<int>, dst: seq<int>, uniqueDst: seq<int>, worldSize: int,
                          schedule: seq<Choice>, bounds: seq<nat>)
    returns (r: Result<Compacted>)
    requires |uniqueDst + src| >= 1 && -1 !in uniqueDst + src
    requires Chunks(bounds, |uniqueDst|, |uniqueDst + src|)
    requires Complete(Run(uniqueDst + src, MapBits(|uniqueDst + src|), schedule))
    ensures r.Unsupported? <==> worldSize > 1
    ensures r.OutOfRange? ==> r.id in dst && r.id !in uniqueDst + src
    ensures r.Ok? <==> worldSize <= 1 && forall i :: 0 <= i < |dst| ==> dst[i] in uniqueDst + src
    ensures r.Ok? ==>
      && r.value.unique == uniqueDst + Firsts(uniqueDst + src, |uniqueDst|, |uniqueDst + src|)
      && (r.value.unique == Dedup(uniqueDst + src) <==> Distinct(uniqueDst))
      && Decodes(r.value.unique, r.value.src, src)
      && Decodes(r.value.unique, r.value.dst, dst)
      && r.value.offsets == [0, |r.value.unique|]
  {
    hide Run, Complete, Searchable, Dedup, Firsts;
    if worldSize > 1 { return Unsupported; }
    var ids := uniqueDst + src;
    assert ids[..|uniqueDst|] == uniqueDst;
    var table := new ConcurrentIdHashMap(ids, |uniqueDst|, schedule, bounds);
    var compactedSrc := table.MapIds(src);
    assert compactedSrc.Ok?;
    var compactedDst := table.MapIds(dst);
    if compactedDst.OutOfRange? { return OutOfRange(compactedDst.id); }
    r := Ok(Compacted(table.uniqueIds, compactedSrc.value, compactedDst.value, [0, |table.uniqueIds|]));
  }
}
