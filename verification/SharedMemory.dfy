/** The shared-memory helper: records written one after the other into two memories
    and read back in the same order.

    Source: graphbolt/src/shared_memory_helper.cc, graphbolt/src/shared_memory_helper.h,
    graphbolt/src/fused_csc_sampling_graph.cc. */
module SharedMemory {

  import opened Collections

  type Byte = b: int | 0 <= b < 256

  // ------------------------------------------------------------------
  // Integers in memory

  function Pow256(n: nat): nat {
    if n == 0 then 1 else 256 * Pow256(n - 1)
  }

  /** n bytes, least significant first. */
  function Encode(x: nat, n: nat): (s: seq<Byte>)
    ensures |s| == n
  {
    if n == 0 then [] else [x % 256] + Encode(x / 256, n - 1)
  }

  function Decode(s: seq<Byte>): nat {
    if s == [] then 0 else s[0] + 256 * Decode(s[1..])
  }

  lemma {:induction false} DecodeEncode(x: nat, n: nat)
    requires x < Pow256(n)
    ensures Decode(Encode(x, n)) == x
  {
    if n > 0 {
      DecodeEncode(x / 256, n - 1);
      assert Encode(x, n)[1..] == Encode(x / 256, n - 1);
    }
  }

  lemma Pow256Eight()
    ensures Pow256(8) == 0x1_0000_0000_0000_0000
  {
    assert Pow256(2) == 256 * Pow256(1) == 0x1_0000;
    assert Pow256(4) == 256 * Pow256(3) == 0x1_0000_0000;
    assert Pow256(6) == 256 * Pow256(5) == 0x1_0000_0000_0000;
    assert Pow256(8) == 256 * Pow256(7);
  }

  /** `GetRoundedSize`. */
  function RoundedSize(size: nat): (r: nat)
    ensures size <= r < size + 8 && r % 8 == 0
  {
    (size + 8 - 1) / 8 * 8
  }

  // ------------------------------------------------------------------
  // What is stored

  datatype DType = Int8 | Int32 | Int64 | Float32 | Float64

  function ElementSize(t: DType): nat {
    match t
    case Int8 => 1
    case Int32 => 4
    case Int64 => 8
    case Float32 => 4
    case Float64 => 8
  }

  function Numel(shape: seq<nat>): nat {
    if shape == [] then 1 else shape[0] * Numel(shape[1..])
  }

  /** A tensor with its contiguous bytes. */
  datatype Tensor = Tensor(shape: seq<nat>, dtype: DType, bytes: seq<Byte>)
  {
    ghost predicate Ok() {
      |bytes| == MemorySize(shape, dtype)
    }
  }

  function MemorySize(shape: seq<nat>, dtype: DType): nat {
    Numel(shape) * ElementSize(dtype)
  }

  /** A tensor of one axis, by element type. */
  lemma VectorSizes(n: nat)
    ensures MemorySize([n], Int8) == n && MemorySize([n], Int32) == MemorySize([n], Float32) == 4 * n
    ensures MemorySize([n], Int64) == MemorySize([n], Float64) == 8 * n
  {
    assert Numel([n]) == n * Numel([]);
  }

  /** Every further axis multiplies the number of elements. */
  lemma {:induction false} NumelProduct(a: seq<nat>, b: seq<nat>)
    ensures Numel(a + b) == Numel(a) * Numel(b)
  {
    if a == [] {
      assert a + b == b;
    } else {
      NumelProduct(a[1..], b);
      assert (a + b)[1..] == a[1..] + b;
      Reassociate(a[0], Numel(a[1..]), Numel(b));
    }
  }

  lemma Reassociate(x: nat, y: nat, z: nat)
    ensures x * (y * z) == x * y * z
  {
  }

  /** A dictionary keeps its entries in the order of insertion, one per key. */
  type Dict = seq<(string, Tensor)>

  ghost predicate DictOk(d: Dict) {
    && (forall i :: 0 <= i < |d| ==> d[i].1.Ok())
    && forall i, j :: 0 <= i < j < |d| ==> d[i].0 != d[j].0
  }

  function Insert(d: Dict, key: string, t: Tensor): Dict {
    if exists i :: 0 <= i < |d| && d[i].0 == key then d else d + [(key, t)]
  }

  /** The metadata archives. */
  datatype Archive = Absent | TensorMeta(shape: seq<nat>, dtype: DType) | DictMeta(keys: seq<string>)

  /** Saving an archive to a string, and loading it back. */
  datatype Codec = Codec(save: Archive -> seq<Byte>, load: seq<Byte> -> Archive)
  {
    ghost predicate Ok() {
      forall a :: load(save(a)) == a
    }

    /** The lengths of these strings are 64-bit integers. */
    ghost predicate Fits(archives: seq<Archive>) {
      forall a :: a in archives ==> |save(a)| < 0x8000_0000_0000_0000
    }
  }

  datatype Item = TensorItem(tensor: Option<Tensor>) | DictItem(dict: Option<Dict>)

  ghost predicate ItemOk(x: Item) {
    match x
    case TensorItem(t) => t.Some? ==> t.value.Ok()
    case DictItem(d) => d.Some? ==> DictOk(d.value)
  }

  function TensorArchive(t: Option<Tensor>): Archive {
    if t.Some? then TensorMeta(t.value.shape, t.value.dtype) else Absent
  }

  function Keys(d: Dict): (r: seq<string>)
    ensures |r| == |d| && forall i :: 0 <= i < |d| ==> r[i] == d[i].0
  {
    seq(|d|, i requires 0 <= i < |d| => d[i].0)
  }

  function Values(d: Dict): (r: seq<Option<Tensor>>)
    ensures |r| == |d| && forall i :: 0 <= i < |d| ==> r[i] == Some(d[i].1)
  {
    seq(|d|, i requires 0 <= i < |d| => Some(d[i].1))
  }

  function TensorArchives(ts: seq<Option<Tensor>>): (r: seq<Archive>)
    ensures |r| == |ts| && forall i :: 0 <= i < |ts| ==> r[i] == TensorArchive(ts[i])
  {
    seq(|ts|, i requires 0 <= i < |ts| => TensorArchive(ts[i]))
  }

  /** The archives an item writes, and the tensors it leaves for the data memory. */
  function ArchivesOf(x: Item): seq<Archive> {
    match x
    case TensorItem(t) => [TensorArchive(t)]
    case DictItem(d) => if d.None? then [Absent] else [DictMeta(Keys(d.value))] + TensorArchives(Values(d.value))
  }

  function TensorsOf(x: Item): seq<Option<Tensor>> {
    match x
    case TensorItem(t) => [t]
    case DictItem(d) => if d.None? then [] else Values(d.value)
  }

  function AllArchives(xs: seq<Item>): seq<Archive> {
    if xs == [] then [] else AllArchives(xs[..|xs| - 1]) + ArchivesOf(xs[|xs| - 1])
  }

  function AllTensors(xs: seq<Item>): seq<Option<Tensor>> {
    if xs == [] then [] else AllTensors(xs[..|xs| - 1]) + TensorsOf(xs[|xs| - 1])
  }

  // ------------------------------------------------------------------
  // The layout of the memories

  /** Where the k-th metadata record begins: every record is its length and its bytes, rounded. */
  function MetaStart(strs: seq<seq<Byte>>, k: nat): (s: nat)
    requires k <= |strs|
  {
    if k == 0 then 0 else MetaStart(strs, k - 1) + 8 + RoundedSize(|strs[k - 1]|)
  }

  /** Where the k-th tensor begins. */
  function DataStart(ts: seq<Option<Tensor>>, k: nat): (s: nat)
    requires k <= |ts|
  {
    if k == 0 then 0 else DataStart(ts, k - 1) + DataSize(ts[k - 1])
  }

  function DataSize(t: Option<Tensor>): nat {
    if t.Some? then RoundedSize(|t.value.bytes|) else 0
  }

  lemma AlignedSum(a: nat, b: nat)
    requires a % 8 == 0 && b % 8 == 0
    ensures (a + b) % 8 == 0
  {
  }

  /** Records begin at multiples of eight. */
  lemma {:induction false} MetaAligned(strs: seq<seq<Byte>>, k: nat)
    requires k <= |strs|
    ensures MetaStart(strs, k) % 8 == 0
  {
    hide RoundedSize;
    if k > 0 {
      MetaAligned(strs, k - 1);
      AlignedSum(MetaStart(strs, k - 1), 8);
      AlignedSum(MetaStart(strs, k - 1) + 8, RoundedSize(|strs[k - 1]|));
    }
  }

  /** Tensors begin at multiples of eight. */
  lemma {:induction false} DataAligned(ts: seq<Option<Tensor>>, k: nat)
    requires k <= |ts|
    ensures DataStart(ts, k) % 8 == 0
  {
    hide RoundedSize;
    if k > 0 {
      DataAligned(ts, k - 1);
      AlignedSum(DataStart(ts, k - 1), DataSize(ts[k - 1]));
    }
  }

  lemma {:induction false} MetaMonotone(strs: seq<seq<Byte>>, i: nat, k: nat)
    requires i <= k <= |strs|
    ensures MetaStart(strs, i) <= MetaStart(strs, k)
    decreases k
  {
    if i < k { MetaMonotone(strs, i, k - 1); }
  }

  lemma {:induction false} DataMonotone(ts: seq<Option<Tensor>>, i: nat, k: nat)
    requires i <= k <= |ts|
    ensures DataStart(ts, i) <= DataStart(ts, k)
    decreases k
  {
    if i < k { DataMonotone(ts, i, k - 1); }
  }

  ghost predicate BytesAt(mem: seq<Byte>, at: nat, s: seq<Byte>) {
    at + |s| <= |mem| && mem[at..at + |s|] == s
  }

  /** The first k records are in place. */
  ghost predicate MetaHolds(mem: seq<Byte>, strs: seq<seq<Byte>>, k: nat) {
    && k <= |strs| && |mem| == MetaStart(strs, |strs|)
    && forall i: nat :: i < k ==> RecordAt(mem, strs, i)
  }

  ghost predicate RecordAt(mem: seq<Byte>, strs: seq<seq<Byte>>, i: nat)
    requires i < |strs|
  {
    BytesAt(mem, MetaStart(strs, i), Encode(|strs[i]|, 8) + strs[i])
  }

  ghost predicate DataHolds(mem: seq<Byte>, ts: seq<Option<Tensor>>, k: nat) {
    && k <= |ts| && |mem| == DataStart(ts, |ts|)
    && forall i: nat :: i < k && ts[i].Some? ==> TensorAt(mem, ts, i)
  }

  ghost predicate TensorAt(mem: seq<Byte>, ts: seq<Option<Tensor>>, i: nat)
    requires i < |ts| && ts[i].Some?
  {
    BytesAt(mem, DataStart(ts, i), ts[i].value.bytes)
  }

  /** Writing behind what is there keeps it. */
  lemma BytesBefore(mem: seq<Byte>, at: nat, s: seq<Byte>, from: nat, t: seq<Byte>)
    requires BytesAt(mem, at, s) && at + |s| <= from && from + |t| <= |mem|
    ensures BytesAt(mem[..from] + t + mem[from + |t|..], at, s)
  {
    var mem' := mem[..from] + t + mem[from + |t|..];
    assert mem'[at..at + |s|] == mem[at..at + |s|];
  }

  lemma RecordWritten(mem: seq<Byte>, strs: seq<seq<Byte>>, k: nat)
    requires k < |strs| && MetaHolds(mem, strs, k)
    ensures var at, s := MetaStart(strs, k), Encode(|strs[k]|, 8) + strs[k];
      && at + |s| <= MetaStart(strs, k + 1) <= |mem|
      && MetaHolds(mem[..at] + s + mem[at + |s|..], strs, k + 1)
  {
    hide Encode, MetaStart, BytesAt;
    MetaNext(strs, k);
    var at, s := MetaStart(strs, k), Encode(|strs[k]|, 8) + strs[k];
    MetaMonotone(strs, k + 1, |strs|);
    var mem' := mem[..at] + s + mem[at + |s|..];
    BytesWritten(mem, at, s);
    forall i: nat | i < k + 1 ensures RecordAt(mem', strs, i) {
      if i < k {
        assert RecordAt(mem, strs, i);
        MetaNext(strs, i);
        MetaMonotone(strs, i + 1, k);
        BytesBefore(mem, MetaStart(strs, i), Encode(|strs[i]|, 8) + strs[i], at, s);
      }
    }
  }

  lemma MetaNext(strs: seq<seq<Byte>>, k: nat)
    requires k < |strs|
    ensures MetaStart(strs, k + 1) == MetaStart(strs, k) + 8 + RoundedSize(|strs[k]|)
  {
  }

  lemma BytesWritten(mem: seq<Byte>, at: nat, s: seq<Byte>)
    requires at + |s| <= |mem|
    ensures BytesAt(mem[..at] + s + mem[at + |s|..], at, s)
  {
  }

  lemma TensorWritten(mem: seq<Byte>, ts: seq<Option<Tensor>>, k: nat)
    requires k < |ts| && DataHolds(mem, ts, k)
    ensures DataStart(ts, k + 1) == DataStart(ts, k) + DataSize(ts[k]) <= |mem|
    ensures ts[k].None? ==> DataHolds(mem, ts, k + 1)
    ensures ts[k].Some? ==>
      var at, s := DataStart(ts, k), ts[k].value.bytes;
      at + |s| <= |mem| && DataHolds(mem[..at] + s + mem[at + |s|..], ts, k + 1)
  {
    hide BytesAt;
    DataMonotone(ts, k + 1, |ts|);
    if ts[k].Some? {
      var at, s := DataStart(ts, k), ts[k].value.bytes;
      var mem' := mem[..at] + s + mem[at + |s|..];
      BytesWritten(mem, at, s);
      forall i: nat | i < k + 1 && ts[i].Some? ensures TensorAt(mem', ts, i) {
        if i < k {
          assert TensorAt(mem, ts, i);
          DataMonotone(ts, i + 1, k);
          BytesBefore(mem, DataStart(ts, i), ts[i].value.bytes, at, s);
        }
      }
    }
  }

  /** The saved archives. */
  function Saved(codec: Codec, archives: seq<Archive>): (r: seq<seq<Byte>>)
    ensures |r| == |archives| && forall i :: 0 <= i < |archives| ==> r[i] == codec.save(archives[i])
  {
    seq(|archives|, i requires 0 <= i < |archives| => codec.save(archives[i]))
  }

  method DataTotal(ts: seq<Option<Tensor>>) returns (size: nat)
    ensures size == DataStart(ts, |ts|)
  {
    size := 0;
    for i := 0 to |ts|
      invariant size == DataStart(ts, i)
    {
      if ts[i].Some? { size := size + RoundedSize(|ts[i].value.bytes|); }
    }
  }

  method MetadataTotal(strs: seq<seq<Byte>>) returns (size: nat)
    ensures size == MetaStart(strs, |strs|)
  {
    size := 0;
    for i := 0 to |strs|
      invariant size == MetaStart(strs, i)
    {
      size := size + 8 + RoundedSize(|strs[i]|);
    }
  }

  class SharedMemoryHelper {
    const codec: Codec
    var mapped: bool
    var metadataMemory: array<Byte>
    var dataMemory: array<Byte>
    var metadataSize: nat
    var dataSize: nat
    var metadataOffset: nat
    var dataOffset: nat
    var metadataToWrite: seq<Archive>
    var tensorsToWrite: seq<Option<Tensor>>
    ghost var archives: seq<Archive>             // what the memories hold,
    ghost var tensors: seq<Option<Tensor>>
    ghost var nextArchive: nat                   // and how much of it has been read
    ghost var nextTensor: nat

    constructor (codec: Codec)
      ensures this.codec == codec && !mapped && metadataToWrite == [] && tensorsToWrite == []
    {
      this.codec := codec;
      mapped := false;
      metadataMemory, dataMemory := new Byte[0], new Byte[0];
      metadataSize, dataSize, metadataOffset, dataOffset := 0, 0, 0, 0;
      metadataToWrite, tensorsToWrite := [], [];
      archives, tensors, nextArchive, nextTensor := [], [], 0, 0;
    }

    // --------------------------------------------------------------
    // Writing

    method WriteTorchArchive(a: Archive)
      modifies this`metadataToWrite
      ensures metadataToWrite == old(metadataToWrite) + [a]
    {
      metadataToWrite := metadataToWrite + [a];
    }

    method WriteTorchTensor(t: Option<Tensor>)
      modifies this`metadataToWrite, this`tensorsToWrite
      ensures metadataToWrite == old(metadataToWrite) + ArchivesOf(TensorItem(t))
      ensures tensorsToWrite == old(tensorsToWrite) + TensorsOf(TensorItem(t))
    {
      WriteTorchArchive(TensorArchive(t));
      tensorsToWrite := tensorsToWrite + [t];
    }

    method WriteTorchTensorDict(d: Option<Dict>)
      modifies this`metadataToWrite, this`tensorsToWrite
      ensures metadataToWrite == old(metadataToWrite) + ArchivesOf(DictItem(d))
      ensures tensorsToWrite == old(tensorsToWrite) + TensorsOf(DictItem(d))
    {
      if d.None? {
        WriteTorchArchive(Absent);
        return;
      }
      WriteTorchArchive(DictMeta(Keys(d.value)));
      for i := 0 to |d.value|
        invariant metadataToWrite ==
          old(metadataToWrite) + ([DictMeta(Keys(d.value))] + TensorArchives(Values(d.value))[..i])
        invariant tensorsToWrite == old(tensorsToWrite) + Values(d.value)[..i]
      {
        WriteTorchTensor(Some(d.value[i].1));
        assert Values(d.value)[..i + 1] == Values(d.value)[..i] + [Some(d.value[i].1)];
      }
      assert Values(d.value)[..|d.value|] == Values(d.value);
      assert TensorArchives(Values(d.value))[..|d.value|] == TensorArchives(Values(d.value));
    }

    method WriteMetadata(strs: seq<seq<Byte>>)
      requires metadataMemory.Length == metadataSize == MetaStart(strs, |strs|)
      modifies this`metadataOffset, metadataMemory
      ensures MetaHolds(metadataMemory[..], strs, |strs|) && metadataOffset == metadataSize
    {
      hide MetaStart, Encode, RecordAt, MetaHolds, RoundedSize;
      metadataOffset := 0;
      MetaNone(metadataMemory[..], strs);
      for i := 0 to |strs|
        invariant metadataOffset == MetaStart(strs, i) && MetaHolds(metadataMemory[..], strs, i)
      {
        RecordWritten(metadataMemory[..], strs, i);
        MetaNext(strs, i);
        ghost var before := metadataMemory[..];
        CopyInto(Encode(|strs[i]|, 8), metadataMemory, metadataOffset);
        CopyInto(strs[i], metadataMemory, metadataOffset + 8);
        TwoCopies(before, metadataOffset, Encode(|strs[i]|, 8), strs[i], metadataMemory[..]);
        metadataOffset := metadataOffset + (8 + RoundedSize(|strs[i]|));
      }
    }

    method WriteData(ts: seq<Option<Tensor>>)
      requires dataMemory.Length == dataSize == DataStart(ts, |ts|)
      modifies this`dataOffset, dataMemory
      ensures DataHolds(dataMemory[..], ts, |ts|) && dataOffset == dataSize
    {
      hide DataStart, TensorAt;
      dataOffset := 0;
      DataNone(dataMemory[..], ts);
      for i := 0 to |ts|
        invariant dataOffset == DataStart(ts, i) && DataHolds(dataMemory[..], ts, i)
      {
        TensorWritten(dataMemory[..], ts, i);
        if ts[i].Some? {
          CopyInto(ts[i].value.bytes, dataMemory, dataOffset);
          dataOffset := dataOffset + RoundedSize(|ts[i].value.bytes|);
        }
      }
    }

    /** `Flush`: both memories get exactly the size of what is written. */
    method Flush()
      modifies this
      ensures mapped && fresh(metadataMemory) && fresh(dataMemory)
      ensures archives == old(metadataToWrite) && tensors == old(tensorsToWrite)
      ensures Stored()
      ensures metadataToWrite == [] && tensorsToWrite == []
      ensures metadataOffset == metadataSize && dataOffset == dataSize
    {
      hide *;
      var size := DataTotal(tensorsToWrite);
      FlushMetadata();
      FlushData(size);
      mapped := true;
      archives, tensors := metadataToWrite, tensorsToWrite;
      metadataToWrite, tensorsToWrite := [], [];
      StoredNow();
    }

    method FlushMetadata()
      modifies this`metadataMemory, this`metadataSize, this`metadataOffset
      ensures fresh(metadataMemory) && metadataMemory.Length == metadataSize == metadataOffset
      ensures MetaHolds(metadataMemory[..], Saved(codec, metadataToWrite), |metadataToWrite|)
    {
      hide *;
      var strs := Saved(codec, metadataToWrite);
      var metaSize := MetadataTotal(strs);
      metadataMemory := new Byte[metaSize];
      metadataSize := metaSize;
      WriteMetadata(strs);
    }

    method FlushData(size: nat)
      requires size == DataStart(tensorsToWrite, |tensorsToWrite|)
      modifies this`dataMemory, this`dataSize, this`dataOffset
      ensures fresh(dataMemory) && dataMemory.Length == dataSize == dataOffset
      ensures DataHolds(dataMemory[..], tensorsToWrite, |tensorsToWrite|)
    {
      hide *;
      dataMemory := new Byte[size];
      dataSize := size;
      WriteData(tensorsToWrite);
    }

    lemma StoredNow()
      requires metadataMemory.Length == metadataSize && dataMemory.Length == dataSize
      requires MetaHolds(metadataMemory[..], Saved(codec, archives), |archives|)
      requires DataHolds(dataMemory[..], tensors, |tensors|)
      ensures Stored()
    {
    }

    // --------------------------------------------------------------
    // Reading

    /** The memories hold the archives and the tensors. */
    ghost predicate Stored()
      reads this`metadataMemory, this`dataMemory, this`metadataSize, this`dataSize, this`archives, this`tensors
      reads metadataMemory, dataMemory
    {
      && metadataMemory.Length == metadataSize && dataMemory.Length == dataSize
      && MetaHolds(metadataMemory[..], Saved(codec, archives), |archives|)
      && DataHolds(dataMemory[..], tensors, |tensors|)
    }

    /** The cursors stand before what has not been read. */
    ghost predicate Reading()
      reads this, metadataMemory, dataMemory
    {
      && codec.Ok() && codec.Fits(archives) && mapped && Stored() && nextArchive <= |archives|
      && nextTensor <= |tensors|
      && metadataOffset == MetaStart(Saved(codec, archives), nextArchive)
      && dataOffset == DataStart(tensors, nextTensor)
      && forall i :: 0 <= i < |tensors| && tensors[i].Some? ==> tensors[i].value.Ok()
    }

    /** `InitializeRead`: the memories are opened by name unless they are already there. */
    method InitializeRead(named: SharedMemoryHelper)
      requires codec.Ok() && codec == named.codec && named.mapped && named.Stored() && (mapped ==> Stored())
      requires codec.Fits(if mapped then archives else named.archives)
      requires forall t :: Some(t) in (if mapped then tensors else named.tensors) ==> t.Ok()
      modifies this
      ensures Reading() && nextArchive == 0 && nextTensor == 0
      ensures archives == old(if mapped then archives else named.archives)
      ensures tensors == old(if mapped then tensors else named.tensors)
    {
      hide MetaHolds, DataHolds, MetaStart, DataStart, Codec.Ok, Codec.Fits, Saved, SharedMemoryHelper.Stored;
      Beginning(codec, if mapped then archives else named.archives, if mapped then tensors else named.tensors);
      if !mapped { Open(named); }
      metadataOffset, dataOffset, nextArchive, nextTensor := 0, 0, 0, 0;
    }

    /** The memories of another process, by name. */
    method Open(named: SharedMemoryHelper)
      requires named.Stored() && codec == named.codec
      modifies this
      ensures Stored() && mapped && archives == old(named.archives) && tensors == old(named.tensors)
    {
      NamedSizes(named);
      ghost var a, t := named.archives, named.tensors;
      metadataMemory, dataMemory := named.metadataMemory, named.dataMemory;
      metadataSize, dataSize := metadataMemory.Length, dataMemory.Length;
      mapped, archives, tensors := true, a, t;
    }

    lemma NamedSizes(named: SharedMemoryHelper)
      requires named.Stored()
      ensures named.metadataMemory.Length == named.metadataSize && named.dataMemory.Length == named.dataSize
    {
    }

    static lemma Beginning(codec: Codec, archives: seq<Archive>, tensors: seq<Option<Tensor>>)
      requires forall t :: Some(t) in tensors ==> t.Ok()
      ensures MetaStart(Saved(codec, archives), 0) == 0 == DataStart(tensors, 0)
      ensures forall i :: 0 <= i < |tensors| && tensors[i].Some? ==> tensors[i].value.Ok()
    {
      forall i | 0 <= i < |tensors| && tensors[i].Some? ensures tensors[i].value.Ok() { assert tensors[i] in tensors; }
    }

    /** `MoveMetadataPtr`, as `MoveDataPtr` below, refuses to move past the end of the memory. */
    method ReadTorchArchive() returns (a: Archive)
      requires Reading() && nextArchive < |archives|
      modifies this`metadataOffset, this`nextArchive
      ensures Reading() && nextArchive == old(nextArchive) + 1 && a == archives[old(nextArchive)]
    {
      hide MetaHolds, DataHolds, MetaStart, DataStart, Encode;
      ghost var strs := Saved(codec, archives);
      RecordRead(metadataMemory[..], strs, nextArchive);
      CodecBack(codec, archives, nextArchive);
      var size := Decode(metadataMemory[metadataOffset..metadataOffset + 8]);
      a := codec.load(metadataMemory[metadataOffset + 8..metadataOffset + 8 + size]);
      assert metadataOffset + 8 + RoundedSize(size) <= metadataSize;
      metadataOffset := metadataOffset + (8 + RoundedSize(size));
      nextArchive := nextArchive + 1;
    }

    method ReadTorchTensor() returns (t: Option<Tensor>)
      requires Reading() && nextArchive < |archives| && nextTensor < |tensors|
      requires archives[nextArchive] == TensorArchive(tensors[nextTensor])
      modifies this`metadataOffset, this`dataOffset, this`nextArchive, this`nextTensor
      ensures Reading() && nextArchive == old(nextArchive) + 1 && nextTensor == old(nextTensor) + 1
      ensures t == tensors[old(nextTensor)]
    {
      hide MetaHolds, DataHolds, MetaStart, DataStart, RoundedSize;
      var a := ReadTorchArchive();
      TensorRead(dataMemory[..], tensors, nextTensor);
      if a.TensorMeta? {
        var size := MemorySize(a.shape, a.dtype);
        t := Some(Tensor(a.shape, a.dtype, dataMemory[dataOffset..dataOffset + size]));
        assert dataOffset + RoundedSize(size) <= dataSize;
        dataOffset := dataOffset + RoundedSize(size);
      } else {
        t := None;
      }
      nextTensor := nextTensor + 1;
    }

    /** The next records are those of the item. */
    ghost predicate Next(x: Item)
      reads this`archives, this`tensors, this`nextArchive, this`nextTensor
    {
      && nextArchive + |ArchivesOf(x)| <= |archives| && nextTensor + |TensorsOf(x)| <= |tensors|
      && archives[nextArchive..nextArchive + |ArchivesOf(x)|] == ArchivesOf(x)
      && tensors[nextTensor..nextTensor + |TensorsOf(x)|] == TensorsOf(x)
    }

    method ReadTorchTensorDict(ghost expected: Option<Dict>) returns (d: Option<Dict>)
      requires Reading() && Next(DictItem(expected)) && (expected.Some? ==> DictOk(expected.value))
      modifies this`metadataOffset, this`dataOffset, this`nextArchive, this`nextTensor
      ensures Reading() && d == expected
      ensures nextArchive == old(nextArchive) + |ArchivesOf(DictItem(expected))|
      ensures nextTensor == old(nextTensor) + |TensorsOf(DictItem(expected))|
    {
      hide MetaHolds, DataHolds, MetaStart, DataStart, Reading, ArchivesOf, TensorsOf, Insert, DictOk, TensorArchive;
      ghost var p, q := nextArchive, nextTensor;
      DictNext(expected, archives, tensors, p, q);
      var a := ReadTorchArchive();
      if a == Absent { return None; }
      var result: Dict := [];
      for i := 0 to |a.keys|
        invariant Reading() && nextArchive == p + 1 + i && nextTensor == q + i && result == expected.value[..i]
        invariant archives == old(archives) && tensors == old(tensors)
      {
        assert DictEntryNext(expected.value, archives, tensors, p, q, i);
        var t := ReadTorchTensor();
        InsertNew(expected.value, i);
        result := Insert(result, a.keys[i], t.value);
      }
      assert expected.value[..|a.keys|] == expected.value;
      d := Some(result);
    }
  }

  /** The records of a dictionary: its keys, then its tensors in order. */
  lemma DictNext(d: Option<Dict>, archives: seq<Archive>, tensors: seq<Option<Tensor>>, p: nat, q: nat)
    requires p + |ArchivesOf(DictItem(d))| <= |archives| && q + |TensorsOf(DictItem(d))| <= |tensors|
    requires archives[p..p + |ArchivesOf(DictItem(d))|] == ArchivesOf(DictItem(d))
    requires tensors[q..q + |TensorsOf(DictItem(d))|] == TensorsOf(DictItem(d))
    ensures p < |archives| && archives[p] == if d.None? then Absent else DictMeta(Keys(d.value))
    ensures d.None? ==> |ArchivesOf(DictItem(d))| == 1 && |TensorsOf(DictItem(d))| == 0
    ensures d.Some? ==> |ArchivesOf(DictItem(d))| == 1 + |d.value| && |TensorsOf(DictItem(d))| == |d.value|
    ensures d.Some? ==> forall i :: 0 <= i < |d.value| ==> DictEntryNext(d.value, archives, tensors, p, q, i)
  {
    var A, T := archives[p..p + |ArchivesOf(DictItem(d))|], tensors[q..q + |TensorsOf(DictItem(d))|];
    assert archives[p] == A[0];
    if d.Some? {
      forall i | 0 <= i < |d.value| ensures DictEntryNext(d.value, archives, tensors, p, q, i) {
        assert archives[p + 1 + i] == A[1 + i] && tensors[q + i] == T[i];
      }
    }
  }

  /** Entry i of a dictionary is written at its place. */
  ghost predicate DictEntryNext(d: Dict, archives: seq<Archive>, tensors: seq<Option<Tensor>>, p: nat, q: nat, i: int)
    requires 0 <= i < |d|
  {
    && p + 1 + i < |archives| && q + i < |tensors|
    && archives[p + 1 + i] == TensorArchive(tensors[q + i]) && tensors[q + i] == Some(d[i].1)
  }

  lemma MetaNone(mem: seq<Byte>, strs: seq<seq<Byte>>)
    requires |mem| == MetaStart(strs, |strs|)
    ensures MetaHolds(mem, strs, 0) && MetaStart(strs, 0) == 0
  {
  }

  lemma DataNone(mem: seq<Byte>, ts: seq<Option<Tensor>>)
    requires |mem| == DataStart(ts, |ts|)
    ensures DataHolds(mem, ts, 0) && DataStart(ts, 0) == 0
  {
  }

  lemma TwoCopies(before: seq<Byte>, at: nat, x: seq<Byte>, y: seq<Byte>, after: seq<Byte>)
    requires at + |x| + |y| <= |before|
    requires var mid := before[..at] + x + before[at + |x|..]; after == mid[..at + |x|] + y + mid[at + |x| + |y|..]
    ensures after == before[..at] + (x + y) + before[at + |x + y|..]
  {
  }

  lemma CodecBack(codec: Codec, archives: seq<Archive>, k: nat)
    requires codec.Ok() && codec.Fits(archives) && k < |archives|
    ensures codec.load(codec.save(archives[k])) == archives[k] && |codec.save(archives[k])| < 0x8000_0000_0000_0000
  {
    assert archives[k] in archives;
  }

  /** Reading the k-th record gives back its string, and stays within the memory. */
  lemma RecordRead(mem: seq<Byte>, strs: seq<seq<Byte>>, k: nat)
    requires MetaHolds(mem, strs, |strs|) && k < |strs| && |strs[k]| < 0x8000_0000_0000_0000
    ensures var at := MetaStart(strs, k);
      && at % 8 == 0 && MetaStart(strs, k + 1) == at + (8 + RoundedSize(|strs[k]|)) <= |mem|
      && at + 8 + |strs[k]| <= |mem| && Decode(mem[at..at + 8]) == |strs[k]|
      && mem[at + 8..at + 8 + |strs[k]|] == strs[k]
  {
    hide Encode, Decode, MetaStart;
    assert RecordAt(mem, strs, k);
    MetaNext(strs, k);
    MetaMonotone(strs, k + 1, |strs|);
    MetaAligned(strs, k);
    var at, s := MetaStart(strs, k), Encode(|strs[k]|, 8) + strs[k];
    assert mem[at..at + 8] == s[..8] && mem[at + 8..at + 8 + |strs[k]|] == s[8..];
    Pow256Eight();
    DecodeEncode(|strs[k]|, 8);
  }

  lemma TensorRead(mem: seq<Byte>, ts: seq<Option<Tensor>>, k: nat)
    requires DataHolds(mem, ts, |ts|) && k < |ts|
    ensures var at := DataStart(ts, k);
      && at % 8 == 0 && DataStart(ts, k + 1) == at + DataSize(ts[k]) <= |mem|
      && (ts[k].Some? ==> at + |ts[k].value.bytes| <= |mem| && mem[at..at + |ts[k].value.bytes|] == ts[k].value.bytes)
  {
    DataMonotone(ts, k + 1, |ts|);
    DataAligned(ts, k);
    if ts[k].Some? { assert TensorAt(mem, ts, k); }
  }

  lemma InsertNew(d: Dict, i: nat)
    requires DictOk(d) && i < |d|
    ensures Insert(d[..i], d[i].0, d[i].1) == d[..i + 1]
  {
  }

  // ------------------------------------------------------------------
  // Round trips

  lemma {:induction false} ItemPlace(xs: seq<Item>, i: nat)
    requires i < |xs|
    ensures var a, t := |AllArchives(xs[..i])|, |AllTensors(xs[..i])|;
      && a + |ArchivesOf(xs[i])| == |AllArchives(xs[..i + 1])| <= |AllArchives(xs)|
      && t + |TensorsOf(xs[i])| == |AllTensors(xs[..i + 1])| <= |AllTensors(xs)|
      && AllArchives(xs)[a..a + |ArchivesOf(xs[i])|] == ArchivesOf(xs[i])
      && AllTensors(xs)[t..t + |TensorsOf(xs[i])|] == TensorsOf(xs[i])
    decreases |xs|
  {
    hide ArchivesOf, TensorsOf, AllArchives, AllTensors;
    var n := |xs| - 1;
    LastItem(xs);
    assert xs[..i + 1][..i] == xs[..i];
    if i < n {
      ItemPlace(xs[..n], i);
      assert xs[..n][..i] == xs[..i] && xs[..n][..i + 1] == xs[..i + 1];
    } else {
      assert xs[..n + 1] == xs;
    }
  }

  lemma LastItem(xs: seq<Item>)
    requires |xs| > 0
    ensures AllArchives(xs) == AllArchives(xs[..|xs| - 1]) + ArchivesOf(xs[|xs| - 1])
    ensures AllTensors(xs) == AllTensors(xs[..|xs| - 1]) + TensorsOf(xs[|xs| - 1])
  {
  }

  lemma AllOk(xs: seq<Item>)
    requires forall x :: x in xs ==> ItemOk(x)
    ensures forall t :: Some(t) in AllTensors(xs) ==> t.Ok()
  {
    if xs != [] {
      AllOk(xs[..|xs| - 1]);
      assert ItemOk(xs[|xs| - 1]);
    }
  }

  method WriteItems(helper: SharedMemoryHelper, xs: seq<Item>)
    requires helper.metadataToWrite == [] && helper.tensorsToWrite == []
    modifies helper`metadataToWrite, helper`tensorsToWrite
    ensures helper.metadataToWrite == AllArchives(xs) && helper.tensorsToWrite == AllTensors(xs)
  {
    for i := 0 to |xs|
      invariant helper.metadataToWrite == AllArchives(xs[..i]) && helper.tensorsToWrite == AllTensors(xs[..i])
    {
      assert xs[..i + 1][..i] == xs[..i];
      match xs[i]
      case TensorItem(t) => helper.WriteTorchTensor(t);
      case DictItem(d) => helper.WriteTorchTensorDict(d);
    }
    assert xs[..|xs|] == xs;
  }

  /** Reads items of known kinds: true for a dictionary. */
  method ReadItems(helper: SharedMemoryHelper, kinds: seq<bool>, ghost xs: seq<Item>) returns (r: seq<Item>)
    requires helper.Reading() && helper.nextArchive == 0 && helper.nextTensor == 0
    requires helper.archives == AllArchives(xs) && helper.tensors == AllTensors(xs)
    requires |kinds| == |xs| && forall i :: 0 <= i < |xs| ==> kinds[i] == xs[i].DictItem? && ItemOk(xs[i])
    modifies helper`metadataOffset, helper`dataOffset, helper`nextArchive, helper`nextTensor
    ensures r == xs && helper.metadataOffset == helper.metadataSize && helper.dataOffset == helper.dataSize
    ensures helper.Reading()
  {
    hide MetaHolds, DataHolds, AllArchives, AllTensors, SharedMemoryHelper.Reading, ArchivesOf, TensorsOf;
    hide ItemOk, TensorArchive;
    r := [];
    NoItems(xs);
    for i := 0 to |kinds|
      invariant helper.Reading() && r == xs[..i]
      invariant helper.nextArchive == |AllArchives(xs[..i])| && helper.nextTensor == |AllTensors(xs[..i])|
    {
      ItemPlace(xs, i);
      ItemCounts(xs[i]);
      if kinds[i] {
        var d := helper.ReadTorchTensorDict(xs[i].dict);
        r := r + [DictItem(d)];
      } else {
        TensorNext(xs[i], helper.archives, helper.tensors, helper.nextArchive, helper.nextTensor);
        var t := helper.ReadTorchTensor();
        r := r + [TensorItem(t)];
      }
    }
    assert xs[..|kinds|] == xs;
    AllRead(helper);
  }

  lemma ItemCounts(x: Item)
    ensures x.TensorItem? ==> |ArchivesOf(x)| == 1 && |TensorsOf(x)| == 1
    ensures ItemOk(x) && x.DictItem? && x.dict.Some? ==> DictOk(x.dict.value)
  {
  }

  lemma NoItems(xs: seq<Item>)
    ensures AllArchives(xs[..0]) == [] && AllTensors(xs[..0]) == []
  {
  }

  lemma TensorNext(x: Item, archives: seq<Archive>, tensors: seq<Option<Tensor>>, a: nat, t: nat)
    requires x.TensorItem? && a + |ArchivesOf(x)| <= |archives| && t + |TensorsOf(x)| <= |tensors|
    requires archives[a..a + |ArchivesOf(x)|] == ArchivesOf(x) && tensors[t..t + |TensorsOf(x)|] == TensorsOf(x)
    ensures a < |archives| && t < |tensors| && archives[a] == TensorArchive(x.tensor) && tensors[t] == x.tensor
  {
    assert archives[a] == archives[a..a + 1][0] && tensors[t] == tensors[t..t + 1][0];
  }

  lemma AllRead(helper: SharedMemoryHelper)
    requires helper.Reading() && helper.nextArchive == |helper.archives| && helper.nextTensor == |helper.tensors|
    ensures helper.metadataOffset == helper.metadataSize && helper.dataOffset == helper.dataSize
  {
  }

  /** Any items, written and flushed by one helper and read by another in the same
      order, come back equal, and both cursors end exactly at the ends of the memories. */
  method WriteThenRead(codec: Codec, xs: seq<Item>, kinds: seq<bool>)
    returns (r: seq<Item>, writer: SharedMemoryHelper, reader: SharedMemoryHelper)
    requires codec.Ok() && codec.Fits(AllArchives(xs))
    requires |kinds| == |xs| && forall i :: 0 <= i < |xs| ==> kinds[i] == xs[i].DictItem? && ItemOk(xs[i])
    ensures r == xs
    ensures reader.metadataOffset == reader.metadataSize == writer.metadataSize == writer.metadataOffset
    ensures reader.dataOffset == reader.dataSize == writer.dataSize == writer.dataOffset
  {
    hide *;
    writer := new SharedMemoryHelper(codec);
    WriteItems(writer, xs);
    writer.Flush();
    AllOk(xs) by { ItemsOk(xs, kinds); }
    reader := new SharedMemoryHelper(codec);
    reader.InitializeRead(writer);
    r := ReadItems(reader, kinds, xs);
    SameSizes(writer, reader);
  }

  lemma SameSizes(writer: SharedMemoryHelper, reader: SharedMemoryHelper)
    requires writer.Stored() && reader.Reading() && writer.codec == reader.codec
    requires writer.archives == reader.archives && writer.tensors == reader.tensors
    ensures writer.metadataSize == reader.metadataSize && writer.dataSize == reader.dataSize
  {
  }

  lemma ItemsOk(xs: seq<Item>, kinds: seq<bool>)
    requires |kinds| == |xs| && forall i :: 0 <= i < |xs| ==> kinds[i] == xs[i].DictItem? && ItemOk(xs[i])
    ensures forall x :: x in xs ==> ItemOk(x)
  {
  }

  // ------------------------------------------------------------------
  // The graph

  /** A 64-bit value as a tensor, and back. */
  function Int64Tensor(v: int): Tensor {
    var word: nat := if 0 <= v < 0x8000_0000_0000_0000 then v
                     else if -0x8000_0000_0000_0000 <= v < 0 then v + 0x1_0000_0000_0000_0000 else 0;
    Tensor([], Int64, Encode(word, 8))
  }

  function Item64(t: Tensor): int {
    var word := Decode(t.bytes);
    if word < 0x8000_0000_0000_0000 then word else word - 0x1_0000_0000_0000_0000
  }

  lemma Int64Back(v: int)
    requires -0x8000_0000_0000_0000 <= v < 0x8000_0000_0000_0000
    ensures Item64(Int64Tensor(v)) == v && Int64Tensor(v).Ok()
  {
    Pow256Eight();
    DecodeEncode(if v >= 0 then v else v + 0x1_0000_0000_0000_0000, 8);
  }

  type Ids = seq<(string, int)>

  ghost predicate IdsOk(d: Ids) {
    && (forall i :: 0 <= i < |d| ==> -0x8000_0000_0000_0000 <= d[i].1 < 0x8000_0000_0000_0000)
    && forall i, j :: 0 <= i < j < |d| ==> d[i].0 != d[j].0
  }

  function TensorizeDict(d: Option<Ids>): Option<Dict> {
    if d.None? then None
    else Some(seq(|d.value|, i requires 0 <= i < |d.value| => (d.value[i].0, Int64Tensor(d.value[i].1))))
  }

  function DetensorizeDict(d: Option<Dict>): Option<Ids> {
    if d.None? then None
    else Some(seq(|d.value|, i requires 0 <= i < |d.value| => (d.value[i].0, Item64(d.value[i].1))))
  }

  lemma DetensorizeBack(d: Option<Ids>)
    requires d.Some? ==> IdsOk(d.value)
    ensures DetensorizeDict(TensorizeDict(d)) == d
    ensures TensorizeDict(d).Some? ==> DictOk(TensorizeDict(d).value)
  {
    hide Int64Tensor, Item64;
    if d.Some? {
      forall i | 0 <= i < |d.value|
        ensures Item64(Int64Tensor(d.value[i].1)) == d.value[i].1 && Int64Tensor(d.value[i].1).Ok()
      {
        Int64Back(d.value[i].1);
      }
      assert DetensorizeDict(TensorizeDict(d)).value == d.value;
    }
  }

  datatype Graph = Graph(indptr: Tensor, indices: Tensor, nodeTypeOffset: Option<Tensor>, typePerEdge: Option<Tensor>,
                         nodeTypeToId: Option<Ids>, edgeTypeToId: Option<Ids>,
                         nodeAttributes: Option<Dict>, edgeAttributes: Option<Dict>)
  {
    ghost predicate Ok() {
      && indptr.Ok() && indices.Ok() && (nodeTypeOffset.Some? ==> nodeTypeOffset.value.Ok())
      && (typePerEdge.Some? ==> typePerEdge.value.Ok())
      && (nodeTypeToId.Some? ==> IdsOk(nodeTypeToId.value)) && (edgeTypeToId.Some? ==> IdsOk(edgeTypeToId.value))
      && (nodeAttributes.Some? ==> DictOk(nodeAttributes.value))
      && (edgeAttributes.Some? ==> DictOk(edgeAttributes.value))
    }

    function Items(): seq<Item> {
      [TensorItem(Some(indptr)), TensorItem(Some(indices)), TensorItem(nodeTypeOffset), TensorItem(typePerEdge),
       DictItem(TensorizeDict(nodeTypeToId)), DictItem(TensorizeDict(edgeTypeToId)),
       DictItem(nodeAttributes), DictItem(edgeAttributes)]
    }
  }

  const GraphKinds: seq<bool> := [false, false, false, false, true, true, true, true]

  lemma GraphItems(g: Graph)
    requires g.Ok()
    ensures var xs := g.Items();
      && |xs| == |GraphKinds| == 8 && (forall i :: 0 <= i < |xs| ==> GraphKinds[i] == xs[i].DictItem? && ItemOk(xs[i]))
      && xs[0] == TensorItem(Some(g.indptr)) && xs[1] == TensorItem(Some(g.indices))
      && xs[2] == TensorItem(g.nodeTypeOffset) && xs[3] == TensorItem(g.typePerEdge)
      && xs[4].DictItem? && DetensorizeDict(xs[4].dict) == g.nodeTypeToId
      && xs[5].DictItem? && DetensorizeDict(xs[5].dict) == g.edgeTypeToId
      && xs[6] == DictItem(g.nodeAttributes) && xs[7] == DictItem(g.edgeAttributes)
  {
    hide DictOk, IdsOk, TensorizeDict, DetensorizeDict;
    DetensorizeBack(g.nodeTypeToId);
    DetensorizeBack(g.edgeTypeToId);
  }

  /** `CopyToSharedMemory` in one process and `LoadFromSharedMemory` in another: the
      graph comes back equal. */
  method CopyAndLoad(codec: Codec, g: Graph) returns (loaded: Graph)
    requires codec.Ok() && codec.Fits(AllArchives(g.Items())) && g.Ok()
    ensures loaded == g
  {
    hide *;
    GraphItems(g);
    var items, writer, reader := WriteThenRead(codec, g.Items(), GraphKinds);
    loaded := Graph(items[0].tensor.value, items[1].tensor.value, items[2].tensor, items[3].tensor,
                    DetensorizeDict(items[4].dict), DetensorizeDict(items[5].dict), items[6].dict, items[7].dict);
  }
}
