/** A serialisation as the shared-memory helper assumes it exists: for any items there
    is an invertible one under which the lengths of their archives fit 64 bits.

    Source: graphbolt/src/shared_memory_helper.cc. */
module ArchiveCodec {
  import opened SharedMemory

  // ------------------------------------------------------------------
  // Numbers as strings

  /** n ones and a zero. */
  function Unary(n: nat): seq<Byte> {
    if n == 0 then [0] else [1] + Unary(n - 1)
  }

  function Numbers(ns: seq<nat>): seq<Byte> {
    if ns == [] then [] else Unary(ns[0]) + Numbers(ns[1..])
  }

  lemma {:induction false} UnaryCut(a: nat, x: seq<Byte>, b: nat, y: seq<Byte>)
    requires Unary(a) + x == Unary(b) + y
    ensures a == b && x == y
  {
    UnaryHead(a, x);
    UnaryHead(b, y);
    if a > 0 && b > 0 {
      UnaryCut(a - 1, x, b - 1, y);
    }
  }

  lemma UnaryHead(a: nat, x: seq<Byte>)
    ensures |Unary(a) + x| >= 1 && (Unary(a) + x)[0] == (if a == 0 then 0 else 1)
    ensures (Unary(a) + x)[1..] == if a == 0 then x else Unary(a - 1) + x
  {
  }

  lemma {:induction false} NumbersInjective(ns: seq<nat>, ms: seq<nat>)
    requires Numbers(ns) == Numbers(ms)
    ensures ns == ms
  {
    NumbersEmpty(ns);
    NumbersEmpty(ms);
    if ns != [] && ms != [] {
      UnaryCut(ns[0], Numbers(ns[1..]), ms[0], Numbers(ms[1..]));
      NumbersInjective(ns[1..], ms[1..]);
      assert ns == [ns[0]] + ns[1..] && ms == [ms[0]] + ms[1..];
    }
  }

  lemma NumbersEmpty(ns: seq<nat>)
    ensures Numbers(ns) == [] <==> ns == []
  {
    if ns != [] { UnaryHead(ns[0], Numbers(ns[1..])); }
  }

  // ------------------------------------------------------------------
  // Archives as numbers

  function TypeCode(t: DType): nat {
    match t
    case Int8 => 0
    case Int32 => 1
    case Int64 => 2
    case Float32 => 3
    case Float64 => 4
  }

  function Letters(s: string): (r: seq<nat>)
    ensures |r| == |s| && forall i :: 0 <= i < |s| ==> r[i] == s[i] as int
  {
    seq(|s|, i requires 0 <= i < |s| => s[i] as int)
  }

  function Words(keys: seq<string>): seq<nat> {
    if keys == [] then [] else [|keys[0]|] + Letters(keys[0]) + Words(keys[1..])
  }

  lemma {:induction false} WordsInjective(a: seq<string>, b: seq<string>)
    requires Words(a) == Words(b)
    ensures a == b
  {
    if a != [] && b != [] {
      FirstWord(a);
      FirstWord(b);
      assert a[0] == b[0] by { SameLetters(a[0], b[0]); }
      WordsInjective(a[1..], b[1..]);
      assert a == [a[0]] + a[1..] && b == [b[0]] + b[1..];
    }
  }

  lemma FirstWord(a: seq<string>)
    requires a != []
    ensures var n := |a[0]|; var w := Words(a);
      |w| >= 1 + n && w[0] == n && w[1..1 + n] == Letters(a[0]) && w[1 + n..] == Words(a[1..])
  {
  }

  lemma SameLetters(s: string, t: string)
    requires Letters(s) == Letters(t)
    ensures s == t
  {
    forall i | 0 <= i < |s| ensures s[i] == t[i] { assert Letters(s)[i] == Letters(t)[i]; }
  }

  function Code(a: Archive): seq<nat> {
    match a
    case Absent => []
    case TensorMeta(shape, t) => [0, TypeCode(t)] + shape
    case DictMeta(keys) => [1] + Words(keys)
  }

  lemma CodeHead(a: Archive)
    ensures a.Absent? <==> Code(a) == []
    ensures !a.Absent? ==> Code(a)[0] == if a.TensorMeta? then 0 else 1
  {
  }

  lemma CodeInjective(a: Archive, b: Archive)
    requires Code(a) == Code(b)
    ensures a == b
  {
    CodeHead(a);
    CodeHead(b);
    match (a, b) {
      case (TensorMeta(s, t), TensorMeta(u, v)) =>
        assert Code(a)[2..] == s && Code(b)[2..] == u && Code(a)[1] == Code(b)[1];
      case (DictMeta(k), DictMeta(l)) =>
        assert Code(a)[1..] == Words(k) && Code(b)[1..] == Words(l);
        WordsInjective(k, l);
      case _ =>
    }
  }

  // ------------------------------------------------------------------
  // The codec

  function IndexOf(a: Archive, archives: seq<Archive>): (i: nat)
    requires a in archives
    ensures i < |archives| && archives[i] == a
  {
    if archives[0] == a then 0 else 1 + IndexOf(a, archives[1..])
  }

  /** The given archives are saved by their number, all others in full. */
  function Save(archives: seq<Archive>, a: Archive): seq<Byte> {
    if a in archives then [0] + Encode(IndexOf(a, archives), 8) else [1] + Numbers(Code(a))
  }

  lemma SaveInjective(archives: seq<Archive>, a: Archive, b: Archive)
    requires |archives| <= Pow256(8) && Save(archives, a) == Save(archives, b)
    ensures a == b
  {
    hide Encode, Numbers, Code;
    var s, t := Save(archives, a), Save(archives, b);
    assert s[0] == t[0] && s[1..] == t[1..];
    if a in archives {
      DecodeEncode(IndexOf(a, archives), 8);
      DecodeEncode(IndexOf(b, archives), 8);
      assert s[1..] == Encode(IndexOf(a, archives), 8) && t[1..] == Encode(IndexOf(b, archives), 8);
    } else {
      assert s[1..] == Numbers(Code(a)) && t[1..] == Numbers(Code(b));
      NumbersInjective(Code(a), Code(b));
      CodeInjective(a, b);
    }
  }

  ghost function Load(archives: seq<Archive>, s: seq<Byte>): (a: Archive)
    ensures (exists b :: Save(archives, b) == s) ==> Save(archives, a) == s
  {
    if exists b :: Save(archives, b) == s then var b :| Save(archives, b) == s; b else Absent
  }

  /** What the round trips ask of the serialisation can be met for any items. */
  lemma CodecExists(xs: seq<Item>) returns (codec: Codec)
    requires |AllArchives(xs)| <= Pow256(8)
    ensures codec.Ok() && codec.Fits(AllArchives(xs))
  {
    hide Load, Save;
    var archives := AllArchives(xs);
    var save: Archive -> seq<Byte> := a => Save(archives, a);
    ghost var load: seq<Byte> -> Archive := s => Load(archives, s);
    codec := Codec(save, load);
    forall a ensures codec.load(codec.save(a)) == a {
      LoadSave(archives, a);
    }
    forall a | a in archives ensures |codec.save(a)| < 0x8000_0000_0000_0000 { SaveShort(archives, a); }
  }

  lemma LoadSave(archives: seq<Archive>, a: Archive)
    requires |archives| <= Pow256(8)
    ensures Load(archives, Save(archives, a)) == a
  {
    hide Save;
    SaveInjective(archives, Load(archives, Save(archives, a)), a);
  }

  lemma SaveShort(archives: seq<Archive>, a: Archive)
    requires a in archives
    ensures |Save(archives, a)| == 9
  {
  }
}
