/** Finite sets and sequences without repeats, and copying into arrays. */
module Collections {

  datatype Option<T> = None | Some(value: T)

  ghost predicate Distinct<T(!new)>(s: seq<T>) {
    forall i, j :: 0 <= i < j < |s| ==> s[i] != s[j]
  }

  /** 0 .. n - 1. */
  function Range(n: nat): (s: set<int>)
    ensures |s| == n && forall x :: x in s <==> 0 <= x < n
  {
    if n == 0 then {} else Range(n - 1) + {n - 1}
  }

  function Elements<T(!new)>(s: seq<T>): (r: set<T>)
    ensures |r| <= |s| && forall x :: x in r <==> x in s
  {
    if s == [] then {} else Elements(s[1..]) + {s[0]}
  }

  lemma {:induction false} DistinctSize<T(!new)>(s: seq<T>)
    requires Distinct(s)
    ensures |Elements(s)| == |s|
  {
    if s != [] {
      DistinctSize(s[1..]);
      assert s[0] !in Elements(s[1..]);
    }
  }

  lemma SubsetSize<T(!new)>(a: set<T>, b: set<T>)
    requires a <= b
    ensures |a| <= |b| && (|a| == |b| ==> a == b)
  {
    assert b == a + (b - a);
  }

  /** Distinct members of b, as many as b has, are all of b. */
  lemma DistinctExhaust<T(!new)>(s: seq<T>, b: set<T>)
    requires Distinct(s) && |s| == |b| && forall k :: 0 <= k < |s| ==> s[k] in b
    ensures forall x :: x in b ==> x in s
  {
    DistinctSize(s);
    assert Elements(s) <= b;
    SubsetSize(Elements(s), b);
  }

  /** n different numbers below n are all of them. */
  lemma InjectiveOnto(s: seq<int>, n: nat)
    requires |s| == n && Distinct(s) && forall k :: 0 <= k < n ==> 0 <= s[k] < n
    ensures forall x :: 0 <= x < n ==> x in s
  {
    DistinctExhaust(s, Range(n));
    assert forall x :: 0 <= x < n ==> x in Range(n);
  }

  /** `memcpy`, `std::copy`. */
  method CopyInto<T>(piece: seq<T>, out: array<T>, at: nat)
    requires at + |piece| <= out.Length
    modifies out
    ensures out[..] == old(out[..at]) + piece + old(out[at + |piece|..])
  {
    for k := 0 to |piece|
      invariant forall x :: 0 <= x < k ==> out[at + x] == piece[x]
      invariant forall x :: 0 <= x < at || at + k <= x < out.Length ==> out[x] == old(out[x])
    {
      out[at + k] := piece[k];
    }
  }
}
