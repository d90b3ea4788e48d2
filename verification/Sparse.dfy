/** Relabelling and alignment of sparse matrices.

    Source: dgl_sparse/src/matrix_ops.cc, dgl_sparse/src/elemenwise_op.cc,
    dgl_sparse/src/sparse_format.cc. */
module Sparse {
  import opened Arithmetic
  import opened Collections

  /** A rearrangement of 0 .. n - 1. */
  ghost predicate IsPerm(p: seq<int>, n: nat) {
    |p| == n && Distinct(p) && (forall k :: 0 <= k < n ==> 0 <= p[k] < n) && forall i :: 0 <= i < n ==> i in p
  }

  function At(s: seq<int>, p: seq<int>): (r: seq<int>)
    requires forall k :: 0 <= k < |p| ==> 0 <= p[k] < |s|
    ensures |r| == |p| && forall k :: 0 <= k < |p| ==> r[k] == s[p[k]]
  {
    seq(|p|, k requires 0 <= k < |p| => s[p[k]])
  }

  ghost predicate Sorted(s: seq<int>) {
    forall i, j :: 0 <= i < j < |s| ==> s[i] <= s[j]
  }

  ghost predicate Increasing(s: seq<int>) {
    forall i, j :: 0 <= i < j < |s| ==> s[i] < s[j]
  }

  lemma InsertPerm(p: seq<int>, at: nat)
    requires IsPerm(p, |p|) && at <= |p|
    ensures IsPerm(p[..at] + [|p|] + p[at..], |p| + 1)
  {
    var q := p[..at] + [|p|] + p[at..];
    forall i | 0 <= i < |p| + 1 ensures i in q {
      if i == |p| {
        assert q[at] == i;
      } else {
        assert i in p;
        var k :| 0 <= k < |p| && p[k] == i;
        assert q[if k < at then k else k + 1] == i;
      }
    }
  }

  /** `sort`, the permutation: some order in which the elements ascend. */
  method Sort(s: seq<int>) returns (sorted: seq<int>, perm: seq<int>)
    ensures IsPerm(perm, |s|) && sorted == At(s, perm) && Sorted(sorted)
  {
    perm := [];
    for k := 0 to |s|
      invariant IsPerm(perm, k) && Sorted(At(s, perm))
    {
      var at := 0;
      while at < k && s[perm[at]] <= s[k]
        invariant 0 <= at <= k && forall j :: 0 <= j < at ==> s[perm[j]] <= s[k]
      {
        at := at + 1;
      }
      InsertPerm(perm, at);
      InsertSorted(s, perm, k, at);
      perm := perm[..at] + [k] + perm[at..];
    }
    sorted := At(s, perm);
  }

  lemma InsertSorted(s: seq<int>, p: seq<int>, k: nat, at: nat)
    requires k < |s| && |p| == k && at <= k && forall j :: 0 <= j < k ==> 0 <= p[j] < |s|
    requires Sorted(At(s, p)) && (forall j :: 0 <= j < at ==> s[p[j]] <= s[k]) && (at < k ==> s[k] <= s[p[at]])
    ensures var q := p[..at] + [k] + p[at..]; Sorted(At(s, q))
  {
    var q := p[..at] + [k] + p[at..];
    assert At(s, q) == At(s, p)[..at] + [s[k]] + At(s, p)[at..];
    SortedInsert(At(s, p), s[k], at);
  }

  lemma SortedInsert(r: seq<int>, x: int, at: nat)
    requires Sorted(r) && at <= |r| && (forall j :: 0 <= j < at ==> r[j] <= x) && (at < |r| ==> x <= r[at])
    ensures Sorted(r[..at] + [x] + r[at..])
  {
    assert forall j :: at <= j < |r| ==> x <= r[j];
  }

  /** `RevertPermutation`: scatters 0, 1, .. to the places the permutation names. */
  method RevertPermutation(perm: seq<int>) returns (rev: seq<int>)
    requires IsPerm(perm, |perm|)
    ensures IsPerm(rev, |perm|) && forall k :: 0 <= k < |perm| ==> rev[perm[k]] == k && perm[rev[k]] == k
  {
    var a := new int[|perm|];
    for k := 0 to |perm|
      invariant forall j :: 0 <= j < k ==> a[perm[j]] == j
    {
      a[perm[k]] := k;
    }
    rev := a[..];
    InversePerm(perm, rev);
  }

  lemma InversePerm(perm: seq<int>, rev: seq<int>)
    requires IsPerm(perm, |perm|) && |rev| == |perm| && forall k :: 0 <= k < |perm| ==> rev[perm[k]] == k
    ensures IsPerm(rev, |perm|) && forall k :: 0 <= k < |perm| ==> perm[rev[k]] == k
  {
    forall i | 0 <= i < |perm| ensures 0 <= rev[i] < |perm| && perm[rev[i]] == i {
      assert i in perm;
      var k :| 0 <= k < |perm| && perm[k] == i;
    }
    forall i, j | 0 <= i < j < |rev| ensures rev[i] != rev[j] { assert perm[rev[i]] == i && perm[rev[j]] == j; }
    forall i | 0 <= i < |perm| ensures i in rev { assert rev[perm[i]] == i; }
  }

  /** `unique_consecutive` of an ascending sequence, with the place of every element. */
  method UniqueConsecutive(sorted: seq<int>) returns (unique: seq<int>, inverse: seq<int>)
    requires Sorted(sorted)
    ensures Increasing(unique) && |inverse| == |sorted|
    ensures forall k :: 0 <= k < |sorted| ==> 0 <= inverse[k] < |unique| && unique[inverse[k]] == sorted[k]
    ensures forall x :: x in unique ==> x in sorted
  {
    unique, inverse := [], [];
    for k := 0 to |sorted|
      invariant |inverse| == k && Increasing(unique)
      invariant (k > 0 ==> |unique| > 0 && unique[|unique| - 1] == sorted[k - 1])
      invariant forall j :: 0 <= j < k ==> 0 <= inverse[j] < |unique| && unique[inverse[j]] == sorted[j]
      invariant (k == 0 ==> unique == []) && forall x :: x in unique ==> x in sorted
    {
      if k == 0 || sorted[k] != sorted[k - 1] { unique := unique + [sorted[k]]; }
      inverse := inverse + [|unique| - 1];
    }
  }

  // ------------------------------------------------------------------
  // Relabelling

  /** The old index of every label: the leading ids first, then the others ascending,
      none twice, and all of them in use. */
  ghost predicate Relabelled(row: seq<int>, leading: seq<int>, newRow: seq<int>, ids: seq<int>) {
    && |newRow| == |row| && (forall i :: 0 <= i < |row| ==> 0 <= newRow[i] < |ids| && ids[newRow[i]] == row[i])
    && |leading| <= |ids| && ids[..|leading|] == leading && Increasing(ids[|leading|..]) && Distinct(ids)
    && forall x :: x in ids ==> x in leading || x in row
  }

  /** Labels are faithful: two elements get the same label exactly when they are equal. */
  lemma LabelsFaithful(row: seq<int>, leading: seq<int>, newRow: seq<int>, ids: seq<int>, i: nat, j: nat)
    requires Relabelled(row, leading, newRow, ids) && i < |row| && j < |row|
    ensures newRow[i] == newRow[j] <==> row[i] == row[j]
  {
    assert ids[newRow[i]] == row[i] && ids[newRow[j]] == row[j];
  }

  /** No relabelling can put repeated leading ids first. */
  lemma LeadingMustDiffer(row: seq<int>, leading: seq<int>, newRow: seq<int>, ids: seq<int>)
    requires Relabelled(row, leading, newRow, ids)
    ensures Distinct(leading)
  {
    forall i, j | 0 <= i < j < |leading| ensures leading[i] != leading[j] {
      assert leading[i] == ids[i] && leading[j] == ids[j];
    }
  }

  /** Every element of s, and its place in the ascending list without repeats. */
  method Places(s: seq<int>) returns (unique: seq<int>, reverse: seq<int>)
    ensures Increasing(unique) && |reverse| == |s|
    ensures forall i :: 0 <= i < |s| ==> 0 <= reverse[i] < |unique| && unique[reverse[i]] == s[i]
    ensures forall x :: x in unique ==> x in s
  {
    var sorted, perm := Sort(s);
    var back := RevertPermutation(perm);
    var inverse;
    unique, inverse := UniqueConsecutive(sorted);
    reverse := At(inverse, back);
    forall x | x in unique ensures x in s { FromSorted(s, perm, x); }
  }

  lemma FromSorted(s: seq<int>, perm: seq<int>, x: int)
    requires IsPerm(perm, |s|) && x in At(s, perm)
    ensures x in s
  {
    var k :| 0 <= k < |At(s, perm)| && At(s, perm)[k] == x;
    assert s[perm[k]] == x;
  }

  /** The labels of the places: i for the place of leading id i, and ascending labels
      from |leading| on for the places of no leading id. */
  ghost predicate Split(split: seq<int>, heads: seq<int>, n: nat) {
    && |split| == n && |heads| <= n && IsPerm(split, n)
    && (forall i :: 0 <= i < |heads| ==> 0 <= heads[i] < n && split[heads[i]] == i)
    && forall u, v :: 0 <= u < v < n && split[u] >= |heads| && split[v] >= |heads| ==> split[u] < split[v]
  }

  /** How many of the first u places have no label yet. */
  function Unlabelled(split: seq<int>, u: nat): (c: nat)
    requires u <= |split|
    ensures c <= u
  {
    if u == 0 then 0 else Unlabelled(split, u - 1) + if split[u - 1] == -1 then 1 else 0
  }

  /** The two scatters that number the places. */
  method Number(heads: seq<int>, n: nat) returns (split: seq<int>)
    requires Distinct(heads) && forall i :: 0 <= i < |heads| ==> 0 <= heads[i] < n
    ensures Split(split, heads, n)
  {
    hide Unlabelled, Headed, Split;
    var a := ScatterHeads(heads, n);
    ghost var first := a[..];
    HeadsCount(first, heads);
    NumberRest(a, |heads|);
    split := a[..];
    NumberedSplit(first, split, heads);
  }

  method ScatterHeads(heads: seq<int>, n: nat) returns (a: array<int>)
    requires Distinct(heads) && forall i :: 0 <= i < |heads| ==> 0 <= heads[i] < n
    ensures fresh(a) && a.Length == n && Headed(a[..], heads)
  {
    a := new int[n](_ => -1);
    for i := 0 to |heads|
      invariant forall j :: 0 <= j < i ==> a[heads[j]] == j
      invariant forall u :: 0 <= u < n && u !in heads[..i] ==> a[u] == -1
    {
      a[heads[i]] := i;
      assert heads[..i + 1] == heads[..i] + [heads[i]];
    }
    assert heads[..|heads|] == heads;
  }

  method NumberRest(a: array<int>, heads: nat)
    modifies a
    ensures forall v: nat :: v < a.Length ==>
      a[v] == if old(a[v]) == -1 then heads + Unlabelled(old(a[..]), v) else old(a[v])
  {
    ghost var first := a[..];
    var next := heads;
    for u := 0 to a.Length
      invariant next == heads + Unlabelled(first, u)
      invariant forall v :: u <= v < a.Length ==> a[v] == first[v]
      invariant forall v: nat :: v < u ==> a[v] == if first[v] == -1 then heads + Unlabelled(first, v) else first[v]
    {
      if a[u] == -1 {
        a[u] := next;
        next := next + 1;
      }
    }
  }

  ghost predicate Headed(first: seq<int>, heads: seq<int>) {
    && Distinct(heads) && (forall i :: 0 <= i < |heads| ==> 0 <= heads[i] < |first| && first[heads[i]] == i)
    && forall u :: 0 <= u < |first| && u !in heads ==> first[u] == -1
  }

  /** The places without a leading id. */
  lemma {:induction false} UnlabelledMonotone(s: seq<int>, u: nat, v: nat)
    requires u < v <= |s|
    ensures Unlabelled(s, u) + (if s[u] == -1 then 1 else 0) <= Unlabelled(s, v)
    decreases v
  {
    if u + 1 < v { UnlabelledMonotone(s, u, v - 1); }
  }

  function Open(s: seq<int>, u: nat): (r: set<int>)
    requires u <= |s|
    ensures forall x :: x in r <==> 0 <= x < u && s[x] == -1
    ensures |r| == Unlabelled(s, u)
  {
    if u == 0 then {} else if s[u - 1] == -1 then Open(s, u - 1) + {u - 1} else Open(s, u - 1)
  }

  lemma HeadsCount(first: seq<int>, heads: seq<int>)
    requires Headed(first, heads)
    ensures Unlabelled(first, |first|) == |first| - |heads|
  {
    DistinctSize(heads);
    var open, taken := Open(first, |first|), Elements(heads);
    OpenOrTaken(first, heads);
    CoverSize(open, taken, |first|);
  }

  lemma OpenOrTaken(first: seq<int>, heads: seq<int>)
    requires Headed(first, heads)
    ensures forall x :: 0 <= x < |first| <==> x in Open(first, |first|) || x in Elements(heads)
    ensures forall x :: x in Open(first, |first|) ==> x !in Elements(heads)
  {
    hide Open, Elements;
    forall x | 0 <= x < |first| ensures x in Open(first, |first|) || x in Elements(heads) { }
    forall x | x in heads ensures 0 <= x < |first| && first[x] != -1 {
      var i :| 0 <= i < |heads| && heads[i] == x;
      assert first[heads[i]] == i;
    }
  }

  lemma CoverSize(a: set<int>, b: set<int>, n: nat)
    requires (forall x :: 0 <= x < n <==> x in a || x in b) && forall x :: x in a ==> x !in b
    ensures |a| + |b| == n
  {
    assert a + b == Range(n);
    assert a !! b;
  }

  lemma NumberedSplit(first: seq<int>, split: seq<int>, heads: seq<int>)
    requires Headed(first, heads) && |split| == |first|
    requires forall v: nat :: v < |first| ==>
      split[v] == if first[v] == -1 then |heads| + Unlabelled(first, v) else first[v]
    ensures Split(split, heads, |first|)
  {
    HeadsCount(first, heads);
    var n := |first|;
    forall u, v | 0 <= u < v < n && split[u] >= |heads| && split[v] >= |heads| ensures split[u] < split[v] {
      HeadBelow(first, heads, u);
      HeadBelow(first, heads, v);
      UnlabelledMonotone(first, u, v);
    }
    forall u | 0 <= u < n ensures 0 <= split[u] < n {
      HeadBelow(first, heads, u);
      UnlabelledMonotone(first, u, n);
    }
    forall u, v | 0 <= u < v < n ensures split[u] != split[v] {
      HeadBelow(first, heads, u);
      HeadBelow(first, heads, v);
      UnlabelledMonotone(first, u, v);
    }
    InjectiveOnto(split, n);
  }

  lemma HeadBelow(first: seq<int>, heads: seq<int>, u: nat)
    requires Headed(first, heads) && u < |first|
    ensures first[u] == -1 || (0 <= first[u] < |heads| && heads[first[u]] == u)
  {
    if u in heads {
      var i :| 0 <= i < |heads| && heads[i] == u;
      assert first[heads[i]] == i;
    }
  }

  /** `CompactIndices`: leading ids that differ keep their places. */
  method CompactIndices(row: seq<int>, leading: Option<seq<int>>) returns (newRow: seq<int>, ids: seq<int>)
    requires leading.Some? ==> Distinct(leading.value)
    ensures Relabelled(row, if leading.Some? then leading.value else [], newRow, ids)
  {
    var first := if leading.Some? then leading.value else [];
    var s := first + row;
    var unique, reverse := Places(s);
    HeadsDiffer(first, row, unique, reverse);
    var split := Number(reverse[..|first|], |unique|);
    newRow := At(split, reverse[|first|..]);
    var back := RevertPermutation(split);
    ids := At(unique, back);
    CompactRight(row, first, unique, reverse, split, back, newRow, ids);
  }

  ghost predicate Placed(s: seq<int>, unique: seq<int>, reverse: seq<int>) {
    && Increasing(unique) && |reverse| == |s|
    && (forall i :: 0 <= i < |s| ==> 0 <= reverse[i] < |unique| && unique[reverse[i]] == s[i])
    && forall x :: x in unique ==> x in s
  }

  lemma HeadsDiffer(first: seq<int>, row: seq<int>, unique: seq<int>, reverse: seq<int>)
    requires Distinct(first) && Placed(first + row, unique, reverse)
    ensures Distinct(reverse[..|first|]) && forall i :: 0 <= i < |first| ==> 0 <= reverse[i] < |unique|
  {
    forall i, j | 0 <= i < j < |first| ensures reverse[i] != reverse[j] {
      assert unique[reverse[i]] == first[i] && unique[reverse[j]] == first[j];
    }
  }

  lemma CompactRight(row: seq<int>, first: seq<int>, unique: seq<int>, reverse: seq<int>, split: seq<int>,
                     back: seq<int>, newRow: seq<int>, ids: seq<int>)
    requires Placed(first + row, unique, reverse) && Split(split, reverse[..|first|], |unique|)
    requires IsPerm(back, |unique|) && forall k :: 0 <= k < |unique| ==> back[split[k]] == k && split[back[k]] == k
    requires newRow == At(split, reverse[|first|..]) && ids == At(unique, back)
    ensures Relabelled(row, first, newRow, ids)
  {
    forall i | 0 <= i < |row| ensures 0 <= newRow[i] < |ids| && ids[newRow[i]] == row[i] {
      assert newRow[i] == split[reverse[|first| + i]] && (first + row)[|first| + i] == row[i];
    }
    forall i | 0 <= i < |first| ensures ids[i] == first[i] {
      assert split[reverse[..|first|][i]] == i && (first + row)[i] == first[i];
    }
    forall a, b | 0 <= a < b < |ids| ensures ids[a] != ids[b] {
      assert split[back[a]] == a && split[back[b]] == b;
    }
    forall a, b | |first| <= a < b < |ids|
      ensures ids[a] < ids[b]
    {
      OrderKept(split, reverse[..|first|], back, |unique|, a, b);
    }
    assert Increasing(ids[|first|..]);
    forall x | x in ids ensures x in first || x in row {
      var k :| 0 <= k < |ids| && ids[k] == x;
      assert unique[back[k]] in unique;
      assert x in first + row;
    }
  }

  lemma OrderKept(split: seq<int>, heads: seq<int>, back: seq<int>, n: nat, a: nat, b: nat)
    requires Split(split, heads, n) && IsPerm(back, n) && forall k :: 0 <= k < n ==> split[back[k]] == k
    requires |heads| <= a < b < n
    ensures back[a] < back[b]
  {
    assert split[back[a]] == a && split[back[b]] == b;
  }

  // ------------------------------------------------------------------
  // Alignment

  type Coord = (int, int)

  function Code(c: Coord, cols: nat): int {
    c.0 * cols + c.1
  }

  function Codes(cs: seq<Coord>, cols: nat): (r: seq<int>)
    ensures |r| == |cs| && forall k :: 0 <= k < |cs| ==> r[k] == Code(cs[k], cols)
  {
    seq(|cs|, k requires 0 <= k < |cs| => Code(cs[k], cols))
  }

  /** Coordinates of a matrix with `cols` columns. */
  ghost predicate InMatrix(cs: seq<Coord>, cols: nat) {
    forall k :: 0 <= k < |cs| ==> cs[k].0 >= 0 && 0 <= cs[k].1 < cols
  }

  lemma CodeInjective(a: Coord, b: Coord, cols: nat)
    requires a.0 >= 0 && b.0 >= 0 && 0 <= a.1 < cols && 0 <= b.1 < cols && Code(a, cols) == Code(b, cols)
    ensures a == b
  {
    if a.0 < b.0 { LessScaled(a.0, b.0, cols); }
    if b.0 < a.0 { LessScaled(b.0, a.0, cols); }
  }

  /** By row, and by column within a row. */
  ghost predicate RowMajor(cs: seq<Coord>) {
    forall i, j :: 0 <= i < j < |cs| ==> cs[i].0 < cs[j].0 || (cs[i].0 == cs[j].0 && cs[i].1 <= cs[j].1)
  }

  lemma CodeOrder(a: Coord, b: Coord, cols: nat)
    requires 0 <= a.1 < cols && 0 <= b.1 < cols && Code(a, cols) <= Code(b, cols)
    ensures a.0 < b.0 || (a.0 == b.0 && a.1 <= b.1)
  {
    if b.0 < a.0 { LessScaled(b.0, a.0, cols); }
  }

  lemma SortedRows(cs: seq<Coord>, perm: seq<int>, cols: nat)
    requires InMatrix(cs, cols) && IsPerm(perm, |cs|) && Sorted(Codes(Select(cs, perm), cols))
    ensures RowMajor(Select(cs, perm))
  {
    hide Code;
    var s := Select(cs, perm);
    forall i, j | 0 <= i < j < |s|
      ensures s[i].0 < s[j].0 || (s[i].0 == s[j].0 && s[i].1 <= s[j].1)
    {
      assert Codes(s, cols)[i] <= Codes(s, cols)[j];
      CodeOrder(s[i], s[j], cols);
    }
  }

  lemma CodesDistinct(cs: seq<Coord>, cols: nat)
    requires InMatrix(cs, cols) && Distinct(cs)
    ensures Distinct(Codes(cs, cols))
  {
    forall i, j | 0 <= i < j < |cs| ensures Codes(cs, cols)[i] != Codes(cs, cols)[j] {
      if Code(cs[i], cols) == Code(cs[j], cols) { CodeInjective(cs[i], cs[j], cols); }
    }
  }

  function Select(cs: seq<Coord>, p: seq<int>): (r: seq<Coord>)
    requires forall k :: 0 <= k < |p| ==> 0 <= p[k] < |cs|
    ensures |r| == |p| && forall k :: 0 <= k < |p| ==> r[k] == cs[p[k]]
  {
    seq(|p|, k requires 0 <= k < |p| => cs[p[k]])
  }

  /** `COOSort`: coordinates in row-major order. */
  method COOSort(cs: seq<Coord>, cols: nat) returns (sorted: seq<Coord>, perm: seq<int>)
    ensures IsPerm(perm, |cs|) && sorted == Select(cs, perm) && Sorted(Codes(sorted, cols))
    ensures InMatrix(cs, cols) ==> RowMajor(sorted)
  {
    var codes;
    codes, perm := Sort(Codes(cs, cols));
    sorted := Select(cs, perm);
    assert Codes(sorted, cols) == codes;
    if InMatrix(cs, cols) { SortedRows(cs, perm, cols); }
  }

  ghost predicate SamePattern(l: seq<Coord>, r: seq<Coord>) {
    forall c :: c in l <==> c in r
  }

  lemma SelectMembers(cs: seq<Coord>, perm: seq<int>)
    requires IsPerm(perm, |cs|)
    ensures SamePattern(cs, Select(cs, perm)) && (Distinct(cs) ==> Distinct(Select(cs, perm)))
  {
    var s := Select(cs, perm);
    forall c | c in cs ensures c in s {
      var i :| 0 <= i < |cs| && cs[i] == c;
      assert i in perm;
      var k :| 0 <= k < |perm| && perm[k] == i;
      assert s[k] == c;
    }
    forall c | c in s ensures c in cs { var k :| 0 <= k < |s| && s[k] == c; }
  }

  lemma StrictCodes(cs: seq<Coord>, cols: nat)
    requires InMatrix(cs, cols) && Distinct(cs) && Sorted(Codes(cs, cols))
    ensures Increasing(Codes(cs, cols))
  {
    CodesDistinct(cs, cols);
  }

  lemma HeadMember(b: seq<Coord>)
    ensures b != [] ==> b[0] in b
  {
  }

  /** Two ascending sequences with the same elements are the same. */
  lemma {:induction false} SortedUnique(a: seq<Coord>, b: seq<Coord>, cols: nat)
    requires Increasing(Codes(a, cols)) && Increasing(Codes(b, cols)) && SamePattern(a, b)
    ensures a == b
    decreases |a| + |b|
  {
    hide Codes, Increasing, SamePattern;
    BothEmpty(a, b);
    if a != [] {
      SameHeads(a, b, cols);
      TailPattern(a, b, cols);
      SortedUnique(a[1..], b[1..], cols);
      assert a == [a[0]] + a[1..] && b == [b[0]] + b[1..];
    }
  }

  lemma BothEmpty(a: seq<Coord>, b: seq<Coord>)
    requires SamePattern(a, b)
    ensures a == [] <==> b == []
  {
    HeadMember(a);
    HeadMember(b);
  }

  lemma SameHeads(a: seq<Coord>, b: seq<Coord>, cols: nat)
    requires Increasing(Codes(a, cols)) && Increasing(Codes(b, cols)) && SamePattern(a, b) && |a| > 0 && |b| > 0
    ensures a[0] == b[0]
  {
    hide Codes, Increasing;
    assert a[0] in b;
    var j :| 0 <= j < |b| && b[j] == a[0];
    assert b[0] in a;
    var i :| 0 <= i < |a| && a[i] == b[0];
    FirstCodes(a, b, i, j, cols);
  }

  lemma FirstCodes(a: seq<Coord>, b: seq<Coord>, i: nat, j: nat, cols: nat)
    requires Increasing(Codes(a, cols)) && Increasing(Codes(b, cols)) && i < |a| && j < |b| && a[i] == b[0]
    requires b[j] == a[0]
    ensures i == 0 && j == 0
  {
    assert Codes(a, cols)[0] == Codes(b, cols)[j] && Codes(b, cols)[0] == Codes(a, cols)[i];
  }

  lemma TailPattern(a: seq<Coord>, b: seq<Coord>, cols: nat)
    requires Increasing(Codes(a, cols)) && Increasing(Codes(b, cols)) && SamePattern(a, b) && |a| > 0 && |b| > 0
    requires a[0] == b[0]
    ensures SamePattern(a[1..], b[1..]) && Increasing(Codes(a[1..], cols)) && Increasing(Codes(b[1..], cols))
  {
    TailWithout(a, cols);
    TailWithout(b, cols);
  }

  lemma TailWithout(a: seq<Coord>, cols: nat)
    requires Increasing(Codes(a, cols)) && |a| > 0
    ensures Increasing(Codes(a[1..], cols)) && forall c :: c in a[1..] <==> c in a && c != a[0]
  {
    assert Codes(a[1..], cols) == Codes(a, cols)[1..];
    forall c | c in a[1..] ensures c != a[0] {
      var k :| 0 <= k < |a[1..]| && a[1..][k] == c;
      assert Codes(a, cols)[0] < Codes(a, cols)[k + 1];
    }
    assert a == [a[0]] + a[1..];
  }

  method HasDuplicate(cs: seq<Coord>) returns (dup: bool)
    ensures dup <==> !Distinct(cs)
  {
    for i := 0 to |cs|
      invariant forall a, b :: 0 <= a < b < |cs| && a < i ==> cs[a] != cs[b]
    {
      for j := i + 1 to |cs|
        invariant forall b :: i < b < j ==> cs[i] != cs[b]
      {
        if cs[i] == cs[j] { return true; }
      }
    }
    dup := false;
  }

  /** `SpSpDiv`: succeeds exactly on duplicate-free matrices with the same pattern, and
      then divides by the value at the same coordinate, in the order of the left matrix. */
  method SpSpDiv<V(!new)>(lhs: seq<Coord>, lhsValue: seq<V>, rhs: seq<Coord>, rhsValue: seq<V>, cols: nat,
                          divide: (V, V) -> V)
    returns (result: Option<seq<V>>)
    requires InMatrix(lhs, cols) && InMatrix(rhs, cols) && |lhsValue| == |lhs| && |rhsValue| == |rhs|
    ensures result.Some? <==> Distinct(lhs) && Distinct(rhs) && SamePattern(lhs, rhs)
    ensures result.Some? ==> |result.value| == |lhs|
    ensures result.Some? ==>
      forall i, j :: 0 <= i < |lhs| && 0 <= j < |rhs| && lhs[i] == rhs[j] ==>
        result.value[i] == divide(lhsValue[i], rhsValue[j])
  {
    var sortedLhs, permLhs := COOSort(lhs, cols);
    var sortedRhs, permRhs := COOSort(rhs, cols);
    SelectMembers(lhs, permLhs);
    SelectMembers(rhs, permRhs);
    var dupLhs := HasDuplicate(lhs);
    var dupRhs := HasDuplicate(rhs);
    if dupLhs || dupRhs { return None; }
    if SamePattern(lhs, rhs) { SortedAgree(sortedLhs, sortedRhs, cols); }
    if sortedLhs != sortedRhs { return None; }
    var back := RevertPermutation(permLhs);
    var order := At(permRhs, back);
    Aligned(lhs, rhs, permLhs, permRhs, back);
    var v := seq(|lhs|, k requires 0 <= k < |lhs| => divide(lhsValue[k], rhsValue[order[k]]));
    result := Some(v);
  }

  lemma SortedAgree(a: seq<Coord>, b: seq<Coord>, cols: nat)
    requires InMatrix(a, cols) && InMatrix(b, cols) && Distinct(a) && Distinct(b)
    requires Sorted(Codes(a, cols)) && Sorted(Codes(b, cols)) && SamePattern(a, b)
    ensures a == b
  {
    StrictCodes(a, cols);
    StrictCodes(b, cols);
    SortedUnique(a, b, cols);
  }

  /** Position k of the left matrix meets the right entry at the same coordinate. */
  lemma Aligned(lhs: seq<Coord>, rhs: seq<Coord>, permLhs: seq<int>, permRhs: seq<int>, back: seq<int>)
    requires IsPerm(permLhs, |lhs|) && IsPerm(permRhs, |rhs|) && Select(lhs, permLhs) == Select(rhs, permRhs)
    requires Distinct(rhs)
    requires IsPerm(back, |lhs|) && forall k :: 0 <= k < |lhs| ==> permLhs[back[k]] == k
    ensures |lhs| == |rhs| && forall k :: 0 <= k < |lhs| ==> 0 <= back[k] < |rhs| && rhs[permRhs[back[k]]] == lhs[k]
    ensures forall i, j :: 0 <= i < |lhs| && 0 <= j < |rhs| && lhs[i] == rhs[j] ==> permRhs[back[i]] == j
    ensures SamePattern(lhs, rhs)
  {
    SelectMembers(lhs, permLhs);
    SelectMembers(rhs, permRhs);
    assert |Select(lhs, permLhs)| == |Select(rhs, permRhs)|;
    forall k | 0 <= k < |lhs| ensures 0 <= back[k] < |rhs| && rhs[permRhs[back[k]]] == lhs[k] {
      assert Select(lhs, permLhs)[back[k]] == Select(rhs, permRhs)[back[k]];
    }
  }

  // ------------------------------------------------------------------
  // Intersection

  /** How often u occurs among the first n places. */
  function Occurs(s: seq<int>, n: nat, u: int): nat
    requires n <= |s|
  {
    if n == 0 then 0 else Occurs(s, n - 1, u) + if s[n - 1] == u then 1 else 0
  }

  /** Among places that differ, u occurs once or never. */
  lemma {:induction false} OccursOnce(s: seq<int>, lo: nat, hi: nat, u: int)
    requires lo <= hi <= |s| && forall i, j :: lo <= i < j < hi ==> s[i] != s[j]
    ensures Occurs(s, hi, u) == Occurs(s, lo, u) + if u in s[lo..hi] then 1 else 0
    decreases hi
  {
    if lo < hi {
      OccursOnce(s, lo, hi - 1, u);
      assert s[lo..hi] == s[lo..hi - 1] + [s[hi - 1]];
      assert s[hi - 1] !in s[lo..hi - 1];
    }
  }

  method CountPlaces(inverse: seq<int>, n: nat) returns (counts: seq<int>)
    requires forall k :: 0 <= k < |inverse| ==> 0 <= inverse[k] < n
    ensures |counts| == n && forall u :: 0 <= u < n ==> counts[u] == Occurs(inverse, |inverse|, u)
  {
    var a := new int[n](_ => 0);
    for k := 0 to |inverse|
      invariant forall u :: 0 <= u < n ==> a[u] == Occurs(inverse, k, u)
    {
      a[inverse[k]] := a[inverse[k]] + 1;
    }
    counts := a[..];
  }

  /** The places that occur more than once, ascending (`index` by a mask). */
  method Repeated(counts: seq<int>) returns (places: seq<int>)
    ensures Increasing(places) && forall k :: 0 <= k < |places| ==> 0 <= places[k] < |counts| && counts[places[k]] > 1
    ensures forall u :: 0 <= u < |counts| && counts[u] > 1 ==> u in places
  {
    places := [];
    for u := 0 to |counts|
      invariant Increasing(places) && forall k :: 0 <= k < |places| ==> 0 <= places[k] < u && counts[places[k]] > 1
      invariant forall v :: 0 <= v < u && counts[v] > 1 ==> v in places
    {
      if counts[u] > 1 { places := places + [u]; }
    }
  }

  /** Scatters 0, 1, .. to the places of `at`. */
  method ScatterIndex(a: array<int>, at: seq<int>)
    requires Distinct(at) && forall k :: 0 <= k < |at| ==> 0 <= at[k] < a.Length
    modifies a
    ensures forall k :: 0 <= k < |at| ==> a[at[k]] == k
  {
    for k := 0 to |at|
      invariant forall j :: 0 <= j < k ==> a[at[j]] == j
    {
      a[at[k]] := k;
    }
  }

  /** Which cell of `at` names each of the places, through the scattered indices. */
  method MapBack(a: array<int>, at: seq<int>, places: seq<int>) returns (back: seq<int>)
    requires Distinct(at) && forall k :: 0 <= k < |at| ==> 0 <= at[k] < a.Length
    requires forall k :: 0 <= k < |places| ==> 0 <= places[k] < a.Length && places[k] in at
    modifies a
    ensures |back| == |places| && forall k :: 0 <= k < |back| ==> 0 <= back[k] < |at| && at[back[k]] == places[k]
  {
    hide Distinct;
    ScatterIndex(a, at);
    back := At(a[..], places);
    forall k | 0 <= k < |places| ensures 0 <= back[k] < |at| && at[back[k]] == places[k] {
      var i :| 0 <= i < |at| && at[i] == places[k];
      assert a[at[i]] == i;
    }
  }

  function Decode(code: int, cols: nat): Coord
    requires cols > 0
  {
    (code / cols, code % cols)
  }

  lemma DecodeCode(c: Coord, cols: nat)
    requires 0 <= c.1 < cols
    ensures Decode(Code(c, cols), cols) == c
  {
    var x := Code(c, cols);
    assert x == x / cols * cols + x % cols;
    if x / cols < c.0 { LessScaled(x / cols, c.0, cols); }
    if c.0 < x / cols { LessScaled(c.0, x / cols, cols); }
  }

  lemma CodeDecode(code: int, cols: nat)
    requires cols > 0
    ensures Code(Decode(code, cols), cols) == code
  {
  }

  /** Codes in ascending order stand for coordinates in row-major order. */
  lemma DecodedOrder(unique: seq<int>, places: seq<int>, cols: nat)
    requires (places != [] ==> cols > 0) && forall k :: 0 <= k < |places| ==> 0 <= places[k] < |unique|
    requires Increasing(unique) && Increasing(places)
    ensures RowMajor(Decoded(unique, places, cols))
  {
    hide Code;
    var r := Decoded(unique, places, cols);
    forall i, j | 0 <= i < j < |r|
      ensures r[i].0 < r[j].0 || (r[i].0 == r[j].0 && r[i].1 <= r[j].1)
    {
      CodeDecode(unique[places[i]], cols);
      CodeDecode(unique[places[j]], cols);
      CodeOrder(r[i], r[j], cols);
    }
  }

  function Decoded(unique: seq<int>, places: seq<int>, cols: nat): (r: seq<Coord>)
    requires (places != [] ==> cols > 0) && forall k :: 0 <= k < |places| ==> 0 <= places[k] < |unique|
    ensures |r| == |places| && forall k :: 0 <= k < |places| ==> r[k] == Decode(unique[places[k]], cols)
  {
    seq(|places|, k requires 0 <= k < |places| => Decode(unique[places[k]], cols))
  }

  /** The places `at` of the coordinates cs among the ascending codes. */
  ghost predicate PlacedAt(cs: seq<Coord>, cols: nat, unique: seq<int>, at: seq<int>) {
    && InMatrix(cs, cols) && |at| == |cs| && Distinct(at)
    && forall k :: 0 <= k < |at| ==> 0 <= at[k] < |unique| && unique[at[k]] == Code(cs[k], cols)
  }

  /** A matrix with an element has a column. */
  lemma HasColumns(cs: seq<Coord>, cols: nat, at: seq<int>, u: int, unique: seq<int>)
    requires PlacedAt(cs, cols, unique, at) && u in at
    ensures cols > 0
  {
    var k :| 0 <= k < |at| && at[k] == u;
    assert 0 <= cs[k].1 < cols;
  }

  /** `COOIntersection`: the common coordinates, each once, with their place in both matrices. */
  method COOIntersection(lhs: seq<Coord>, rhs: seq<Coord>, cols: nat)
    returns (common: seq<Coord>, inLhs: seq<int>, inRhs: seq<int>)
    requires InMatrix(lhs, cols) && InMatrix(rhs, cols) && Distinct(lhs) && Distinct(rhs)
    ensures |common| == |inLhs| == |inRhs| && Distinct(common) && forall c :: c in common <==> c in lhs && c in rhs
    ensures RowMajor(common)
    ensures forall k :: 0 <= k < |common| ==> 0 <= inLhs[k] < |lhs| && lhs[inLhs[k]] == common[k]
    ensures forall k :: 0 <= k < |common| ==> 0 <= inRhs[k] < |rhs| && rhs[inRhs[k]] == common[k]
  {
    hide InMatrix, Codes, PlacedAt, Placed, Occurs, Increasing, Distinct, RowMajor;
    var unique, inverse := Places(Codes(lhs, cols) + Codes(rhs, cols));
    HalvesDiffer(lhs, rhs, cols, unique, inverse);
    var counts := CountPlaces(inverse, |unique|);
    var places := Repeated(counts);
    var lhsAt, rhsAt := inverse[..|lhs|], inverse[|lhs|..];
    PlacesBoth(inverse, |lhs|, |unique|, counts, places);
    var a := new int[|unique|];
    inLhs := MapBack(a, lhsAt, places);
    inRhs := MapBack(a, rhsAt, places);
    if places != [] { HasColumns(lhs, cols, lhsAt, places[0], unique); }
    common := Decoded(unique, places, cols);
    DecodedOrder(unique, places, cols);
    PlacesDecode(lhs, cols, unique, lhsAt, inLhs, places);
    PlacesDecode(rhs, cols, unique, rhsAt, inRhs, places);
    CommonRight(lhs, rhs, cols, unique, lhsAt, rhsAt, places, common);
  }

  lemma HalvesDiffer(lhs: seq<Coord>, rhs: seq<Coord>, cols: nat, unique: seq<int>, inverse: seq<int>)
    requires InMatrix(lhs, cols) && InMatrix(rhs, cols) && Distinct(lhs) && Distinct(rhs)
    requires Placed(Codes(lhs, cols) + Codes(rhs, cols), unique, inverse)
    ensures PlacedAt(lhs, cols, unique, inverse[..|lhs|]) && PlacedAt(rhs, cols, unique, inverse[|lhs|..])
    ensures forall k :: 0 <= k < |inverse| ==> 0 <= inverse[k] < |unique|
  {
    var arr := Codes(lhs, cols) + Codes(rhs, cols);
    var lhsAt, rhsAt := inverse[..|lhs|], inverse[|lhs|..];
    forall k | 0 <= k < |lhsAt| ensures 0 <= lhsAt[k] < |unique| && unique[lhsAt[k]] == Code(lhs[k], cols) {
      assert arr[k] == Codes(lhs, cols)[k];
    }
    forall k | 0 <= k < |rhsAt| ensures 0 <= rhsAt[k] < |unique| && unique[rhsAt[k]] == Code(rhs[k], cols) {
      assert arr[|lhs| + k] == Codes(rhs, cols)[k];
    }
    PlacesDistinct(lhs, cols, unique, lhsAt);
    PlacesDistinct(rhs, cols, unique, rhsAt);
  }

  lemma PlacesDistinct(cs: seq<Coord>, cols: nat, unique: seq<int>, at: seq<int>)
    requires InMatrix(cs, cols) && Distinct(cs) && |at| == |cs|
    requires forall k :: 0 <= k < |at| ==> 0 <= at[k] < |unique| && unique[at[k]] == Code(cs[k], cols)
    ensures Distinct(at)
  {
    CodesDistinct(cs, cols);
    forall i, j | 0 <= i < j < |at| ensures at[i] != at[j] { assert Codes(cs, cols)[i] != Codes(cs, cols)[j]; }
  }

  /** A place occurs twice exactly when both halves have it. */
  lemma TwiceBoth(inverse: seq<int>, n: nat, u: int)
    requires n <= |inverse| && Distinct(inverse[..n]) && Distinct(inverse[n..])
    ensures Occurs(inverse, |inverse|, u) > 1 <==> u in inverse[..n] && u in inverse[n..]
  {
    forall i, j | 0 <= i < j < n ensures inverse[i] != inverse[j] { assert inverse[..n][i] != inverse[..n][j]; }
    forall i, j | n <= i < j < |inverse|
      ensures inverse[i] != inverse[j]
    {
      assert inverse[n..][i - n] != inverse[n..][j - n];
    }
    OccursOnce(inverse, 0, n, u);
    OccursOnce(inverse, n, |inverse|, u);
    assert inverse[0..n] == inverse[..n] && inverse[n..|inverse|] == inverse[n..];
  }

  /** The places that occur twice are those that both halves have. */
  lemma PlacesBoth(inverse: seq<int>, n: nat, m: nat, counts: seq<int>, places: seq<int>)
    requires n <= |inverse| && Distinct(inverse[..n]) && Distinct(inverse[n..])
    requires forall k :: 0 <= k < |inverse| ==> 0 <= inverse[k] < m
    requires |counts| == m && forall u :: 0 <= u < m ==> counts[u] == Occurs(inverse, |inverse|, u)
    requires forall k :: 0 <= k < |places| ==> 0 <= places[k] < m && counts[places[k]] > 1
    requires forall u :: 0 <= u < m && counts[u] > 1 ==> u in places
    ensures forall k :: 0 <= k < |places| ==> places[k] in inverse[..n] && places[k] in inverse[n..]
    ensures forall u :: u in inverse[..n] && u in inverse[n..] ==> u in places
  {
    hide Occurs, Distinct;
    forall k | 0 <= k < |places| ensures places[k] in inverse[..n] && places[k] in inverse[n..] {
      TwiceBoth(inverse, n, places[k]);
    }
    forall u | u in inverse[..n] && u in inverse[n..] ensures u in places { TwiceBoth(inverse, n, u); }
  }

  /** Mapping a half's places back finds its coordinates again. */
  lemma PlacesDecode(cs: seq<Coord>, cols: nat, unique: seq<int>, at: seq<int>, back: seq<int>, places: seq<int>)
    requires (places != [] ==> cols > 0) && PlacedAt(cs, cols, unique, at) && |back| == |places|
    requires forall k :: 0 <= k < |places| ==>
      0 <= places[k] < |unique| && 0 <= back[k] < |at| && at[back[k]] == places[k]
    ensures forall k :: 0 <= k < |places| ==>
      0 <= back[k] < |cs| && cs[back[k]] == Decode(unique[places[k]], cols)
  {
    forall k | 0 <= k < |places| ensures 0 <= back[k] < |cs| && cs[back[k]] == Decode(unique[places[k]], cols) {
      DecodeCode(cs[back[k]], cols);
    }
  }

  lemma CommonRight(lhs: seq<Coord>, rhs: seq<Coord>, cols: nat, unique: seq<int>, lhsAt: seq<int>, rhsAt: seq<int>,
                    places: seq<int>, common: seq<Coord>)
    requires PlacedAt(lhs, cols, unique, lhsAt) && PlacedAt(rhs, cols, unique, rhsAt) && Increasing(unique)
    requires Increasing(places) && (places != [] ==> cols > 0)
    requires (forall k :: 0 <= k < |places| ==> 0 <= places[k] < |unique| && places[k] in lhsAt && places[k] in rhsAt)
    requires (forall u :: u in lhsAt && u in rhsAt ==> u in places) && common == Decoded(unique, places, cols)
    ensures Distinct(common) && forall c :: c in common <==> c in lhs && c in rhs
  {
    forall k | 0 <= k < |places|
      ensures common[k] in lhs && common[k] in rhs && common[k].0 >= 0 && 0 <= common[k].1 < cols
      ensures Code(common[k], cols) == unique[places[k]]
    {
      var i :| 0 <= i < |lhsAt| && lhsAt[i] == places[k];
      var j :| 0 <= j < |rhsAt| && rhsAt[j] == places[k];
      DecodeCode(lhs[i], cols);
      DecodeCode(rhs[j], cols);
    }
    forall i, j | 0 <= i < j < |common| ensures common[i] != common[j] { assert unique[places[i]] < unique[places[j]]; }
    forall c | c in lhs && c in rhs ensures c in common {
      var i :| 0 <= i < |lhs| && lhs[i] == c;
      var j :| 0 <= j < |rhs| && rhs[j] == c;
      assert unique[lhsAt[i]] == unique[rhsAt[j]];
      SamePlace(unique, lhsAt[i], rhsAt[j]);
      assert lhsAt[i] in lhsAt && rhsAt[j] in rhsAt;
      var k :| 0 <= k < |places| && places[k] == lhsAt[i];
      DecodeCode(c, cols);
      assert common[k] == c;
    }
  }

  lemma SamePlace(unique: seq<int>, u: int, v: int)
    requires Increasing(unique) && 0 <= u < |unique| && 0 <= v < |unique| && unique[u] == unique[v]
    ensures u == v
  {
  }

  /** `SpSpMul`: refused on duplicates; otherwise one product per common coordinate. */
  method SpSpMul<V(!new)>(lhs: seq<Coord>, lhsValue: seq<V>, rhs: seq<Coord>, rhsValue: seq<V>, cols: nat,
                          times: (V, V) -> V)
    returns (result: Option<(seq<Coord>, seq<V>)>)
    requires InMatrix(lhs, cols) && InMatrix(rhs, cols) && |lhsValue| == |lhs| && |rhsValue| == |rhs|
    ensures result.Some? <==> Distinct(lhs) && Distinct(rhs)
    ensures result.Some? ==> |result.value.0| == |result.value.1|
    ensures result.Some? ==> Distinct(result.value.0) && RowMajor(result.value.0)
    ensures result.Some? ==> forall c :: c in result.value.0 <==> c in lhs && c in rhs
    ensures result.Some? ==> forall k, i, j :: 0 <= k < |result.value.0| && 0 <= i < |lhs| && 0 <= j < |rhs| ==>
      lhs[i] == rhs[j] == result.value.0[k] ==> result.value.1[k] == times(lhsValue[i], rhsValue[j])
  {
    var dupLhs := HasDuplicate(lhs);
    var dupRhs := HasDuplicate(rhs);
    if dupLhs || dupRhs { return None; }
    var common, inLhs, inRhs := COOIntersection(lhs, rhs, cols);
    var v := seq(|common|, k requires 0 <= k < |common| => times(lhsValue[inLhs[k]], rhsValue[inRhs[k]]));
    result := Some((common, v));
  }
}
