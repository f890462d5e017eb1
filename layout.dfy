/**
 * The packed element table handed between the configuration and the mesh:
 * one row of five integers per element, its four node numbers followed by
 * its region label, against the mesh's own two tables (four node numbers
 * per element, and the labels apart).
 */
module Layout {
  /** Entry j of element i in the packed table. */
  function PackedAt(i: nat, j: nat): nat {
    5 * i + j
  }

  /** Node j of element i in the mesh's element table. */
  function CornerAt(i: nat, j: nat): nat {
    4 * i + j
  }

  /** p is the packed form of the element table elem and the labels etype. */
  predicate IsPacking(elem: seq<int>, etype: seq<int>, p: seq<int>) {
    && |elem| == 4 * |etype| && |p| == 5 * |etype|
    && (forall i, j :: 0 <= i < |etype| && 0 <= j < 4 ==> p[PackedAt(i, j)] == elem[CornerAt(i, j)])
    && (forall i :: 0 <= i < |etype| ==> p[PackedAt(i, 4)] == etype[i])
  }

  /** Every entry of a table of rows of s entries is entry k % s of row k / s. */
  lemma RowOf(k: nat, s: nat)
    requires s == 4 || s == 5
    ensures k == s * (k / s) + k % s && 0 <= k % s < s
  {
  }

  /** n rows of five entries make a table whose length is a multiple of five. */
  lemma FiveRows(n: nat, len: nat)
    requires len == 5 * n
    ensures len % 5 == 0
  {
  }

  /** A packed table determines the element table and the labels. */
  lemma {:induction false} PackingDeterminesTables(elem: seq<int>, etype: seq<int>, elem': seq<int>, etype': seq<int>, p: seq<int>)
    requires IsPacking(elem, etype, p) && IsPacking(elem', etype', p)
    ensures elem == elem' && etype == etype'
  {
    forall k | 0 <= k < |elem|
      ensures elem[k] == elem'[k]
    {
      RowOf(k, 4);
      var i, j := k / 4, k % 4;
      assert CornerAt(i, j) == k;
      assert p[PackedAt(i, j)] == elem[CornerAt(i, j)];
    }
    forall i | 0 <= i < |etype|
      ensures etype[i] == etype'[i]
    {
      assert p[PackedAt(i, 4)] == etype[i];
    }
  }

  /** The element table and the labels determine their packed form. */
  lemma {:induction false} TablesDeterminePacking(elem: seq<int>, etype: seq<int>, p: seq<int>, p': seq<int>)
    requires IsPacking(elem, etype, p) && IsPacking(elem, etype, p')
    ensures p == p'
  {
    forall k | 0 <= k < |p|
      ensures p[k] == p'[k]
    {
      RowOf(k, 5);
      var i, j := k / 5, k % 5;
      assert PackedAt(i, j) == k;
      if j < 4 {
        assert p[PackedAt(i, j)] == elem[CornerAt(i, j)];
      } else {
        assert p[PackedAt(i, 4)] == etype[i];
      }
    }
  }

  /** The packed table of the mesh tables, element by element. */
  function Pack(elem: seq<int>, etype: seq<int>): (p: seq<int>)
    requires |elem| == 4 * |etype|
    ensures IsPacking(elem, etype, p)
    decreases |etype|
  {
    if |etype| == 0 then []
    else
      var n := |etype| - 1;
      var front := Pack(elem[..4 * n], etype[..n]);
      assert forall i, j :: 0 <= i < n && 0 <= j < 4 ==> front[PackedAt(i, j)] == elem[CornerAt(i, j)];
      front + elem[4 * n..] + [etype[n]]
  }

  /** The mesh tables of a packed table, element by element. */
  function Unpack(p: seq<int>): (r: (seq<int>, seq<int>))
    requires |p| % 5 == 0
    ensures IsPacking(r.0, r.1, p)
    decreases |p|
  {
    if |p| == 0 then ([], [])
    else
      var n := |p| / 5 - 1;
      var front := Unpack(p[..5 * n]);
      assert forall i :: 0 <= i < n ==> front.1[i] == p[PackedAt(i, 4)];
      (front.0 + p[5 * n..5 * n + 4], front.1 + [p[5 * n + 4]])
  }

  /** Unpacking a packed table gives back the mesh tables. */
  lemma UnpackPack(elem: seq<int>, etype: seq<int>)
    requires |elem| == 4 * |etype|
    ensures Unpack(Pack(elem, etype)) == (elem, etype)
  {
    var p := Pack(elem, etype);
    FiveRows(|etype|, |p|);
    var r := Unpack(p);
    PackingDeterminesTables(elem, etype, r.0, r.1, p);
    assert r == (elem, etype);
  }

  /** Packing the unpacked tables gives back the packed table. */
  lemma PackUnpack(p: seq<int>)
    requires |p| % 5 == 0
    ensures Pack(Unpack(p).0, Unpack(p).1) == p
  {
    var r := Unpack(p);
    TablesDeterminePacking(r.0, r.1, Pack(r.0, r.1), p);
  }

  /** The pack loop: for every element, its four node numbers and then its label. */
  method PackElems(elem: array<int>, etype: array<int>, ne: nat) returns (packed: array<int>)
    requires elem.Length == 4 * ne && etype.Length == ne
    ensures IsPacking(elem[..], etype[..], packed[..])
    ensures packed[..] == Pack(elem[..], etype[..])
  {
    packed := new int[5 * ne];
    var i := 0;
    while i < ne
      invariant i <= ne
      invariant forall i', j :: 0 <= i' < i && 0 <= j < 4 ==> packed[PackedAt(i', j)] == elem[CornerAt(i', j)]
      invariant forall i' :: 0 <= i' < i ==> packed[PackedAt(i', 4)] == etype[i']
    {
      var j := 0;
      while j < 4
        invariant j <= 4
        invariant forall i', j' :: 0 <= i' < i && 0 <= j' < 4 ==> packed[PackedAt(i', j')] == elem[CornerAt(i', j')]
        invariant forall i' :: 0 <= i' < i ==> packed[PackedAt(i', 4)] == etype[i']
        invariant forall j' :: 0 <= j' < j ==> packed[PackedAt(i, j')] == elem[CornerAt(i, j')]
      {
        packed[5 * i + j] := elem[4 * i + j];
        j := j + 1;
      }
      packed[5 * i + 4] := etype[i];
      i := i + 1;
    }
    TablesDeterminePacking(elem[..], etype[..], packed[..], Pack(elem[..], etype[..]));
  }

  /** The unpack loop: for every element, its node numbers into the element table and its label into the label table. */
  method UnpackElems(packed: array<int>, ne: nat) returns (elem: array<int>, etype: array<int>)
    requires packed.Length == 5 * ne
    ensures IsPacking(elem[..], etype[..], packed[..])
    ensures (elem[..], etype[..]) == Unpack(packed[..])
  {
    elem := new int[4 * ne];
    etype := new int[ne];
    var i := 0;
    while i < ne
      invariant i <= ne
      invariant forall i', j :: 0 <= i' < i && 0 <= j < 4 ==> packed[PackedAt(i', j)] == elem[CornerAt(i', j)]
      invariant forall i' :: 0 <= i' < i ==> packed[PackedAt(i', 4)] == etype[i']
    {
      var j := 0;
      while j < 4
        invariant j <= 4
        invariant forall i', j' :: 0 <= i' < i && 0 <= j' < 4 ==> packed[PackedAt(i', j')] == elem[CornerAt(i', j')]
        invariant forall i' :: 0 <= i' < i ==> packed[PackedAt(i', 4)] == etype[i']
        invariant forall j' :: 0 <= j' < j ==> packed[PackedAt(i, j')] == elem[CornerAt(i, j')]
      {
        elem[4 * i + j] := packed[5 * i + j];
        j := j + 1;
      }
      etype[i] := packed[5 * i + 4];
      i := i + 1;
    }
    PackingDeterminesTables(elem[..], etype[..], Unpack(packed[..]).0, Unpack(packed[..]).1, packed[..]);
  }
}
