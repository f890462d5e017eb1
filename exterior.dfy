/**
 * The exterior-face numbering of tracer_prep: every face-neighbour entry
 * equal to 0 (a face on the domain boundary) is replaced by -k, where k is
 * its rank among the zero entries in flat index order, and nf becomes the
 * number of such faces.
 */
module Exterior {
  import opened Mesh
  import opened SourceDetector

  /** The rank of entry m among the zero entries, counting from 1. */
  function Rank(f: seq<int>, m: nat): nat
    requires m < |f|
  {
    CountOf(f[..m + 1], 0)
  }

  /** The face-neighbour entries after numbering: the zero at position m becomes minus its rank. */
  function Numbered(f: seq<int>): (r: seq<int>)
    ensures |r| == |f|
  {
    seq(|f|, m requires 0 <= m < |f| => if f[m] == 0 then -(Rank(f, m) as int) else f[m])
  }

  lemma {:induction false} CountOfPrefixMonotone(f: seq<int>, a: nat, b: nat)
    requires a <= b <= |f|
    ensures CountOf(f[..a], 0) <= CountOf(f[..b], 0)
    ensures a < b && f[b - 1] == 0 ==> CountOf(f[..a], 0) < CountOf(f[..b], 0)
    decreases b - a
  {
    if a < b {
      CountOfPrefixMonotone(f, a, b - 1);
      assert f[..b][..b - 1] == f[..b - 1];
    }
  }

  /** A boundary face gets an id between -nf and -1; any other entry is kept. */
  lemma NumberedRange(f: seq<int>, m: nat)
    requires m < |f|
    ensures f[m] != 0 ==> Numbered(f)[m] == f[m]
    ensures f[m] == 0 ==> -(CountOf(f, 0) as int) <= Numbered(f)[m] <= -1
  {
    if f[m] == 0 {
      CountOfPrefixMonotone(f, m, m + 1);
      CountOfPrefixMonotone(f, m + 1, |f|);
      assert f[..|f|] == f;
    }
  }

  /** Two different boundary faces never share an id: later faces get lower ids. */
  lemma NumberedInjective(f: seq<int>, m1: nat, m2: nat)
    requires m1 < m2 < |f| && f[m1] == 0 && f[m2] == 0
    ensures Numbered(f)[m1] > Numbered(f)[m2]
  {
    CountOfPrefixMonotone(f, m1 + 1, m2 + 1);
  }

  /** The position of the k-th zero among the first b entries (the face that receives id -k). */
  function ZeroAt(f: seq<int>, b: nat, k: nat): nat
    requires b <= |f| && 1 <= k <= CountOf(f[..b], 0)
    decreases b
  {
    assert b > 0;
    assert f[..b][..b - 1] == f[..b - 1];
    if CountOf(f[..b - 1], 0) >= k then ZeroAt(f, b - 1, k) else b - 1
  }

  /** The boundary face that receives id -k. */
  function FaceOfId(f: seq<int>, k: nat): nat
    requires 1 <= k <= CountOf(f, 0)
  {
    assert f[..|f|] == f;
    ZeroAt(f, |f|, k)
  }

  lemma {:induction false} ZeroAtSpec(f: seq<int>, b: nat, k: nat)
    requires b <= |f| && 1 <= k <= CountOf(f[..b], 0)
    ensures ZeroAt(f, b, k) < b && f[ZeroAt(f, b, k)] == 0 && Rank(f, ZeroAt(f, b, k)) == k
    decreases b
  {
    assert f[..b][..b - 1] == f[..b - 1];
    if CountOf(f[..b - 1], 0) >= k {
      ZeroAtSpec(f, b - 1, k);
    } else {
      assert f[..b] == f[..b - 1 + 1];
    }
  }

  /** Every id in -1..-nf is used: the k-th boundary face in index order carries -k. */
  lemma NumberedOnto(f: seq<int>)
    ensures forall k :: 1 <= k <= CountOf(f, 0) ==>
              FaceOfId(f, k) < |f| && f[FaceOfId(f, k)] == 0 && Numbered(f)[FaceOfId(f, k)] == -k
  {
    assert f[..|f|] == f;
    forall k | 1 <= k <= CountOf(f, 0)
      ensures FaceOfId(f, k) < |f| && f[FaceOfId(f, k)] == 0 && Numbered(f)[FaceOfId(f, k)] == -k
    {
      ZeroAtSpec(f, |f|, k);
    }
  }

  /** The numbering loop of tracer_prep over the 4 * ne face-neighbour entries. */
  method NumberExteriorFaces(mesh: TetMesh)
    requires mesh.facenb != null
    modifies mesh`nf, mesh.facenb
    ensures mesh.facenb[..] == Numbered(old(mesh.facenb[..]))
    ensures mesh.nf == CountOf(old(mesh.facenb[..]), 0)
  {
    var f := mesh.facenb;
    ghost var f0 := f[..];
    mesh.nf := 0;
    var i := 0;
    while i < f.Length
      modifies mesh`nf, f
      invariant 0 <= i <= f.Length
      invariant mesh.nf == CountOf(f0[..i], 0)
      invariant forall m :: 0 <= m < i ==> f[m] == Numbered(f0)[m]
      invariant forall m :: i <= m < f.Length ==> f[m] == f0[m]
    {
      assert f0[..i + 1][..i] == f0[..i];
      if f[i] == 0 {
        mesh.nf := mesh.nf + 1;
        f[i] := -mesh.nf;
      }
      i := i + 1;
    }
    assert f0[..i] == f0;
    assert f[..] == Numbered(f0);
  }
}
