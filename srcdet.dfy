/**
 * Resolution of the two sentinel material labels: -1 marks the elements a
 * wide-field source is searched in, -2 the elements of an external
 * detector (mesh_srcdetelem).
 */
module SourceDetector {
  import opened Mesh

  const SOURCE_LABEL: int := -1
  const DETECTOR_LABEL: int := -2

  /** Number of entries of t equal to v. */
  function CountOf(t: seq<int>, v: int): nat {
    if |t| == 0 then 0 else CountOf(t[..|t| - 1], v) + (if t[|t| - 1] == v then 1 else 0)
  }

  /** The 1-based positions of the entries of t equal to v, in the order a forward scan meets them. */
  function IndicesOf(t: seq<int>, v: int): seq<int> {
    if |t| == 0 then [] else IndicesOf(t[..|t| - 1], v) + (if t[|t| - 1] == v then [|t|] else [])
  }

  /** The 1-based position of the first entry equal to v, or 0 if there is none. */
  function FirstIndexOf(t: seq<int>, v: int): int {
    if |t| == 0 then 0
    else
      var f := FirstIndexOf(t[..|t| - 1], v);
      if f != 0 then f else if t[|t| - 1] == v then |t| else 0
  }

  /** The labels after resolution: every source label becomes the background label 0. */
  function Resolved(t: seq<int>): seq<int> {
    seq(|t|, i requires 0 <= i < |t| => if t[i] == SOURCE_LABEL then 0 else t[i])
  }

  /** The index list has one entry per match, lists every match, and is strictly increasing. */
  lemma {:induction false} IndicesOfSpec(t: seq<int>, v: int)
    ensures |IndicesOf(t, v)| == CountOf(t, v)
    ensures forall k :: 0 <= k < |IndicesOf(t, v)| ==> 1 <= IndicesOf(t, v)[k] <= |t| && t[IndicesOf(t, v)[k] - 1] == v
    ensures forall k1, k2 :: 0 <= k1 < k2 < |IndicesOf(t, v)| ==> IndicesOf(t, v)[k1] < IndicesOf(t, v)[k2]
    ensures forall i :: 0 <= i < |t| && t[i] == v ==> i + 1 in IndicesOf(t, v)
  {
    if |t| > 0 {
      var u := t[..|t| - 1];
      IndicesOfSpec(u, v);
      forall i | 0 <= i < |u| ensures t[i] == u[i] { }
    }
  }

  /** The first-match position is 0 exactly when there is no match, and otherwise names the first match. */
  lemma {:induction false} FirstIndexOfSpec(t: seq<int>, v: int)
    ensures FirstIndexOf(t, v) == 0 <==> forall i :: 0 <= i < |t| ==> t[i] != v
    ensures FirstIndexOf(t, v) != 0 ==>
              1 <= FirstIndexOf(t, v) <= |t| && t[FirstIndexOf(t, v) - 1] == v
              && forall i :: 0 <= i < FirstIndexOf(t, v) - 1 ==> t[i] != v
  {
    if |t| > 0 {
      var u := t[..|t| - 1];
      FirstIndexOfSpec(u, v);
      assert forall i :: 0 <= i < |u| ==> u[i] == t[i];
    }
  }

  /** The first-match position is the head of the index list. */
  lemma {:induction false} FirstIndexIsHead(t: seq<int>, v: int)
    ensures FirstIndexOf(t, v) == 0 <==> |IndicesOf(t, v)| == 0
    ensures FirstIndexOf(t, v) != 0 ==> IndicesOf(t, v)[0] == FirstIndexOf(t, v)
  {
    if |t| > 0 {
      FirstIndexIsHead(t[..|t| - 1], v);
    }
  }

  /** Resolution rewrites exactly the source labels; detector labels and all others are kept. */
  lemma ResolvedSpec(t: seq<int>)
    ensures |Resolved(t)| == |t|
    ensures forall i :: 0 <= i < |t| ==> (t[i] == SOURCE_LABEL ==> Resolved(t)[i] == 0) && (t[i] != SOURCE_LABEL ==> Resolved(t)[i] == t[i])
    ensures SOURCE_LABEL !in Resolved(t)
    ensures CountOf(Resolved(t), DETECTOR_LABEL) == CountOf(t, DETECTOR_LABEL)
  {
    CountResolved(t);
  }

  lemma {:induction false} CountResolved(t: seq<int>)
    ensures CountOf(Resolved(t), DETECTOR_LABEL) == CountOf(t, DETECTOR_LABEL)
  {
    if |t| > 0 {
      var u := t[..|t| - 1];
      CountResolved(u);
      assert Resolved(t)[..|t| - 1] == Resolved(u);
    }
  }

  /**
   * mesh_srcdetelem: count and list the source (-1) and detector (-2)
   * elements, turn every -1 into 0, record the first source element as e0
   * when none was set, and switch to external detection when -2 occurs.
   */
  method SrcDetElem(mesh: TetMesh, cfg: Config)
    modifies mesh`srcelem, mesh`detelem, mesh`srcelemlen, mesh`detelemlen, mesh.etype
    modifies cfg`e0, cfg`isextdet, cfg`detnum
    ensures mesh.etype[..] == Resolved(old(mesh.etype[..]))
    ensures mesh.srcelemlen == CountOf(old(mesh.etype[..]), SOURCE_LABEL)
    ensures mesh.detelemlen == CountOf(old(mesh.etype[..]), DETECTOR_LABEL)
    ensures mesh.srcelemlen > 0 || mesh.detelemlen > 0 ==>
              mesh.srcelem == IndicesOf(old(mesh.etype[..]), SOURCE_LABEL) &&
              mesh.detelem == IndicesOf(old(mesh.etype[..]), DETECTOR_LABEL)
    ensures mesh.srcelemlen == 0 && mesh.detelemlen == 0 ==>
              mesh.srcelem == old(mesh.srcelem) && mesh.detelem == old(mesh.detelem)
    ensures cfg.e0 == if old(cfg.e0) == 0 then FirstIndexOf(old(mesh.etype[..]), SOURCE_LABEL) else old(cfg.e0)
    ensures cfg.isextdet == if mesh.detelemlen > 0 then 1 else old(cfg.isextdet)
    ensures cfg.detnum == if mesh.detelemlen > 0 then 0 else old(cfg.detnum)
  {
    CountSentinels(mesh, cfg);
    if mesh.srcelemlen > 0 || mesh.detelemlen > 0 {
      CollectSentinels(mesh);
    } else {
      ghost var t0 := mesh.etype[..];
      forall k | 0 <= k < |t0| ensures t0[k] != SOURCE_LABEL {
        IndicesOfSpec(t0, SOURCE_LABEL);
      }
      assert mesh.etype[..] == Resolved(t0);
    }
  }

  /** The counting scan of mesh_srcdetelem; the labels themselves are not touched. */
  method CountSentinels(mesh: TetMesh, cfg: Config)
    modifies mesh`srcelemlen, mesh`detelemlen, cfg`e0, cfg`isextdet, cfg`detnum
    ensures mesh.srcelemlen == CountOf(mesh.etype[..], SOURCE_LABEL)
    ensures mesh.detelemlen == CountOf(mesh.etype[..], DETECTOR_LABEL)
    ensures cfg.e0 == if old(cfg.e0) == 0 then FirstIndexOf(mesh.etype[..], SOURCE_LABEL) else old(cfg.e0)
    ensures cfg.isextdet == if mesh.detelemlen > 0 then 1 else old(cfg.isextdet)
    ensures cfg.detnum == if mesh.detelemlen > 0 then 0 else old(cfg.detnum)
  {
    var t := mesh.etype;
    mesh.srcelemlen := 0;
    mesh.detelemlen := 0;
    var i := 0;
    while i < t.Length
      invariant 0 <= i <= t.Length
      invariant mesh.srcelemlen == CountOf(t[..i], SOURCE_LABEL)
      invariant mesh.detelemlen == CountOf(t[..i], DETECTOR_LABEL)
      invariant cfg.e0 == if old(cfg.e0) == 0 then FirstIndexOf(t[..i], SOURCE_LABEL) else old(cfg.e0)
      invariant cfg.isextdet == if mesh.detelemlen > 0 then 1 else old(cfg.isextdet)
      invariant cfg.detnum == if mesh.detelemlen > 0 then 0 else old(cfg.detnum)
    {
      assert t[..i + 1][..i] == t[..i];
      if t[i] == SOURCE_LABEL {
        mesh.srcelemlen := mesh.srcelemlen + 1;
        cfg.e0 := if cfg.e0 == 0 then i + 1 else cfg.e0;
      }
      if t[i] == DETECTOR_LABEL {
        mesh.detelemlen := mesh.detelemlen + 1;
        cfg.isextdet := 1;
        cfg.detnum := 0;
      }
      i := i + 1;
    }
    assert t[..i] == t[..];
  }

  /** The listing scan of mesh_srcdetelem: record both index lists and resolve every source label. */
  method CollectSentinels(mesh: TetMesh)
    modifies mesh`srcelem, mesh`detelem, mesh.etype
    ensures mesh.etype[..] == Resolved(old(mesh.etype[..]))
    ensures mesh.srcelem == IndicesOf(old(mesh.etype[..]), SOURCE_LABEL)
    ensures mesh.detelem == IndicesOf(old(mesh.etype[..]), DETECTOR_LABEL)
  {
    var t := mesh.etype;
    ghost var t0 := t[..];
    mesh.srcelem := [];
    mesh.detelem := [];
    var i := 0;
    while i < t.Length
      modifies mesh`srcelem, mesh`detelem, t
      invariant 0 <= i <= t.Length
      invariant forall k :: 0 <= k < i ==> t[k] == (if t0[k] == SOURCE_LABEL then 0 else t0[k])
      invariant forall k :: i <= k < t.Length ==> t[k] == t0[k]
      invariant mesh.srcelem == IndicesOf(t0[..i], SOURCE_LABEL)
      invariant mesh.detelem == IndicesOf(t0[..i], DETECTOR_LABEL)
    {
      assert t0[..i + 1][..i] == t0[..i];
      if t[i] < 0 {
        if t[i] == SOURCE_LABEL {
          mesh.srcelem := mesh.srcelem + [i + 1];
          t[i] := 0;
        } else if t[i] == DETECTOR_LABEL {
          mesh.detelem := mesh.detelem + [i + 1];
        }
      }
      i := i + 1;
    }
    assert t0[..i] == t0;
    assert t[..] == Resolved(t0);
  }
}
