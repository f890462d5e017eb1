/**
 * Point location (mesh_barycentric, mesh_initelem): the barycentric test
 * of the source position against one element, and the linear scan for the
 * first element whose bounding box holds the source and whose test passes.
 * Both write the coordinates through the configuration's bary0 buffer.
 */
module Locate {
  import opened Common
  import opened FaceTables
  import opened Geometry
  import opened Mesh
  import opened Volume
  import opened DualGrid

  const MSG_E0_RANGE: string := "initial element index exceeds total element count"

  /**
   * What the test leaves in the output buffer: the raw values when one is
   * negative, the normalised ones when the test passes. For an all-zero
   * element the C code divides 0 by 0; the model keeps the zeros.
   */
  function BaryValues(b: BaryResult, raw: seq<real>): seq<real> {
    match b
    case Outside(r) => r
    case Inside(c) => c
    case Degenerate => raw
  }

  /** The sum of the first i values. */
  function PartialSum(r: seq<real>, i: nat): real
    requires i <= |r|
  {
    if i == 0 then 0.0 else PartialSum(r, i - 1) + r[i - 1]
  }

  /** p lies in the corner box of element k (0-based). */
  predicate BoxHolds(node: seq<Point>, e: seq<int>, p: Point, k: nat)
    requires Flat(e, |node|) && 4 * k + 4 <= |e|
  {
    InBox(CornersOf(node, e, k), p)
  }

  /** What the barycentric test of element k (0-based) leaves in the buffer. */
  function TestedBary(node: seq<Point>, e: seq<int>, p: Point, k: nat): seq<real>
    requires Flat(e, |node|) && 4 * k + 4 <= |e|
  {
    var c := CornersOf(node, e, k);
    BaryValues(Barycentric(c, p), RawBary(c, p))
  }

  /** Element k (0-based) holds p in its corner box and passes the barycentric test. */
  predicate Encloses(node: seq<Point>, e: seq<int>, p: Point, k: nat)
    requires Flat(e, |node|) && 4 * k + 4 <= |e|
  {
    BoxHolds(node, e, p, k) && Barycentric(CornersOf(node, e, k), p).Status() == 0
  }

  /** The 1-based index of the first enclosing element among the first k, or 0 if there is none. */
  function FirstEnclosing(node: seq<Point>, e: seq<int>, p: Point, k: nat): (f: nat)
    requires Flat(e, |node|) && 4 * k <= |e|
    ensures f <= k
  {
    if k == 0 then 0
    else
      var f := FirstEnclosing(node, e, p, k - 1);
      if f != 0 then f else if Encloses(node, e, p, k - 1) then k else 0
  }

  /** The first-match index is 0 exactly when no element encloses p, and otherwise names an enclosing element with none before it. */
  lemma {:induction false} FirstEnclosingSpec(node: seq<Point>, e: seq<int>, p: Point, k: nat)
    requires Flat(e, |node|) && 4 * k <= |e|
    ensures FirstEnclosing(node, e, p, k) == 0 <==> forall j :: 0 <= j < k ==> !Encloses(node, e, p, j)
    ensures FirstEnclosing(node, e, p, k) != 0 ==>
              FirstEnclosing(node, e, p, k) <= k && Encloses(node, e, p, FirstEnclosing(node, e, p, k) - 1)
              && forall j :: 0 <= j < FirstEnclosing(node, e, p, k) - 1 ==> !Encloses(node, e, p, j)
  {
    if k > 0 {
      FirstEnclosingSpec(node, e, p, k - 1);
    }
  }

  /** The buffer after the scan has tested the first k elements without success, starting from b0. */
  function ScanBary(node: seq<Point>, e: seq<int>, p: Point, k: nat, b0: seq<real>): seq<real>
    requires Flat(e, |node|) && 4 * k <= |e|
  {
    if k == 0 then b0
    else if BoxHolds(node, e, p, k - 1) then TestedBary(node, e, p, k - 1)
    else ScanBary(node, e, p, k - 1, b0)
  }

  /** The six comparisons of the scan are the box predicate. */
  lemma InBoxAxes(c: seq<Point>, p: Point)
    ensures InBox(c, p) <==>
              (p.x <= HiPoint(c, |c|).x && p.x >= LoPoint(c, |c|).x &&
               p.y <= HiPoint(c, |c|).y && p.y >= LoPoint(c, |c|).y &&
               p.z <= HiPoint(c, |c|).z && p.z >= LoPoint(c, |c|).z)
  {
    assert Coord(p, 0) == p.x && Coord(p, 1) == p.y && Coord(p, 2) == p.z;
  }

  /** The test passes exactly when no raw value is negative; then the stored values are non-negative and add up to one unless all raw values are zero. */
  lemma BaryValuesSpec(c: Corners, p: Point)
    ensures var b := Barycentric(c, p);
            var v := BaryValues(b, RawBary(c, p));
            |v| == 4
            && (b.Status() == 0 <==> forall n :: 0 <= n < 4 ==> RawBary(c, p)[n] >= 0.0)
            && (b.Status() == 1 ==> v == RawBary(c, p))
            && (b.Status() == 0 && Volume6(c) != 0.0 ==> Sum4(v) == 1.0 && forall n :: 0 <= n < 4 ==> v[n] >= 0.0)
  {
    RawBarySum(c, p);
    BaryOfSpec(RawBary(c, p));
  }

  /** The four raw values written in face order by the loop of mesh_barycentric fill the buffer in node order. */
  lemma FaceLoopFills(bary: seq<real>, c: Corners, p: Point)
    requires |bary| == 4
    requires forall f: Local :: bary[FaceMap(f)] == FaceValue(c, f, p)
    ensures bary == RawBary(c, p)
  {
    FaceMapInverse();
    forall n: Local ensures bary[n] == RawBary(c, p)[n] {
      assert bary[FaceMap(IFaceMap(n))] == FaceValue(c, IFaceMap(n), p);
    }
  }

  /** The face loop of mesh_barycentric: slot FaceMap(f) receives the value of face f. */
  method FaceLoop(node: seq<Point>, elem: seq<int>, eid: nat, p: Point) returns (bary: seq<real>)
    requires Flat(elem, |node|) && 4 * eid + 4 <= |elem|
    ensures bary == RawBary(CornersOf(node, elem, eid), p)
  {
    ghost var c := CornersOf(node, elem, eid);
    bary := [0.0, 0.0, 0.0, 0.0];
    FaceMapInverse();
    var i := 0;
    while i < 4
      invariant 0 <= i <= 4 && |bary| == 4
      invariant forall f: Local :: f < i ==> bary[FaceMap(f)] == FaceValue(c, f, p)
    {
      var a := node[elem[4 * eid + Out(i, 0)] - 1];
      var b := node[elem[4 * eid + Out(i, 1)] - 1];
      var cc := node[elem[4 * eid + Out(i, 2)] - 1];
      assert a == c[Out(i, 0)] && b == c[Out(i, 1)] && cc == c[Out(i, 2)];
      var vecN := Cross(Diff(a, b), Diff(a, cc));
      bary := bary[FaceMap(i) := -Dot(Diff(a, p), vecN)];
      i := i + 1;
    }
    FaceLoopFills(bary, c, p);
  }

  /** The sign scan of mesh_barycentric: stop at the first negative value, otherwise add all four. */
  method SignScan(bary: seq<real>) returns (negative: bool, s: real)
    requires |bary| == 4
    ensures negative <==> exists n :: 0 <= n < 4 && bary[n] < 0.0
    ensures !negative ==> s == Sum4(bary)
  {
    s := 0.0;
    var i := 0;
    while i < 4
      invariant 0 <= i <= 4
      invariant forall k :: 0 <= k < i ==> bary[k] >= 0.0
      invariant s == PartialSum(bary, i)
    {
      if bary[i] < 0.0 {
        return true, s;
      }
      s := s + bary[i];
      i := i + 1;
    }
    assert PartialSum(bary, 2) == bary[0] + bary[1];
    return false, s;
  }

  /** The division loop of mesh_barycentric. */
  method DivideBy(raw: seq<real>, s: real) returns (bary: seq<real>)
    requires |raw| == 4 && s != 0.0
    ensures bary == Divided(raw, s)
  {
    bary := raw;
    var i := 0;
    while i < 4
      invariant 0 <= i <= 4 && |bary| == 4
      invariant forall k :: 0 <= k < i ==> bary[k] == raw[k] / s
      invariant forall k :: i <= k < 4 ==> bary[k] == raw[k]
    {
      bary := bary[i := bary[i] / s];
      i := i + 1;
    }
  }

  /** The test of element eid (0-based) against p: the status and what is left in the buffer. */
  method ElementBary(node: seq<Point>, e: seq<int>, eid: nat, p: Point) returns (status: int, bary: seq<real>)
    requires Flat(e, |node|) && 4 * eid + 4 <= |e|
    ensures status == Barycentric(CornersOf(node, e, eid), p).Status()
    ensures bary == TestedBary(node, e, p, eid)
  {
    bary := FaceLoop(node, e, eid, p);
    var negative, s := SignScan(bary);
    if negative {
      return 1, bary;
    }
    if s != 0.0 {
      bary := DivideBy(bary, s);
    }
    return 0, bary;
  }

  /**
   * mesh_barycentric: an index beyond the element count is an error;
   * otherwise the status is 1 exactly when a raw value is negative, and
   * bary0 receives the raw values (status 1) or the values divided by
   * their sum (status 0).
   */
  method MeshBarycentric(mesh: TetMesh, cfg: Config, e0: int) returns (r: Result<int>)
    requires mesh.ElemsValid() && e0 >= 1
    modifies cfg`bary0
    ensures e0 > mesh.NE() ==> r == Err(MSG_E0_RANGE) && cfg.bary0 == old(cfg.bary0)
    ensures e0 <= mesh.NE() ==>
              Flat(mesh.elem[..], |mesh.node|)
              && r == Ok(Barycentric(CornersOf(mesh.node, mesh.elem[..], e0 - 1), cfg.srcpos).Status())
              && cfg.bary0 == TestedBary(mesh.node, mesh.elem[..], cfg.srcpos, e0 - 1)
  {
    if e0 > mesh.NE() {
      return Err(MSG_E0_RANGE);
    }
    var e := mesh.elem[..];
    assert Flat(e, |mesh.node|);
    var status, bary := ElementBary(mesh.node, e, e0 - 1, cfg.srcpos);
    cfg.bary0 := bary;
    return Ok(status);
  }

  /** The corner box of element i: the running minima and maxima over its four nodes, from VERY_BIG and -VERY_BIG. */
  method ElementBox(node: seq<Point>, e: seq<int>, i: nat) returns (pmin: Point, pmax: Point)
    requires Flat(e, |node|) && 4 * i + 4 <= |e|
    ensures pmin == LoPoint(CornersOf(node, e, i), 4)
    ensures pmax == HiPoint(CornersOf(node, e, i), 4)
  {
    ghost var c := CornersOf(node, e, i);
    pmin := Point(VERY_BIG, VERY_BIG, VERY_BIG);
    pmax := Point(-VERY_BIG, -VERY_BIG, -VERY_BIG);
    var j := 0;
    while j < ELEM_LEN
      invariant 0 <= j <= 4
      invariant pmin == LoPoint(c, j) && pmax == HiPoint(c, j)
    {
      var q := node[e[4 * i + j] - 1];
      assert q == c[j];
      pmin := Point(Min(q.x, pmin.x), Min(q.y, pmin.y), Min(q.z, pmin.z));
      pmax := Point(Max(q.x, pmax.x), Max(q.y, pmax.y), Max(q.z, pmax.z));
      j := j + 1;
    }
  }

  /**
   * The scan of mesh_initelem over ne elements: the 1-based index of the
   * first element whose box holds p and whose test passes (0 if none), and
   * the buffer as the last test left it.
   */
  method ScanElements(node: seq<Point>, e: seq<int>, ne: nat, p: Point, b0: seq<real>) returns (found: nat, bary: seq<real>)
    requires Flat(e, |node|) && |e| == 4 * ne
    ensures found == FirstEnclosing(node, e, p, ne)
    ensures found != 0 ==> bary == TestedBary(node, e, p, found - 1)
    ensures found == 0 ==> bary == ScanBary(node, e, p, ne, b0)
  {
    bary := b0;
    var i := 0;
    while i < ne
      invariant 0 <= i <= ne
      invariant FirstEnclosing(node, e, p, i) == 0
      invariant bary == ScanBary(node, e, p, i, b0)
    {
      var pmin, pmax := ElementBox(node, e, i);
      InBoxAxes(CornersOf(node, e, i), p);
      if p.x <= pmax.x && p.x >= pmin.x && p.y <= pmax.y && p.y >= pmin.y && p.z <= pmax.z && p.z >= pmin.z {
        var status;
        status, bary := ElementBary(node, e, i, p);
        if status == 0 {
          FirstEnclosingFrom(node, e, p, i + 1, ne);
          return i + 1, bary;
        }
      }
      i := i + 1;
    }
    return 0, bary;
  }

  /**
   * mesh_initelem: status 0 with e0 set to the first element that encloses
   * the source, or status 1 with e0 untouched when none does; bary0 holds
   * what the last barycentric test wrote.
   */
  method InitElem(mesh: TetMesh, cfg: Config) returns (r: int)
    requires mesh.ElemsValid()
    modifies cfg`e0, cfg`bary0
    ensures Flat(mesh.elem[..], |mesh.node|)
    ensures r == 0 || r == 1
    ensures r == 0 <==> FirstEnclosing(mesh.node, mesh.elem[..], cfg.srcpos, mesh.NE()) != 0
    ensures r == 0 ==> cfg.e0 == FirstEnclosing(mesh.node, mesh.elem[..], cfg.srcpos, mesh.NE())
                       && cfg.bary0 == TestedBary(mesh.node, mesh.elem[..], cfg.srcpos, cfg.e0 - 1)
    ensures r == 1 ==> cfg.e0 == old(cfg.e0)
                       && cfg.bary0 == ScanBary(mesh.node, mesh.elem[..], cfg.srcpos, mesh.NE(), old(cfg.bary0))
  {
    var e := mesh.elem[..];
    assert Flat(e, |mesh.node|);
    var found, bary := ScanElements(mesh.node, e, mesh.NE(), cfg.srcpos, cfg.bary0);
    cfg.bary0 := bary;
    if found != 0 {
      cfg.e0 := found;
      return 0;
    }
    return 1;
  }

  /** Once an element has been found, scanning further elements does not change the first match. */
  lemma {:induction false} FirstEnclosingFrom(node: seq<Point>, e: seq<int>, p: Point, k: nat, n: nat)
    requires Flat(e, |node|) && k <= n && 4 * n <= |e|
    requires FirstEnclosing(node, e, p, k) != 0
    ensures FirstEnclosing(node, e, p, n) == FirstEnclosing(node, e, p, k)
  {
    if k < n {
      FirstEnclosingFrom(node, e, p, k, n - 1);
    }
  }
}
