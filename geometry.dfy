/**
 * Real-valued geometry used by the mesh passes: the signed volume formula of
 * the volume pass, the four raw barycentric values of the point-location
 * test, and running bounding boxes.
 */
module Geometry {
  import opened Common
  import opened FaceTables

  /**
   * The expression the volume pass evaluates for the corners p0..p3 of an
   * element, before it negates it (an expansion of the 4x4 determinant with
   * rows (x, y, z, 1)).
   */
  function RawVolume(p0: Point, p1: Point, p2: Point, p3: Point): real {
    var dx := p2.x - p3.x;
    var dy := p2.y - p3.y;
    var dz := p2.z - p3.z;
    var mx := p2.y * p3.z - p2.z * p3.y;
    var my := p2.x * p3.z - p2.z * p3.x;
    var mz := p2.x * p3.y - p2.y * p3.x;
    p1.x * mx - p1.y * my + p1.z * mz
    - p0.x * (mx + p1.y * dz - p1.z * dy)
    + p0.y * (my + p1.x * dz - p1.z * dx)
    - p0.z * (mz + p1.x * dy - p1.y * dx)
  }

  /** Six times the signed volume as the volume pass stores it before fixing the winding. */
  function SignedVolume6(p0: Point, p1: Point, p2: Point, p3: Point): real {
    -RawVolume(p0, p1, p2, p3)
  }

  /** The scalar triple product a . (b x c), the determinant with rows a, b, c. */
  function Det(a: Point, b: Point, c: Point): real {
    Dot(a, Cross(b, c))
  }

  /** The first three products of the volume expression, which involve p1, p2, p3 only. */
  function Lead(p1: Point, p2: Point, p3: Point): real {
    p1.x * (p2.y * p3.z - p2.z * p3.y) - p1.y * (p2.x * p3.z - p2.z * p3.x) + p1.z * (p2.x * p3.y - p2.y * p3.x)
  }

  /** The factors the volume expression multiplies p0.x, p0.y and p0.z by (before their signs). */
  function CoeffX(p1: Point, p2: Point, p3: Point): real {
    (p2.y * p3.z - p2.z * p3.y) + p1.y * (p2.z - p3.z) - p1.z * (p2.y - p3.y)
  }

  function CoeffY(p1: Point, p2: Point, p3: Point): real {
    (p2.x * p3.z - p2.z * p3.x) + p1.x * (p2.z - p3.z) - p1.z * (p2.x - p3.x)
  }

  function CoeffZ(p1: Point, p2: Point, p3: Point): real {
    (p2.x * p3.y - p2.y * p3.x) + p1.x * (p2.y - p3.y) - p1.y * (p2.x - p3.x)
  }

  /** The volume expression grouped by the coordinates of p0. */
  lemma RawVolumeGrouped(p0: Point, p1: Point, p2: Point, p3: Point)
    ensures RawVolume(p0, p1, p2, p3)
            == Lead(p1, p2, p3) - p0.x * CoeffX(p1, p2, p3) + p0.y * CoeffY(p1, p2, p3) - p0.z * CoeffZ(p1, p2, p3)
  {
  }

  lemma LeadIsDet(p1: Point, p2: Point, p3: Point)
    ensures Lead(p1, p2, p3) == Det(p1, p2, p3)
  {
  }

  lemma CoeffXCross(p1: Point, p2: Point, p3: Point)
    ensures -CoeffX(p1, p2, p3) == -Cross(p2, p3).x + Cross(p1, p3).x - Cross(p1, p2).x
  {
  }

  lemma CoeffYCross(p1: Point, p2: Point, p3: Point)
    ensures CoeffY(p1, p2, p3) == -Cross(p2, p3).y + Cross(p1, p3).y - Cross(p1, p2).y
  {
  }

  lemma CoeffZCross(p1: Point, p2: Point, p3: Point)
    ensures -CoeffZ(p1, p2, p3) == -Cross(p2, p3).z + Cross(p1, p3).z - Cross(p1, p2).z
  {
  }

  /** The volume expression is the cofactor expansion along the column of ones. */
  lemma RawVolumeDets(p0: Point, p1: Point, p2: Point, p3: Point)
    ensures RawVolume(p0, p1, p2, p3) == Det(p1, p2, p3) - Det(p0, p2, p3) + Det(p0, p1, p3) - Det(p0, p1, p2)
  {
    RawVolumeGrouped(p0, p1, p2, p3);
    LeadIsDet(p1, p2, p3);
    CoeffXCross(p1, p2, p3);
    CoeffYCross(p1, p2, p3);
    CoeffZCross(p1, p2, p3);
    NegMul(p0.x, CoeffX(p1, p2, p3));
    NegMul(p0.z, CoeffZ(p1, p2, p3));
    DotCombine(p0, Cross(p2, p3), Cross(p1, p3), Cross(p1, p2));
  }

  /** a * -e is -(a * e). */
  lemma NegMul(a: real, e: real)
    ensures a * -e == -(a * e)
  {
  }

  /** -a.q + a.r - a.t, coordinate by coordinate. */
  lemma DotCombine(a: Point, q: Point, r: Point, t: Point)
    ensures -Dot(a, q) + Dot(a, r) - Dot(a, t)
            == a.x * (-q.x + r.x - t.x) + a.y * (-q.y + r.y - t.y) + a.z * (-q.z + r.z - t.z)
  {
  }

  lemma DetSwap23(a: Point, b: Point, c: Point)
    ensures Det(a, c, b) == -Det(a, b, c)
  {
  }

  lemma DetSwap12(a: Point, b: Point, c: Point)
    ensures Det(b, a, c) == -Det(a, b, c)
  {
  }

  lemma DetRotate(a: Point, b: Point, c: Point)
    ensures Det(b, c, a) == Det(a, b, c)
  {
    DetSwap12(a, b, c);
    DetSwap23(b, a, c);
  }

  /** A determinant with a repeated row vanishes. */
  lemma DetRepeated(a: Point, b: Point)
    ensures Det(a, a, b) == 0.0 && Det(a, b, a) == 0.0
  {
    DetSwap12(a, a, b);
    DetSwap23(a, b, a);
  }

  /** Swapping corners 2 and 3 negates the stored value: the winding fix of the volume pass. */
  lemma SwapNegates(p0: Point, p1: Point, p2: Point, p3: Point)
    ensures SignedVolume6(p0, p1, p3, p2) == -SignedVolume6(p0, p1, p2, p3)
  {
    RawVolumeDets(p0, p1, p2, p3);
    RawVolumeDets(p0, p1, p3, p2);
    DetSwap23(p1, p2, p3);
    DetSwap23(p0, p2, p3);
  }

  /** The normal of the triangle (a, b, c) as the C code computes it: AB x AC. */
  function Normal(a: Point, b: Point, c: Point): Point {
    Cross(Diff(a, b), Diff(a, c))
  }

  lemma ProductOfDifferences(p: real, q: real, r: real, s: real)
    ensures (p - q) * (r - s) == p * r - p * s - q * r + q * s
  {
  }

  lemma MinorOfDifferences(a1: real, a2: real, b1: real, b2: real, c1: real, c2: real)
    ensures (b1 - a1) * (c2 - a2) - (b2 - a2) * (c1 - a1) == (b1 * c2 - b2 * c1) + (c1 * a2 - c2 * a1) + (a1 * b2 - a2 * b1)
  {
    ProductOfDifferences(b1, a1, c2, a2);
    ProductOfDifferences(b2, a2, c1, a1);
  }

  function Add(u: Point, v: Point): Point {
    Point(u.x + v.x, u.y + v.y, u.z + v.z)
  }

  lemma NormalSumX(a: Point, b: Point, c: Point)
    ensures Normal(a, b, c).x == Cross(b, c).x + Cross(c, a).x + Cross(a, b).x
  {
    MinorOfDifferences(a.y, a.z, b.y, b.z, c.y, c.z);
  }

  lemma NormalSumY(a: Point, b: Point, c: Point)
    ensures Normal(a, b, c).y == Cross(b, c).y + Cross(c, a).y + Cross(a, b).y
  {
    MinorOfDifferences(a.z, a.x, b.z, b.x, c.z, c.x);
  }

  lemma NormalSumZ(a: Point, b: Point, c: Point)
    ensures Normal(a, b, c).z == Cross(b, c).z + Cross(c, a).z + Cross(a, b).z
  {
    MinorOfDifferences(a.x, a.y, b.x, b.y, c.x, c.y);
  }

  lemma DotAdd(x: Point, u: Point, v: Point)
    ensures Dot(x, Add(u, v)) == Dot(x, u) + Dot(x, v)
  {
  }

  /** x . (AB x AC) as a sum of three determinants. */
  lemma DotNormal(x: Point, a: Point, b: Point, c: Point)
    ensures Dot(x, Normal(a, b, c)) == Det(x, b, c) + Det(x, c, a) + Det(x, a, b)
  {
    NormalSumX(a, b, c);
    NormalSumY(a, b, c);
    NormalSumZ(a, b, c);
    assert Normal(a, b, c) == Add(Add(Cross(b, c), Cross(c, a)), Cross(a, b));
    DotAdd(x, Add(Cross(b, c), Cross(c, a)), Cross(a, b));
    DotAdd(x, Cross(b, c), Cross(c, a));
  }

  lemma DotDiffSplit(a: Point, p: Point, n: Point)
    ensures Dot(Diff(a, p), n) == Dot(p, n) - Dot(a, n)
  {
  }

  /** The stored value is minus the scalar triple product of the edges leaving corner 0. */
  lemma SignedVolumeIsTripleProduct(p0: Point, p1: Point, p2: Point, p3: Point)
    ensures SignedVolume6(p0, p1, p2, p3) == -Dot(Diff(p0, p1), Cross(Diff(p0, p2), Diff(p0, p3)))
  {
    RawVolumeDets(p0, p1, p2, p3);
    DotDiffSplit(p0, p1, Normal(p0, p2, p3));
    DotNormal(p1, p0, p2, p3);
    DotNormal(p0, p0, p2, p3);
    DetRepeated(p0, p3);
    DetRepeated(p0, p2);
    DetRotate(p0, p1, p3);
    DetSwap12(p0, p1, p2);
  }

  /** The four corner points of an element, in local order. */
  type Corners = c: seq<Point> | |c| == 4 witness [Point(0.0, 0.0, 0.0), Point(0.0, 0.0, 0.0), Point(0.0, 0.0, 0.0), Point(0.0, 0.0, 0.0)]

  function Volume6(c: Corners): real {
    SignedVolume6(c[0], c[1], c[2], c[3])
  }

  /**
   * The value the point-location test computes for face f: minus the dot
   * product of (p - A) with AB x AC, where A, B, C are the face's nodes.
   */
  function FaceValue(c: Corners, f: Local, p: Point): real {
    var a := c[Out(f, 0)];
    var b := c[Out(f, 1)];
    var cc := c[Out(f, 2)];
    -Dot(Diff(a, p), Cross(Diff(a, b), Diff(a, cc)))
  }

  /** The four raw barycentric values, slot n holding the value of the face opposite node n. */
  function RawBary(c: Corners, p: Point): (r: seq<real>)
    ensures |r| == 4
  {
    [FaceValue(c, IFaceMap(0), p), FaceValue(c, IFaceMap(1), p),
     FaceValue(c, IFaceMap(2), p), FaceValue(c, IFaceMap(3), p)]
  }

  /** The write `bary[facemap[i]] = value of face i` fills each slot exactly once. */
  lemma RawBaryPlacement(c: Corners, p: Point)
    ensures forall f: Local :: RawBary(c, p)[FaceMap(f)] == FaceValue(c, f, p)
  {
    FaceMapInverse();
  }

  function Sum4(r: seq<real>): real
    requires |r| == 4
  {
    r[0] + r[1] + r[2] + r[3]
  }

  /** The value of one face: the corner term minus the three terms in p. */
  lemma FaceValueDets(a: Point, b: Point, c: Point, p: Point)
    ensures -Dot(Diff(a, p), Normal(a, b, c)) == Det(a, b, c) - (Det(p, b, c) + Det(p, c, a) + Det(p, a, b))
  {
    DotDiffSplit(a, p, Normal(a, b, c));
    DotNormal(p, a, b, c);
    DotNormal(a, a, b, c);
    DetRepeated(a, c);
    DetRepeated(a, b);
  }

  /** The four raw values always add up to the stored signed volume, wherever p lies. */
  lemma RawBarySum(c: Corners, p: Point)
    ensures Sum4(RawBary(c, p)) == Volume6(c)
  {
    var a, b, cc, d := c[0], c[1], c[2], c[3];
    var r := RawBary(c, p);
    assert r[0] == -Dot(Diff(d, p), Normal(d, cc, b));
    assert r[1] == -Dot(Diff(a, p), Normal(a, cc, d));
    assert r[2] == -Dot(Diff(a, p), Normal(a, d, b));
    assert r[3] == -Dot(Diff(a, p), Normal(a, b, cc));
    FaceValueDets(d, cc, b, p);
    FaceValueDets(a, cc, d, p);
    FaceValueDets(a, d, b, p);
    FaceValueDets(a, b, cc, p);
    // every edge meets p twice, with opposite orientation
    DetSwap23(p, d, b);
    DetSwap23(p, b, a);
    DetSwap23(p, a, d);
    DetSwap23(p, cc, b);
    DetSwap23(p, d, cc);
    DetSwap23(p, a, cc);
    RawVolumeDets(a, b, cc, d);
    DetSwap23(a, b, d);
    DetSwap12(b, cc, d);
    DetRotate(b, d, cc);
  }

  /** The result of the point-location test for one element. */
  datatype BaryResult =
    | Outside(raw: seq<real>)    // some raw value is negative: status 1, raw values left in place
    | Inside(coords: seq<real>)  // all raw values non-negative, divided by their sum: status 0
    | Degenerate                 // all raw values zero: status 0, but the division is 0/0 in C
  {
    function Status(): int {
      if Outside? then 1 else 0
    }
  }

  /** The scan of the test: 1 at the first negative value, 0 if there is none. */
  function ScanStatus(r: seq<real>, i: nat): (s: int)
    requires i <= |r|
    decreases |r| - i
    ensures s == 0 || s == 1
    ensures s == 1 <==> exists k :: i <= k < |r| && r[k] < 0.0
  {
    if i == |r| then 0 else if r[i] < 0.0 then 1 else ScanStatus(r, i + 1)
  }

  function Divided(r: seq<real>, s: real): (d: seq<real>)
    requires |r| == 4 && s != 0.0
    ensures |d| == 4
  {
    [r[0] / s, r[1] / s, r[2] / s, r[3] / s]
  }

  lemma DivNonNegative(x: real, s: real)
    requires x >= 0.0 && s > 0.0
    ensures x / s >= 0.0
  {
  }

  lemma DivSum(x0: real, x1: real, x2: real, x3: real)
    requires x0 + x1 + x2 + x3 > 0.0
    ensures var s := x0 + x1 + x2 + x3;
            x0 / s + x1 / s + x2 / s + x3 / s == 1.0
  {
    var s := x0 + x1 + x2 + x3;
    assert x0 / s + x1 / s + x2 / s + x3 / s == s / s;
  }

  /** Dividing four non-negative values by their positive sum gives non-negative parts adding up to one. */
  lemma DividedSpec(r: seq<real>)
    requires |r| == 4 && Sum4(r) > 0.0 && forall n :: 0 <= n < 4 ==> r[n] >= 0.0
    ensures var d := Divided(r, Sum4(r));
            Sum4(d) == 1.0 && forall n :: 0 <= n < 4 ==> d[n] == r[n] / Sum4(r) && d[n] >= 0.0
  {
    var s := Sum4(r);
    DivSum(r[0], r[1], r[2], r[3]);
    DivNonNegative(r[0], s);
    DivNonNegative(r[1], s);
    DivNonNegative(r[2], s);
    DivNonNegative(r[3], s);
  }

  /** Classifies four raw values the way the test does: scan for a negative one, else divide by the sum. */
  function BaryOf(r: seq<real>): BaryResult
    requires |r| == 4
  {
    if ScanStatus(r, 0) == 1 then Outside(r)
    else
      var s := Sum4(r);
      if s == 0.0 then Degenerate else Inside(Divided(r, s))
  }

  /**
   * The test reports status 1 exactly when a value is negative and then
   * keeps the raw values; on status 0 the values are divided by their sum,
   * giving non-negative coordinates that add up to one, unless all four
   * are zero.
   */
  lemma BaryOfSpec(r: seq<real>)
    requires |r| == 4
    ensures var b := BaryOf(r);
            (b.Status() == 1 <==> exists n :: 0 <= n < 4 && r[n] < 0.0)
            && (b.Outside? ==> b.raw == r)
            && (b.Inside? ==> |b.coords| == 4 && Sum4(b.coords) == 1.0 && Sum4(r) > 0.0
                              && forall n :: 0 <= n < 4 ==> b.coords[n] == r[n] / Sum4(r) && b.coords[n] >= 0.0)
            && (b.Degenerate? ==> forall n :: 0 <= n < 4 ==> r[n] == 0.0)
  {
    if ScanStatus(r, 0) != 1 && Sum4(r) != 0.0 {
      DividedSpec(r);
    }
  }

  /** The barycentric coordinates of p with respect to the element with corners c. */
  function Barycentric(c: Corners, p: Point): BaryResult {
    BaryOf(RawBary(c, p))
  }

  /** In an element whose winding has been fixed (positive stored volume) the test is never degenerate. */
  lemma OrientedNeverDegenerate(c: Corners, p: Point)
    requires Volume6(c) > 0.0
    ensures !Barycentric(c, p).Degenerate?
    ensures Barycentric(c, p).Status() == 0 ==> Barycentric(c, p).Inside?
  {
    RawBarySum(c, p);
    BaryOfSpec(RawBary(c, p));
  }

  /** Lowest coordinate along an axis among the first k points, starting from VERY_BIG. */
  function Lo(pts: seq<Point>, axis: nat, k: nat): real
    requires axis < 3 && k <= |pts|
  {
    if k == 0 then VERY_BIG else Min(Coord(pts[k - 1], axis), Lo(pts, axis, k - 1))
  }

  /** Highest coordinate along an axis among the first k points, starting from -VERY_BIG. */
  function Hi(pts: seq<Point>, axis: nat, k: nat): real
    requires axis < 3 && k <= |pts|
  {
    if k == 0 then -VERY_BIG else Max(Coord(pts[k - 1], axis), Hi(pts, axis, k - 1))
  }

  /** The running minimum is below every point and is attained by one of them (or is still VERY_BIG). */
  lemma {:induction false} LoIsMinimum(pts: seq<Point>, axis: nat, k: nat)
    requires axis < 3 && k <= |pts|
    ensures Lo(pts, axis, k) <= VERY_BIG
    ensures forall i :: 0 <= i < k ==> Lo(pts, axis, k) <= Coord(pts[i], axis)
    ensures Lo(pts, axis, k) == VERY_BIG || exists i :: 0 <= i < k && Lo(pts, axis, k) == Coord(pts[i], axis)
  {
    if k > 0 {
      LoIsMinimum(pts, axis, k - 1);
    }
  }

  /** The running maximum is above every point and is attained by one of them (or is still -VERY_BIG). */
  lemma {:induction false} HiIsMaximum(pts: seq<Point>, axis: nat, k: nat)
    requires axis < 3 && k <= |pts|
    ensures -VERY_BIG <= Hi(pts, axis, k)
    ensures forall i :: 0 <= i < k ==> Coord(pts[i], axis) <= Hi(pts, axis, k)
    ensures Hi(pts, axis, k) == -VERY_BIG || exists i :: 0 <= i < k && Hi(pts, axis, k) == Coord(pts[i], axis)
  {
    if k > 0 {
      HiIsMaximum(pts, axis, k - 1);
    }
  }

  /** p lies in the closed box spanned by the running minima and maxima of pts. */
  predicate InBox(pts: seq<Point>, p: Point) {
    forall axis :: 0 <= axis < 3 ==> Lo(pts, axis, |pts|) <= Coord(p, axis) <= Hi(pts, axis, |pts|)
  }

  /** A point of the set is always in its box. */
  lemma MemberInBox(pts: seq<Point>, i: nat)
    requires i < |pts|
    ensures InBox(pts, pts[i])
  {
    forall axis | 0 <= axis < 3
      ensures Lo(pts, axis, |pts|) <= Coord(pts[i], axis) <= Hi(pts, axis, |pts|)
    {
      LoIsMinimum(pts, axis, |pts|);
      HiIsMaximum(pts, axis, |pts|);
    }
  }
}
