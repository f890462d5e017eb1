/**
 * Detected-photon records and the area-detector raster (mesh_getdetweight,
 * mesh_getdetimage). A record is cc consecutive floats of the partial-path
 * buffer: the detector id first, per-medium path lengths at fixed column
 * offsets, the exit position in columns cc - 7 and cc - 6 and the
 * detected weight last.
 */
module Detector {
  import opened Common
  import opened Strides

  /** Column c of record i, cc columns per record. */
  function Field(ppath: seq<real>, cc: nat, i: nat, c: nat): real
    requires c < cc && (i + 1) * cc <= |ppath|
  {
    assert i * cc + c < (i + 1) * cc;
    ppath[i * cc + c]
  }

  /** Record i of count lies inside a buffer of count records. */
  lemma RecordInside(i: nat, count: nat, cc: nat)
    requires i < count
    ensures (i + 1) * cc <= count * cc
  {
    RowsWithin(i + 1, count, cc);
  }

  /**
   * The optical path of record i over media 1..k: the path length in
   * medium k' (column off + k') times its refractive index.
   */
  function OpticalPath(ppath: seq<real>, cc: nat, i: nat, off: nat, med: seq<Medium>, k: nat): real
    requires off + k < cc && k < |med| && (i + 1) * cc <= |ppath|
  {
    if k == 0 then 0.0
    else OpticalPath(ppath, cc, i, off, med, k - 1) + Field(ppath, cc, i, off + k) * med[k].n
  }

  /**
   * A weight w after the absorption of media 1..k: one factor
   * expf(-path * mua * unitinmm) per medium, the exponential being a
   * parameter.
   */
  function Attenuated(w: real, ppath: seq<real>, cc: nat, i: nat, off: nat, med: seq<Medium>,
                      expf: real -> real, unitinmm: real, k: nat): real
    requires off + k < cc && k < |med| && (i + 1) * cc <= |ppath|
  {
    if k == 0 then w
    else Attenuated(w, ppath, cc, i, off, med, expf, unitinmm, k - 1) * Decay(expf, Field(ppath, cc, i, off + k), med[k].mua, unitinmm)
  }

  /** The surviving fraction after a path through a medium of absorption mua (path in grid units). */
  function Decay(expf: real -> real, path: real, mua: real, unitinmm: real): real {
    expf(-path * mua * unitinmm)
  }

  /** An area detector: the plane origin (detpos[0]), its extent along x and y, and its raster size. */
  datatype Plane = Plane(x0: real, y0: real, xrange: real, yrange: real, xsize: int, ysize: int)

  /** The raster column (or row) of a coordinate: (loc - origin) / range * size, converted to int by truncation. */
  function CellOf(loc: real, origin: real, range: real, size: int): int {
    Trunc(Quot(loc - origin, range) * size as real)
  }

  predicate InRaster(k: int, size: int) {
    0 <= k <= size - 1
  }

  /** Row-major raster index of column x and row y. */
  function CellIndex(x: int, y: int, xsize: int): int {
    y * xsize + x
  }

  /** A cell inside the raster has an index inside it, from which its column and row come back. */
  lemma CellIndexInRaster(x: int, y: int, xsize: int, ysize: int)
    requires InRaster(x, xsize) && InRaster(y, ysize)
    ensures 0 <= CellIndex(x, y, xsize) < xsize * ysize
    ensures CellIndex(x, y, xsize) % xsize == x && CellIndex(x, y, xsize) / xsize == y
  {
    RowInside(y, ysize, xsize, x);
    assert ysize * xsize == xsize * ysize;
    RowCol(y, xsize, x);
  }

  /** Two cells of the raster share an index only if they are the same cell. */
  lemma CellIndexInjective(x: int, y: int, x': int, y': int, xsize: int, ysize: int)
    requires InRaster(x, xsize) && InRaster(y, ysize) && InRaster(x', xsize) && InRaster(y', ysize)
    requires CellIndex(x, y, xsize) == CellIndex(x', y', xsize)
    ensures x == x' && y == y'
  {
    CellIndexInRaster(x, y, xsize, ysize);
    CellIndexInRaster(x', y', xsize, ysize);
  }

  /** The pattern value of a raster cell. */
  function PatternAt(pattern: seq<real>, x: int, y: int, xsize: int, ysize: int): real
    requires InRaster(x, xsize) && InRaster(y, ysize) && xsize * ysize <= |pattern|
  {
    CellIndexInRaster(x, y, xsize, ysize);
    pattern[CellIndex(x, y, xsize)]
  }

  /** The raster column and row of the exit position of record i. */
  function ExitColumn(ppath: seq<real>, cc: nat, i: nat, plane: Plane): int
    requires 7 <= cc && (i + 1) * cc <= |ppath|
  {
    CellOf(Field(ppath, cc, i, cc - 7), plane.x0, plane.xrange, plane.xsize)
  }

  function ExitRow(ppath: seq<real>, cc: nat, i: nat, plane: Plane): int
    requires 7 <= cc && (i + 1) * cc <= |ppath|
  {
    CellOf(Field(ppath, cc, i, cc - 6), plane.y0, plane.yrange, plane.ysize)
  }

  const MSG_OFF_PLANE := "photon location not within the detection plane"

  /**
   * mesh_getdetweight: the detection-pattern value at the exit position of
   * record id, an error when that position is off the raster.
   */
  function DetWeight(ppath: seq<real>, cc: nat, id: nat, plane: Plane, pattern: seq<real>): (r: Result<real>)
    requires 7 <= cc && (id + 1) * cc <= |ppath| && plane.xsize * plane.ysize <= |pattern|
    ensures r.Ok? <==> InRaster(ExitColumn(ppath, cc, id, plane), plane.xsize) && InRaster(ExitRow(ppath, cc, id, plane), plane.ysize)
    ensures r.Ok? ==> r.value == PatternAt(pattern, ExitColumn(ppath, cc, id, plane), ExitRow(ppath, cc, id, plane), plane.xsize, plane.ysize)
    ensures r.Err? ==> r.msg == MSG_OFF_PLANE
  {
    var x, y := ExitColumn(ppath, cc, id, plane), ExitRow(ppath, cc, id, plane);
    if !InRaster(x, plane.xsize) || !InRaster(y, plane.ysize) then Err(MSG_OFF_PLANE)
    else Ok(PatternAt(pattern, x, y, plane.xsize, plane.ysize))
  }

  /**
   * Conversion by truncation puts a position up to one cell before the
   * plane origin into column 0: it is binned rather than rejected.
   */
  lemma NearMissBinnedAtEdge(loc: real, origin: real, range: real, size: int)
    requires range > 0.0 && size > 0
    requires origin - range / size as real < loc < origin
    ensures CellOf(loc, origin, range, size) == 0
  {
    var x, n := loc - origin, size as real;
    var q := x / range;
    assert Quot(x, range) == q;
    assert q * range == x;
    assert x * n > -range by {
      assert range / n * n == range;
      assert (x + range / n) * n > 0.0;
    }
    var r := q * n;
    assert r * range == x * n;
    assert -1.0 < r by {
      assert (r + 1.0) * range == x * n + range;
      PositiveFactor(r + 1.0, range);
    }
    assert r < 0.0 by {
      assert q < 0.0;
    }
  }

  lemma PositiveFactor(a: real, b: real)
    requires b > 0.0 && a * b > 0.0
    ensures a > 0.0
  {
  }

  // ---------------------------------------------------------------------
  // Time gates

  /** The gate of a photon whose optical path is path: its time of flight path * R_C0 over the gate width. */
  function GateOf(path: real, tstep: real): int
    requires tstep > 0.0
  {
    Trunc(path * R_C0 / tstep)
  }

  /** mesh_getdetimage as written: the cast binds to path alone, so the path is truncated before it becomes a time. */
  function GateAsWritten(path: real, tstep: real): int
    requires tstep > 0.0
  {
    Trunc(Trunc(path) as real * R_C0 / tstep)
  }

  /** The gate of a photon holds its time of flight: gate g covers [g * tstep, (g + 1) * tstep). */
  lemma GateHoldsTime(path: real, tstep: real)
    requires tstep > 0.0 && path >= 0.0
    ensures 0 <= GateOf(path, tstep)
    ensures GateOf(path, tstep) as real * tstep <= path * R_C0 < GateOf(path, tstep) as real * tstep + tstep
  {
    TruncBracket(path * R_C0, tstep);
  }

  /** Truncating t / w to g puts t in [g * w, (g + 1) * w). */
  lemma TruncBracket(t: real, w: real)
    requires w > 0.0 && t >= 0.0
    ensures 0 <= Trunc(t / w)
    ensures Trunc(t / w) as real * w <= t
    ensures t < Trunc(t / w) as real * w + w
  {
    Scaled(t / w, w, Trunc(t / w) as real, t);
  }

  lemma Scaled(q: real, w: real, g: real, t: real)
    requires w > 0.0 && g <= q < g + 1.0 && q == t / w
    ensures g * w <= t < g * w + w
  {
    var d := q - g;
    assert 0.0 <= d < 1.0;
    assert 0.0 <= d * w < w;
    assert d * w == t - g * w;
  }

  /**
   * The truncated path misses the gate: a path of 0.9 with gates of half
   * the time R_C0 arrives at 1.8 gates, in gate 1, but is binned in gate 0.
   */
  lemma GateAsWrittenMissesTime()
    ensures GateAsWritten(0.9, R_C0 / 2.0) == 0
    ensures GateOf(0.9, R_C0 / 2.0) == 1
    ensures !(GateAsWritten(0.9, R_C0 / 2.0) as real * (R_C0 / 2.0) <= 0.9 * R_C0 < (GateAsWritten(0.9, R_C0 / 2.0) + 1) as real * (R_C0 / 2.0))
  {
    assert 0.9 * R_C0 / (R_C0 / 2.0) == 1.8;
    assert Trunc(0.9) == 0;
  }

  /** Gates past the last one are folded into it. */
  function ClampedGate(path: real, tstep: real, maxgate: nat): (g: int)
    requires tstep > 0.0 && maxgate >= 1
    ensures g <= maxgate - 1
    ensures g == GateOf(path, tstep) || (g == maxgate - 1 && GateOf(path, tstep) > maxgate - 1)
  {
    var g := GateOf(path, tstep);
    if g > maxgate - 1 then maxgate - 1 else g
  }

  // ---------------------------------------------------------------------
  // The detector image

  /**
   * The fixed inputs of one binning run: cc columns per record, maxmedia
   * media, the media table, the plane, maxgate gates of width tstep, the
   * length unit and the exponential.
   */
  datatype Binning = Binning(cc: nat, maxmedia: nat, med: seq<Medium>, plane: Plane, maxgate: nat, tstep: real,
                             unitinmm: real, expf: real -> real)

  /** The record width of the exit-position history: id, scattering counts, paths, momenta if saved, exit data, weight. */
  function ImageColumns(ismomentum: int, maxmedia: nat): nat {
    (2 + (if ismomentum > 0 then 1 else 0)) * maxmedia + 6 + 2
  }

  /** The length unit of the binning: the history's own unit, or 1 on the voxel grid. */
  function ImageUnit(rayMethod: RayMethod, hisunit: real): real {
    if rayMethod != BLBadouelGrid then hisunit else 1.0
  }

  /** A four-component detector parameter: x, y, z and w (the raster size, stored as a float). */
  datatype Param4 = Param4(x: real, y: real, z: real, w: real)

  /**
   * What mesh_getdetimage reads from the configuration and the mesh: the
   * momentum flag, the ray-tracing method, the history's media count and
   * unit, the first detector position, the two detector parameters, the
   * media table, the gates and the exponential.
   */
  datatype ImageSetup = ImageSetup(ismomentum: int, rayMethod: RayMethod, hisMaxmedia: nat, hisUnit: real,
                                   detpos0: Point, detparam1: Param4, detparam2: Param4,
                                   med: seq<Medium>, maxgate: nat, tstep: real, expf: real -> real)

  /**
   * The raster of the area detector: its origin is detpos[0], its extent
   * the sum of the two parameters' x (and y) components, its size their w
   * components truncated to int.
   */
  function ImagePlane(detpos0: Point, p1: Param4, p2: Param4): Plane {
    Plane(detpos0.x, detpos0.y, p1.x + p2.x, p1.y + p2.y, Trunc(p1.w), Trunc(p2.w))
  }

  /**
   * The binning mesh_getdetimage sets up before its loop. Every record it
   * reads is wide enough for the path columns and the exit data, and the
   * unit is the history's own unless the voxel grid is traced.
   */
  function SetupBinning(s: ImageSetup): (b: Binning)
    ensures 2 * b.maxmedia + 8 <= b.cc && b.maxmedia == s.hisMaxmedia
    ensures s.ismomentum > 0 ==> b.cc == 3 * b.maxmedia + 8
    ensures s.ismomentum <= 0 ==> b.cc == 2 * b.maxmedia + 8
    ensures b.unitinmm == (if s.rayMethod == BLBadouelGrid then 1.0 else s.hisUnit)
    ensures b.plane.xsize == Trunc(s.detparam1.w) && b.plane.ysize == Trunc(s.detparam2.w)
  {
    Binning(ImageColumns(s.ismomentum, s.hisMaxmedia), s.hisMaxmedia, s.med,
            ImagePlane(s.detpos0, s.detparam1, s.detparam2), s.maxgate, s.tstep,
            ImageUnit(s.rayMethod, s.hisUnit), s.expf)
  }

  /** count records can be read, with path columns maxmedia + 1 .. 2 * maxmedia, and photons land in a gate. */
  predicate Readable(ppath: seq<real>, b: Binning, count: nat) {
    2 * b.maxmedia + 8 <= b.cc && b.maxmedia < |b.med| && count * b.cc <= |ppath| &&
    b.tstep > 0.0 && b.maxgate >= 1
  }

  /** The optical path of photon i (media 1..maxmedia, path columns after the scattering counts). */
  function PhotonPath(ppath: seq<real>, b: Binning, count: nat, i: nat): real
    requires Readable(ppath, b, count) && i < count
  {
    RecordInside(i, count, b.cc);
    OpticalPath(ppath, b.cc, i, b.maxmedia, b.med, b.maxmedia)
  }

  /** The detected weight of photon i after absorption along its paths. */
  function PhotonWeight(ppath: seq<real>, b: Binning, count: nat, i: nat): real
    requires Readable(ppath, b, count) && i < count
  {
    RecordInside(i, count, b.cc);
    Attenuated(Field(ppath, b.cc, i, b.cc - 1), ppath, b.cc, i, b.maxmedia, b.med, b.expf, b.unitinmm, b.maxmedia)
  }

  /** The raster column and row of the exit position of photon i. */
  function PhotonColumn(ppath: seq<real>, b: Binning, count: nat, i: nat): int
    requires Readable(ppath, b, count) && i < count
  {
    RecordInside(i, count, b.cc);
    ExitColumn(ppath, b.cc, i, b.plane)
  }

  function PhotonRow(ppath: seq<real>, b: Binning, count: nat, i: nat): int
    requires Readable(ppath, b, count) && i < count
  {
    RecordInside(i, count, b.cc);
    ExitRow(ppath, b.cc, i, b.plane)
  }

  /** The image holds maxgate frames of xsize * ysize cells. */
  predicate Fits(b: Binning, len: nat) {
    b.plane.xsize > 0 && b.plane.ysize > 0 ==> b.plane.xsize * b.plane.ysize * b.maxgate <= len
  }

  /** The image cell of gate g, column x and row y. */
  function ImageIndex(g: int, x: int, y: int, xsize: int, ysize: int): int {
    g * xsize * ysize + CellIndex(x, y, xsize)
  }

  /** An in-raster cell of a gate below maxgate lies in the image, and its gate and cell come back from the index. */
  lemma ImageIndexInside(g: int, x: int, y: int, xsize: int, ysize: int, maxgate: nat)
    requires 0 <= g < maxgate && InRaster(x, xsize) && InRaster(y, ysize)
    ensures 0 <= ImageIndex(g, x, y, xsize, ysize) < xsize * ysize * maxgate
    ensures ImageIndex(g, x, y, xsize, ysize) / (xsize * ysize) == g
    ensures ImageIndex(g, x, y, xsize, ysize) % (xsize * ysize) == CellIndex(x, y, xsize)
  {
    var c, f := CellIndex(x, y, xsize), xsize * ysize;
    CellIndexInRaster(x, y, xsize, ysize);
    assert g * xsize * ysize == g * f;
    RowInside(g, maxgate, f, c);
    assert maxgate * f == xsize * ysize * maxgate;
    RowCol(g, f, c);
  }

  /**
   * The image cell of photon i: its gate (clamped to the last) and the
   * raster cell of its exit position, or None when it exits off the
   * raster.
   */
  function BinOf(ppath: seq<real>, b: Binning, count: nat, i: nat): (r: Option<nat>)
    requires Readable(ppath, b, count) && i < count && PhotonPath(ppath, b, count, i) >= 0.0
    ensures r.Some? <==> InRaster(PhotonColumn(ppath, b, count, i), b.plane.xsize) && InRaster(PhotonRow(ppath, b, count, i), b.plane.ysize)
    ensures r.Some? ==> r.value < b.plane.xsize * b.plane.ysize * b.maxgate
    ensures r.Some? ==> r.value / (b.plane.xsize * b.plane.ysize) == ClampedGate(PhotonPath(ppath, b, count, i), b.tstep, b.maxgate)
    ensures r.Some? ==> r.value % (b.plane.xsize * b.plane.ysize) == CellIndex(PhotonColumn(ppath, b, count, i), PhotonRow(ppath, b, count, i), b.plane.xsize)
  {
    var x, y := PhotonColumn(ppath, b, count, i), PhotonRow(ppath, b, count, i);
    if !InRaster(x, b.plane.xsize) || !InRaster(y, b.plane.ysize) then None
    else
      var g := ClampedGate(PhotonPath(ppath, b, count, i), b.tstep, b.maxgate);
      assert 0 <= g by {
        GateHoldsTime(PhotonPath(ppath, b, count, i), b.tstep);
      }
      ImageIndexInside(g, x, y, b.plane.xsize, b.plane.ysize, b.maxgate);
      Some(ImageIndex(g, x, y, b.plane.xsize, b.plane.ysize))
  }

  /** Every photon travels a non-negative optical path. */
  predicate ForwardPaths(ppath: seq<real>, b: Binning, count: nat)
    requires Readable(ppath, b, count)
  {
    forall i :: 0 <= i < count ==> PhotonPath(ppath, b, count, i) >= 0.0
  }

  /** The image after the first i photons are binned into m0: each adds its weight to its cell. */
  function Binned(m0: seq<real>, ppath: seq<real>, b: Binning, count: nat, i: nat): (r: seq<real>)
    requires Readable(ppath, b, count) && ForwardPaths(ppath, b, count) && Fits(b, |m0|) && i <= count
    ensures |r| == |m0|
  {
    if i == 0 then m0
    else
      var prev := Binned(m0, ppath, b, count, i - 1);
      match BinOf(ppath, b, count, i - 1)
      case None => prev
      case Some(k) => prev[k := prev[k] + PhotonWeight(ppath, b, count, i - 1)]
  }

  function Sum(s: seq<real>): real {
    if |s| == 0 then 0.0 else Sum(s[..|s| - 1]) + s[|s| - 1]
  }

  /** Adding w to one entry adds w to the sum. */
  lemma {:induction false} SumAdd(s: seq<real>, k: nat, w: real)
    requires k < |s|
    ensures Sum(s[k := s[k] + w]) == Sum(s) + w
  {
    var t := s[k := s[k] + w];
    if k == |s| - 1 {
      assert t[..|t| - 1] == s[..|s| - 1];
    } else {
      assert t[..|t| - 1] == s[..|s| - 1][k := s[k] + w];
      SumAdd(s[..|s| - 1], k, w);
    }
  }

  /** The total weight of the first i photons that land on the raster. */
  function LandedWeight(ppath: seq<real>, b: Binning, count: nat, i: nat): real
    requires Readable(ppath, b, count) && ForwardPaths(ppath, b, count) && i <= count
  {
    if i == 0 then 0.0
    else LandedWeight(ppath, b, count, i - 1) + (if BinOf(ppath, b, count, i - 1).Some? then PhotonWeight(ppath, b, count, i - 1) else 0.0)
  }

  /** Binning keeps the weight: the image total grows by exactly the weight of the photons that land on it. */
  lemma {:induction false} BinnedKeepsWeight(m0: seq<real>, ppath: seq<real>, b: Binning, count: nat, i: nat)
    requires Readable(ppath, b, count) && ForwardPaths(ppath, b, count) && Fits(b, |m0|) && i <= count
    ensures Sum(Binned(m0, ppath, b, count, i)) == Sum(m0) + LandedWeight(ppath, b, count, i)
  {
    if i > 0 {
      BinnedKeepsWeight(m0, ppath, b, count, i - 1);
      var prev := Binned(m0, ppath, b, count, i - 1);
      match BinOf(ppath, b, count, i - 1)
      case None =>
      case Some(k) => SumAdd(prev, k, PhotonWeight(ppath, b, count, i - 1));
    }
  }

  /** Binning touches only the cells photons land in: a cell no photon lands in keeps its value. */
  lemma {:induction false} BinnedElsewhereUnchanged(m0: seq<real>, ppath: seq<real>, b: Binning, count: nat, i: nat, k: nat)
    requires Readable(ppath, b, count) && ForwardPaths(ppath, b, count) && Fits(b, |m0|) && i <= count && k < |m0|
    requires forall i' :: 0 <= i' < i ==> BinOf(ppath, b, count, i') != Some(k)
    ensures Binned(m0, ppath, b, count, i)[k] == m0[k]
  {
    if i > 0 {
      BinnedElsewhereUnchanged(m0, ppath, b, count, i - 1, k);
    }
  }

  /** The inner loop of mesh_getdetimage: optical path and attenuated weight of photon i. */
  method PhotonPathWeight(ppath: seq<real>, b: Binning, count: nat, i: nat) returns (path: real, weight: real)
    requires Readable(ppath, b, count) && i < count
    ensures path == PhotonPath(ppath, b, count, i) && weight == PhotonWeight(ppath, b, count, i)
  {
    RecordInside(i, count, b.cc);
    path := 0.0;
    weight := Field(ppath, b.cc, i, b.cc - 1);
    var j := 1;
    while j <= b.maxmedia
      invariant 1 <= j <= b.maxmedia + 1
      invariant path == OpticalPath(ppath, b.cc, i, b.maxmedia, b.med, j - 1)
      invariant weight == Attenuated(Field(ppath, b.cc, i, b.cc - 1), ppath, b.cc, i, b.maxmedia, b.med, b.expf, b.unitinmm, j - 1)
    {
      var p := Field(ppath, b.cc, i, b.maxmedia + j);
      path := path + p * b.med[j].n;
      weight := weight * Decay(b.expf, p, b.med[j].mua, b.unitinmm);
      j := j + 1;
    }
  }

  /**
   * mesh_getdetimage: every photon that exits on the raster adds its
   * weight to the cell of its exit position in the frame of its gate.
   */
  method DetImage(detmap: array<real>, ppath: seq<real>, count: nat, s: ImageSetup)
    requires Readable(ppath, SetupBinning(s), count) && ForwardPaths(ppath, SetupBinning(s), count)
    requires Fits(SetupBinning(s), detmap.Length)
    modifies detmap
    ensures detmap[..] == Binned(old(detmap[..]), ppath, SetupBinning(s), count, count)
  {
    var b := SetupBinning(s);
    ghost var m0 := detmap[..];
    var i := 0;
    while i < count
      invariant i <= count
      invariant detmap[..] == Binned(m0, ppath, b, count, i)
    {
      var path, weight := PhotonPathWeight(ppath, b, count, i);
      var bin := BinOf(ppath, b, count, i);
      if bin.Some? {
        detmap[bin.value] := detmap[bin.value] + weight;
      }
      i := i + 1;
    }
  }
}
