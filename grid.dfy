/**
 * The dual grid of the grid-based ray tracer (mesh_createdualmesh): the
 * bounding box of the nodes padded by EPS on every side, the number of
 * voxels along each axis, and the strides of the flattened voxel index.
 */
module DualGrid {
  import opened Common
  import opened Geometry
  import opened Mesh

  /** The running minima of the first k nodes, one per axis. */
  function LoPoint(node: seq<Point>, k: nat): Point
    requires k <= |node|
  {
    Point(Lo(node, 0, k), Lo(node, 1, k), Lo(node, 2, k))
  }

  /** The running maxima of the first k nodes, one per axis. */
  function HiPoint(node: seq<Point>, k: nat): Point
    requires k <= |node|
  {
    Point(Hi(node, 0, k), Hi(node, 1, k), Hi(node, 2, k))
  }

  /** p moved by d along every axis. */
  function Shift(p: Point, d: real): Point {
    Point(p.x + d, p.y + d, p.z + d)
  }

  /** Voxels needed along one axis: the truncated ratio of the extent to the step, plus one. */
  function AxisCells(lo: real, hi: real, step: real): int
    requires step != 0.0
  {
    Trunc((hi - lo) / step) + 1
  }

  /** Voxel counts along x, y and z. */
  function GridDims(nmin: Point, nmax: Point, steps: Point): (int, int, int)
    requires steps.x != 0.0 && steps.y != 0.0 && steps.z != 0.0
  {
    (AxisCells(nmin.x, nmax.x, steps.x), AxisCells(nmin.y, nmax.y, steps.y), AxisCells(nmin.z, nmax.z, steps.z))
  }

  /** The strides of the voxel index: one row, one slice, the whole grid. */
  function Strides(dim: (int, int, int)): (int, int, int) {
    (dim.0, dim.1 * dim.0, dim.1 * dim.0 * dim.2)
  }

  /**
   * mesh_createdualmesh: the padded bounding box of the nodes, the voxel
   * counts for the configured step sizes, and the index strides.
   */
  method CreateDualMesh(mesh: TetMesh, cfg: Config)
    requires cfg.steps.x != 0.0 && cfg.steps.y != 0.0 && cfg.steps.z != 0.0
    modifies mesh`nmin, mesh`nmax, cfg`dim, cfg`crop0
    ensures mesh.nmin == Shift(LoPoint(mesh.node, |mesh.node|), -EPS)
    ensures mesh.nmax == Shift(HiPoint(mesh.node, |mesh.node|), EPS)
    ensures cfg.dim == GridDims(mesh.nmin, mesh.nmax, cfg.steps)
    ensures cfg.crop0 == Strides(cfg.dim)
  {
    var node := mesh.node;
    mesh.nmin := Point(VERY_BIG, VERY_BIG, VERY_BIG);
    mesh.nmax := Point(-VERY_BIG, -VERY_BIG, -VERY_BIG);
    var i := 0;
    while i < |node|
      invariant 0 <= i <= |node|
      invariant mesh.nmin == LoPoint(node, i) && mesh.nmax == HiPoint(node, i)
    {
      mesh.nmin := Point(Min(node[i].x, mesh.nmin.x), Min(node[i].y, mesh.nmin.y), Min(node[i].z, mesh.nmin.z));
      mesh.nmax := Point(Max(node[i].x, mesh.nmax.x), Max(node[i].y, mesh.nmax.y), Max(node[i].z, mesh.nmax.z));
      i := i + 1;
    }
    mesh.nmin := Point(mesh.nmin.x - EPS, mesh.nmin.y - EPS, mesh.nmin.z - EPS);
    mesh.nmax := Point(mesh.nmax.x + EPS, mesh.nmax.y + EPS, mesh.nmax.z + EPS);
    var dx := Trunc((mesh.nmax.x - mesh.nmin.x) / cfg.steps.x) + 1;
    var dy := Trunc((mesh.nmax.y - mesh.nmin.y) / cfg.steps.y) + 1;
    var dz := Trunc((mesh.nmax.z - mesh.nmin.z) / cfg.steps.z) + 1;
    cfg.dim := (dx, dy, dz);
    cfg.crop0 := (dx, dy * dx, dy * dx * dz);
  }

  /** Every node lies strictly inside the padded box. */
  lemma NodesInsidePaddedBox(node: seq<Point>, i: nat)
    requires i < |node|
    ensures var lo := Shift(LoPoint(node, |node|), -EPS);
            var hi := Shift(HiPoint(node, |node|), EPS);
            lo.x < node[i].x < hi.x && lo.y < node[i].y < hi.y && lo.z < node[i].z < hi.z
  {
    LoIsMinimum(node, 0, |node|);
    LoIsMinimum(node, 1, |node|);
    LoIsMinimum(node, 2, |node|);
    HiIsMaximum(node, 0, |node|);
    HiIsMaximum(node, 1, |node|);
    HiIsMaximum(node, 2, |node|);
  }

  /** The padded box of a non-empty node set has positive extent along every axis. */
  lemma PaddedBoxNonEmpty(node: seq<Point>)
    requires |node| > 0
    ensures var lo := Shift(LoPoint(node, |node|), -EPS);
            var hi := Shift(HiPoint(node, |node|), EPS);
            lo.x < hi.x && lo.y < hi.y && lo.z < hi.z
  {
    NodesInsidePaddedBox(node, 0);
  }

  /** q lies in [t, t + 1) for the truncation t of a non-negative q, so (t + 1) steps exceed q steps. */
  lemma CellsCover(lo: real, hi: real, step: real)
    requires lo < hi && step > 0.0
    ensures AxisCells(lo, hi, step) >= 1
    ensures (AxisCells(lo, hi, step) - 1) as real * step <= hi - lo < AxisCells(lo, hi, step) as real * step
  {
    var q := (hi - lo) / step;
    var t := Trunc(q);
    assert q * step == hi - lo;
    assert q > 0.0;
    assert AxisCells(lo, hi, step) == t + 1;
    ScaleMonotone(t as real, q, step);
    ScaleMonotone(q, t as real + 1.0, step);
    assert (t + 1) as real == t as real + 1.0;
    assert q < t as real + 1.0;
    assert q * step < (t as real + 1.0) * step;
    assert hi - lo < (t + 1) as real * step;
  }

  lemma ScaleMonotone(a: real, b: real, s: real)
    requires a <= b && s > 0.0
    ensures a * s <= b * s
    ensures a < b ==> a * s < b * s
  {
  }

  /**
   * With positive steps and at least one node, the grid has at least one
   * voxel per axis, its voxels span the padded box, and one voxel fewer
   * would not; the strides are the row, slice and grid sizes.
   */
  lemma GridCoversBox(node: seq<Point>, steps: Point)
    requires |node| > 0 && steps.x > 0.0 && steps.y > 0.0 && steps.z > 0.0
    ensures var lo := Shift(LoPoint(node, |node|), -EPS);
            var hi := Shift(HiPoint(node, |node|), EPS);
            var d := GridDims(lo, hi, steps);
            d.0 >= 1 && d.1 >= 1 && d.2 >= 1
            && (d.0 - 1) as real * steps.x <= hi.x - lo.x < d.0 as real * steps.x
            && (d.1 - 1) as real * steps.y <= hi.y - lo.y < d.1 as real * steps.y
            && (d.2 - 1) as real * steps.z <= hi.z - lo.z < d.2 as real * steps.z
  {
    var lo := Shift(LoPoint(node, |node|), -EPS);
    var hi := Shift(HiPoint(node, |node|), EPS);
    PaddedBoxNonEmpty(node);
    CellsCover(lo.x, hi.x, steps.x);
    CellsCover(lo.y, hi.y, steps.y);
    CellsCover(lo.z, hi.z, steps.z);
  }

  /** With at least one voxel per axis every stride is positive and each one is a multiple of the one before. */
  lemma StridesPositive(dim: (int, int, int))
    requires dim.0 >= 1 && dim.1 >= 1 && dim.2 >= 1
    ensures var c := Strides(dim);
            1 <= c.0 <= c.1 <= c.2 && c.1 == dim.1 * c.0 && c.2 == c.1 * dim.2
  {
    var c := Strides(dim);
    IntMonotone(1, dim.1, dim.0);
    IntMonotone(1, dim.2, c.1);
  }

  lemma IntMonotone(a: int, b: int, s: int)
    requires a <= b && s >= 1
    ensures a * s <= b * s
  {
  }
}
