/**
 * Shared vocabulary of the mesh model: points and the three-vector helpers,
 * the numeric constants of the simulator, C's float-to-int conversion and
 * the result type used wherever the C code calls its fatal error handler.
 */
module Common {

  /** A node coordinate (FLOAT3 in the C code); every float is a real here. */
  datatype Point = Point(x: real, y: real, z: real)

  /** The optical properties of one medium: absorption, scattering, anisotropy, refractive index. */
  datatype Medium = Medium(mua: real, mus: real, g: real, n: real)

  /** Outcome of an operation that either succeeds or stops the run with a mesh error. */
  datatype Result<T> = Ok(value: T) | Err(msg: string)

  datatype Option<T> = None | Some(value: T)

  /** Ray-tracing method selector; only the dual-grid variant changes the bookkeeping passes. */
  datatype RayMethod = Plucker | Havel | Badouel | BLBadouel | BLBadouelGrid

  /** Tolerance used by the ROI passes and the dual-mesh box (mmc_const.h is not part of this model; the proofs use only 0 < EPS < 1). */
  const EPS: real := 0.000001

  /** Initial value of running minima and maxima (the proofs use only its positivity). */
  const VERY_BIG: real := 10000000000.0

  /** Reciprocal of the speed of light in vacuum, in s/mm. */
  const R_C0: real := 0.00000000000333564095198152

  /** Absorption perturbation step used by the Jacobian output (the proofs use only its positivity). */
  const DELTA_MUA: real := 0.0001

  /** Components of b - a (the convention of the vector helper vec_diff3(a, b, res)). */
  function Diff(a: Point, b: Point): Point {
    Point(b.x - a.x, b.y - a.y, b.z - a.z)
  }

  function Cross(a: Point, b: Point): Point {
    Point(a.y * b.z - a.z * b.y, a.z * b.x - a.x * b.z, a.x * b.y - a.y * b.x)
  }

  function Dot(a: Point, b: Point): real {
    a.x * b.x + a.y * b.y + a.z * b.z
  }

  /** Axis 0, 1, 2 selects x, y, z. */
  function Coord(p: Point, axis: nat): real
    requires axis < 3
  {
    if axis == 0 then p.x else if axis == 1 then p.y else p.z
  }

  function Min(a: real, b: real): real { if a < b then a else b }

  function Max(a: real, b: real): real { if a > b then a else b }

  function Abs(r: real): real { if r < 0.0 then -r else r }

  /**
   * C's conversion of a float to an int: truncation toward zero, not floor.
   */
  function Trunc(r: real): (t: int)
    ensures 0.0 <= r ==> 0 <= t && t as real <= r < t as real + 1.0
    ensures r < 0.0 ==> t <= 0 && t as real - 1.0 < r <= t as real
  {
    if r >= 0.0 then r.Floor else -((-r).Floor)
  }

  /**
   * Division of reals. A zero divisor, where C's float division gives an
   * infinity or NaN, gives 0 here.
   */
  function Quot(a: real, b: real): (q: real)
    ensures b != 0.0 ==> q * b == a
    ensures b == 0.0 ==> q == 0.0
  {
    if b == 0.0 then 0.0 else a / b
  }
}
