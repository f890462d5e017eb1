/**
 * The polar-angle step of the scattering routine: the cosine drawn from the
 * Henyey-Greenstein phase function is clamped to [-1, 1] before its arc
 * cosine and the matching sine are taken.
 */
module Scatter {

  /** The clamp of the sampled cosine: values above 1 become 1, then values below -1 become -1. */
  function ClampCosine(c: real): (r: real)
    ensures -1.0 <= r <= 1.0
    ensures -1.0 <= c <= 1.0 <==> r == c
    ensures c > 1.0 ==> r == 1.0
    ensures c < -1.0 ==> r == -1.0
  {
    var t := if c > 1.0 then 1.0 else c;
    if t < -1.0 then -1.0 else t
  }

  /** Clamping twice is clamping once. */
  lemma ClampIdempotent(c: real)
    ensures ClampCosine(ClampCosine(c)) == ClampCosine(c)
  {
  }

  /** The sine taken from a clamped cosine has a real square root: 1 - cos^2 lies in [0, 1]. */
  lemma SineDefined(c: real)
    ensures 0.0 <= 1.0 - ClampCosine(c) * ClampCosine(c) <= 1.0
  {
    var r := ClampCosine(c);
    SquareAtMostOne(r);
  }

  lemma SquareAtMostOne(r: real)
    requires -1.0 <= r <= 1.0
    ensures 0.0 <= r * r <= 1.0
  {
    if r >= 0.0 {
      assert r * r <= 1.0 * r;
    } else {
      assert r * r <= (-1.0) * r;
    }
  }

  /**
   * The Henyey-Greenstein polar cosine for anisotropy g drawn with the
   * uniform deviate u, in exact arithmetic.
   */
  function HGCosine(g: real, u: real): real
    requires 0.0 < g < 1.0 && 0.0 <= u <= 1.0
  {
    var d := 1.0 - g + 2.0 * g * u;
    assert d >= 1.0 - g > 0.0 by {
      assert g * u >= 0.0;
    }
    var s := (1.0 - g * g) / d;
    (1.0 + g * g - s * s) / (2.0 * g)
  }

  /** a / b lies between lo and hi when a lies between lo * b and hi * b, b positive. */
  lemma QuotientBetween(a: real, b: real, lo: real, hi: real)
    requires b > 0.0 && lo * b <= a <= hi * b
    ensures lo <= a / b <= hi
  {
    var q := a / b;
    assert q * b == a;
    var dl, dh := q - lo, hi - q;
    assert dl * b == a - lo * b;
    assert dh * b == hi * b - a;
    NonNegativeFactor(dl, b);
    NonNegativeFactor(dh, b);
  }

  lemma NonNegativeFactor(a: real, b: real)
    requires b > 0.0 && a * b >= 0.0
    ensures a >= 0.0
  {
  }

  /** Multiplying by a non-negative factor keeps an order. */
  lemma MulMonotone(c: real, x: real, y: real)
    requires c >= 0.0 && x <= y
    ensures c * x <= c * y
  {
    assert c * y - c * x == c * (y - x);
  }

  /** The denominator of the sampling formula lies in [1 - g, 1 + g]. */
  lemma DenominatorBetween(g: real, u: real)
    requires 0.0 < g < 1.0 && 0.0 <= u <= 1.0
    ensures 1.0 - g <= 1.0 - g + 2.0 * g * u <= 1.0 + g
  {
    MulMonotone(g, 0.0, u);
    MulMonotone(g, u, 1.0);
  }

  /** (1 - g^2) / d lies in [1 - g, 1 + g] for d in [1 - g, 1 + g]. */
  lemma RatioBetween(g: real, d: real)
    requires 0.0 < g < 1.0 && 1.0 - g <= d <= 1.0 + g
    ensures 1.0 - g <= (1.0 - g * g) / d <= 1.0 + g
  {
    var a := 1.0 - g * g;
    assert (1.0 - g) * (1.0 + g) == a;
    MulMonotone(1.0 - g, d, 1.0 + g);
    MulMonotone(1.0 + g, 1.0 - g, d);
    assert (1.0 - g) * d == d * (1.0 - g);
    assert (1.0 + g) * d == d * (1.0 + g);
    QuotientBetween(a, d, 1.0 - g, 1.0 + g);
  }

  /** Squaring keeps the order of non-negative numbers. */
  lemma SquareBetween(lo: real, s: real, hi: real)
    requires 0.0 <= lo <= s <= hi
    ensures lo * lo <= s * s <= hi * hi
  {
    MulMonotone(lo, lo, s);
    MulMonotone(s, lo, s);
    MulMonotone(s, s, hi);
    MulMonotone(hi, s, hi);
  }

  /** The sampled cosine lies in [-1, 1] once s lies in [1 - g, 1 + g]. */
  lemma CosineBetween(g: real, s: real)
    requires 0.0 < g < 1.0 && 1.0 - g <= s <= 1.0 + g
    ensures -1.0 <= (1.0 + g * g - s * s) / (2.0 * g) <= 1.0
  {
    SquareBetween(1.0 - g, s, 1.0 + g);
    assert (1.0 + g) * (1.0 + g) == 1.0 + 2.0 * g + g * g;
    assert (1.0 - g) * (1.0 - g) == 1.0 - 2.0 * g + g * g;
    var num := 1.0 + g * g - s * s;
    assert -1.0 * (2.0 * g) <= num <= 1.0 * (2.0 * g);
    QuotientBetween(num, 2.0 * g, -1.0, 1.0);
  }

  /**
   * In exact arithmetic the sampled cosine never leaves [-1, 1], so the
   * clamp only absorbs rounding and leaves the exact value alone.
   */
  lemma HGCosineInRange(g: real, u: real)
    requires 0.0 < g < 1.0 && 0.0 <= u <= 1.0
    ensures -1.0 <= HGCosine(g, u) <= 1.0
    ensures ClampCosine(HGCosine(g, u)) == HGCosine(g, u)
  {
    var d := 1.0 - g + 2.0 * g * u;
    DenominatorBetween(g, u);
    RatioBetween(g, d);
    CosineBetween(g, (1.0 - g * g) / d);
  }

  /** a / c is y when a is c * y. */
  lemma DivExact(a: real, c: real, y: real)
    requires c != 0.0 && a == c * y
    ensures a / c == y
  {
  }

  /** The deviate 0 samples straight back-scattering. */
  lemma HGCosineBackward(g: real)
    requires 0.0 < g < 1.0
    ensures HGCosine(g, 0.0) == -1.0
  {
    var d := 1.0 - g + 2.0 * g * 0.0;
    assert 1.0 - g * g == d * (1.0 + g);
    DivExact(1.0 - g * g, d, 1.0 + g);
    assert 1.0 + g * g - (1.0 + g) * (1.0 + g) == (2.0 * g) * -1.0;
    DivExact(1.0 + g * g - (1.0 + g) * (1.0 + g), 2.0 * g, -1.0);
  }

  /** The deviate 1 samples straight forward scattering. */
  lemma HGCosineForward(g: real)
    requires 0.0 < g < 1.0
    ensures HGCosine(g, 1.0) == 1.0
  {
    var d := 1.0 - g + 2.0 * g * 1.0;
    assert 1.0 - g * g == d * (1.0 - g);
    DivExact(1.0 - g * g, d, 1.0 - g);
    assert 1.0 + g * g - (1.0 - g) * (1.0 - g) == (2.0 * g) * 1.0;
    DivExact(1.0 + g * g - (1.0 - g) * (1.0 - g), 2.0 * g, 1.0);
  }
}
