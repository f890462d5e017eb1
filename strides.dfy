/**
 * Row-major index arithmetic shared by the flat buffers: an entry of row
 * q and column p of a table with s columns sits at q * s + p.
 */
module Strides {
  /** A positive multiple of s is at least s. */
  lemma {:induction false} MulAtLeast(x: nat, s: nat)
    requires x >= 1
    ensures x * s >= s
  {
    if x > 1 {
      MulAtLeast(x - 1, s);
      assert x * s == (x - 1) * s + s;
    }
  }

  /** Row q and column p of a row-major layout with s columns. */
  lemma RowCol(q: nat, s: nat, p: nat)
    requires p < s
    ensures (q * s + p) / s == q && (q * s + p) % s == p
  {
    var m := q * s + p;
    var a, b := m / s, m % s;
    assert m == a * s + b && 0 <= b < s;
    if a < q {
      assert (q - a) * s == q * s - a * s;
      MulAtLeast(q - a, s);
    } else if a > q {
      assert (a - q) * s == a * s - q * s;
      MulAtLeast(a - q, s);
    }
  }

  /** A row below n ends before the end of a table of n rows of s entries. */
  lemma RowInside(q: nat, n: nat, s: nat, p: nat)
    requires q < n && p < s
    ensures q * s + p < n * s
  {
    MulAtLeast(n - q, s);
    assert (n - q) * s == n * s - q * s;
  }

  /** g rows of s entries fit in h rows when g <= h. */
  lemma RowsWithin(g: nat, h: nat, s: nat)
    requires g <= h
    ensures g * s <= h * s
  {
    if g < h {
      MulAtLeast(h - g, s);
      assert (h - g) * s == h * s - g * s;
    }
  }
}
