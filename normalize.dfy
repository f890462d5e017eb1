/**
 * The output normalisation (mesh_normalize). The accumulator holds, for
 * time gate i, spatial unit j and source pair, the entry
 * (i * datalen + j) * srcnum + pair; one call rescales the column of one
 * source: rows q = i * datalen + j below maxgate * datalen, column pair.
 */
module Normalize {
  import opened Common
  import opened Mesh
  import opened Strides

  /** The accumulator entry of gate i, unit j and source p, d units and s sources per gate. */
  function Slot(d: nat, s: nat, p: nat, i: nat, j: nat): nat {
    (i * d + j) * s + p
  }

  /** The entry of gate i < g and unit j < d lies inside the g * d * s table, in row i * d + j and column p. */
  lemma SlotSpec(d: nat, s: nat, p: nat, g: nat, i: nat, j: nat)
    requires i < g && j < d && p < s
    ensures i * d + j < g * d
    ensures Slot(d, s, p, i, j) < g * d * s
    ensures Slot(d, s, p, i, j) / s == i * d + j && Slot(d, s, p, i, j) % s == p
    ensures (i * d + j) / d == i && (i * d + j) % d == j
  {
    RowCol(i, d, j);
    RowInside(i, g, d, j);
    RowInside(i * d + j, g * d, s, p);
    RowCol(i * d + j, s, p);
  }

  /** What one pass does to one accumulator entry of unit j: multiply by a factor, or divide by the unit's divisor. */
  datatype Op = Times(f: real) | Over(den: seq<real>, guarded: bool)

  /**
   * The divisor form divides by den[j], and only where den[j] > 0 when
   * guarded (the node basis skips nodes without volume).
   */
  function Apply(op: Op, x: real, j: nat): real {
    match op
    case Times(f) => x * f
    case Over(den, guarded) =>
      if j < |den| && (!guarded || den[j] > 0.0) then Quot(x, den[j]) else x
  }

  /**
   * The accumulator after a pass over column p has handled every unit of
   * the gates before i and the units before j of gate i, each entry being
   * rewritten once from its current value.
   */
  function Mapped(w: seq<real>, d: nat, s: nat, p: nat, op: Op, i: nat, j: nat): (r: seq<real>)
    requires p < s && j <= d && (i * d + j) * s <= |w|
    ensures |r| == |w|
    decreases i, j
  {
    if j > 0 then
      RowsWithin(i * d + j - 1, i * d + j, s);
      RowInside(i * d + j - 1, i * d + j, s, p);
      var v := Mapped(w, d, s, p, op, i, j - 1);
      v[Slot(d, s, p, i, j - 1) := Apply(op, v[Slot(d, s, p, i, j - 1)], j - 1)]
    else if i > 0 then
      assert (i - 1) * d + d == i * d;
      Mapped(w, d, s, p, op, i - 1, d)
    else w
  }

  /** Entries from row i * d + j on are still untouched. */
  lemma {:induction false} MappedAhead(w: seq<real>, d: nat, s: nat, p: nat, op: Op, i: nat, j: nat, m: nat)
    requires p < s && j <= d && (i * d + j) * s <= |w|
    requires (i * d + j) * s <= m < |w|
    ensures Mapped(w, d, s, p, op, i, j)[m] == w[m]
    decreases i, j
  {
    if j > 0 {
      RowsWithin(i * d + j - 1, i * d + j, s);
      RowInside(i * d + j - 1, i * d + j, s, p);
      MappedAhead(w, d, s, p, op, i, j - 1, m);
    } else if i > 0 {
      assert (i - 1) * d + d == i * d;
      MappedAhead(w, d, s, p, op, i - 1, d, m);
    }
  }

  /** Finishing gate i is starting gate i + 1. */
  lemma MappedNextGate(w: seq<real>, d: nat, s: nat, p: nat, op: Op, i: nat)
    requires p < s && ((i + 1) * d) * s <= |w|
    ensures i * d + d == (i + 1) * d
    ensures Mapped(w, d, s, p, op, i + 1, 0) == Mapped(w, d, s, p, op, i, d)
  {
    assert i * d + d == (i + 1) * d;
  }

  /** Handling unit j of gate i rewrites the entry in row q = i * d + j, column p, which was still the original. */
  lemma MappedStep(w: seq<real>, d: nat, s: nat, p: nat, op: Op, i: nat, j: nat, q: nat)
    requires p < s && j < d && q == i * d + j && (q + 1) * s <= |w|
    ensures q * s + p < |w| && q * s <= q * s + p
    ensures Mapped(w, d, s, p, op, i, j + 1)
            == Mapped(w, d, s, p, op, i, j)[q * s + p := Apply(op, w[q * s + p], j)]
  {
    RowsWithin(q, q + 1, s);
    RowInside(q, q + 1, s, p);
    MappedAhead(w, d, s, p, op, i, j, q * s + p);
  }

  /** Row q = i * d + j lies in column p, row q, unit j. */
  lemma UnitOfRow(d: nat, s: nat, p: nat, i: nat, j: nat, q: nat)
    requires p < s && j < d && q == i * d + j
    ensures (q * s + p) / s == q && (q * s + p) % s == p && q % d == j
  {
    RowCol(q, s, p);
    RowCol(i, d, j);
  }

  /** An entry of column p and row q is the entry q * s + p. */
  lemma EntryOfRow(m: nat, s: nat, p: nat, q: nat)
    requires p < s && m % s == p && m / s == q
    ensures m == q * s + p
  {
    assert m == (m / s) * s + m % s;
  }

  /**
   * The pass after gate i, unit j, described entry by entry: an entry of
   * column p in a row q below i * d + j is its original value rewritten
   * for unit q mod d; every other entry is unchanged.
   */
  lemma {:induction false} MappedAt(w: seq<real>, d: nat, s: nat, p: nat, op: Op, i: nat, j: nat, m: nat)
    requires p < s && j <= d && (i * d + j) * s <= |w| && m < |w|
    ensures Mapped(w, d, s, p, op, i, j)[m]
            == if m % s == p && m / s < i * d + j then Apply(op, w[m], (m / s) % d) else w[m]
    decreases i, j
  {
    if j > 0 {
      var q := i * d + j - 1;
      MappedStep(w, d, s, p, op, i, j - 1, q);
      MappedAt(w, d, s, p, op, i, j - 1, m);
      UnitOfRow(d, s, p, i, j - 1, q);
      if m % s == p && m / s == q {
        EntryOfRow(m, s, p, q);
      }
    } else if i > 0 {
      MappedNextGate(w, d, s, p, op, i - 1);
      MappedAt(w, d, s, p, op, i - 1, d, m);
    }
  }

  /** The two-level loop over gates i < g and units j < d applying op to column p. */
  method ColumnPass(a: array<real>, d: nat, s: nat, p: nat, g: nat, op: Op)
    requires p < s && g * d * s <= a.Length
    modifies a
    ensures a[..] == Mapped(old(a[..]), d, s, p, op, g, 0)
  {
    ghost var a0 := a[..];
    var i := 0;
    while i < g
      invariant i <= g
      invariant a[..] == Mapped(a0, d, s, p, op, i, 0)
    {
      RowsWithin(i + 1, g, d);
      RowsWithin((i + 1) * d, g * d, s);
      MappedNextGate(a0, d, s, p, op, i);
      GatePass(a, a0, d, s, p, i, op);
      i := i + 1;
    }
  }

  /** The inner loop for gate i over its d units. */
  method GatePass(a: array<real>, ghost a0: seq<real>, d: nat, s: nat, p: nat, i: nat, op: Op)
    requires p < s && (i * d + d) * s <= a.Length == |a0|
    requires a[..] == Mapped(a0, d, s, p, op, i, 0)
    modifies a
    ensures a[..] == Mapped(a0, d, s, p, op, i, d)
  {
    var j := 0;
    while j < d
      invariant j <= d
      invariant a[..] == Mapped(a0, d, s, p, op, i, j)
    {
      RowsWithin(i * d + j + 1, i * d + d, s);
      MappedStep(a0, d, s, p, op, i, j, i * d + j);
      MappedAhead(a0, d, s, p, op, i, j, Slot(d, s, p, i, j));
      var k := Slot(d, s, p, i, j);
      a[k] := Apply(op, a[k], j);
      j := j + 1;
    }
  }

  /** Entry (gate j, unit u) after a whole pass over g gates is op applied to its original value. */
  lemma MappedEntry(w: seq<real>, d: nat, s: nat, p: nat, op: Op, g: nat, j: nat, u: nat)
    requires p < s && j < g && u < d && g * d * s <= |w|
    ensures Slot(d, s, p, j, u) < |w|
    ensures Mapped(w, d, s, p, op, g, 0)[Slot(d, s, p, j, u)] == Apply(op, w[Slot(d, s, p, j, u)], u)
  {
    SlotSpec(d, s, p, g, j, u);
    MappedAt(w, d, s, p, op, g, 0, Slot(d, s, p, j, u));
  }

  /** A pass changes nothing outside column p. */
  lemma MappedOtherSources(w: seq<real>, d: nat, s: nat, p: nat, op: Op, g: nat, m: nat)
    requires p < s && g * d * s <= |w| && m < |w| && m % s != p
    ensures Mapped(w, d, s, p, op, g, 0)[m] == w[m]
  {
    MappedAt(w, d, s, p, op, g, 0, m);
  }

  /** The first j gates of a g-gate table fit in it. */
  lemma GatesWithin(d: nat, s: nat, j: nat, g: nat)
    requires j <= g
    ensures j * d * s <= g * d * s
  {
    RowsWithin(j, g, d);
    RowsWithin(j * d, g * d, s);
  }

  /** The sum over gates j' < j of the entries of unit u (the inner sum of the element basis). */
  function UnitTotal(w: seq<real>, d: nat, s: nat, p: nat, u: nat, j: nat): real
    requires p < s && u < d && j * d * s <= |w|
  {
    if j == 0 then 0.0
    else
      SlotSpec(d, s, p, j, j - 1, u);
      GatesWithin(d, s, j - 1, j);
      UnitTotal(w, d, s, p, u, j - 1) + w[Slot(d, s, p, j - 1, u)]
  }

  /** The deposited energy of the element basis: the column total over units u' < u and all g gates. */
  function ElemDeposit(w: seq<real>, d: nat, s: nat, p: nat, g: nat, u: nat): real
    requires p < s && u <= d && g * d * s <= |w|
  {
    if u == 0 then 0.0 else ElemDeposit(w, d, s, p, g, u - 1) + UnitTotal(w, d, s, p, u - 1, g)
  }

  /** The column total over units u' < u with each unit's total multiplied by c[u']. */
  function WeightedDeposit(w: seq<real>, d: nat, s: nat, p: nat, g: nat, c: seq<real>, u: nat): real
    requires p < s && u <= d && u <= |c| && g * d * s <= |w|
  {
    if u == 0 then 0.0 else WeightedDeposit(w, d, s, p, g, c, u - 1) + UnitTotal(w, d, s, p, u - 1, g) * c[u - 1]
  }

  /** Every column entry of x, times its unit's c, is f times the same entry of w. */
  predicate Rescales(x: seq<real>, w: seq<real>, d: nat, s: nat, p: nat, g: nat, c: seq<real>, f: real)
    requires p < s && d <= |c| && g * d * s <= |w| && |x| == |w|
  {
    forall j, u :: 0 <= j < g && 0 <= u < d ==>
      Slot(d, s, p, j, u) < |w| && x[Slot(d, s, p, j, u)] * c[u] == f * w[Slot(d, s, p, j, u)]
  }

  /** Dividing each unit by a nonzero c and then scaling by f rescales the column by f relative to c. */
  lemma DivideThenScale(w: seq<real>, d: nat, s: nat, p: nat, g: nat, c: seq<real>, f: real)
    requires p < s && d <= |c| && g * d * s <= |w|
    requires forall u :: 0 <= u < d ==> c[u] != 0.0
    ensures Rescales(Mapped(Mapped(w, d, s, p, Over(c, false), g, 0), d, s, p, Times(f), g, 0), w, d, s, p, g, c, f)
  {
    var v := Mapped(w, d, s, p, Over(c, false), g, 0);
    var fin := Mapped(v, d, s, p, Times(f), g, 0);
    forall j, u | 0 <= j < g && 0 <= u < d
      ensures Slot(d, s, p, j, u) < |w| && fin[Slot(d, s, p, j, u)] * c[u] == f * w[Slot(d, s, p, j, u)]
    {
      MappedEntry(w, d, s, p, Over(c, false), g, j, u);
      MappedEntry(v, d, s, p, Times(f), g, j, u);
    }
  }

  lemma {:induction false} UnitTotalRescaled(x: seq<real>, w: seq<real>, d: nat, s: nat, p: nat, g: nat, c: seq<real>, f: real, u: nat, j: nat)
    requires p < s && u < d && d <= |c| && j <= g && g * d * s <= |w| && |x| == |w| && j * d * s <= |w|
    requires Rescales(x, w, d, s, p, g, c, f)
    ensures UnitTotal(x, d, s, p, u, j) * c[u] == f * UnitTotal(w, d, s, p, u, j)
  {
    if j > 0 {
      GatesWithin(d, s, j - 1, g);
      UnitTotalRescaled(x, w, d, s, p, g, c, f, u, j - 1);
      var k := Slot(d, s, p, j - 1, u);
      assert x[k] * c[u] == f * w[k];
      var a, b := UnitTotal(x, d, s, p, u, j - 1), UnitTotal(w, d, s, p, u, j - 1);
      assert (a + x[k]) * c[u] == a * c[u] + x[k] * c[u];
    }
  }

  /** The total of unit u over all gates in x, times c[u], is f times its total in w. */
  predicate UnitRescaled(x: seq<real>, w: seq<real>, d: nat, s: nat, p: nat, g: nat, c: seq<real>, f: real, u: nat)
    requires p < s && u < d && d <= |c| && g * d * s <= |w| && |x| == |w|
  {
    UnitTotal(x, d, s, p, u, g) * c[u] == f * UnitTotal(w, d, s, p, u, g)
  }

  /** A weighted deposit whose per-unit totals are all rescaled by f relative to c is f times the plain deposit. */
  lemma {:induction false} DepositLinear(x: seq<real>, w: seq<real>, d: nat, s: nat, p: nat, g: nat, c: seq<real>, f: real, u: nat)
    requires p < s && u <= d && d <= |c| && g * d * s <= |w| && |x| == |w|
    requires forall u' :: 0 <= u' < u ==> UnitRescaled(x, w, d, s, p, g, c, f, u')
    ensures WeightedDeposit(x, d, s, p, g, c, u) == f * ElemDeposit(w, d, s, p, g, u)
  {
    if u > 0 {
      DepositLinear(x, w, d, s, p, g, c, f, u - 1);
      DepositRescaledStep(x, w, d, s, p, g, c, f, u);
    }
  }

  /**
   * A column rescaled by f relative to c has a c-weighted deposit f times
   * the plain deposit of the original.
   */
  lemma DepositRescaled(x: seq<real>, w: seq<real>, d: nat, s: nat, p: nat, g: nat, c: seq<real>, f: real, u: nat)
    requires p < s && u <= d && d <= |c| && g * d * s <= |w| && |x| == |w|
    requires Rescales(x, w, d, s, p, g, c, f)
    ensures WeightedDeposit(x, d, s, p, g, c, u) == f * ElemDeposit(w, d, s, p, g, u)
  {
    GatesWithin(d, s, g, g);
    forall u' | 0 <= u' < u
      ensures UnitRescaled(x, w, d, s, p, g, c, f, u')
    {
      UnitTotalRescaled(x, w, d, s, p, g, c, f, u', g);
    }
    DepositLinear(x, w, d, s, p, g, c, f, u);
  }

  /** One unit of the weighted deposit: if the deposit so far and the unit's total are both scaled by f, so is the sum. */
  lemma DepositRescaledStep(x: seq<real>, w: seq<real>, d: nat, s: nat, p: nat, g: nat, c: seq<real>, f: real, u: nat)
    requires p < s && 0 < u <= d && d <= |c| && g * d * s <= |w| && |x| == |w|
    requires WeightedDeposit(x, d, s, p, g, c, u - 1) == f * ElemDeposit(w, d, s, p, g, u - 1)
    requires UnitRescaled(x, w, d, s, p, g, c, f, u - 1)
    ensures WeightedDeposit(x, d, s, p, g, c, u) == f * ElemDeposit(w, d, s, p, g, u)
  {
    var y, b := ElemDeposit(w, d, s, p, g, u - 1), UnitTotal(w, d, s, p, u - 1, g);
    assert f * (y + b) == f * y + f * b;
  }

  /** One step of a weighted sum whose two parts are both scaled by f. */
  lemma SumOfScaled(a: real, b: real, x: real, y: real, c: real, f: real)
    requires a == f * b && x == f * y
    ensures a + x * c == f * (b + y * c)
  {
  }

  /** Every column entry of x is f times the same entry of w. */
  predicate ScaledBy(x: seq<real>, w: seq<real>, d: nat, s: nat, p: nat, g: nat, f: real)
    requires p < s && g * d * s <= |w| && |x| == |w|
  {
    forall j, u :: 0 <= j < g && 0 <= u < d ==>
      Slot(d, s, p, j, u) < |w| && x[Slot(d, s, p, j, u)] == f * w[Slot(d, s, p, j, u)]
  }

  lemma ScalePassScales(w: seq<real>, d: nat, s: nat, p: nat, g: nat, f: real)
    requires p < s && g * d * s <= |w|
    ensures ScaledBy(Mapped(w, d, s, p, Times(f), g, 0), w, d, s, p, g, f)
  {
    forall j, u | 0 <= j < g && 0 <= u < d
      ensures Slot(d, s, p, j, u) < |w| && Mapped(w, d, s, p, Times(f), g, 0)[Slot(d, s, p, j, u)] == f * w[Slot(d, s, p, j, u)]
    {
      MappedEntry(w, d, s, p, Times(f), g, j, u);
    }
  }

  /** Node references of the element table are 1-based indices of the nn nodes. */
  predicate NodeRefs(elem: seq<int>, nn: nat) {
    forall m :: 0 <= m < |elem| ==> 1 <= elem[m] <= nn
  }

  /** The sum over corners k' < k of element i of the gate-j entries of their nodes. */
  function CornerTotal(w: seq<real>, elem: seq<int>, nn: nat, s: nat, p: nat, i: nat, j: nat, k: nat): real
    requires p < s && k <= 4 && 4 * i + 4 <= |elem| && NodeRefs(elem, nn) && (j + 1) * nn * s <= |w|
  {
    if k == 0 then 0.0
    else
      SlotSpec(nn, s, p, j + 1, j, elem[4 * i + k - 1] - 1);
      CornerTotal(w, elem, nn, s, p, i, j, k - 1) + w[Slot(nn, s, p, j, elem[4 * i + k - 1] - 1)]
  }

  /** The node-basis energy of element i over gates j' < j (energyelem). */
  function NodeGateTotal(w: seq<real>, elem: seq<int>, nn: nat, s: nat, p: nat, i: nat, j: nat): real
    requires p < s && 4 * i + 4 <= |elem| && NodeRefs(elem, nn) && j * nn * s <= |w|
  {
    if j == 0 then 0.0
    else
      GatesWithin(nn, s, j - 1, j);
      NodeGateTotal(w, elem, nn, s, p, i, j - 1) + CornerTotal(w, elem, nn, s, p, i, j - 1, 4)
  }

  /** The deposited energy of the node basis over elements i' < i: each element's total times its absorbance c. */
  function NodeDeposit(w: seq<real>, elem: seq<int>, nn: nat, s: nat, p: nat, g: nat, c: seq<real>, i: nat): real
    requires p < s && 4 * i <= |elem| && i <= |c| && NodeRefs(elem, nn) && g * nn * s <= |w|
  {
    if i == 0 then 0.0
    else NodeDeposit(w, elem, nn, s, p, g, c, i - 1) + NodeGateTotal(w, elem, nn, s, p, i - 1, g) * c[i - 1]
  }

  lemma {:induction false} CornerTotalScaled(x: seq<real>, w: seq<real>, elem: seq<int>, nn: nat, s: nat, p: nat, g: nat, f: real, i: nat, j: nat, k: nat)
    requires p < s && k <= 4 && 4 * i + 4 <= |elem| && NodeRefs(elem, nn) && j < g && g * nn * s <= |w| && |x| == |w|
    requires (j + 1) * nn * s <= |w|
    requires ScaledBy(x, w, nn, s, p, g, f)
    ensures CornerTotal(x, elem, nn, s, p, i, j, k) == f * CornerTotal(w, elem, nn, s, p, i, j, k)
  {
    if k > 0 {
      CornerTotalScaled(x, w, elem, nn, s, p, g, f, i, j, k - 1);
      var u := elem[4 * i + k - 1] - 1;
      assert x[Slot(nn, s, p, j, u)] == f * w[Slot(nn, s, p, j, u)];
    }
  }

  lemma {:induction false} NodeGateTotalScaled(x: seq<real>, w: seq<real>, elem: seq<int>, nn: nat, s: nat, p: nat, g: nat, f: real, i: nat, j: nat)
    requires p < s && 4 * i + 4 <= |elem| && NodeRefs(elem, nn) && j <= g && g * nn * s <= |w| && |x| == |w|
    requires j * nn * s <= |w|
    requires ScaledBy(x, w, nn, s, p, g, f)
    ensures NodeGateTotal(x, elem, nn, s, p, i, j) == f * NodeGateTotal(w, elem, nn, s, p, i, j)
  {
    if j > 0 {
      GatesWithin(nn, s, j - 1, j);
      NodeGateTotalScaled(x, w, elem, nn, s, p, g, f, i, j - 1);
      CornerTotalScaled(x, w, elem, nn, s, p, g, f, i, j - 1, 4);
    }
  }

  /** The node-basis total of element k over all gates in x is f times its total in w. */
  predicate ElementScaled(x: seq<real>, w: seq<real>, elem: seq<int>, nn: nat, s: nat, p: nat, g: nat, f: real, k: nat)
    requires p < s && 4 * k + 4 <= |elem| && NodeRefs(elem, nn) && g * nn * s <= |w| && |x| == |w|
  {
    NodeGateTotal(x, elem, nn, s, p, k, g) == f * NodeGateTotal(w, elem, nn, s, p, k, g)
  }

  /** A deposit whose per-element totals are all scaled by f is scaled by f. */
  lemma {:induction false} NodeDepositLinear(x: seq<real>, w: seq<real>, elem: seq<int>, nn: nat, s: nat, p: nat, g: nat, c: seq<real>, f: real, i: nat)
    requires p < s && 4 * i <= |elem| && i <= |c| && NodeRefs(elem, nn) && g * nn * s <= |w| && |x| == |w|
    requires forall k :: 0 <= k < i ==> ElementScaled(x, w, elem, nn, s, p, g, f, k)
    ensures NodeDeposit(x, elem, nn, s, p, g, c, i) == f * NodeDeposit(w, elem, nn, s, p, g, c, i)
  {
    if i > 0 {
      NodeDepositLinear(x, w, elem, nn, s, p, g, c, f, i - 1);
      NodeDepositStep(x, w, elem, nn, s, p, g, c, f, i);
    }
  }

  /** One element of the node-basis deposit: if the deposit so far and the element's total are both scaled by f, so is the sum. */
  lemma NodeDepositStep(x: seq<real>, w: seq<real>, elem: seq<int>, nn: nat, s: nat, p: nat, g: nat, c: seq<real>, f: real, i: nat)
    requires p < s && 0 < i && 4 * i <= |elem| && i <= |c| && NodeRefs(elem, nn) && g * nn * s <= |w| && |x| == |w|
    requires NodeDeposit(x, elem, nn, s, p, g, c, i - 1) == f * NodeDeposit(w, elem, nn, s, p, g, c, i - 1)
    requires ElementScaled(x, w, elem, nn, s, p, g, f, i - 1)
    ensures NodeDeposit(x, elem, nn, s, p, g, c, i) == f * NodeDeposit(w, elem, nn, s, p, g, c, i)
  {
    SumOfScaled(NodeDeposit(x, elem, nn, s, p, g, c, i - 1), NodeDeposit(w, elem, nn, s, p, g, c, i - 1),
                NodeGateTotal(x, elem, nn, s, p, i - 1, g), NodeGateTotal(w, elem, nn, s, p, i - 1, g), c[i - 1], f);
  }

  /** Scaling the column by f scales the node-basis deposit by f. */
  lemma NodeDepositScaled(x: seq<real>, w: seq<real>, elem: seq<int>, nn: nat, s: nat, p: nat, g: nat, c: seq<real>, f: real, i: nat)
    requires p < s && 4 * i <= |elem| && i <= |c| && NodeRefs(elem, nn) && g * nn * s <= |w| && |x| == |w|
    requires ScaledBy(x, w, nn, s, p, g, f)
    ensures NodeDeposit(x, elem, nn, s, p, g, c, i) == f * NodeDeposit(w, elem, nn, s, p, g, c, i)
  {
    forall k | 0 <= k < i
      ensures ElementScaled(x, w, elem, nn, s, p, g, f, k)
    {
      NodeGateTotalScaled(x, w, elem, nn, s, p, g, f, k, g);
    }
    NodeDepositLinear(x, w, elem, nn, s, p, g, c, f, i);
  }

  /** The absorbance of element i: its volume times the absorption coefficient of its medium. */
  function Absorbance(evol: seq<real>, etype: seq<int>, med: seq<Medium>, ne: nat): (c: seq<real>)
    requires ne <= |evol| && ne <= |etype| && forall i :: 0 <= i < ne ==> 0 <= etype[i] < |med|
    ensures |c| == ne
  {
    seq(ne, i requires 0 <= i < ne => evol[i] * med[etype[i]].mua)
  }

  /** The energy of unit u over all gates (the inner loop of the element-basis sum). */
  method UnitEnergy(a: array<real>, d: nat, s: nat, p: nat, g: nat, u: nat) returns (e: real)
    requires p < s && u < d && g * d * s <= a.Length
    ensures e == UnitTotal(a[..], d, s, p, u, g)
  {
    e := 0.0;
    var j := 0;
    while j < g
      invariant j <= g
      invariant e == UnitTotal(a[..], d, s, p, u, j)
    {
      SlotSpec(d, s, p, g, j, u);
      GatesWithin(d, s, j + 1, g);
      e := e + a[Slot(d, s, p, j, u)];
      j := j + 1;
    }
  }

  /** The element-basis sum of mesh_normalize: units in the outer loop, gates in the inner one. */
  method ElemEnergy(a: array<real>, d: nat, s: nat, p: nat, g: nat) returns (e: real)
    requires p < s && g * d * s <= a.Length
    ensures e == ElemDeposit(a[..], d, s, p, g, d)
  {
    e := 0.0;
    var u := 0;
    while u < d
      invariant u <= d
      invariant e == ElemDeposit(a[..], d, s, p, g, u)
    {
      var eu := UnitEnergy(a, d, s, p, g, u);
      e := e + eu;
      u := u + 1;
    }
  }

  /** The node-basis energy of one element over all gates (energyelem). */
  method ElementEnergy(a: array<real>, elem: seq<int>, nn: nat, s: nat, p: nat, g: nat, i: nat) returns (e: real)
    requires p < s && 4 * i + 4 <= |elem| && NodeRefs(elem, nn) && g * nn * s <= a.Length
    ensures e == NodeGateTotal(a[..], elem, nn, s, p, i, g)
  {
    e := 0.0;
    var j := 0;
    while j < g
      invariant j <= g
      invariant e == NodeGateTotal(a[..], elem, nn, s, p, i, j)
    {
      GatesWithin(nn, s, j + 1, g);
      ghost var e0 := e;
      var k := 0;
      while k < 4
        invariant k <= 4
        invariant e == e0 + CornerTotal(a[..], elem, nn, s, p, i, j, k)
      {
        SlotSpec(nn, s, p, j + 1, j, elem[4 * i + k] - 1);
        e := e + a[Slot(nn, s, p, j, elem[4 * i + k] - 1)];
        k := k + 1;
      }
      j := j + 1;
    }
  }

  /** The node-basis deposit: each element's energy times its volume and absorption coefficient. */
  method NodeEnergy(a: array<real>, elem: seq<int>, nn: nat, s: nat, p: nat, g: nat,
                    evol: seq<real>, etype: seq<int>, med: seq<Medium>, ne: nat) returns (e: real)
    requires p < s && 4 * ne <= |elem| && NodeRefs(elem, nn) && g * nn * s <= a.Length
    requires ne <= |evol| && ne <= |etype| && forall i :: 0 <= i < ne ==> 0 <= etype[i] < |med|
    ensures e == NodeDeposit(a[..], elem, nn, s, p, g, Absorbance(evol, etype, med, ne), ne)
  {
    ghost var c := Absorbance(evol, etype, med, ne);
    e := 0.0;
    var i := 0;
    while i < ne
      invariant i <= ne
      invariant e == NodeDeposit(a[..], elem, nn, s, p, g, c, i)
    {
      var energyelem := ElementEnergy(a, elem, nn, s, p, g, i);
      assert energyelem * evol[i] * med[etype[i]].mua == energyelem * c[i];
      e := e + energyelem * evol[i] * med[etype[i]].mua;
      i := i + 1;
    }
  }

  /**
   * The normalizor: Eabsorb over Etotal times the deposit e, the deposit
   * counted with share k (1 for elements, a quarter for the four corners of
   * an element), and then over the flux divisor t (tstep, or 1).
   */
  function Normalizor(eabsorb: real, etotal: real, e: real, k: real, t: real): real {
    Quot(Quot(eabsorb, etotal * e * k), t)
  }

  /** A deposit that the normalizor rescales comes back to Eabsorb / Etotal once multiplied by k and t. */
  lemma Cancel(x: real, eabsorb: real, etotal: real, e: real, k: real, t: real)
    requires etotal * e * k != 0.0 && t != 0.0
    requires x == Normalizor(eabsorb, etotal, e, k, t) * e
    ensures k * x * t == eabsorb / etotal
  {
    assert etotal != 0.0 && e * k != 0.0;
    assert Normalizor(eabsorb, etotal, e, k, t) == eabsorb / (etotal * e * k) / t;
    calc {
      k * x * t;
      k * (eabsorb / (etotal * e * k) / t * e) * t;
      eabsorb / (etotal * e * k) * (e * k);
      eabsorb / etotal;
    }
  }

  /**
   * Element basis: after dividing every unit by its absorbance c and
   * scaling by the normalizor, the absorbed energy the column represents,
   * times the flux divisor t, is Eabsorb / Etotal.
   */
  lemma ElemNormalized(w: seq<real>, d: nat, s: nat, p: nat, g: nat, c: seq<real>, eabsorb: real, etotal: real, t: real, f: real)
    requires p < s && d <= |c| && g * d * s <= |w|
    requires forall u :: 0 <= u < d ==> c[u] != 0.0
    requires etotal * ElemDeposit(w, d, s, p, g, d) * 1.0 != 0.0 && t != 0.0
    requires f == Normalizor(eabsorb, etotal, ElemDeposit(w, d, s, p, g, d), 1.0, t)
    ensures WeightedDeposit(Mapped(Mapped(w, d, s, p, Over(c, false), g, 0), d, s, p, Times(f), g, 0), d, s, p, g, c, d) * t
              == eabsorb / etotal
  {
    var fin := Mapped(Mapped(w, d, s, p, Over(c, false), g, 0), d, s, p, Times(f), g, 0);
    DivideThenScale(w, d, s, p, g, c, f);
    DepositRescaled(fin, w, d, s, p, g, c, f, d);
    Cancel(WeightedDeposit(fin, d, s, p, g, c, d), eabsorb, etotal, ElemDeposit(w, d, s, p, g, d), 1.0, t);
  }

  /**
   * Node basis: after scaling by the normalizor, a quarter of the
   * absorbance-weighted corner sum (each element's mean nodal value), times
   * the flux divisor t, is Eabsorb / Etotal.
   */
  lemma NodeNormalized(v: seq<real>, elem: seq<int>, nn: nat, s: nat, p: nat, g: nat, c: seq<real>, eabsorb: real, etotal: real, t: real, f: real)
    requires p < s && 4 * |c| <= |elem| && NodeRefs(elem, nn) && g * nn * s <= |v|
    requires etotal * NodeDeposit(v, elem, nn, s, p, g, c, |c|) * 0.25 != 0.0 && t != 0.0
    requires f == Normalizor(eabsorb, etotal, NodeDeposit(v, elem, nn, s, p, g, c, |c|), 0.25, t)
    ensures 0.25 * NodeDeposit(Mapped(v, nn, s, p, Times(f), g, 0), elem, nn, s, p, g, c, |c|) * t == eabsorb / etotal
  {
    var fin := Mapped(v, nn, s, p, Times(f), g, 0);
    ScalePassScales(v, nn, s, p, g, f);
    NodeDepositScaled(fin, v, elem, nn, s, p, g, c, f, |c|);
    Cancel(NodeDeposit(fin, elem, nn, s, p, g, c, |c|), eabsorb, etotal, NodeDeposit(v, elem, nn, s, p, g, c, |c|), 0.25, t);
  }

  /** The discretisation the accumulator holds: grid voxels, mesh nodes or mesh elements. */
  datatype Basis = GridBasis | NodeBasis | ElemBasis

  function BasisOf(rayMethod: RayMethod, basisorder: int): (b: Basis)
    ensures b == GridBasis <==> rayMethod == BLBadouelGrid
    ensures b == NodeBasis <==> rayMethod != BLBadouelGrid && basisorder != 0
  {
    if rayMethod == BLBadouelGrid then GridBasis else if basisorder != 0 then NodeBasis else ElemBasis
  }

  /** A replay run whose output is a Jacobian or a weighted quantity is scaled on its own terms. */
  predicate ReplayScaled(seedFromFile: bool, outputtype: OutputType) {
    seedFromFile && (outputtype == Jacobian || outputtype == WL || outputtype == WP)
  }

  /** The replay normalizor: over the detected weight for WL and WP, over the perturbation times the photon count otherwise. */
  function ReplayNormalizor(outputtype: OutputType, nphoton: int, etotal: real): real {
    if outputtype == WL || outputtype == WP then Quot(1.0, etotal) else Quot(1.0, DELTA_MUA * nphoton as real)
  }

  /** Flux is fluence per unit time: the normalizor is further divided by the gate width. */
  function FluxDivisor(outputtype: OutputType, tstep: real): real {
    if outputtype == Flux then tstep else 1.0
  }

  /** The element-basis pass: the deposit of the column, then every unit divided by its absorbance. */
  method ElemBasisPass(a: array<real>, d: nat, s: nat, p: nat, g: nat, c: seq<real>) returns (e: real)
    requires p < s && g * d * s <= a.Length && d <= |c|
    modifies a
    ensures e == ElemDeposit(old(a[..]), d, s, p, g, d)
    ensures a[..] == Mapped(old(a[..]), d, s, p, Over(c, false), g, 0)
  {
    e := ElemEnergy(a, d, s, p, g);
    ColumnPass(a, d, s, p, g, Over(c, false));
  }

  /** The node-basis pass: every node with a positive volume divided by it, then the deposit of the result. */
  method NodeBasisPass(a: array<real>, nvol: array<real>, elem: seq<int>, nn: nat, s: nat, p: nat, g: nat,
                       evol: seq<real>, etype: seq<int>, med: seq<Medium>, ne: nat) returns (e: real)
    requires a != nvol && p < s && g * nn * s <= a.Length && 4 * ne <= |elem| && NodeRefs(elem, nn)
    requires ne <= |evol| && ne <= |etype| && forall i :: 0 <= i < ne ==> 0 <= etype[i] < |med|
    modifies a
    ensures a[..] == Mapped(old(a[..]), nn, s, p, Over(nvol[..], true), g, 0)
    ensures e == NodeDeposit(a[..], elem, nn, s, p, g, Absorbance(evol, etype, med, ne), ne)
  {
    ColumnPass(a, nn, s, p, g, Over(nvol[..], true));
    e := NodeEnergy(a, elem, nn, s, p, g, evol, etype, med, ne);
  }

  /** Every element has a volume and a medium in the table, as the absorbance needs. */
  predicate Absorbing(mesh: TetMesh)
    reads mesh, mesh.etype, mesh.evol
  {
    mesh.evol != null && mesh.NE() <= mesh.evol.Length &&
    forall i :: 0 <= i < mesh.NE() ==> 0 <= mesh.etype[i] < |mesh.med|
  }

  /** The absorbance of every element of the mesh. */
  function MeshAbsorbance(mesh: TetMesh): (c: seq<real>)
    reads mesh, mesh.etype, mesh.evol
    requires Absorbing(mesh)
    ensures |c| == mesh.NE()
  {
    Absorbance(mesh.evol[..], mesh.etype[..], mesh.med, mesh.NE())
  }

  /** The accumulator of the run holds maxgate gates of datalen units for srcnum sources. */
  predicate Sized(mesh: TetMesh, cfg: Config)
    reads mesh, mesh.etype, cfg
  {
    var d := DataLen(cfg.rayMethod, cfg.basisorder, cfg.crop0.2, |mesh.node|, mesh.NE());
    0 <= d && cfg.maxgate * d * cfg.srcnum <= mesh.weight.Length
  }

  /** The output is neither a replay quantity nor energy: it is normalised per basis. */
  predicate PerBasis(cfg: Config)
    reads cfg
  {
    !ReplayScaled(cfg.seedFromFile, cfg.outputtype) && cfg.outputtype != Energy
  }

  /** What the normalisation of column pair reads: a sized accumulator and, per basis, the element tables. */
  predicate Normalizable(mesh: TetMesh, cfg: Config, pair: nat)
    reads mesh, mesh.etype, mesh.elem, mesh.evol, cfg
  {
    pair < cfg.srcnum && Sized(mesh, cfg) &&
    (PerBasis(cfg) && BasisOf(cfg.rayMethod, cfg.basisorder) == NodeBasis ==>
       mesh.ElemsValid() && Absorbing(mesh) && mesh.weight != mesh.nvol) &&
    (PerBasis(cfg) && BasisOf(cfg.rayMethod, cfg.basisorder) == ElemBasis ==> Absorbing(mesh))
  }

  /**
   * The accumulator after the per-basis pass: node values divided by
   * their positive nodal volumes, element values by their absorbance,
   * anything else as it was.
   */
  function Prescaled(mesh: TetMesh, cfg: Config, pair: nat): (v: seq<real>)
    reads mesh, mesh.etype, mesh.elem, mesh.evol, mesh.weight, mesh.nvol, cfg
    requires Normalizable(mesh, cfg, pair)
    ensures |v| == mesh.weight.Length
  {
    if !PerBasis(cfg) then mesh.weight[..]
    else match BasisOf(cfg.rayMethod, cfg.basisorder)
      case GridBasis => mesh.weight[..]
      case NodeBasis => Mapped(mesh.weight[..], |mesh.node|, cfg.srcnum, pair, Over(mesh.nvol[..], true), cfg.maxgate, 0)
      case ElemBasis => Mapped(mesh.weight[..], mesh.NE(), cfg.srcnum, pair, Over(MeshAbsorbance(mesh), false), cfg.maxgate, 0)
  }

  /**
   * The factor mesh_normalize applies last: the replay factor, 1/Etotal
   * for energy, the voxel-volume factor on the grid, or the normalizor of
   * the node or element deposit, each per-basis one over the flux divisor.
   */
  function OutputNormalizor(mesh: TetMesh, cfg: Config, eabsorb: real, etotal: real, pair: nat): real
    reads mesh, mesh.etype, mesh.elem, mesh.evol, mesh.weight, mesh.nvol, cfg
    requires Normalizable(mesh, cfg, pair)
  {
    var t := FluxDivisor(cfg.outputtype, cfg.tstep);
    if ReplayScaled(cfg.seedFromFile, cfg.outputtype) then ReplayNormalizor(cfg.outputtype, cfg.nphoton, etotal)
    else if cfg.outputtype == Energy then Quot(1.0, etotal)
    else match BasisOf(cfg.rayMethod, cfg.basisorder)
      case GridBasis => Quot(Quot(1.0, etotal * cfg.unitinmm * cfg.unitinmm * cfg.unitinmm), t)
      case NodeBasis =>
        Normalizor(eabsorb, etotal, NodeDeposit(Prescaled(mesh, cfg, pair), mesh.elem[..], |mesh.node|, cfg.srcnum, pair, cfg.maxgate,
                                                MeshAbsorbance(mesh), mesh.NE()), 0.25, t)
      case ElemBasis =>
        Normalizor(eabsorb, etotal, ElemDeposit(mesh.weight[..], mesh.NE(), cfg.srcnum, pair, cfg.maxgate, mesh.NE()), 1.0, t)
  }

  /** The per-basis part of mesh_normalize: the node or element pass and the normalizor. */
  method PerBasisPass(mesh: TetMesh, cfg: Config, eabsorb: real, etotal: real, pair: nat) returns (f: real)
    requires Normalizable(mesh, cfg, pair) && PerBasis(cfg)
    modifies mesh.weight
    ensures mesh.weight[..] == old(Prescaled(mesh, cfg, pair))
    ensures f == old(OutputNormalizor(mesh, cfg, eabsorb, etotal, pair))
  {
    var t := FluxDivisor(cfg.outputtype, cfg.tstep);
    match BasisOf(cfg.rayMethod, cfg.basisorder)
    case GridBasis =>
      f := Quot(Quot(1.0, etotal * cfg.unitinmm * cfg.unitinmm * cfg.unitinmm), t);
    case NodeBasis =>
      var e := NodeBasisPass(mesh.weight, mesh.nvol, mesh.elem[..], |mesh.node|, cfg.srcnum, pair, cfg.maxgate,
                             mesh.evol[..], mesh.etype[..], mesh.med, mesh.NE());
      f := Normalizor(eabsorb, etotal, e, 0.25, t);
    case ElemBasis =>
      var e := ElemBasisPass(mesh.weight, mesh.NE(), cfg.srcnum, pair, cfg.maxgate, MeshAbsorbance(mesh));
      f := Normalizor(eabsorb, etotal, e, 1.0, t);
  }

  /**
   * mesh_normalize for source pair: the reflectance buffer scaled by
   * 1/Etotal when it is saved, then column pair of the accumulator
   * brought to the chosen output unit; the result is the factor applied
   * last.
   */
  method NormalizeOutput(mesh: TetMesh, cfg: Config, eabsorb: real, etotal: real, pair: nat) returns (f: real)
    requires Normalizable(mesh, cfg, pair)
    requires cfg.issaveref && mesh.dref != null ==>
               0 <= mesh.nf && cfg.maxgate * mesh.nf * 1 <= mesh.dref.Length &&
               mesh.dref != mesh.weight && mesh.dref != mesh.nvol && mesh.dref != mesh.evol
    modifies mesh.weight, mesh.dref
    ensures cfg.issaveref && mesh.dref != null ==>
              mesh.dref[..] == Mapped(old(mesh.dref[..]), mesh.nf as nat, 1, 0, Times(Quot(1.0, etotal)), cfg.maxgate, 0)
    ensures !cfg.issaveref && mesh.dref != null && mesh.dref != mesh.weight ==> mesh.dref[..] == old(mesh.dref[..])
    ensures f == old(OutputNormalizor(mesh, cfg, eabsorb, etotal, pair))
    ensures mesh.weight[..] == Mapped(old(Prescaled(mesh, cfg, pair)), DataLen(cfg.rayMethod, cfg.basisorder, cfg.crop0.2, |mesh.node|, mesh.NE()) as nat,
                                      cfg.srcnum, pair, Times(f), cfg.maxgate, 0)
  {
    var d := DataLen(cfg.rayMethod, cfg.basisorder, cfg.crop0.2, |mesh.node|, mesh.NE()) as nat;
    ghost var v0, f0 := Prescaled(mesh, cfg, pair), OutputNormalizor(mesh, cfg, eabsorb, etotal, pair);
    if cfg.issaveref && mesh.dref != null {
      ColumnPass(mesh.dref, mesh.nf as nat, 1, 0, cfg.maxgate, Times(Quot(1.0, etotal)));
    }
    assert Prescaled(mesh, cfg, pair) == v0 && OutputNormalizor(mesh, cfg, eabsorb, etotal, pair) == f0;
    if ReplayScaled(cfg.seedFromFile, cfg.outputtype) {
      f := ReplayNormalizor(cfg.outputtype, cfg.nphoton, etotal);
    } else if cfg.outputtype == Energy {
      f := Quot(1.0, etotal);
    } else {
      f := PerBasisPass(mesh, cfg, eabsorb, etotal, pair);
    }
    ColumnPass(mesh.weight, d, cfg.srcnum, pair, cfg.maxgate, Times(f));
  }

  /**
   * Element basis, on the mesh: once NormalizeOutput has run, the
   * absorbance-weighted total of column pair, times the flux divisor, is
   * the absorbed fraction Eabsorb / Etotal.
   */
  lemma ElemOutputAbsorbed(mesh: TetMesh, cfg: Config, eabsorb: real, etotal: real, pair: nat)
    requires Normalizable(mesh, cfg, pair) && PerBasis(cfg) && BasisOf(cfg.rayMethod, cfg.basisorder) == ElemBasis
    requires forall u :: 0 <= u < mesh.NE() ==> MeshAbsorbance(mesh)[u] != 0.0
    requires etotal * ElemDeposit(mesh.weight[..], mesh.NE(), cfg.srcnum, pair, cfg.maxgate, mesh.NE()) * 1.0 != 0.0
    requires FluxDivisor(cfg.outputtype, cfg.tstep) != 0.0
    ensures WeightedDeposit(Mapped(Prescaled(mesh, cfg, pair), mesh.NE(), cfg.srcnum, pair,
                                   Times(OutputNormalizor(mesh, cfg, eabsorb, etotal, pair)), cfg.maxgate, 0),
                            mesh.NE(), cfg.srcnum, pair, cfg.maxgate, MeshAbsorbance(mesh), mesh.NE())
              * FluxDivisor(cfg.outputtype, cfg.tstep) == eabsorb / etotal
  {
    ElemNormalized(mesh.weight[..], mesh.NE(), cfg.srcnum, pair, cfg.maxgate, MeshAbsorbance(mesh), eabsorb, etotal,
                   FluxDivisor(cfg.outputtype, cfg.tstep), OutputNormalizor(mesh, cfg, eabsorb, etotal, pair));
  }

  /**
   * Node basis, on the mesh: once NormalizeOutput has run, a quarter of
   * the absorbance-weighted corner total of column pair, times the flux
   * divisor, is the absorbed fraction Eabsorb / Etotal.
   */
  lemma NodeOutputAbsorbed(mesh: TetMesh, cfg: Config, eabsorb: real, etotal: real, pair: nat)
    requires Normalizable(mesh, cfg, pair) && PerBasis(cfg) && BasisOf(cfg.rayMethod, cfg.basisorder) == NodeBasis
    requires etotal * NodeDeposit(Prescaled(mesh, cfg, pair), mesh.elem[..], |mesh.node|, cfg.srcnum, pair, cfg.maxgate,
                                  MeshAbsorbance(mesh), mesh.NE()) * 0.25 != 0.0
    requires FluxDivisor(cfg.outputtype, cfg.tstep) != 0.0
    ensures 0.25 * NodeDeposit(Mapped(Prescaled(mesh, cfg, pair), |mesh.node|, cfg.srcnum, pair,
                                      Times(OutputNormalizor(mesh, cfg, eabsorb, etotal, pair)), cfg.maxgate, 0),
                               mesh.elem[..], |mesh.node|, cfg.srcnum, pair, cfg.maxgate, MeshAbsorbance(mesh), mesh.NE())
              * FluxDivisor(cfg.outputtype, cfg.tstep) == eabsorb / etotal
  {
    NodeNormalized(Prescaled(mesh, cfg, pair), mesh.elem[..], |mesh.node|, cfg.srcnum, pair, cfg.maxgate, MeshAbsorbance(mesh),
                   eabsorb, etotal, FluxDivisor(cfg.outputtype, cfg.tstep), OutputNormalizor(mesh, cfg, eabsorb, etotal, pair));
  }
}
