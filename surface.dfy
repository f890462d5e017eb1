/**
 * The surface nodal-volume correction of tracer_prep: every node on an
 * exterior face of a labelled element has its nodal volume multiplied once
 * by 2 / (1 + Reff), Reff being the effective reflection coefficient of the
 * element's medium against the background. The sign of the value marks a
 * node already corrected during the loop and is restored afterwards.
 */
module Surface {
  import opened Common
  import opened FaceTables

  /** The effective reflection coefficient the table holds for label l. */
  function ReffOf(med: seq<Medium>, l: nat, isreflect: bool, getreff: (real, real) -> real): real
    requires l < |med|
  {
    if isreflect && l >= 1 then getreff(med[l].n, med[0].n) else 0.0
  }

  /**
   * The Reff table of count entries. For each label the loop copies the
   * value of the first earlier label with the same refractive index and
   * calls getreff only when it still holds zero; the copy is a cache: every
   * entry equals getreff of its own medium.
   */
  method ReffTable(med: seq<Medium>, count: nat, isreflect: bool, getreff: (real, real) -> real) returns (reff: array<real>)
    requires count <= |med|
    ensures fresh(reff) && reff.Length == count
    ensures forall l :: 0 <= l < count ==> reff[l] == ReffOf(med, l, isreflect, getreff)
  {
    reff := new real[count](_ => 0.0);
    if isreflect {
      var i := 1;
      while i < count
        invariant 1 <= i <= count || count == 0
        invariant forall l :: 0 <= l < count && l < i ==> reff[l] == ReffOf(med, l, isreflect, getreff)
        invariant forall l :: i <= l < count ==> reff[l] == 0.0
      {
        var j := 1;
        while j < i
          invariant 1 <= j <= i
          invariant reff[i] == 0.0
        {
          if med[j].n == med[i].n {
            reff[i] := reff[j];
            break;
          }
          j := j + 1;
        }
        if reff[i] == 0.0 {
          reff[i] := getreff(med[i].n, med[0].n);
        }
        i := i + 1;
      }
    }
  }

  /** Everything the correction loop indexes is in range, and every Reff keeps 1 + Reff positive. */
  predicate Shaped(nn: nat, elem: seq<int>, facenb: seq<int>, etype: seq<int>, reff: seq<real>, ne: nat) {
    |elem| == 4 * ne && |facenb| == 4 * ne && |etype| == ne
    && (forall m :: 0 <= m < |elem| ==> 1 <= elem[m] <= nn)
    && (forall i :: 0 <= i < ne && etype[i] >= 0 ==> etype[i] < |reff|)
    && (forall l :: 0 <= l < |reff| ==> reff[l] > -1.0)
  }

  /** The correction factor for effective reflection coefficient r. */
  function Factor(r: real): (f: real)
    requires r > -1.0
    ensures f > 0.0
  {
    var d := 1.0 + r;
    assert 2.0 / d * d == 2.0;
    2.0 / d
  }

  /** A positive value times minus a positive factor is negative, and its negation is the plain product. */
  lemma FlipSign(x: real, f: real)
    requires x > 0.0 && f > 0.0
    ensures x * -f < 0.0 && -(x * -f) == x * f && x * f > 0.0
  {
  }

  /** The 0-based node at corner k of face j of element i. */
  function CornerNode(elem: seq<int>, nn: nat, i: nat, j: Local, k: nat): (n: nat)
    requires 4 * i + 4 <= |elem| && k < 3
    requires forall m :: 0 <= m < |elem| ==> 1 <= elem[m] <= nn
    ensures n < nn
  {
    elem[4 * i + Out(IFaceOrder(j), k)] - 1
  }

  /** One visit of the loop: corner k of exterior face j of element i is scaled if still positive and the element is labelled. */
  function Visit(v: seq<real>, elem: seq<int>, facenb: seq<int>, etype: seq<int>, reff: seq<real>, ne: nat, i: nat, j: Local, k: nat): (v1: seq<real>)
    requires Shaped(|v|, elem, facenb, etype, reff, ne) && i < ne && k < 3
    ensures |v1| == |v|
  {
    var n := CornerNode(elem, |v|, i, j, k);
    if v[n] > 0.0 && etype[i] >= 0 then v[n := v[n] * -Factor(reff[etype[i]])] else v
  }

  /** Visit unfolded at its corner node. */
  lemma VisitAt(v: seq<real>, elem: seq<int>, facenb: seq<int>, etype: seq<int>, reff: seq<real>, ne: nat, i: nat, j: Local, k: nat)
    requires Shaped(|v|, elem, facenb, etype, reff, ne) && i < ne && k < 3
    ensures v[CornerNode(elem, |v|, i, j, k)] > 0.0 && etype[i] >= 0 ==>
              Visit(v, elem, facenb, etype, reff, ne, i, j, k)
              == v[CornerNode(elem, |v|, i, j, k) := v[CornerNode(elem, |v|, i, j, k)] * -Factor(reff[etype[i]])]
    ensures !(v[CornerNode(elem, |v|, i, j, k)] > 0.0 && etype[i] >= 0) ==> Visit(v, elem, facenb, etype, reff, ne, i, j, k) == v
  {
  }

  /** The first k corners of face j of element i. */
  function Corners(v: seq<real>, elem: seq<int>, facenb: seq<int>, etype: seq<int>, reff: seq<real>, ne: nat, i: nat, j: Local, k: nat): (v1: seq<real>)
    requires Shaped(|v|, elem, facenb, etype, reff, ne) && i < ne && k <= 3
    ensures |v1| == |v|
  {
    if k == 0 then v
    else Visit(Corners(v, elem, facenb, etype, reff, ne, i, j, k - 1), elem, facenb, etype, reff, ne, i, j, k - 1)
  }

  /** The first j faces of element i; only exterior faces (neighbour 0) are visited. */
  function Faces(v: seq<real>, elem: seq<int>, facenb: seq<int>, etype: seq<int>, reff: seq<real>, ne: nat, i: nat, j: nat): (v1: seq<real>)
    requires Shaped(|v|, elem, facenb, etype, reff, ne) && i < ne && j <= 4
    ensures |v1| == |v|
  {
    if j == 0 then v
    else
      var u := Faces(v, elem, facenb, etype, reff, ne, i, j - 1);
      if facenb[4 * i + j - 1] == 0 then Corners(u, elem, facenb, etype, reff, ne, i, j - 1, 3) else u
  }

  /** The correction loop over the first k elements. */
  function Rescaled(v: seq<real>, elem: seq<int>, facenb: seq<int>, etype: seq<int>, reff: seq<real>, ne: nat, k: nat): (v1: seq<real>)
    requires Shaped(|v|, elem, facenb, etype, reff, ne) && k <= ne
    ensures |v1| == |v|
  {
    if k == 0 then v
    else Faces(Rescaled(v, elem, facenb, etype, reff, ne, k - 1), elem, facenb, etype, reff, ne, k - 1, 4)
  }

  /** Node values after the closing pass that turns every negative value positive. */
  function Unsigned(v: seq<real>): (u: seq<real>)
    ensures |u| == |v|
  {
    seq(|v|, n requires 0 <= n < |v| => if v[n] < 0.0 then -v[n] else v[n])
  }

  /** x is x0, or x0 was positive and has been scaled once by minus a table factor. */
  predicate ScaledAt(x0: real, x: real, reff: seq<real>)
    requires forall l :: 0 <= l < |reff| ==> reff[l] > -1.0
  {
    x == x0 || (x0 > 0.0 && exists l :: 0 <= l < |reff| && x == x0 * -Factor(reff[l]))
  }

  /** v differs from v0 only in positive values scaled once by minus a table factor. */
  predicate ScaledOnce(v0: seq<real>, v: seq<real>, reff: seq<real>)
    requires forall l :: 0 <= l < |reff| ==> reff[l] > -1.0
  {
    |v| == |v0| && forall n :: 0 <= n < |v| ==> ScaledAt(v0[n], v[n], reff)
  }

  /** A value still positive has not been scaled yet, so scaling it now scales it once. */
  lemma ScaleStillPositive(x0: real, x: real, reff: seq<real>, l: nat)
    requires forall l' :: 0 <= l' < |reff| ==> reff[l'] > -1.0
    requires ScaledAt(x0, x, reff) && x > 0.0 && l < |reff|
    ensures ScaledAt(x0, x * -Factor(reff[l]), reff)
  {
    ScaledNegative(x0, x, reff);
  }

  /** A value scaled once is negative. */
  lemma ScaledNegative(x0: real, x: real, reff: seq<real>)
    requires forall l :: 0 <= l < |reff| ==> reff[l] > -1.0
    requires ScaledAt(x0, x, reff)
    ensures x == x0 || x < 0.0
  {
    if x != x0 {
      var l :| 0 <= l < |reff| && x == x0 * -Factor(reff[l]);
      FlipSign(x0, Factor(reff[l]));
    }
  }

  lemma VisitScalesOnce(v0: seq<real>, v: seq<real>, elem: seq<int>, facenb: seq<int>, etype: seq<int>, reff: seq<real>, ne: nat, i: nat, j: Local, k: nat)
    requires Shaped(|v|, elem, facenb, etype, reff, ne) && i < ne && k < 3
    requires ScaledOnce(v0, v, reff)
    ensures ScaledOnce(v0, Visit(v, elem, facenb, etype, reff, ne, i, j, k), reff)
  {
    var n := CornerNode(elem, |v|, i, j, k);
    var v1 := Visit(v, elem, facenb, etype, reff, ne, i, j, k);
    VisitFrame(v, elem, facenb, etype, reff, ne, i, j, k);
    if v[n] > 0.0 && etype[i] >= 0 {
      ScaleStillPositive(v0[n], v[n], reff, etype[i]);
    }
    ScaledOnceUpdate(v0, v, v1, reff, n);
  }

  /** Visit seen entry by entry: only its corner node may change. */
  lemma VisitFrame(v: seq<real>, elem: seq<int>, facenb: seq<int>, etype: seq<int>, reff: seq<real>, ne: nat, i: nat, j: Local, k: nat)
    requires Shaped(|v|, elem, facenb, etype, reff, ne) && i < ne && k < 3
    ensures var n := CornerNode(elem, |v|, i, j, k);
            Visit(v, elem, facenb, etype, reff, ne, i, j, k)[n]
            == if v[n] > 0.0 && etype[i] >= 0 then v[n] * -Factor(reff[etype[i]]) else v[n]
    ensures forall m :: 0 <= m < |v| && m != CornerNode(elem, |v|, i, j, k) ==> Visit(v, elem, facenb, etype, reff, ne, i, j, k)[m] == v[m]
  {
  }

  /** Rewriting one entry with a value scaled at most once keeps every entry scaled at most once. */
  lemma ScaledOnceUpdate(v0: seq<real>, v: seq<real>, v1: seq<real>, reff: seq<real>, n: nat)
    requires forall l :: 0 <= l < |reff| ==> reff[l] > -1.0
    requires ScaledOnce(v0, v, reff) && n < |v| == |v1| && ScaledAt(v0[n], v1[n], reff)
    requires forall m :: 0 <= m < |v| && m != n ==> v1[m] == v[m]
    ensures ScaledOnce(v0, v1, reff)
  {
    forall m | 0 <= m < |v1|
      ensures ScaledAt(v0[m], v1[m], reff)
    {
      if m != n {
        assert v1[m] == v[m];
      }
    }
  }

  lemma {:induction false} CornersScaleOnce(v0: seq<real>, v: seq<real>, elem: seq<int>, facenb: seq<int>, etype: seq<int>, reff: seq<real>, ne: nat, i: nat, j: Local, k: nat)
    requires Shaped(|v|, elem, facenb, etype, reff, ne) && i < ne && k <= 3
    requires ScaledOnce(v0, v, reff)
    ensures ScaledOnce(v0, Corners(v, elem, facenb, etype, reff, ne, i, j, k), reff)
  {
    if k > 0 {
      CornersScaleOnce(v0, v, elem, facenb, etype, reff, ne, i, j, k - 1);
      VisitScalesOnce(v0, Corners(v, elem, facenb, etype, reff, ne, i, j, k - 1), elem, facenb, etype, reff, ne, i, j, k - 1);
    }
  }

  lemma {:induction false} FacesScaleOnce(v0: seq<real>, v: seq<real>, elem: seq<int>, facenb: seq<int>, etype: seq<int>, reff: seq<real>, ne: nat, i: nat, j: nat)
    requires Shaped(|v|, elem, facenb, etype, reff, ne) && i < ne && j <= 4
    requires ScaledOnce(v0, v, reff)
    ensures ScaledOnce(v0, Faces(v, elem, facenb, etype, reff, ne, i, j), reff)
  {
    if j > 0 {
      FacesScaleOnce(v0, v, elem, facenb, etype, reff, ne, i, j - 1);
      if facenb[4 * i + j - 1] == 0 {
        CornersScaleOnce(v0, Faces(v, elem, facenb, etype, reff, ne, i, j - 1), elem, facenb, etype, reff, ne, i, j - 1, 3);
      }
    }
  }

  /** The correction loop scales each positive node value at most once, by minus a table factor, and leaves every other value alone. */
  lemma {:induction false} RescaledOnce(v: seq<real>, elem: seq<int>, facenb: seq<int>, etype: seq<int>, reff: seq<real>, ne: nat, k: nat)
    requires Shaped(|v|, elem, facenb, etype, reff, ne) && k <= ne
    ensures ScaledOnce(v, Rescaled(v, elem, facenb, etype, reff, ne, k), reff)
  {
    if k > 0 {
      RescaledOnce(v, elem, facenb, etype, reff, ne, k - 1);
      FacesScaleOnce(v, Rescaled(v, elem, facenb, etype, reff, ne, k - 1), elem, facenb, etype, reff, ne, k - 1, 4);
    }
  }

  /** The position of the visit to corner k of face j of element i in the order of the correction loop. */
  function Rank(i: nat, j: nat, k: nat): nat {
    12 * i + 3 * j + k
  }

  /** The visit to corner k of face j of element i reaches node n: the face is exterior, the element labelled and n is that corner. */
  predicate Touches(elem: seq<int>, facenb: seq<int>, etype: seq<int>, reff: seq<real>, ne: nat, nn: nat, i: nat, j: Local, k: nat, n: nat)
    requires Shaped(nn, elem, facenb, etype, reff, ne) && i < ne && k < 3
  {
    facenb[4 * i + j] == 0 && etype[i] >= 0 && CornerNode(elem, nn, i, j, k) == n
  }

  /** No visit at a position in [lo, hi) of the loop reaches node n. */
  predicate Clear(nn: nat, elem: seq<int>, facenb: seq<int>, etype: seq<int>, reff: seq<real>, ne: nat, n: nat, lo: nat, hi: nat)
    requires Shaped(nn, elem, facenb, etype, reff, ne)
  {
    forall i: nat, j: Local, k: nat {:trigger Touches(elem, facenb, etype, reff, ne, nn, i, j, k, n)} ::
      i < ne && k < 3 && lo <= Rank(i, j, k) < hi ==> !Touches(elem, facenb, etype, reff, ne, nn, i, j, k, n)
  }

  /** No visit in [lo, hi) reaches n, so none in a sub-range does. */
  lemma {:induction false} ClearWithin(nn: nat, elem: seq<int>, facenb: seq<int>, etype: seq<int>, reff: seq<real>, ne: nat, n: nat, lo: nat, hi: nat, lo2: nat, hi2: nat)
    requires Shaped(nn, elem, facenb, etype, reff, ne) && lo <= lo2 && hi2 <= hi
    requires Clear(nn, elem, facenb, etype, reff, ne, n, lo, hi)
    ensures Clear(nn, elem, facenb, etype, reff, ne, n, lo2, hi2)
  {
  }

  /** Corners k1..k2 - 1 of an exterior face leave node n as it is when it is no longer positive or none of them reaches it. */
  lemma {:induction false} CornersKeep(v: seq<real>, elem: seq<int>, facenb: seq<int>, etype: seq<int>, reff: seq<real>, ne: nat, i: nat, j: Local, k1: nat, k2: nat, n: nat)
    requires Shaped(|v|, elem, facenb, etype, reff, ne) && i < ne && k1 <= k2 <= 3 && n < |v| && facenb[4 * i + j] == 0
    requires Corners(v, elem, facenb, etype, reff, ne, i, j, k1)[n] <= 0.0
             || Clear(|v|, elem, facenb, etype, reff, ne, n, Rank(i, j, k1), Rank(i, j, k2))
    ensures Corners(v, elem, facenb, etype, reff, ne, i, j, k2)[n] == Corners(v, elem, facenb, etype, reff, ne, i, j, k1)[n]
    decreases k2
  {
    if k1 < k2 {
      CornersKeep(v, elem, facenb, etype, reff, ne, i, j, k1, k2 - 1, n);
      VisitFrame(Corners(v, elem, facenb, etype, reff, ne, i, j, k2 - 1), elem, facenb, etype, reff, ne, i, j, k2 - 1);
      assert Corners(v, elem, facenb, etype, reff, ne, i, j, k1)[n] > 0.0 ==> !Touches(elem, facenb, etype, reff, ne, |v|, i, j, k2 - 1, n);
    }
  }

  /** Faces j1..j2 - 1 of element i leave node n as it is when it is no longer positive or none of their visits reaches it. */
  lemma {:induction false} FacesKeep(v: seq<real>, elem: seq<int>, facenb: seq<int>, etype: seq<int>, reff: seq<real>, ne: nat, i: nat, j1: nat, j2: nat, n: nat)
    requires Shaped(|v|, elem, facenb, etype, reff, ne) && i < ne && j1 <= j2 <= 4 && n < |v|
    requires Faces(v, elem, facenb, etype, reff, ne, i, j1)[n] <= 0.0
             || Clear(|v|, elem, facenb, etype, reff, ne, n, Rank(i, j1, 0), Rank(i, j2, 0))
    ensures Faces(v, elem, facenb, etype, reff, ne, i, j2)[n] == Faces(v, elem, facenb, etype, reff, ne, i, j1)[n]
    decreases j2
  {
    if j1 < j2 {
      FacesKeep(v, elem, facenb, etype, reff, ne, i, j1, j2 - 1, n);
      var u := Faces(v, elem, facenb, etype, reff, ne, i, j2 - 1);
      if facenb[4 * i + j2 - 1] == 0 {
        CornersKeep(u, elem, facenb, etype, reff, ne, i, j2 - 1, 0, 3, n);
      }
    }
  }

  /** Elements k1..k2 - 1 leave node n as it is when it is no longer positive or none of their visits reaches it. */
  lemma {:induction false} RescaledKeep(v: seq<real>, elem: seq<int>, facenb: seq<int>, etype: seq<int>, reff: seq<real>, ne: nat, k1: nat, k2: nat, n: nat)
    requires Shaped(|v|, elem, facenb, etype, reff, ne) && k1 <= k2 <= ne && n < |v|
    requires Rescaled(v, elem, facenb, etype, reff, ne, k1)[n] <= 0.0
             || Clear(|v|, elem, facenb, etype, reff, ne, n, Rank(k1, 0, 0), Rank(k2, 0, 0))
    ensures Rescaled(v, elem, facenb, etype, reff, ne, k2)[n] == Rescaled(v, elem, facenb, etype, reff, ne, k1)[n]
    decreases k2
  {
    if k1 < k2 {
      RescaledKeep(v, elem, facenb, etype, reff, ne, k1, k2 - 1, n);
      var u := Rescaled(v, elem, facenb, etype, reff, ne, k2 - 1);
      FacesKeep(u, elem, facenb, etype, reff, ne, k2 - 1, 0, 4, n);
    }
  }

  /**
   * A node that is not positive, or that no visit among the first k
   * elements reaches (it is no corner of an exterior face of a labelled
   * element among them), keeps its value.
   */
  lemma {:induction false} RescaledUntouched(v: seq<real>, elem: seq<int>, facenb: seq<int>, etype: seq<int>, reff: seq<real>, ne: nat, k: nat, n: nat)
    requires Shaped(|v|, elem, facenb, etype, reff, ne) && k <= ne && n < |v|
    requires v[n] <= 0.0 || Clear(|v|, elem, facenb, etype, reff, ne, n, 0, Rank(k, 0, 0))
    ensures Rescaled(v, elem, facenb, etype, reff, ne, k)[n] == v[n]
  {
    if k > 0 {
      if v[n] > 0.0 {
        ClearWithin(|v|, elem, facenb, etype, reff, ne, n, 0, Rank(k, 0, 0), 0, Rank(k - 1, 0, 0));
        ClearWithin(|v|, elem, facenb, etype, reff, ne, n, 0, Rank(k, 0, 0), Rank(k - 1, 0, 0), Rank(k - 1, 4, 0));
      }
      RescaledUntouched(v, elem, facenb, etype, reff, ne, k - 1, n);
      FacesKeep(Rescaled(v, elem, facenb, etype, reff, ne, k - 1), elem, facenb, etype, reff, ne, k - 1, 0, 4, n);
    }
  }

  /**
   * A positive node is multiplied by minus the factor of the element of
   * the first visit, in loop order, that reaches it, and by nothing else.
   */
  lemma {:induction false} RescaledFirstTouch(v: seq<real>, elem: seq<int>, facenb: seq<int>, etype: seq<int>, reff: seq<real>, ne: nat, n: nat, i0: nat, j0: Local, k0: nat)
    requires Shaped(|v|, elem, facenb, etype, reff, ne) && n < |v| && i0 < ne && k0 < 3
    requires Touches(elem, facenb, etype, reff, ne, |v|, i0, j0, k0, n) && Clear(|v|, elem, facenb, etype, reff, ne, n, 0, Rank(i0, j0, k0))
    requires v[n] > 0.0
    ensures Rescaled(v, elem, facenb, etype, reff, ne, ne)[n] == v[n] * -Factor(reff[etype[i0]])
  {
    ClearWithin(|v|, elem, facenb, etype, reff, ne, n, 0, Rank(i0, j0, k0), 0, Rank(i0, 0, 0));
    ClearWithin(|v|, elem, facenb, etype, reff, ne, n, 0, Rank(i0, j0, k0), Rank(i0, 0, 0), Rank(i0, j0, k0));
    RescaledUntouched(v, elem, facenb, etype, reff, ne, i0, n);
    var a := Rescaled(v, elem, facenb, etype, reff, ne, i0);
    assert a[n] == v[n];
    FacesFirstTouch(a, elem, facenb, etype, reff, ne, n, i0, j0, k0);
    FlipSign(v[n], Factor(reff[etype[i0]]));
    RescaledKeep(v, elem, facenb, etype, reff, ne, i0 + 1, ne, n);
  }

  /** Within element i0, the first visit that reaches a positive node scales it, and the later faces keep it. */
  lemma {:induction false} FacesFirstTouch(a: seq<real>, elem: seq<int>, facenb: seq<int>, etype: seq<int>, reff: seq<real>, ne: nat, n: nat, i0: nat, j0: Local, k0: nat)
    requires Shaped(|a|, elem, facenb, etype, reff, ne) && n < |a| && i0 < ne && k0 < 3
    requires Touches(elem, facenb, etype, reff, ne, |a|, i0, j0, k0, n) && Clear(|a|, elem, facenb, etype, reff, ne, n, Rank(i0, 0, 0), Rank(i0, j0, k0))
    requires a[n] > 0.0
    ensures Faces(a, elem, facenb, etype, reff, ne, i0, 4)[n] == a[n] * -Factor(reff[etype[i0]])
  {
    FaceFirstTouch(a, elem, facenb, etype, reff, ne, n, i0, j0, k0);
    FlipSign(a[n], Factor(reff[etype[i0]]));
    FacesKeep(a, elem, facenb, etype, reff, ne, i0, j0 + 1, 4, n);
  }

  /** Face j0 of element i0, holding the first visit that reaches a positive node, scales it. */
  lemma {:induction false} FaceFirstTouch(a: seq<real>, elem: seq<int>, facenb: seq<int>, etype: seq<int>, reff: seq<real>, ne: nat, n: nat, i0: nat, j0: Local, k0: nat)
    requires Shaped(|a|, elem, facenb, etype, reff, ne) && n < |a| && i0 < ne && k0 < 3
    requires Touches(elem, facenb, etype, reff, ne, |a|, i0, j0, k0, n) && Clear(|a|, elem, facenb, etype, reff, ne, n, Rank(i0, 0, 0), Rank(i0, j0, k0))
    requires a[n] > 0.0
    ensures Faces(a, elem, facenb, etype, reff, ne, i0, j0 + 1)[n] == a[n] * -Factor(reff[etype[i0]])
  {
    ClearWithin(|a|, elem, facenb, etype, reff, ne, n, Rank(i0, 0, 0), Rank(i0, j0, k0), Rank(i0, 0, 0), Rank(i0, j0, 0));
    FacesKeep(a, elem, facenb, etype, reff, ne, i0, 0, j0, n);
    var b := Faces(a, elem, facenb, etype, reff, ne, i0, j0);
    assert b[n] == a[n];
    ClearWithin(|a|, elem, facenb, etype, reff, ne, n, Rank(i0, 0, 0), Rank(i0, j0, k0), Rank(i0, j0, 0), Rank(i0, j0, k0));
    CornersFirstTouch(b, elem, facenb, etype, reff, ne, n, i0, j0, k0);
    FacesStep(a, elem, facenb, etype, reff, ne, i0, j0, n);
  }

  /** Within face j0, the first corner that reaches a positive node scales it, and the later corners keep it. */
  lemma {:induction false} CornersFirstTouch(b: seq<real>, elem: seq<int>, facenb: seq<int>, etype: seq<int>, reff: seq<real>, ne: nat, n: nat, i0: nat, j0: Local, k0: nat)
    requires Shaped(|b|, elem, facenb, etype, reff, ne) && n < |b| && i0 < ne && k0 < 3
    requires Touches(elem, facenb, etype, reff, ne, |b|, i0, j0, k0, n) && Clear(|b|, elem, facenb, etype, reff, ne, n, Rank(i0, j0, 0), Rank(i0, j0, k0))
    requires b[n] > 0.0
    ensures Corners(b, elem, facenb, etype, reff, ne, i0, j0, 3)[n] == b[n] * -Factor(reff[etype[i0]])
  {
    CornerFirstTouch(b, elem, facenb, etype, reff, ne, n, i0, j0, k0);
    FlipSign(b[n], Factor(reff[etype[i0]]));
    CornersKeep(b, elem, facenb, etype, reff, ne, i0, j0, k0 + 1, 3, n);
  }

  /** The first corner that reaches a positive node scales it. */
  lemma {:induction false} CornerFirstTouch(b: seq<real>, elem: seq<int>, facenb: seq<int>, etype: seq<int>, reff: seq<real>, ne: nat, n: nat, i0: nat, j0: Local, k0: nat)
    requires Shaped(|b|, elem, facenb, etype, reff, ne) && n < |b| && i0 < ne && k0 < 3
    requires Touches(elem, facenb, etype, reff, ne, |b|, i0, j0, k0, n) && Clear(|b|, elem, facenb, etype, reff, ne, n, Rank(i0, j0, 0), Rank(i0, j0, k0))
    requires b[n] > 0.0
    ensures Corners(b, elem, facenb, etype, reff, ne, i0, j0, k0 + 1)[n] == b[n] * -Factor(reff[etype[i0]])
  {
    CornersKeep(b, elem, facenb, etype, reff, ne, i0, j0, 0, k0, n);
    VisitFrame(Corners(b, elem, facenb, etype, reff, ne, i0, j0, k0), elem, facenb, etype, reff, ne, i0, j0, k0);
  }

  /** An exterior face adds its three corners to the faces before it. */
  lemma {:induction false} FacesStep(a: seq<real>, elem: seq<int>, facenb: seq<int>, etype: seq<int>, reff: seq<real>, ne: nat, i: nat, j: Local, n: nat)
    requires Shaped(|a|, elem, facenb, etype, reff, ne) && i < ne && facenb[4 * i + j] == 0 && n < |a|
    ensures Faces(a, elem, facenb, etype, reff, ne, i, j + 1)[n]
            == Corners(Faces(a, elem, facenb, etype, reff, ne, i, j), elem, facenb, etype, reff, ne, i, j, 3)[n]
  {
  }

  /** A node some visit reaches has a first such visit in loop order. */
  lemma {:induction false} TouchHasFirst(elem: seq<int>, facenb: seq<int>, etype: seq<int>, reff: seq<real>, ne: nat, nn: nat, n: nat, i: nat, j: Local, k: nat)
    requires Shaped(nn, elem, facenb, etype, reff, ne) && i < ne && k < 3
    requires Touches(elem, facenb, etype, reff, ne, nn, i, j, k, n)
    ensures exists i0: nat, j0: Local, k0: nat :: i0 < ne && k0 < 3 && Touches(elem, facenb, etype, reff, ne, nn, i0, j0, k0, n)
              && Clear(nn, elem, facenb, etype, reff, ne, n, 0, Rank(i0, j0, k0))
    decreases Rank(i, j, k)
  {
    if !Clear(nn, elem, facenb, etype, reff, ne, n, 0, Rank(i, j, k)) {
      var i1: nat, j1: Local, k1: nat :| i1 < ne && k1 < 3 && Rank(i1, j1, k1) < Rank(i, j, k)
                                          && Touches(elem, facenb, etype, reff, ne, nn, i1, j1, k1, n);
      TouchHasFirst(elem, facenb, etype, reff, ne, nn, n, i1, j1, k1);
    }
  }

  /** After a visit to a node that started positive, the node is negative. */
  lemma VisitMakesNegative(v0: seq<real>, v: seq<real>, elem: seq<int>, facenb: seq<int>, etype: seq<int>, reff: seq<real>, ne: nat, i: nat, j: Local, k: nat)
    requires Shaped(|v|, elem, facenb, etype, reff, ne) && i < ne && k < 3
    requires ScaledOnce(v0, v, reff) && etype[i] >= 0 && v0[CornerNode(elem, |v|, i, j, k)] > 0.0
    ensures Visit(v, elem, facenb, etype, reff, ne, i, j, k)[CornerNode(elem, |v|, i, j, k)] < 0.0
  {
    var n := CornerNode(elem, |v|, i, j, k);
    VisitAt(v, elem, facenb, etype, reff, ne, i, j, k);
    if v[n] > 0.0 {
      FlipSign(v[n], Factor(reff[etype[i]]));
    } else if v[n] != v0[n] {
      var l :| 0 <= l < |reff| && v[n] == v0[n] * -Factor(reff[l]);
      FlipSign(v0[n], Factor(reff[l]));
    }
  }

  /**
   * Every node with a positive value at a corner of an exterior face of a
   * labelled element is scaled: its value is negative when the correction
   * loop ends.
   */
  lemma {:induction false} RescaledCoversSurface(v: seq<real>, elem: seq<int>, facenb: seq<int>, etype: seq<int>, reff: seq<real>, ne: nat, i: nat, j: Local, k: nat)
    requires Shaped(|v|, elem, facenb, etype, reff, ne) && i < ne && k < 3
    requires facenb[4 * i + j] == 0 && etype[i] >= 0 && v[CornerNode(elem, |v|, i, j, k)] > 0.0
    ensures Rescaled(v, elem, facenb, etype, reff, ne, ne)[CornerNode(elem, |v|, i, j, k)] < 0.0
  {
    var n := CornerNode(elem, |v|, i, j, k);
    var a := Rescaled(v, elem, facenb, etype, reff, ne, i);
    RescaledOnce(v, elem, facenb, etype, reff, ne, i);
    FaceCoversCorner(v, a, elem, facenb, etype, reff, ne, i, j, k);
    FacesKeep(a, elem, facenb, etype, reff, ne, i, j + 1, 4, n);
    RescaledKeep(v, elem, facenb, etype, reff, ne, i + 1, ne, n);
  }

  /** Exterior face j of labelled element i leaves each of its corners that started positive negative. */
  lemma {:induction false} FaceCoversCorner(v: seq<real>, a: seq<real>, elem: seq<int>, facenb: seq<int>, etype: seq<int>, reff: seq<real>, ne: nat, i: nat, j: Local, k: nat)
    requires Shaped(|v|, elem, facenb, etype, reff, ne) && i < ne && k < 3 && ScaledOnce(v, a, reff)
    requires facenb[4 * i + j] == 0 && etype[i] >= 0 && v[CornerNode(elem, |v|, i, j, k)] > 0.0
    ensures Faces(a, elem, facenb, etype, reff, ne, i, j + 1)[CornerNode(elem, |v|, i, j, k)] < 0.0
  {
    var n := CornerNode(elem, |v|, i, j, k);
    var b := Faces(a, elem, facenb, etype, reff, ne, i, j);
    FacesScaleOnce(v, a, elem, facenb, etype, reff, ne, i, j);
    CornersScaleOnce(v, b, elem, facenb, etype, reff, ne, i, j, k);
    VisitMakesNegative(v, Corners(b, elem, facenb, etype, reff, ne, i, j, k), elem, facenb, etype, reff, ne, i, j, k);
    CornersKeep(b, elem, facenb, etype, reff, ne, i, j, k + 1, 3, n);
    FacesStep(a, elem, facenb, etype, reff, ne, i, j, n);
  }

  /**
   * From non-negative nodal volumes, the whole correction leaves every
   * node either as it was or multiplied by a positive table factor
   * 2 / (1 + Reff), so every corrected value is non-negative.
   */
  lemma {:induction false} CorrectionSpec(v: seq<real>, elem: seq<int>, facenb: seq<int>, etype: seq<int>, reff: seq<real>, ne: nat, n: nat)
    requires Shaped(|v|, elem, facenb, etype, reff, ne) && n < |v|
    requires forall m :: 0 <= m < |v| ==> v[m] >= 0.0
    ensures var u := Unsigned(Rescaled(v, elem, facenb, etype, reff, ne, ne));
            u[n] >= 0.0
            && (u[n] == v[n] || exists l :: 0 <= l < |reff| && u[n] == v[n] * Factor(reff[l]))
  {
    RescaledOnce(v, elem, facenb, etype, reff, ne, ne);
    var w := Rescaled(v, elem, facenb, etype, reff, ne, ne);
    UnsignedAt(v[n], w[n], reff);
    assert Unsigned(w)[n] == if w[n] < 0.0 then -w[n] else w[n];
  }

  /** After the sign restore, a non-negative node that is zero or that no visit reaches has its original volume. */
  lemma {:induction false} CorrectionUntouched(v: seq<real>, elem: seq<int>, facenb: seq<int>, etype: seq<int>, reff: seq<real>, ne: nat, n: nat)
    requires Shaped(|v|, elem, facenb, etype, reff, ne) && n < |v| && v[n] >= 0.0
    requires v[n] == 0.0 || Clear(|v|, elem, facenb, etype, reff, ne, n, 0, Rank(ne, 0, 0))
    ensures Unsigned(Rescaled(v, elem, facenb, etype, reff, ne, ne))[n] == v[n]
  {
    RescaledUntouched(v, elem, facenb, etype, reff, ne, ne, n);
  }

  /**
   * After the sign restore, a positive node is its original volume times
   * 2 / (1 + Reff) of the medium of the element whose exterior face reaches
   * it first in loop order.
   */
  lemma {:induction false} CorrectionFirstTouch(v: seq<real>, elem: seq<int>, facenb: seq<int>, etype: seq<int>, reff: seq<real>, ne: nat, n: nat, i0: nat, j0: Local, k0: nat)
    requires Shaped(|v|, elem, facenb, etype, reff, ne) && n < |v| && i0 < ne && k0 < 3
    requires Touches(elem, facenb, etype, reff, ne, |v|, i0, j0, k0, n) && Clear(|v|, elem, facenb, etype, reff, ne, n, 0, Rank(i0, j0, k0))
    requires v[n] > 0.0
    ensures Unsigned(Rescaled(v, elem, facenb, etype, reff, ne, ne))[n] == v[n] * Factor(reff[etype[i0]])
  {
    RescaledFirstTouch(v, elem, facenb, etype, reff, ne, n, i0, j0, k0);
    FlipSign(v[n], Factor(reff[etype[i0]]));
  }

  /** A value scaled once, made non-negative again, is the original value times a table factor. */
  lemma UnsignedAt(x0: real, x: real, reff: seq<real>)
    requires forall l :: 0 <= l < |reff| ==> reff[l] > -1.0
    requires ScaledAt(x0, x, reff) && x0 >= 0.0
    ensures var u := if x < 0.0 then -x else x;
            u >= 0.0 && (u == x0 || exists l :: 0 <= l < |reff| && u == x0 * Factor(reff[l]))
  {
    if x != x0 {
      var l :| 0 <= l < |reff| && x == x0 * -Factor(reff[l]);
      FlipSign(x0, Factor(reff[l]));
    }
  }

  /** The correction loop of tracer_prep over ne elements, on the nodal volumes. */
  method RescaleSurface(nvol: array<real>, elem: seq<int>, facenb: seq<int>, etype: seq<int>, reff: seq<real>, ne: nat)
    requires Shaped(nvol.Length, elem, facenb, etype, reff, ne)
    modifies nvol
    ensures nvol[..] == Rescaled(old(nvol[..]), elem, facenb, etype, reff, ne, ne)
  {
    ghost var v0 := nvol[..];
    var i := 0;
    while i < ne
      invariant 0 <= i <= ne
      invariant nvol[..] == Rescaled(v0, elem, facenb, etype, reff, ne, i)
    {
      RescaleElement(nvol, elem, facenb, etype, reff, ne, i);
      i := i + 1;
    }
  }

  /** The faces of element i. */
  method RescaleElement(nvol: array<real>, elem: seq<int>, facenb: seq<int>, etype: seq<int>, reff: seq<real>, ne: nat, i: nat)
    requires Shaped(nvol.Length, elem, facenb, etype, reff, ne) && i < ne
    modifies nvol
    ensures nvol[..] == Faces(old(nvol[..]), elem, facenb, etype, reff, ne, i, 4)
  {
    ghost var v0 := nvol[..];
    var j := 0;
    while j < 4
      invariant 0 <= j <= 4
      invariant nvol[..] == Faces(v0, elem, facenb, etype, reff, ne, i, j)
    {
      if facenb[4 * i + j] == 0 {
        RescaleFace(nvol, elem, facenb, etype, reff, ne, i, j);
      }
      j := j + 1;
    }
  }

  /** The three corners of exterior face j of element i. */
  method RescaleFace(nvol: array<real>, elem: seq<int>, facenb: seq<int>, etype: seq<int>, reff: seq<real>, ne: nat, i: nat, j: Local)
    requires Shaped(nvol.Length, elem, facenb, etype, reff, ne) && i < ne
    modifies nvol
    ensures nvol[..] == Corners(old(nvol[..]), elem, facenb, etype, reff, ne, i, j, 3)
  {
    ghost var before := nvol[..];
    var k := 0;
    while k < 3
      invariant 0 <= k <= 3
      invariant nvol[..] == Corners(before, elem, facenb, etype, reff, ne, i, j, k)
    {
      ghost var cur := nvol[..];
      VisitAt(cur, elem, facenb, etype, reff, ne, i, j, k);
      var nid := elem[4 * i + Out(IFaceOrder(j), k)] - 1;
      assert nid == CornerNode(elem, |cur|, i, j, k);
      if nvol[nid] > 0.0 && etype[i] >= 0 {
        var scaled := nvol[nid] * -Factor(reff[etype[i]]);
        nvol[nid] := scaled;
        assert Visit(cur, elem, facenb, etype, reff, ne, i, j, k)[nid] == scaled;
        assert forall m :: 0 <= m < |cur| && m != nid ==> Visit(cur, elem, facenb, etype, reff, ne, i, j, k)[m] == cur[m];
        assert nvol[..] == Visit(cur, elem, facenb, etype, reff, ne, i, j, k);
      }
      assert Corners(before, elem, facenb, etype, reff, ne, i, j, k + 1) == Visit(cur, elem, facenb, etype, reff, ne, i, j, k);
      k := k + 1;
    }
  }

  /** The closing pass: every negative nodal volume is negated. */
  method RestoreSigns(nvol: array<real>)
    modifies nvol
    ensures nvol[..] == Unsigned(old(nvol[..]))
  {
    ghost var v0 := nvol[..];
    var i := 0;
    while i < nvol.Length
      invariant 0 <= i <= nvol.Length
      invariant forall n :: 0 <= n < i ==> nvol[n] == Unsigned(v0)[n]
      invariant forall n :: i <= n < nvol.Length ==> nvol[n] == v0[n]
    {
      if nvol[i] < 0.0 {
        nvol[i] := -nvol[i];
      }
      i := i + 1;
    }
  }
}
