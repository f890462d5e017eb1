/**
 * The ROI compression of tracer_prep, shared by the edge records (6
 * entries per element) and the face records (4 entries per element). Only
 * entry 0 of a record is ever rewritten: first with minus the number of
 * positive entries of the element's own record, then, for an element that
 * still has none, with a reference -id - w to a neighbour whose entry 0 is
 * non-zero (for edges also to a neighbour of a neighbour).
 */
module Roi {
  import opened Common

  const EDGE_WIDTH: nat := 6
  const FACE_WIDTH: nat := 4

  /** Record width w, ne records, and 4 face-neighbour entries per element, each at most ne. */
  predicate Shaped(r: seq<real>, nb: seq<int>, w: nat, ne: nat) {
    (w == EDGE_WIDTH || w == FACE_WIDTH) && |r| == w * ne && |nb| == 4 * ne && forall m :: 0 <= m < |nb| ==> nb[m] <= ne
  }

  lemma RecordInside(w: nat, ne: nat, i: nat)
    requires i < ne
    ensures w * i + w <= w * ne
  {
    assert w * (i + 1) <= w * ne;
  }

  /** Position of entry 0 of record i. */
  function Head(w: nat, i: nat): nat {
    w * i
  }

  /** Position of entry j of record i. */
  function Cell(w: nat, i: nat, j: nat): nat {
    Head(w, i) + j
  }

  /** Records are laid out one after the other, w entries each. */
  lemma HeadOrder(w: nat, a: nat, b: nat)
    requires a < b
    ensures Head(w, a) + w <= Head(w, b)
  {
    assert w * b == w * (a + 1) + w * (b - a - 1);
  }

  /** Entry 0 of a record within EPS of zero: the element has no ROI yet. */
  predicate Empty(x: real) {
    Abs(x) < EPS
  }

  /** Number of strictly positive entries among r[base..base + j]. */
  function PositiveCount(r: seq<real>, base: nat, j: nat): (c: nat)
    requires base + j <= |r|
    ensures c <= j
  {
    if j == 0 then 0 else PositiveCount(r, base, j - 1) + (if r[base + j - 1] > 0.0 then 1 else 0)
  }

  /** Entry 0 of record i after the counting pass. */
  function Marked(r: seq<real>, w: nat, i: nat): real
    requires 1 <= w && Head(w, i) + w <= |r|
  {
    var c := PositiveCount(r, Head(w, i), w);
    if c > 0 && Empty(r[Head(w, i)]) then -(c as real) else r[Head(w, i)]
  }

  /** The counting pass applied to the first k records, each record counted on its original entries. */
  function CountUpTo(r: seq<real>, w: nat, ne: nat, k: nat): (r1: seq<real>)
    requires (w == EDGE_WIDTH || w == FACE_WIDTH) && |r| == w * ne && k <= ne
    ensures |r1| == |r|
  {
    if k == 0 then r
    else
      RecordInside(w, ne, k - 1);
      CountUpTo(r, w, ne, k - 1)[Head(w, k - 1) := Marked(r, w, k - 1)]
  }

  /** The counting pass leaves every entry from record k on as it was. */
  lemma {:induction false} CountUpToFrame(r: seq<real>, w: nat, ne: nat, k: nat)
    requires (w == EDGE_WIDTH || w == FACE_WIDTH) && |r| == w * ne && k <= ne
    ensures forall m :: Head(w, k) <= m < |r| ==> CountUpTo(r, w, ne, k)[m] == r[m]
  {
    if k > 0 {
      CountUpToFrame(r, w, ne, k - 1);
      assert Head(w, k - 1) + w == Head(w, k);
    }
  }

  /**
   * After the counting pass entry 0 of record i is minus the number of
   * positive entries of the record (between -w and -1) when it was within
   * EPS of zero and some entry is positive, and is kept otherwise; the
   * other entries of every record are kept.
   */
  lemma {:induction false} CountPassSpec(r: seq<real>, w: nat, ne: nat, k: nat, i: nat)
    requires (w == EDGE_WIDTH || w == FACE_WIDTH) && |r| == w * ne && i < k <= ne
    ensures Head(w, i) + w <= |r|
    ensures var c := PositiveCount(r, Head(w, i), w);
            CountUpTo(r, w, ne, k)[Head(w, i)] ==
              if c > 0 && Empty(r[Head(w, i)]) then -(c as real) else r[Head(w, i)]
    ensures forall j :: 0 < j < w ==> CountUpTo(r, w, ne, k)[Cell(w, i, j)] == r[Cell(w, i, j)]
  {
    RecordInside(w, ne, i);
    if i < k - 1 {
      CountPassSpec(r, w, ne, k - 1, i);
      RecordInside(w, ne, k - 1);
      HeadOrder(w, i, k - 1);
    } else {
      CountUpToFrame(r, w, ne, k - 1);
    }
  }

  /** The count depends only on the entries it looks at. */
  lemma {:induction false} PositiveCountAgree(a: seq<real>, b: seq<real>, base: nat, j: nat)
    requires base + j <= |a| && base + j <= |b|
    requires forall m :: base <= m < base + j ==> a[m] == b[m]
    ensures PositiveCount(a, base, j) == PositiveCount(b, base, j)
  {
    if j > 0 {
      PositiveCountAgree(a, b, base, j - 1);
    }
  }

  /** The inner loop of the counting pass: the number of positive entries of one record. */
  method RecordCount(roi: array<real>, base: nat, w: nat) returns (count: nat)
    requires base + w <= roi.Length
    ensures count == PositiveCount(roi[..], base, w)
  {
    count := 0;
    var j := 0;
    while j < w
      invariant 0 <= j <= w
      invariant count == PositiveCount(roi[..], base, j)
    {
      if roi[base + j] > 0.0 {
        count := count + 1;
      }
      j := j + 1;
    }
  }

  /** The counting loop of tracer_prep over ne records of width w. */
  method CountPass(roi: array<real>, ne: nat, w: nat)
    requires (w == EDGE_WIDTH || w == FACE_WIDTH) && roi.Length == w * ne
    modifies roi
    ensures roi[..] == CountUpTo(old(roi[..]), w, ne, ne)
  {
    ghost var r0 := roi[..];
    var i := 0;
    while i < ne
      invariant 0 <= i <= ne
      invariant roi[..] == CountUpTo(r0, w, ne, i)
    {
      RecordInside(w, ne, i);
      CountUpToFrame(r0, w, ne, i);
      var count := RecordCount(roi, w * i, w);
      PositiveCountAgree(roi[..], r0, Head(w, i), w);
      if count > 0 && Abs(roi[w * i]) < EPS {
        roi[w * i] := -(count as real);
      }
      i := i + 1;
    }
  }

  /** Neighbour id (1-based) has a non-empty entry 0. */
  predicate Hit(r: seq<real>, w: nat, ne: nat, id: int)
    requires 1 <= w && |r| == w * ne && id <= ne
  {
    id > 0 && (RecordInside(w, ne, id - 1); Abs(r[Head(w, id - 1)]) > EPS)
  }

  /** Slot t of the neighbour list starting at base. */
  function Slot(nb: seq<int>, base: nat, t: nat): int
    requires base + t < |nb|
  {
    nb[base + t]
  }

  /** The first slot from j on whose neighbour hits, or 4 when none does. */
  function HitSlot(r: seq<real>, nb: seq<int>, w: nat, ne: nat, base: nat, j: nat): (s: nat)
    requires Shaped(r, nb, w, ne) && base + 4 <= |nb| && j <= 4
    decreases 4 - j
    ensures j <= s <= 4
    ensures s < 4 ==> Hit(r, w, ne, Slot(nb, base, s))
  {
    if j == 4 then 4
    else if Hit(r, w, ne, Slot(nb, base, j)) then j
    else HitSlot(r, nb, w, ne, base, j + 1)
  }

  /** No slot between j and the first hit hits. */
  lemma {:induction false} HitSlotIsFirst(r: seq<real>, nb: seq<int>, w: nat, ne: nat, base: nat, j: nat)
    requires Shaped(r, nb, w, ne) && base + 4 <= |nb| && j <= 4
    decreases 4 - j
    ensures forall t :: j <= t < HitSlot(r, nb, w, ne, base, j) ==> !Hit(r, w, ne, Slot(nb, base, t))
  {
    if j < 4 && !Hit(r, w, ne, Slot(nb, base, j)) {
      HitSlotIsFirst(r, nb, w, ne, base, j + 1);
    }
  }

  /** The neighbour found by the scan with break of tracer_prep: the first one that hits, or 0. */
  function FirstHit(r: seq<real>, nb: seq<int>, w: nat, ne: nat, base: nat): (id: int)
    requires Shaped(r, nb, w, ne) && base + 4 <= |nb|
    ensures id == 0 || (1 <= id <= ne && Hit(r, w, ne, id))
  {
    var s := HitSlot(r, nb, w, ne, base, 0);
    if s == 4 then 0 else Slot(nb, base, s)
  }

  /** The reference written for neighbour id: -id - w, always below the counts -w..-1. */
  function Reference(id: int, w: nat): real {
    (-id - w) as real
  }

  /** An entry that holds a reference to one of the ne elements. */
  predicate IsReference(x: real, w: nat, ne: nat) {
    exists id :: 1 <= id <= ne && x == Reference(id, w)
  }

  /** The records after the first-order neighbour scan of element i. */
  function FirstOrder(r: seq<real>, nb: seq<int>, w: nat, ne: nat, i: nat): (r1: seq<real>)
    requires Shaped(r, nb, w, ne) && i < ne
    ensures |r1| == |r|
  {
    RecordInside(w, ne, i);
    if Empty(r[Head(w, i)]) then
      var h := FirstHit(r, nb, w, ne, 4 * i);
      if h != 0 then r[Head(w, i) := Reference(h, w)] else r
    else r
  }

  /**
   * The second-order scan of the edge pass over slots j..3 of element i:
   * for each neighbour, the first of its neighbours that hits overwrites
   * entry 0; only the inner scan stops, so a later slot may overwrite it.
   */
  function SecondOrder(r: seq<real>, nb: seq<int>, ne: nat, i: nat, j: nat): (r2: seq<real>)
    requires Shaped(r, nb, EDGE_WIDTH, ne) && i < ne && j <= 4
    decreases 4 - j
    ensures |r2| == |r|
  {
    if j == 4 then r
    else SecondOrder(SecondOrderSlot(r, nb, ne, i, j), nb, ne, i, j + 1)
  }

  /** Slot j of the second-order scan: the first hitting neighbour of neighbour j, if any, overwrites entry 0 of element i. */
  function SecondOrderSlot(r: seq<real>, nb: seq<int>, ne: nat, i: nat, j: nat): (next: seq<real>)
    requires Shaped(r, nb, EDGE_WIDTH, ne) && i < ne && j < 4
    ensures |next| == |r|
  {
    var first := nb[4 * i + j] - 1;
    if first < 0 then r
    else
      var h := FirstHit(r, nb, EDGE_WIDTH, ne, 4 * first);
      RecordInside(EDGE_WIDTH, ne, i);
      if h != 0 then r[Head(EDGE_WIDTH, i) := Reference(h, EDGE_WIDTH)] else r
  }

  /** One slot writes only entry 0 of element i, and only a reference. */
  lemma SecondOrderSlotFrame(r: seq<real>, nb: seq<int>, ne: nat, i: nat, j: nat)
    requires Shaped(r, nb, EDGE_WIDTH, ne) && i < ne && j < 4
    ensures Head(EDGE_WIDTH, i) < |r|
    ensures Shaped(SecondOrderSlot(r, nb, ne, i, j), nb, EDGE_WIDTH, ne)
    ensures forall m :: 0 <= m < |r| && m != Head(EDGE_WIDTH, i) ==> SecondOrderSlot(r, nb, ne, i, j)[m] == r[m]
    ensures var x := SecondOrderSlot(r, nb, ne, i, j)[Head(EDGE_WIDTH, i)];
            x == r[Head(EDGE_WIDTH, i)] || IsReference(x, EDGE_WIDTH, ne)
  {
    RecordInside(EDGE_WIDTH, ne, i);
    var first := nb[4 * i + j] - 1;
    if first >= 0 {
      var h := FirstHit(r, nb, EDGE_WIDTH, ne, 4 * first);
      if h != 0 {
        assert IsReference(SecondOrderSlot(r, nb, ne, i, j)[Head(EDGE_WIDTH, i)], EDGE_WIDTH, ne);
      }
    }
  }

  /** The records after the neighbour pass has handled element i. */
  function ElementStep(r: seq<real>, nb: seq<int>, w: nat, ne: nat, i: nat, second: bool): (r3: seq<real>)
    requires Shaped(r, nb, w, ne) && i < ne && (second ==> w == EDGE_WIDTH)
    ensures |r3| == |r|
  {
    var r1 := FirstOrder(r, nb, w, ne, i);
    RecordInside(w, ne, i);
    if second && Empty(r1[Head(w, i)]) then SecondOrder(r1, nb, ne, i, 0) else r1
  }

  /** The records after the neighbour pass has handled the first k elements. */
  function NeighbourPass(r: seq<real>, nb: seq<int>, w: nat, ne: nat, second: bool, k: nat): (r4: seq<real>)
    requires Shaped(r, nb, w, ne) && k <= ne && (second ==> w == EDGE_WIDTH)
    ensures |r4| == |r|
  {
    if k == 0 then r
    else
      var prev := NeighbourPass(r, nb, w, ne, second, k - 1);
      assert Shaped(prev, nb, w, ne);
      ElementStep(prev, nb, w, ne, k - 1, second)
  }

  /** The inner scan with break: the first neighbour in slots base..base + 3 whose entry 0 is non-empty, or 0. */
  method ScanNeighbours(roi: array<real>, nb: seq<int>, w: nat, ne: nat, base: nat) returns (id: int)
    requires Shaped(roi[..], nb, w, ne) && base + 4 <= |nb|
    ensures id == FirstHit(roi[..], nb, w, ne, base)
  {
    var j := 0;
    while j < 4
      invariant 0 <= j <= 4
      invariant HitSlot(roi[..], nb, w, ne, base, j) == HitSlot(roi[..], nb, w, ne, base, 0)
    {
      id := nb[base + j];
      if id > 0 {
        RecordInside(w, ne, id - 1);
        if Abs(roi[w * (id - 1)]) > EPS {
          return;
        }
      }
      j := j + 1;
    }
    id := 0;
  }

  /** The body of the neighbour loop of tracer_prep for element i. */
  method ElementRefs(roi: array<real>, nb: seq<int>, w: nat, ne: nat, i: nat, second: bool)
    requires Shaped(roi[..], nb, w, ne) && i < ne && (second ==> w == EDGE_WIDTH)
    modifies roi
    ensures roi[..] == ElementStep(old(roi[..]), nb, w, ne, i, second)
  {
    RecordInside(w, ne, i);
    if Abs(roi[w * i]) < EPS {
      var id := ScanNeighbours(roi, nb, w, ne, 4 * i);
      if id != 0 {
        roi[w * i] := (-id - w) as real;
      }
    }
    if second && Abs(roi[w * i]) < EPS {
      SecondOrderScan(roi, nb, ne, i);
    }
  }

  /** The second-order loop of the edge pass for element i. */
  method SecondOrderScan(roi: array<real>, nb: seq<int>, ne: nat, i: nat)
    requires Shaped(roi[..], nb, EDGE_WIDTH, ne) && i < ne
    modifies roi
    ensures roi[..] == SecondOrder(old(roi[..]), nb, ne, i, 0)
  {
    ghost var r1 := roi[..];
    RecordInside(EDGE_WIDTH, ne, i);
    var j := 0;
    while j < 4
      invariant 0 <= j <= 4
      invariant Shaped(roi[..], nb, EDGE_WIDTH, ne)
      invariant SecondOrder(roi[..], nb, ne, i, j) == SecondOrder(r1, nb, ne, i, 0)
    {
      ghost var before := roi[..];
      var first := nb[4 * i + j] - 1;
      if first >= 0 {
        assert first < ne;
        var id := ScanNeighbours(roi, nb, EDGE_WIDTH, ne, 4 * first);
        if id != 0 {
          roi[6 * i] := (-id - 6) as real;
          assert roi[..] == before[Head(EDGE_WIDTH, i) := Reference(id, EDGE_WIDTH)];
        }
      }
      j := j + 1;
    }
  }

  /** The neighbour loop of tracer_prep over all ne elements. */
  method NeighbourScan(roi: array<real>, nb: seq<int>, w: nat, ne: nat, second: bool)
    requires Shaped(roi[..], nb, w, ne) && (second ==> w == EDGE_WIDTH)
    modifies roi
    ensures roi[..] == NeighbourPass(old(roi[..]), nb, w, ne, second, ne)
  {
    ghost var r0 := roi[..];
    var i := 0;
    while i < ne
      invariant 0 <= i <= ne
      invariant roi[..] == NeighbourPass(r0, nb, w, ne, second, i)
    {
      ElementRefs(roi, nb, w, ne, i, second);
      i := i + 1;
    }
  }

  /** The second-order scan writes only entry 0 of element i, and only references. */
  lemma {:induction false} SecondOrderFrame(r: seq<real>, nb: seq<int>, ne: nat, i: nat, j: nat)
    requires Shaped(r, nb, EDGE_WIDTH, ne) && i < ne && j <= 4
    decreases 4 - j
    ensures Head(EDGE_WIDTH, i) < |r|
    ensures forall m :: 0 <= m < |r| && m != Head(EDGE_WIDTH, i) ==> SecondOrder(r, nb, ne, i, j)[m] == r[m]
    ensures var x := SecondOrder(r, nb, ne, i, j)[Head(EDGE_WIDTH, i)];
            x == r[Head(EDGE_WIDTH, i)] || IsReference(x, EDGE_WIDTH, ne)
  {
    RecordInside(EDGE_WIDTH, ne, i);
    if j < 4 {
      var next := SecondOrderSlot(r, nb, ne, i, j);
      SecondOrderSlotFrame(r, nb, ne, i, j);
      SecondOrderFrame(next, nb, ne, i, j + 1);
    }
  }

  /**
   * Handling element i rewrites only its own entry 0, and only when it was
   * within EPS of zero; what it writes is a reference to one of the ne
   * elements.
   */
  lemma ElementStepFrame(r: seq<real>, nb: seq<int>, w: nat, ne: nat, i: nat, second: bool)
    requires Shaped(r, nb, w, ne) && i < ne && (second ==> w == EDGE_WIDTH)
    ensures Head(w, i) < |r|
    ensures forall m :: 0 <= m < |r| && m != Head(w, i) ==> ElementStep(r, nb, w, ne, i, second)[m] == r[m]
    ensures var x := ElementStep(r, nb, w, ne, i, second)[Head(w, i)];
            x == r[Head(w, i)] || (Empty(r[Head(w, i)]) && IsReference(x, w, ne))
  {
    RecordInside(w, ne, i);
    var r1 := FirstOrder(r, nb, w, ne, i);
    if Empty(r[Head(w, i)]) {
      var h := FirstHit(r, nb, w, ne, 4 * i);
      if h != 0 {
        assert IsReference(r1[Head(w, i)], w, ne);
      }
    }
    assert Shaped(r1, nb, w, ne);
    if second && Empty(r1[Head(w, i)]) {
      SecondOrderFrame(r1, nb, ne, i, 0);
    }
  }

  /** The neighbour pass keeps every entry of a record other than entry 0. */
  lemma {:induction false} NeighbourPassKeepsTail(r: seq<real>, nb: seq<int>, w: nat, ne: nat, second: bool, k: nat, i: nat)
    requires Shaped(r, nb, w, ne) && k <= ne && (second ==> w == EDGE_WIDTH) && i < ne
    ensures Head(w, i) + w <= |r|
    ensures forall j :: 0 < j < w ==> NeighbourPass(r, nb, w, ne, second, k)[Cell(w, i, j)] == r[Cell(w, i, j)]
  {
    RecordInside(w, ne, i);
    if k > 0 {
      var prev := NeighbourPass(r, nb, w, ne, second, k - 1);
      NeighbourPassKeepsTail(r, nb, w, ne, second, k - 1, i);
      assert Shaped(prev, nb, w, ne);
      ElementStepFrame(prev, nb, w, ne, k - 1, second);
      if k - 1 < i {
        HeadOrder(w, k - 1, i);
      } else if i < k - 1 {
        HeadOrder(w, i, k - 1);
      }
      forall j | 0 < j < w
        ensures NeighbourPass(r, nb, w, ne, second, k)[Cell(w, i, j)] == r[Cell(w, i, j)]
      {
        assert Cell(w, i, j) != Head(w, k - 1);
        assert prev[Cell(w, i, j)] == r[Cell(w, i, j)];
      }
    }
  }

  /** x is x0, or x0 was within EPS of zero and x is a reference to one of the ne elements. */
  predicate HeadAfter(x0: real, x: real, w: nat, ne: nat) {
    x == x0 || (Empty(x0) && IsReference(x, w, ne))
  }

  /** A reference is never within EPS of zero. */
  lemma ReferenceNotEmpty(x: real, w: nat, ne: nat)
    requires IsReference(x, w, ne)
    ensures !Empty(x)
  {
    var id :| 1 <= id <= ne && x == Reference(id, w);
  }

  /** A reference once written is kept, so two rewrites of entry 0 are one. */
  lemma HeadAfterTrans(a: real, b: real, c: real, w: nat, ne: nat)
    requires HeadAfter(a, b, w, ne) && HeadAfter(b, c, w, ne)
    ensures HeadAfter(a, c, w, ne)
  {
    if b != a {
      ReferenceNotEmpty(b, w, ne);
    }
  }

  /** Handling element k, seen from entry 0 of element i. */
  lemma ElementStepAt(r: seq<real>, nb: seq<int>, w: nat, ne: nat, k: nat, second: bool, i: nat)
    requires Shaped(r, nb, w, ne) && k < ne && (second ==> w == EDGE_WIDTH) && i < ne
    ensures Head(w, i) < |r|
    ensures HeadAfter(r[Head(w, i)], ElementStep(r, nb, w, ne, k, second)[Head(w, i)], w, ne)
    ensures i != k ==> ElementStep(r, nb, w, ne, k, second)[Head(w, i)] == r[Head(w, i)]
  {
    RecordInside(w, ne, i);
    ElementStepFrame(r, nb, w, ne, k, second);
    if k < i {
      HeadOrder(w, k, i);
    } else if i < k {
      HeadOrder(w, i, k);
    }
  }

  /** The first k steps of the neighbour pass: the pass over k - 1 elements, then element k - 1. */
  lemma NeighbourPassStep(r: seq<real>, nb: seq<int>, w: nat, ne: nat, second: bool, k: nat)
    requires Shaped(r, nb, w, ne) && 0 < k <= ne && (second ==> w == EDGE_WIDTH)
    ensures Shaped(NeighbourPass(r, nb, w, ne, second, k - 1), nb, w, ne)
    ensures NeighbourPass(r, nb, w, ne, second, k)
            == ElementStep(NeighbourPass(r, nb, w, ne, second, k - 1), nb, w, ne, k - 1, second)
  {
  }

  /**
   * Entry 0 of a record changes in the neighbour pass only when it was
   * within EPS of zero, into a reference, and not before the pass reaches
   * its element.
   */
  lemma {:induction false} NeighbourPassHead(r: seq<real>, nb: seq<int>, w: nat, ne: nat, second: bool, k: nat, i: nat)
    requires Shaped(r, nb, w, ne) && k <= ne && (second ==> w == EDGE_WIDTH) && i < ne
    ensures Head(w, i) < |r|
    ensures HeadAfter(r[Head(w, i)], NeighbourPass(r, nb, w, ne, second, k)[Head(w, i)], w, ne)
    ensures k <= i ==> NeighbourPass(r, nb, w, ne, second, k)[Head(w, i)] == r[Head(w, i)]
  {
    RecordInside(w, ne, i);
    if k > 0 {
      var prev := NeighbourPass(r, nb, w, ne, second, k - 1);
      NeighbourPassHead(r, nb, w, ne, second, k - 1, i);
      NeighbourPassStep(r, nb, w, ne, second, k);
      ElementStepAt(prev, nb, w, ne, k - 1, second, i);
      HeadAfterTrans(r[Head(w, i)], prev[Head(w, i)], NeighbourPass(r, nb, w, ne, second, k)[Head(w, i)], w, ne);
    }
  }

  /** Once the neighbour pass has handled element i, its entry 0 is never rewritten. */
  lemma {:induction false} NeighbourPassFinal(r: seq<real>, nb: seq<int>, w: nat, ne: nat, second: bool, k: nat, i: nat)
    requires Shaped(r, nb, w, ne) && i < k <= ne && (second ==> w == EDGE_WIDTH)
    ensures Head(w, i) < |r|
    ensures NeighbourPass(r, nb, w, ne, second, k)[Head(w, i)] == NeighbourPass(r, nb, w, ne, second, i + 1)[Head(w, i)]
  {
    RecordInside(w, ne, i);
    if i + 1 < k {
      NeighbourPassFinal(r, nb, w, ne, second, k - 1, i);
      NeighbourPassLater(r, nb, w, ne, second, k, i);
    }
  }

  /** Handling element k - 1 keeps entry 0 of every other element i. */
  lemma NeighbourPassLater(r: seq<real>, nb: seq<int>, w: nat, ne: nat, second: bool, k: nat, i: nat)
    requires Shaped(r, nb, w, ne) && 0 < k <= ne && (second ==> w == EDGE_WIDTH) && i < ne && i != k - 1
    ensures Head(w, i) < |r|
    ensures NeighbourPass(r, nb, w, ne, second, k)[Head(w, i)] == NeighbourPass(r, nb, w, ne, second, k - 1)[Head(w, i)]
  {
    NeighbourPassStep(r, nb, w, ne, second, k);
    ElementStepAt(NeighbourPass(r, nb, w, ne, second, k - 1), nb, w, ne, k - 1, second, i);
  }

  /**
   * The first-order scan of element i: an entry that was not within EPS of
   * zero is kept; otherwise it becomes a reference to the neighbour in the
   * first slot whose entry 0 is non-empty, and stays when there is none.
   */
  lemma FirstOrderSpec(r: seq<real>, nb: seq<int>, w: nat, ne: nat, i: nat)
    requires Shaped(r, nb, w, ne) && i < ne
    ensures Head(w, i) < |r|
    ensures !Empty(r[Head(w, i)]) ==> FirstOrder(r, nb, w, ne, i) == r
    ensures Empty(r[Head(w, i)]) ==>
              var s := HitSlot(r, nb, w, ne, 4 * i, 0);
              (s == 4 ==> FirstOrder(r, nb, w, ne, i) == r)
              && (s < 4 ==> FirstOrder(r, nb, w, ne, i)[Head(w, i)] == Reference(Slot(nb, 4 * i, s), w)
                            && Hit(r, w, ne, Slot(nb, 4 * i, s))
                            && forall t :: 0 <= t < s ==> !Hit(r, w, ne, Slot(nb, 4 * i, t)))
  {
    RecordInside(w, ne, i);
    HitSlotIsFirst(r, nb, w, ne, 4 * i, 0);
  }

  /** The second-order scan as evidently intended: the first neighbour of a neighbour (slots j..3) that hits, or 0. */
  function SecondOrderFirst(r: seq<real>, nb: seq<int>, ne: nat, i: nat, j: nat): (id: int)
    requires Shaped(r, nb, EDGE_WIDTH, ne) && i < ne && j <= 4
    decreases 4 - j
    ensures id == 0 || (1 <= id <= ne && Hit(r, EDGE_WIDTH, ne, id))
  {
    if j == 4 then 0
    else
      var first := nb[4 * i + j] - 1;
      var h := if first < 0 then 0 else FirstHit(r, nb, EDGE_WIDTH, ne, 4 * first);
      if h != 0 then h else SecondOrderFirst(r, nb, ne, i, j + 1)
  }

  /** Handling element i with the second-order scan stopping at its first hit. */
  function ElementStepIntended(r: seq<real>, nb: seq<int>, w: nat, ne: nat, i: nat, second: bool): (r3: seq<real>)
    requires Shaped(r, nb, w, ne) && i < ne && (second ==> w == EDGE_WIDTH)
    ensures |r3| == |r|
  {
    var r1 := FirstOrder(r, nb, w, ne, i);
    RecordInside(w, ne, i);
    if second && Empty(r1[Head(w, i)]) then
      var h := SecondOrderFirst(r1, nb, ne, i, 0);
      if h != 0 then r1[Head(w, i) := Reference(h, w)] else r1
    else r1
  }

  /**
   * With the intended scan, element i's entry 0 changes only when it was
   * within EPS of zero, and then refers to an element whose entry 0 was
   * non-empty when element i was handled, hence never to element i itself.
   */
  lemma IntendedRefersToMarked(r: seq<real>, nb: seq<int>, w: nat, ne: nat, i: nat, second: bool)
    requires Shaped(r, nb, w, ne) && i < ne && (second ==> w == EDGE_WIDTH)
    ensures Head(w, i) < |r|
    ensures forall m :: 0 <= m < |r| && m != Head(w, i) ==> ElementStepIntended(r, nb, w, ne, i, second)[m] == r[m]
    ensures var x := ElementStepIntended(r, nb, w, ne, i, second)[Head(w, i)];
            x == r[Head(w, i)]
            || (Empty(r[Head(w, i)]) && exists id :: 1 <= id <= ne && id != i + 1 && Hit(r, w, ne, id) && x == Reference(id, w))
  {
    RecordInside(w, ne, i);
    var r1 := FirstOrder(r, nb, w, ne, i);
    var x := ElementStepIntended(r, nb, w, ne, i, second)[Head(w, i)];
    if Empty(r[Head(w, i)]) {
      var h := FirstHit(r, nb, w, ne, 4 * i);
      if h != 0 {
        assert x == Reference(h, w) && h != i + 1;
      } else {
        assert r1 == r;
        if second {
          var h2 := SecondOrderFirst(r, nb, ne, i, 0);
          if h2 != 0 {
            assert x == Reference(h2, w) && h2 != i + 1;
          }
        }
      }
    }
  }

  /** Four elements in a ring around element 4, which alone carries an edge ROI: 1 touches 2 and 3, 2 touches 4 and 1, 3 touches 1 and 4, 4 touches 2 and 3. */
  function RingRecords(): seq<real> {
    seq(24, m => if m == 18 then 0.5 else 0.0)
  }

  function RingNeighbours(): seq<int> {
    [2, 3, 0, 0, 4, 1, 0, 0, 1, 4, 0, 0, 2, 3, 0, 0]
  }

  /**
   * On the ring, element 1 has no ROI and no first-order neighbour with
   * one. Its first neighbour's neighbour 4 is found and written (-10), but
   * the outer loop goes on: its second neighbour's first neighbour is
   * element 1 itself, whose entry is now non-zero, and -7 (element 1)
   * replaces the reference. The intended scan keeps -10.
   */
  lemma SecondOrderSelfReference()
    ensures Shaped(RingRecords(), RingNeighbours(), EDGE_WIDTH, 4)
    ensures !Hit(RingRecords(), EDGE_WIDTH, 4, 1) && Hit(RingRecords(), EDGE_WIDTH, 4, 4)
    ensures ElementStep(RingRecords(), RingNeighbours(), EDGE_WIDTH, 4, 0, true)[0] == Reference(1, EDGE_WIDTH)
    ensures ElementStepIntended(RingRecords(), RingNeighbours(), EDGE_WIDTH, 4, 0, true)[0] == Reference(4, EDGE_WIDTH)
  {
    var r := RingRecords();
    var nb := RingNeighbours();
    assert Shaped(r, nb, EDGE_WIDTH, 4);
    assert r[0] == 0.0 && r[6] == 0.0 && r[12] == 0.0 && r[18] == 0.5;
    assert FirstHit(r, nb, EDGE_WIDTH, 4, 0) == 0;
    assert FirstOrder(r, nb, EDGE_WIDTH, 4, 0) == r;
    assert FirstHit(r, nb, EDGE_WIDTH, 4, 4) == 4;
    var r1 := r[0 := Reference(4, EDGE_WIDTH)];
    assert SecondOrder(r, nb, 4, 0, 0) == SecondOrder(r1, nb, 4, 0, 1);
    assert r1[0] == -10.0;
    assert FirstHit(r1, nb, EDGE_WIDTH, 4, 8) == 1;
    var r2 := r1[0 := Reference(1, EDGE_WIDTH)];
    assert SecondOrder(r1, nb, 4, 0, 1) == SecondOrder(r2, nb, 4, 0, 2);
    assert SecondOrder(r2, nb, 4, 0, 2) == r2;
    assert SecondOrderFirst(r, nb, 4, 0, 0) == 4;
  }
}
