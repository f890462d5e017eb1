/**
 * The volume pass (mesh_getvolume) and the nodal-volume rebuild of the
 * validation pass: each element's signed volume is computed from its four
 * corners, a negative winding is fixed by exchanging local nodes 2 and 3,
 * and a quarter of every counted element's volume is added to each of its
 * four nodes.
 */
module Volume {
  import opened Common
  import opened Geometry
  import opened Mesh

  /** Every entry of a flat element array names one of nn nodes (1-based); element k owns entries 4k..4k+3. */
  predicate Flat(e: seq<int>, nn: nat) {
    forall m :: 0 <= m < |e| ==> 1 <= e[m] <= nn
  }

  /** The corner points of element k. */
  function CornersOf(node: seq<Point>, e: seq<int>, k: nat): Corners
    requires Flat(e, |node|) && 4 * k + 4 <= |e|
  {
    [node[e[4 * k] - 1], node[e[4 * k + 1] - 1], node[e[4 * k + 2] - 1], node[e[4 * k + 3] - 1]]
  }

  /** The values the volume pass stores for the first n elements before fixing the winding. */
  function SignedValues(node: seq<Point>, e: seq<int>, n: nat): (sv: seq<real>)
    requires Flat(e, |node|) && 4 * n <= |e|
    ensures |sv| == n
  {
    if n == 0 then [] else SignedValues(node, e, n - 1) + [Volume6(CornersOf(node, e, n - 1))]
  }

  /** Slot k of the stored values is six times the signed volume of element k. */
  lemma {:induction false} SignedValuesAt(node: seq<Point>, e: seq<int>, n: nat, k: nat)
    requires Flat(e, |node|) && 4 * n <= |e| && k < n
    ensures SignedValues(node, e, n)[k] == Volume6(CornersOf(node, e, k))
  {
    if k < n - 1 {
      SignedValuesAt(node, e, n - 1, k);
    }
  }

  /**
   * Entry j of element k once the winding is fixed, given the element's
   * stored value s: nodes 2 and 3 trade places when s is negative.
   */
  function FixedAt(e: seq<int>, k: nat, j: nat, s: real): int
    requires 4 * k + 4 <= |e| && j < 4
  {
    if s >= 0.0 || j < 2 then e[4 * k + j]
    else if j == 2 then e[4 * k + 3]
    else e[4 * k + 2]
  }

  /** The first |sv| elements of e after the winding fix, given their stored values sv. */
  function Fixed(e: seq<int>, sv: seq<real>): (f: seq<int>)
    requires 4 * |sv| <= |e|
    ensures |f| == 4 * |sv|
  {
    if |sv| == 0 then []
    else
      var k := |sv| - 1;
      Fixed(e, sv[..k]) + [FixedAt(e, k, 0, sv[k]), FixedAt(e, k, 1, sv[k]), FixedAt(e, k, 2, sv[k]), FixedAt(e, k, 3, sv[k])]
  }

  /** The volumes stored by the pass: the absolute stored value times 1/6. */
  function Volumes(sv: seq<real>): (v: seq<real>)
    ensures |v| == |sv|
    ensures forall k :: 0 <= k < |v| ==> v[k] >= 0.0
  {
    seq(|sv|, k requires 0 <= k < |sv| => Abs(sv[k]) * (1.0 / 6.0))
  }

  /** Reading the fixed array at entry j of element k gives FixedAt. */
  lemma {:induction false} FixedIndex(e: seq<int>, sv: seq<real>, k: nat, j: nat)
    requires 4 * |sv| <= |e| && k < |sv| && j < 4
    ensures Fixed(e, sv)[4 * k + j] == FixedAt(e, k, j, sv[k])
  {
    var n := |sv|;
    if k < n - 1 {
      FixedIndex(e, sv[..n - 1], k, j);
    }
  }

  /** An array that agrees with FixedAt on every element is the fixed array. */
  lemma {:induction false} FixedFromRecords(e: seq<int>, sv: seq<real>, f: seq<int>)
    requires 4 * |sv| <= |e| && |f| == 4 * |sv|
    requires forall k, j :: 0 <= k < |sv| && 0 <= j < 4 ==> f[4 * k + j] == FixedAt(e, k, j, sv[k])
    ensures f == Fixed(e, sv)
  {
    var n := |sv|;
    if n > 0 {
      var g := f[..4 * (n - 1)];
      var sp := sv[..n - 1];
      forall k, j | 0 <= k < n - 1 && 0 <= j < 4 ensures g[4 * k + j] == FixedAt(e, k, j, sp[k]) {
        assert g[4 * k + j] == f[4 * k + j];
      }
      FixedFromRecords(e, sp, g);
      assert f == g + [f[4 * (n - 1)], f[4 * (n - 1) + 1], f[4 * (n - 1) + 2], f[4 * (n - 1) + 3]];
    }
  }

  /**
   * The fix keeps nodes 0 and 1 of element k and exchanges its nodes 2 and
   * 3 exactly when the stored value is negative.
   */
  lemma FixedRecord(e: seq<int>, sv: seq<real>, k: nat)
    requires 4 * |sv| <= |e| && k < |sv|
    ensures var f := Fixed(e, sv);
            f[4 * k] == e[4 * k] && f[4 * k + 1] == e[4 * k + 1] &&
            f[4 * k + 2] == (if sv[k] < 0.0 then e[4 * k + 3] else e[4 * k + 2]) &&
            f[4 * k + 3] == (if sv[k] < 0.0 then e[4 * k + 2] else e[4 * k + 3])
  {
    FixedIndex(e, sv, k, 0);
    FixedIndex(e, sv, k, 1);
    FixedIndex(e, sv, k, 2);
    FixedIndex(e, sv, k, 3);
  }

  /** The fix keeps every entry a valid node reference. */
  lemma {:induction false} FixedFlat(e: seq<int>, sv: seq<real>, nn: nat)
    requires Flat(e, nn) && 4 * |sv| <= |e|
    ensures Flat(Fixed(e, sv), nn)
  {
    if |sv| > 0 {
      FixedFlat(e, sv[..|sv| - 1], nn);
    }
  }

  /** The corners of element k after the fix: the original ones, with 2 and 3 exchanged when its value is negative. */
  lemma FixedCorners(node: seq<Point>, e: seq<int>, sv: seq<real>, k: nat)
    requires Flat(e, |node|) && 4 * |sv| <= |e| && k < |sv|
    ensures Flat(Fixed(e, sv), |node|)
    ensures var c := CornersOf(node, e, k);
            CornersOf(node, Fixed(e, sv), k) == if sv[k] < 0.0 then [c[0], c[1], c[3], c[2]] else c
  {
    FixedFlat(e, sv, |node|);
    FixedRecord(e, sv, k);
    var f := Fixed(e, sv);
    CornersFromEntries(node, e, f, k, sv[k] < 0.0);
  }

  lemma CornersFromEntries(node: seq<Point>, e: seq<int>, f: seq<int>, k: nat, swap: bool)
    requires Flat(e, |node|) && Flat(f, |node|) && 4 * k + 4 <= |e| && 4 * k + 4 <= |f|
    requires f[4 * k] == e[4 * k] && f[4 * k + 1] == e[4 * k + 1]
    requires f[4 * k + 2] == (if swap then e[4 * k + 3] else e[4 * k + 2])
    requires f[4 * k + 3] == (if swap then e[4 * k + 2] else e[4 * k + 3])
    ensures var c := CornersOf(node, e, k);
            CornersOf(node, f, k) == if swap then [c[0], c[1], c[3], c[2]] else c
  {
  }

  /** After the fix an element's stored value is non-negative and six times its stored volume. */
  lemma FixedOriented(node: seq<Point>, e: seq<int>, n: nat, k: nat)
    requires Flat(e, |node|) && |e| == 4 * n && k < n
    ensures Flat(Fixed(e, SignedValues(node, e, n)), |node|)
    ensures SignedValues(node, Fixed(e, SignedValues(node, e, n)), n)[k] == 6.0 * Volumes(SignedValues(node, e, n))[k] >= 0.0
  {
    var sv := SignedValues(node, e, n);
    FixedCorners(node, e, sv, k);
    var f := Fixed(e, sv);
    SignedValuesAt(node, e, n, k);
    SignedValuesAt(node, f, n, k);
    var c := CornersOf(node, e, k);
    SwapNegates(c[0], c[1], c[2], c[3]);
  }

  /** Running the volume pass on its own output changes nothing. */
  lemma FixedIdempotent(node: seq<Point>, e: seq<int>, n: nat)
    requires Flat(e, |node|) && |e| == 4 * n
    ensures Flat(Fixed(e, SignedValues(node, e, n)), |node|)
    ensures var f := Fixed(e, SignedValues(node, e, n));
            Fixed(f, SignedValues(node, f, n)) == f && Volumes(SignedValues(node, f, n)) == Volumes(SignedValues(node, e, n))
  {
    var sv := SignedValues(node, e, n);
    var f := Fixed(e, sv);
    FixedFlat(e, sv, |node|);
    var sf := SignedValues(node, f, n);
    forall k | 0 <= k < n ensures sf[k] >= 0.0 && Volumes(sf)[k] == Volumes(sv)[k] {
      FixedOriented(node, e, n, k);
    }
    forall k, j | 0 <= k < n && 0 <= j < 4 ensures f[4 * k + j] == FixedAt(f, k, j, sf[k]) {
    }
    FixedFromRecords(f, sf, f);
  }

  /** Which element types the nodal sum counts: the volume pass skips type 0, the validation pass every type <= 0. */
  datatype NodalRule = NonZeroType | PositiveType

  predicate Counted(rule: NodalRule, t: int) {
    if rule == NonZeroType then t != 0 else t > 0
  }

  /** v after adding w to the nodes of the first j corners of element k, one corner at a time. */
  function AddRecord(v: seq<real>, e: seq<int>, k: nat, w: real, j: nat): (r: seq<real>)
    requires Flat(e, |v|) && 4 * k + 4 <= |e| && j <= 4
    ensures |r| == |v|
  {
    if j == 0 then v
    else
      var u := AddRecord(v, e, k, w, j - 1);
      var n := e[4 * k + j - 1] - 1;
      u[n := u[n] + w]
  }

  /** The nodal volumes after the first k elements have been visited. */
  function NodalSum(nn: nat, e: seq<int>, etype: seq<int>, evol: seq<real>, rule: NodalRule, k: nat): (v: seq<real>)
    requires Flat(e, nn) && |e| == 4 * |etype| && |evol| == |etype| && k <= |etype|
    ensures |v| == nn
  {
    if k == 0 then seq(nn, _ => 0.0)
    else
      var prev := NodalSum(nn, e, etype, evol, rule, k - 1);
      if Counted(rule, etype[k - 1]) then AddRecord(prev, e, k - 1, evol[k - 1] * 0.25, 4) else prev
  }

  /** w added to itself c times. */
  function Times(c: nat, w: real): (r: real)
    ensures w >= 0.0 ==> r >= 0.0
  {
    if c == 0 then 0.0 else Times(c - 1, w) + w
  }

  /** How many of the first j corners of element k are node n (0-based). */
  function Mult(e: seq<int>, k: nat, n: int, j: nat): (c: nat)
    requires 4 * k + 4 <= |e| && j <= 4
    ensures c <= j
  {
    if j == 0 then 0 else Mult(e, k, n, j - 1) + (if e[4 * k + j - 1] - 1 == n then 1 else 0)
  }

  /** Reference definition: node n's share, a quarter of each counted element's volume per corner naming n. */
  function Share(e: seq<int>, etype: seq<int>, evol: seq<real>, rule: NodalRule, n: int, k: nat): real
    requires |e| == 4 * |etype| && |evol| == |etype| && k <= |etype|
  {
    if k == 0 then 0.0
    else Share(e, etype, evol, rule, n, k - 1)
         + (if Counted(rule, etype[k - 1]) then Times(Mult(e, k - 1, n, 4), evol[k - 1] * 0.25) else 0.0)
  }

  lemma {:induction false} AddRecordAt(v: seq<real>, e: seq<int>, k: nat, w: real, j: nat, n: nat)
    requires Flat(e, |v|) && 4 * k + 4 <= |e| && j <= 4 && n < |v|
    ensures AddRecord(v, e, k, w, j)[n] == v[n] + Times(Mult(e, k, n, j), w)
  {
    if j > 0 {
      AddRecordAt(v, e, k, w, j - 1, n);
    }
  }

  /** The nodal sum holds at each node exactly that node's share. */
  lemma {:induction false} NodalSumIsShare(nn: nat, e: seq<int>, etype: seq<int>, evol: seq<real>, rule: NodalRule, k: nat, n: nat)
    requires Flat(e, nn) && |e| == 4 * |etype| && |evol| == |etype| && k <= |etype| && n < nn
    ensures NodalSum(nn, e, etype, evol, rule, k)[n] == Share(e, etype, evol, rule, n, k)
  {
    if k > 0 {
      NodalSumIsShare(nn, e, etype, evol, rule, k - 1, n);
      if Counted(rule, etype[k - 1]) {
        AddRecordAt(NodalSum(nn, e, etype, evol, rule, k - 1), e, k - 1, evol[k - 1] * 0.25, 4, n);
      }
    }
  }

  /** With non-negative element volumes every nodal volume is non-negative. */
  lemma {:induction false} NodalSumNonNegative(nn: nat, e: seq<int>, etype: seq<int>, evol: seq<real>, rule: NodalRule, k: nat)
    requires Flat(e, nn) && |e| == 4 * |etype| && |evol| == |etype| && k <= |etype|
    requires forall i :: 0 <= i < |evol| ==> evol[i] >= 0.0
    ensures forall n :: 0 <= n < nn ==> NodalSum(nn, e, etype, evol, rule, k)[n] >= 0.0
  {
    if k > 0 {
      NodalSumNonNegative(nn, e, etype, evol, rule, k - 1);
      forall n | 0 <= n < nn ensures NodalSum(nn, e, etype, evol, rule, k)[n] >= 0.0 {
        if Counted(rule, etype[k - 1]) {
          AddRecordAt(NodalSum(nn, e, etype, evol, rule, k - 1), e, k - 1, evol[k - 1] * 0.25, 4, n);
        }
      }
    }
  }

  function SumOf(v: seq<real>): real {
    if |v| == 0 then 0.0 else SumOf(v[..|v| - 1]) + v[|v| - 1]
  }

  /** Total volume of the counted elements among the first k. */
  function CountedVolume(etype: seq<int>, evol: seq<real>, rule: NodalRule, k: nat): real
    requires |evol| == |etype| && k <= |etype|
  {
    if k == 0 then 0.0 else CountedVolume(etype, evol, rule, k - 1) + (if Counted(rule, etype[k - 1]) then evol[k - 1] else 0.0)
  }

  lemma {:induction false} SumOfUpdate(v: seq<real>, n: nat, x: real)
    requires n < |v|
    ensures SumOf(v[n := x]) == SumOf(v) - v[n] + x
  {
    if n < |v| - 1 {
      assert v[n := x][..|v| - 1] == v[..|v| - 1][n := x];
      SumOfUpdate(v[..|v| - 1], n, x);
    } else {
      assert v[n := x][..|v| - 1] == v[..|v| - 1];
    }
  }

  lemma {:induction false} SumOfZeros(nn: nat)
    ensures SumOf(seq(nn, _ => 0.0)) == 0.0
  {
    if nn > 0 {
      assert seq(nn, _ => 0.0)[..nn - 1] == seq(nn - 1, _ => 0.0);
      SumOfZeros(nn - 1);
    }
  }

  lemma {:induction false} SumOfAddRecord(v: seq<real>, e: seq<int>, k: nat, w: real, j: nat)
    requires Flat(e, |v|) && 4 * k + 4 <= |e| && j <= 4
    ensures SumOf(AddRecord(v, e, k, w, j)) == SumOf(v) + Times(j, w)
  {
    if j > 0 {
      SumOfAddRecord(v, e, k, w, j - 1);
      var u := AddRecord(v, e, k, w, j - 1);
      var n := e[4 * k + j - 1] - 1;
      SumOfUpdate(u, n, u[n] + w);
    }
  }

  /** The nodal volumes add up to the total volume of the counted elements: nothing is lost or duplicated. */
  lemma {:induction false} NodalSumConserves(nn: nat, e: seq<int>, etype: seq<int>, evol: seq<real>, rule: NodalRule, k: nat)
    requires Flat(e, nn) && |e| == 4 * |etype| && |evol| == |etype| && k <= |etype|
    ensures SumOf(NodalSum(nn, e, etype, evol, rule, k)) == CountedVolume(etype, evol, rule, k)
  {
    if k == 0 {
      SumOfZeros(nn);
    } else {
      NodalSumConserves(nn, e, etype, evol, rule, k - 1);
      if Counted(rule, etype[k - 1]) {
        var w := evol[k - 1] * 0.25;
        SumOfAddRecord(NodalSum(nn, e, etype, evol, rule, k - 1), e, k - 1, w, 4);
        assert Times(4, w) == Times(3, w) + w == Times(2, w) + w + w == Times(1, w) + w + w + w == 4.0 * w;
      }
    }
  }

  /** a and b hold the same entries at positions lo..hi-1. */
  predicate Agree<T(==)>(a: seq<T>, b: seq<T>, lo: nat, hi: nat) {
    hi <= |a| && hi <= |b| && forall p :: lo <= p < hi ==> a[p] == b[p]
  }

  /** AddRecord reads only the entries of element k. */
  lemma {:induction false} AddRecordFrame(v: seq<real>, e1: seq<int>, e2: seq<int>, k: nat, w: real, j: nat)
    requires Flat(e1, |v|) && Flat(e2, |v|) && 4 * k + 4 <= |e1| && 4 * k + 4 <= |e2| && j <= 4
    requires Agree(e1, e2, 4 * k, 4 * k + 4)
    ensures AddRecord(v, e1, k, w, j) == AddRecord(v, e2, k, w, j)
  {
    if j > 0 {
      AddRecordFrame(v, e1, e2, k, w, j - 1);
    }
  }

  /** The nodal sum over the first k elements reads only their entries and volumes. */
  lemma {:induction false} NodalSumFrame(nn: nat, e1: seq<int>, e2: seq<int>, etype: seq<int>, ev1: seq<real>, ev2: seq<real>, rule: NodalRule, k: nat)
    requires Flat(e1, nn) && Flat(e2, nn) && |e1| == |e2| == 4 * |etype| && |ev1| == |ev2| == |etype| && k <= |etype|
    requires Agree(e1, e2, 0, 4 * k) && Agree(ev1, ev2, 0, k)
    ensures NodalSum(nn, e1, etype, ev1, rule, k) == NodalSum(nn, e2, etype, ev2, rule, k)
  {
    if k > 0 {
      NodalSumFrame(nn, e1, e2, etype, ev1, ev2, rule, k - 1);
      assert ev1[k - 1] == ev2[k - 1];
      AddRecordFrame(NodalSum(nn, e1, etype, ev1, rule, k - 1), e1, e2, k - 1, ev1[k - 1] * 0.25, 4);
    }
  }

  /** The inner loop of both passes: add w to the nodal volume of each of element k's four nodes. */
  method AddCorners(nvol: array<real>, elem: array<int>, k: nat, w: real)
    requires Flat(elem[..], nvol.Length) && 4 * k + 4 <= elem.Length
    modifies nvol
    ensures nvol[..] == AddRecord(old(nvol[..]), elem[..], k, w, 4)
  {
    var j := 0;
    while j < 4
      invariant 0 <= j <= 4
      invariant nvol[..] == AddRecord(old(nvol[..]), elem[..], k, w, j)
    {
      var n := elem[4 * k + j] - 1;
      nvol[n] := nvol[n] + w;
      j := j + 1;
    }
  }

  /**
   * mesh_getvolume: fresh evol and nvol; every element's winding fixed, its
   * volume stored, and the quarter volumes of all elements of non-zero type
   * accumulated at their nodes.
   */
  method GetVolume(mesh: TetMesh)
    requires mesh.ElemsValid()
    modifies mesh`evol, mesh`nvol, mesh.elem
    ensures mesh.evol != null && fresh(mesh.evol) && fresh(mesh.nvol)
    ensures Flat(old(mesh.elem[..]), |mesh.node|) && Flat(mesh.elem[..], |mesh.node|)
    ensures mesh.elem[..] == Fixed(old(mesh.elem[..]), SignedValues(mesh.node, old(mesh.elem[..]), mesh.NE()))
    ensures mesh.evol[..] == Volumes(SignedValues(mesh.node, old(mesh.elem[..]), mesh.NE()))
    ensures mesh.nvol[..] == NodalSum(|mesh.node|, mesh.elem[..], mesh.etype[..], mesh.evol[..], NonZeroType, mesh.NE())
  {
    assert Flat(mesh.elem[..], |mesh.node|);
    var evol, nvol := VolumePass(mesh.node, mesh.elem, mesh.etype);
    mesh.evol := evol;
    mesh.nvol := nvol;
  }

  /** The loop of mesh_getvolume over the flat arrays. */
  method VolumePass(node: seq<Point>, elem: array<int>, etype: array<int>) returns (evol: array<real>, nvol: array<real>)
    requires elem != etype && elem.Length == 4 * etype.Length && Flat(elem[..], |node|)
    modifies elem
    ensures fresh(evol) && fresh(nvol)
    ensures Flat(elem[..], |node|)
    ensures elem[..] == Fixed(old(elem[..]), SignedValues(node, old(elem[..]), etype.Length))
    ensures evol[..] == Volumes(SignedValues(node, old(elem[..]), etype.Length))
    ensures nvol[..] == NodalSum(|node|, elem[..], etype[..], evol[..], NonZeroType, etype.Length)
  {
    var ne := etype.Length;
    ghost var e0 := elem[..];
    ghost var svs: seq<real> := [];
    evol := new real[ne](_ => 0.0);
    nvol := new real[|node|](_ => 0.0);
    var i := 0;
    while i < ne
      modifies elem, evol, nvol
      invariant 0 <= i <= ne
      invariant VolumeLoop(node, e0, elem[..], etype[..], evol[..], nvol[..], svs, i)
    {
      svs := VolumeStep(node, elem, etype, evol, nvol, i, e0, svs);
      i := i + 1;
    }
    LoopExit(node, e0, elem[..], etype[..], evol[..], nvol[..], svs);
  }

  /** The entries of the first |svs| elements of e are those of e0 with the winding fixed. */
  predicate FixedUpTo(e: seq<int>, e0: seq<int>, svs: seq<real>) {
    4 * |svs| <= |e| && 4 * |svs| <= |e0| &&
    forall k, j :: 0 <= k < |svs| && 0 <= j < 4 ==> e[4 * k + j] == FixedAt(e0, k, j, svs[k])
  }

  /** The state of the volume pass after its first i elements. */
  ghost predicate VolumeLoop(node: seq<Point>, e0: seq<int>, e: seq<int>, etype: seq<int>, evol: seq<real>, nvol: seq<real>, svs: seq<real>, i: nat)
  {
    Flat(e0, |node|) && |e0| == |e| == 4 * |etype| && |evol| == |etype| && |nvol| == |node| && i <= |etype|
    && svs == SignedValues(node, e0, i)
    && Flat(e, |node|)
    && FixedUpTo(e, e0, svs)
    && Agree(e, e0, 4 * i, |e|)
    && (forall k :: 0 <= k < i ==> evol[k] == Abs(svs[k]) * (1.0 / 6.0))
    && nvol == NodalSum(|node|, e, etype, evol, NonZeroType, i)
  }

  /** When every element has been visited the loop state is the pass's result. */
  lemma LoopExit(node: seq<Point>, e0: seq<int>, e: seq<int>, etype: seq<int>, evol: seq<real>, nvol: seq<real>, svs: seq<real>)
    requires VolumeLoop(node, e0, e, etype, evol, nvol, svs, |etype|)
    ensures Flat(e0, |node|) && Flat(e, |node|)
    ensures e == Fixed(e0, SignedValues(node, e0, |etype|))
    ensures evol == Volumes(SignedValues(node, e0, |etype|))
    ensures nvol == NodalSum(|node|, e, etype, evol, NonZeroType, |etype|)
  {
    FixedFromRecords(e0, svs, e);
  }

  /** The body of the volume pass for element i. */
  method VolumeStep(node: seq<Point>, elem: array<int>, etype: array<int>, evol: array<real>, nvol: array<real>, i: nat, ghost e0: seq<int>, ghost svs: seq<real>)
    returns (ghost svs': seq<real>)
    requires elem != etype && evol != nvol && i < etype.Length
    requires VolumeLoop(node, e0, elem[..], etype[..], evol[..], nvol[..], svs, i)
    modifies elem, evol, nvol
    ensures VolumeLoop(node, e0, elem[..], etype[..], evol[..], nvol[..], svs', i + 1)
  {
    ghost var eB, evB, nvB := elem[..], evol[..], nvol[..];
    var v := FixElement(node, elem, evol, i, e0);
    if etype[i] != 0 {
      AddCorners(nvol, elem, i, evol[i] * 0.25);
    }
    StepKeepsLoop(node, e0, eB, elem[..], etype[..], evB, evol[..], nvB, nvol[..], svs, v, i);
    svs' := svs + [v];
  }

  /** One visited element takes the volume-pass state from i to i + 1 elements. */
  lemma StepKeepsLoop(node: seq<Point>, e0: seq<int>, eB: seq<int>, eA: seq<int>, etype: seq<int>,
                      evB: seq<real>, evA: seq<real>, nvB: seq<real>, nvA: seq<real>, svs: seq<real>, v: real, i: nat)
    requires i < |etype| && VolumeLoop(node, e0, eB, etype, evB, nvB, svs, i)
    requires v == Volume6(CornersOf(node, e0, i)) && Flat(eA, |node|)
    requires eA == eB[4 * i + 2 := FixedAt(e0, i, 2, v)][4 * i + 3 := FixedAt(e0, i, 3, v)]
    requires evA == evB[i := Abs(v) * (1.0 / 6.0)]
    requires nvA == if etype[i] != 0 then AddRecord(nvB, eA, i, evA[i] * 0.25, 4) else nvB
    ensures VolumeLoop(node, e0, eA, etype, evA, nvA, svs + [v], i + 1)
  {
    FixedStep(e0, svs, v, eB, eA, i);
    assert svs + [v] == SignedValues(node, e0, i + 1);
    PointwiseStep(evB, evA, svs, v, i);
    NodalSumFrame(|node|, eB, eA, etype, evB, evA, NonZeroType, i);
  }

  lemma PointwiseStep(evB: seq<real>, evA: seq<real>, svs: seq<real>, v: real, i: nat)
    requires |svs| == i < |evB| && evA == evB[i := Abs(v) * (1.0 / 6.0)]
    requires forall k :: 0 <= k < i ==> evB[k] == Abs(svs[k]) * (1.0 / 6.0)
    ensures forall k :: 0 <= k < i + 1 ==> evA[k] == Abs((svs + [v])[k]) * (1.0 / 6.0)
    ensures Agree(evA, evB, 0, i)
  {
  }

  /**
   * One step of the volume pass: compute element k's stored value from its
   * corners, exchange its nodes 2 and 3 if the value is negative, and store
   * its volume. Returns the value as first computed.
   */
  method FixElement(node: seq<Point>, elem: array<int>, evol: array<real>, k: nat, ghost e0: seq<int>) returns (s: real)
    requires Flat(e0, |node|) && |e0| == elem.Length && 4 * k + 4 <= elem.Length && k < evol.Length
    requires Flat(elem[..], |node|) && Agree(elem[..], e0, 4 * k, |e0|)
    modifies elem, evol
    ensures s == Volume6(CornersOf(node, e0, k))
    ensures Flat(elem[..], |node|)
    ensures elem[..] == old(elem[..])[4 * k + 2 := FixedAt(e0, k, 2, s)][4 * k + 3 := FixedAt(e0, k, 3, s)]
    ensures evol[..] == old(evol[..])[k := Abs(s) * (1.0 / 6.0)]
  {
    s := StoredValue(node, elem, k, e0);
    var v := s;
    assert elem[4 * k + 2] == e0[4 * k + 2] && elem[4 * k + 3] == e0[4 * k + 3];
    if v < 0.0 {
      var e1 := elem[4 * k + 3];
      elem[4 * k + 3] := elem[4 * k + 2];
      elem[4 * k + 2] := e1;
      v := -v;
    }
    evol[k] := v * (1.0 / 6.0);
    assert Flat(elem[..], |node|) by {
      forall m | 0 <= m < elem.Length ensures 1 <= elem[m] <= |node| {
        assert elem[m] in old(elem[..]);
      }
    }
  }

  /** The fixed prefix grows by element k's fixed entries when the loop stores its value. */
  lemma FixedStep(e0: seq<int>, svs: seq<real>, s: real, before: seq<int>, after: seq<int>, k: nat)
    requires |svs| == k && 4 * k + 4 <= |e0| == |before|
    requires FixedUpTo(before, e0, svs) && Agree(before, e0, 4 * k, |e0|)
    requires after == before[4 * k + 2 := FixedAt(e0, k, 2, s)][4 * k + 3 := FixedAt(e0, k, 3, s)]
    ensures FixedUpTo(after, e0, svs + [s]) && Agree(after, e0, 4 * k + 4, |e0|)
    ensures Agree(after, before, 0, 4 * k)
  {
    var sv := svs + [s];
    forall k', j | 0 <= k' < |sv| && 0 <= j < 4 ensures after[4 * k' + j] == FixedAt(e0, k', j, sv[k']) {
      if k' < k {
        assert sv[k'] == svs[k'];
        assert after[4 * k' + j] == before[4 * k' + j];
      } else if j < 2 {
        assert after[4 * k + j] == before[4 * k + j] == e0[4 * k + j];
      }
    }
  }

  /** The value the volume pass computes for element k from its four corners. */
  method StoredValue(node: seq<Point>, elem: array<int>, k: nat, ghost e0: seq<int>) returns (v: real)
    requires Flat(e0, |node|) && |e0| == elem.Length && 4 * k + 4 <= elem.Length
    requires Agree(elem[..], e0, 4 * k, 4 * k + 4)
    ensures v == Volume6(CornersOf(node, e0, k))
  {
    assert elem[4 * k] == e0[4 * k] && elem[4 * k + 1] == e0[4 * k + 1];
    assert elem[4 * k + 2] == e0[4 * k + 2] && elem[4 * k + 3] == e0[4 * k + 3];
    var p0 := node[elem[4 * k] - 1];
    var p1 := node[elem[4 * k + 1] - 1];
    var p2 := node[elem[4 * k + 2] - 1];
    var p3 := node[elem[4 * k + 3] - 1];
    assert [p0, p1, p2, p3] == CornersOf(node, e0, k);
    v := SignedVolume6(p0, p1, p2, p3);
  }

  /** The nodal-volume rebuild of mesh_validate: fresh nvol summing only elements of positive type. */
  method RebuildNodalVolume(mesh: TetMesh)
    requires mesh.ElemsValid() && mesh.evol != null && mesh.evol.Length == mesh.NE()
    modifies mesh`nvol
    ensures fresh(mesh.nvol)
    ensures Flat(mesh.elem[..], |mesh.node|)
    ensures mesh.nvol[..] == NodalSum(|mesh.node|, mesh.elem[..], mesh.etype[..], mesh.evol[..], PositiveType, mesh.NE())
  {
    var elem := mesh.elem;
    var evol := mesh.evol;
    var ne := mesh.etype.Length;
    assert Flat(elem[..], |mesh.node|);
    var nvol := new real[|mesh.node|](_ => 0.0);
    mesh.nvol := nvol;
    var i := 0;
    while i < ne
      modifies nvol
      invariant 0 <= i <= ne
      invariant nvol[..] == NodalSum(|mesh.node|, elem[..], mesh.etype[..], evol[..], PositiveType, i)
    {
      if mesh.etype[i] > 0 {
        AddCorners(nvol, elem, i, evol[i] * 0.25);
      }
      i := i + 1;
    }
  }
}
