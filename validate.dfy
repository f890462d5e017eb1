/**
 * The input check and preparation pass (mesh_validate): reject a mesh
 * without media or without its core arrays, rebuild the nodal volumes from
 * the positively labelled elements, build the dual grid when the grid
 * tracer is selected, allocate a zeroed accumulator, convert the optical
 * coefficients to the length unit, and give external-detector elements a
 * copy of the background medium.
 */
module Validate {
  import opened Common
  import opened Mesh
  import opened Volume
  import opened DualGrid
  import opened SourceDetector

  const MSG_NO_PROP: string := "you must define the 'prop' field in the input structure"
  const MSG_INCOMPLETE: string := "a complete input mesh include 'node','elem','facenb' and 'evol'"

  /** m with its absorption and scattering coefficients multiplied by u. */
  function ScaleMedium(m: Medium, u: real): Medium {
    Medium(m.mua * u, m.mus * u, m.g, m.n)
  }

  /** The media after unit conversion: media 1..prop are scaled, every other entry is kept. */
  function ScaledMedia(med: seq<Medium>, prop: nat, u: real): (r: seq<Medium>)
    ensures |r| == |med|
  {
    seq(|med|, i requires 0 <= i < |med| => if 1 <= i <= prop then ScaleMedium(med[i], u) else med[i])
  }

  /** The medium table with the background medium appended as medium prop + 1. */
  function ExtendedMedia(med: seq<Medium>): seq<Medium>
    requires |med| > 0
  {
    med + [med[0]]
  }

  /** The labels after every external-detector label (-2) has become newLabel. */
  function Relabeled(t: seq<int>, newLabel: int): (r: seq<int>)
    ensures |r| == |t|
  {
    seq(|t|, i requires 0 <= i < |t| => if t[i] == DETECTOR_LABEL then newLabel else t[i])
  }

  /** Converting with a unit of 1 changes nothing, so skipping the conversion in that case loses nothing. */
  lemma ScaleByOne(med: seq<Medium>, prop: nat)
    ensures ScaledMedia(med, prop, 1.0) == med
  {
  }

  /** Converting with u and then with 1/u restores every medium. */
  lemma ScaleRoundTrip(med: seq<Medium>, prop: nat, u: real)
    requires u != 0.0
    ensures ScaledMedia(ScaledMedia(med, prop, u), prop, 1.0 / u) == med
  {
    var r := ScaledMedia(ScaledMedia(med, prop, u), prop, 1.0 / u);
    forall i | 0 <= i < |med| ensures r[i] == med[i] {
      if 1 <= i <= prop {
        UndoScale(med[i].mua, u);
        UndoScale(med[i].mus, u);
      }
    }
  }

  lemma UndoScale(x: real, u: real)
    requires u != 0.0
    ensures x * u * (1.0 / u) == x
  {
    assert u * (1.0 / u) == 1.0;
    assert x * u * (1.0 / u) == x * (u * (1.0 / u));
  }

  /** The background medium and the anisotropy and refractive index of every medium are left as they were. */
  lemma ScaleKeeps(med: seq<Medium>, prop: nat, u: real)
    requires |med| > 0
    ensures ScaledMedia(med, prop, u)[0] == med[0]
    ensures forall i :: 0 <= i < |med| ==> ScaledMedia(med, prop, u)[i].g == med[i].g && ScaledMedia(med, prop, u)[i].n == med[i].n
    ensures forall i :: prop < i < |med| ==> ScaledMedia(med, prop, u)[i] == med[i]
  {
  }

  /**
   * After relabelling no detector label is left; newLabel counts the former
   * detector elements together with those that already had it, and every
   * other label keeps its count.
   */
  lemma {:induction false} RelabeledCounts(t: seq<int>, newLabel: int, v: int)
    requires newLabel != DETECTOR_LABEL
    ensures CountOf(Relabeled(t, newLabel), DETECTOR_LABEL) == 0
    ensures CountOf(Relabeled(t, newLabel), newLabel) == CountOf(t, newLabel) + CountOf(t, DETECTOR_LABEL)
    ensures v != newLabel && v != DETECTOR_LABEL ==> CountOf(Relabeled(t, newLabel), v) == CountOf(t, v)
  {
    if |t| > 0 {
      var u := t[..|t| - 1];
      RelabeledCounts(u, newLabel, v);
      assert Relabeled(t, newLabel)[..|t| - 1] == Relabeled(u, newLabel);
    }
  }

  /** The elements listed as detector elements are exactly the former -2 elements, and each now names the appended background medium. */
  lemma DetectorSeesBackground(t: seq<int>, med: seq<Medium>, prop: nat)
    requires |med| == prop + 1
    ensures forall i :: 0 <= i < |t| && t[i] == DETECTOR_LABEL ==>
              Relabeled(t, prop + 1)[i] == prop + 1 && ExtendedMedia(med)[Relabeled(t, prop + 1)[i]] == med[0]
    ensures forall i :: 0 <= i < |t| ==>
              (i + 1 in IndicesOf(t, DETECTOR_LABEL) <==> t[i] != prop + 1 && Relabeled(t, prop + 1)[i] == prop + 1)
    ensures ExtendedMedia(med)[..|med|] == med
  {
    IndicesOfSpec(t, DETECTOR_LABEL);
  }

  /** The unit-conversion loop of mesh_validate over media 1..prop. */
  method ScaleMedia(mesh: TetMesh, u: real)
    requires mesh.prop < |mesh.med|
    modifies mesh`med
    ensures mesh.med == ScaledMedia(old(mesh.med), mesh.prop, u)
  {
    ghost var med0 := mesh.med;
    var i := 1;
    while i <= mesh.prop
      invariant 1 <= i <= mesh.prop + 1
      invariant mesh.med == ScaledMedia(med0, i - 1, u)
    {
      assert mesh.med[i := ScaleMedium(med0[i], u)] == ScaledMedia(med0, i, u);
      mesh.med := mesh.med[i := ScaleMedium(mesh.med[i], u)];
      i := i + 1;
    }
  }

  /** The relabelling loop of mesh_validate: every -2 element gets newLabel. */
  method RelabelDetector(etype: array<int>, newLabel: int)
    modifies etype
    ensures etype[..] == Relabeled(old(etype[..]), newLabel)
  {
    ghost var t0 := etype[..];
    var i := 0;
    while i < etype.Length
      invariant 0 <= i <= etype.Length
      invariant forall k :: 0 <= k < i ==> etype[k] == (if t0[k] == DETECTOR_LABEL then newLabel else t0[k])
      invariant forall k :: i <= k < etype.Length ==> etype[k] == t0[k]
    {
      if etype[i] == DETECTOR_LABEL {
        etype[i] := newLabel;
      }
      i := i + 1;
    }
    assert etype[..] == Relabeled(t0, newLabel);
  }

  /** The media after the unit conversion and the external-detector extension, in that order. */
  function PreparedMedia(med: seq<Medium>, prop: nat, grid: bool, u: real, isextdet: int): seq<Medium>
    requires |med| > 0
  {
    var s := if !grid && u != 1.0 then ScaledMedia(med, prop, u) else med;
    if isextdet != 0 then ExtendedMedia(s) else s
  }

  /** The dual-grid step of mesh_validate; afterwards the accumulator length is known to be non-negative. */
  method PrepareGrid(mesh: TetMesh, cfg: Config) returns (datalen: nat)
    requires |mesh.node| > 0
    requires cfg.rayMethod == BLBadouelGrid ==> cfg.steps.x > 0.0 && cfg.steps.y > 0.0 && cfg.steps.z > 0.0
    modifies mesh`nmin, mesh`nmax, cfg`dim, cfg`crop0, cfg`basisorder
    ensures datalen == DataLen(cfg.rayMethod, cfg.basisorder, cfg.crop0.2, |mesh.node|, mesh.NE())
    ensures cfg.rayMethod == BLBadouelGrid ==>
              cfg.basisorder == 0
              && mesh.nmin == Shift(LoPoint(mesh.node, |mesh.node|), -EPS)
              && mesh.nmax == Shift(HiPoint(mesh.node, |mesh.node|), EPS)
              && cfg.dim == GridDims(mesh.nmin, mesh.nmax, cfg.steps)
              && cfg.crop0 == Strides(cfg.dim)
    ensures cfg.rayMethod != BLBadouelGrid ==>
              cfg.basisorder == old(cfg.basisorder) && cfg.dim == old(cfg.dim) && cfg.crop0 == old(cfg.crop0)
              && mesh.nmin == old(mesh.nmin) && mesh.nmax == old(mesh.nmax)
  {
    if cfg.rayMethod == BLBadouelGrid {
      CreateDualMesh(mesh, cfg);
      cfg.basisorder := 0;
      GridCoversBox(mesh.node, cfg.steps);
      StridesPositive(cfg.dim);
    }
    datalen := DataLen(cfg.rayMethod, cfg.basisorder, cfg.crop0.2, |mesh.node|, mesh.NE());
  }

  /** The media steps of mesh_validate: unit conversion outside grid mode, then the external-detector medium and labels. */
  method PrepareMedia(mesh: TetMesh, grid: bool, u: real, isextdet: int)
    requires |mesh.med| == mesh.prop + 1
    modifies mesh`med, mesh.etype
    ensures mesh.med == PreparedMedia(old(mesh.med), mesh.prop, grid, u, isextdet)
    ensures mesh.etype[..] == if isextdet != 0 then Relabeled(old(mesh.etype[..]), mesh.prop + 1) else old(mesh.etype[..])
  {
    if !grid && u != 1.0 {
      ScaleMedia(mesh, u);
    }
    if isextdet != 0 {
      mesh.med := mesh.med + [mesh.med[0]];
      RelabelDetector(mesh.etype, mesh.prop + 1);
    }
  }

  /** The zeroed accumulator: datalen spatial units for each source and time gate. */
  method AllocateWeight(mesh: TetMesh, datalen: nat, srcnum: nat, maxgate: nat)
    modifies mesh`weight
    ensures fresh(mesh.weight) && mesh.weight.Length == datalen * srcnum * maxgate
    ensures forall i :: 0 <= i < mesh.weight.Length ==> mesh.weight[i] == 0.0
  {
    mesh.weight := new real[datalen * srcnum * maxgate](_ => 0.0);
  }

  /** The preparation steps of mesh_validate, once the input checks have passed. */
  method Prepare(mesh: TetMesh, cfg: Config)
    requires mesh.ElemsValid() && mesh.evol != null && mesh.evol.Length == mesh.NE() && |mesh.node| > 0
    requires |mesh.med| == mesh.prop + 1
    requires cfg.rayMethod == BLBadouelGrid ==> cfg.steps.x > 0.0 && cfg.steps.y > 0.0 && cfg.steps.z > 0.0
    modifies mesh`nvol, mesh`weight, mesh`med, mesh`nmin, mesh`nmax, mesh.etype
    modifies cfg`dim, cfg`crop0, cfg`basisorder
    ensures Flat(mesh.elem[..], |mesh.node|) && fresh(mesh.nvol)
    ensures mesh.nvol[..] == NodalSum(|mesh.node|, mesh.elem[..], old(mesh.etype[..]), mesh.evol[..], PositiveType, mesh.NE())
    ensures cfg.rayMethod == BLBadouelGrid ==>
              cfg.basisorder == 0
              && mesh.nmin == Shift(LoPoint(mesh.node, |mesh.node|), -EPS)
              && mesh.nmax == Shift(HiPoint(mesh.node, |mesh.node|), EPS)
              && cfg.dim == GridDims(mesh.nmin, mesh.nmax, cfg.steps)
              && cfg.crop0 == Strides(cfg.dim)
    ensures cfg.rayMethod != BLBadouelGrid ==>
              cfg.basisorder == old(cfg.basisorder) && cfg.dim == old(cfg.dim) && cfg.crop0 == old(cfg.crop0)
              && mesh.nmin == old(mesh.nmin) && mesh.nmax == old(mesh.nmax)
    ensures fresh(mesh.weight)
    ensures mesh.weight.Length == DataLen(cfg.rayMethod, cfg.basisorder, cfg.crop0.2, |mesh.node|, mesh.NE()) * cfg.srcnum * cfg.maxgate
    ensures forall i :: 0 <= i < mesh.weight.Length ==> mesh.weight[i] == 0.0
    ensures mesh.med == PreparedMedia(old(mesh.med), mesh.prop, cfg.rayMethod == BLBadouelGrid, cfg.unitinmm, cfg.isextdet)
    ensures mesh.etype[..] == if cfg.isextdet != 0 then Relabeled(old(mesh.etype[..]), mesh.prop + 1) else old(mesh.etype[..])
  {
    RebuildNodalVolume(mesh);
    ghost var nvol := mesh.nvol[..];
    ghost var elem := mesh.elem[..];
    ghost var evol := mesh.evol[..];
    var datalen := PrepareGrid(mesh, cfg);
    AllocateWeight(mesh, datalen, cfg.srcnum, cfg.maxgate);
    PrepareMedia(mesh, cfg.rayMethod == BLBadouelGrid, cfg.unitinmm, cfg.isextdet);
    assert mesh.nvol[..] == nvol && mesh.elem[..] == elem && mesh.evol[..] == evol;
  }

  /**
   * mesh_validate. Fails, changing nothing, when there are no media or when
   * nodes, elements, volumes or face neighbours are missing; otherwise
   * rebuilds the nodal volumes, builds the dual grid in grid mode, allocates
   * a zeroed accumulator of datalen * srcnum * maxgate entries, converts the
   * media and relabels the external-detector elements.
   */
  method Validate(mesh: TetMesh, cfg: Config) returns (r: Result<()>)
    requires mesh.ElemsValid()
    requires mesh.evol != null ==> mesh.evol.Length == mesh.NE()
    requires |mesh.med| == mesh.prop + 1
    requires cfg.rayMethod == BLBadouelGrid ==> cfg.steps.x > 0.0 && cfg.steps.y > 0.0 && cfg.steps.z > 0.0
    modifies mesh`nvol, mesh`weight, mesh`med, mesh`nmin, mesh`nmax, mesh.etype
    modifies cfg`dim, cfg`crop0, cfg`basisorder
    ensures r.Err? <==> mesh.prop == 0 || |mesh.node| == 0 || mesh.NE() == 0 || mesh.evol == null || mesh.facenb == null
    ensures r.Err? ==> r.msg == (if mesh.prop == 0 then MSG_NO_PROP else MSG_INCOMPLETE)
    ensures r.Err? ==> unchanged(mesh, cfg, mesh.etype)
    ensures r.Ok? ==> (mesh.evol != null && Flat(mesh.elem[..], |mesh.node|) && fresh(mesh.nvol)
              && mesh.nvol[..] == NodalSum(|mesh.node|, mesh.elem[..], old(mesh.etype[..]), mesh.evol[..], PositiveType, mesh.NE()))
    ensures r.Ok? && cfg.rayMethod == BLBadouelGrid ==>
              cfg.basisorder == 0
              && mesh.nmin == Shift(LoPoint(mesh.node, |mesh.node|), -EPS)
              && mesh.nmax == Shift(HiPoint(mesh.node, |mesh.node|), EPS)
              && cfg.dim == GridDims(mesh.nmin, mesh.nmax, cfg.steps)
              && cfg.crop0 == Strides(cfg.dim)
    ensures r.Ok? && cfg.rayMethod != BLBadouelGrid ==>
              cfg.basisorder == old(cfg.basisorder) && cfg.dim == old(cfg.dim) && cfg.crop0 == old(cfg.crop0)
              && mesh.nmin == old(mesh.nmin) && mesh.nmax == old(mesh.nmax)
    ensures r.Ok? ==> (fresh(mesh.weight)
              && mesh.weight.Length == DataLen(cfg.rayMethod, cfg.basisorder, cfg.crop0.2, |mesh.node|, mesh.NE()) * cfg.srcnum * cfg.maxgate
              && forall i :: 0 <= i < mesh.weight.Length ==> mesh.weight[i] == 0.0)
    ensures r.Ok? ==> mesh.med == PreparedMedia(old(mesh.med), mesh.prop, cfg.rayMethod == BLBadouelGrid, cfg.unitinmm, cfg.isextdet)
    ensures r.Ok? ==> mesh.etype[..] == if cfg.isextdet != 0 then Relabeled(old(mesh.etype[..]), mesh.prop + 1) else old(mesh.etype[..])
  {
    if mesh.prop == 0 {
      return Err(MSG_NO_PROP);
    }
    if |mesh.node| == 0 || mesh.NE() == 0 || mesh.evol == null || mesh.facenb == null {
      return Err(MSG_INCOMPLETE);
    }
    Prepare(mesh, cfg);
    return Ok(());
  }
}
