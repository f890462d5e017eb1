/**
 * tracer_prep: place the source in its initial element, correct the
 * nodal volumes of surface nodes, compress the edge and face ROI records,
 * number the exterior faces and allocate the diffuse-reflectance buffer.
 */
module TracerPrep {
  import opened Common
  import opened Mesh
  import opened Volume
  import opened Geometry
  import opened Locate
  import opened Surface
  import opened Roi
  import opened Exterior
  import opened SourceDetector
  import opened Validate

  const MSG_NOT_ENCLOSED: string := "initial element does not enclose the source!"

  /** Source types whose position must lie in an element of the mesh. */
  predicate PlacesSource(t: SourceType) {
    t == Pencil || t == Isotropic || t == Cone || t == ArcSin
  }

  /** The surface correction applies: node-based output normalised with the surface fix, outside the grid tracer. */
  predicate CorrectsSurface(isnormalized: int, rayMethod: RayMethod, basisorder: int) {
    isnormalized == 1 && rayMethod != BLBadouelGrid && basisorder != 0
  }

  /** The Reff table over every medium (see the findings for its size). */
  function ReffList(med: seq<Medium>, isreflect: bool, getreff: (real, real) -> real): (r: seq<real>)
    ensures |r| == |med|
  {
    seq(|med|, l requires 0 <= l < |med| => ReffOf(med, l, isreflect, getreff))
  }

  /** The nodal volumes after the surface step: corrected and unsigned when the correction applies, unchanged otherwise. */
  function SurfaceStep(v: seq<real>, elem: seq<int>, facenb: seq<int>, etype: seq<int>, reff: seq<real>, ne: nat, on: bool): (v1: seq<real>)
    requires Surface.Shaped(|v|, elem, facenb, etype, reff, ne)
    ensures |v1| == |v|
  {
    if on then Unsigned(Rescaled(v, elem, facenb, etype, reff, ne, ne)) else v
  }

  /** Neighbour entries that name no element past the last one. */
  predicate NeighboursInRange(nb: seq<int>, ne: nat) {
    |nb| == 4 * ne && forall m :: 0 <= m < |nb| ==> nb[m] <= ne
  }

  /** The records of one ROI array after its counting pass and its neighbour pass. */
  function RoiStep(r: seq<real>, nb: seq<int>, w: nat, ne: nat, second: bool): (r1: seq<real>)
    requires (w == EDGE_WIDTH || w == FACE_WIDTH) && |r| == w * ne && NeighboursInRange(nb, ne) && (second ==> w == EDGE_WIDTH)
    ensures |r1| == |r|
  {
    NeighbourPass(CountUpTo(r, w, ne, ne), nb, w, ne, second, ne)
  }

  /** The given initial element e0 (1-based) holds the source. */
  predicate GivenElementHolds(node: seq<Point>, elem: seq<int>, p: Point, e0: int, ne: nat)
    requires Flat(elem, |node|) && |elem| == 4 * ne
  {
    1 <= e0 <= ne && Barycentric(CornersOf(node, elem, e0 - 1), p).Status() == 0
  }

  /**
   * Source placement fails: the tracer was already built, the source is
   * point-like, and either the given element index is past the last
   * element or, the given element not holding the source, no element does.
   */
  predicate PlacementFails(node: seq<Point>, elem: seq<int>, p: Point, e0: int, ne: nat, built: bool, t: SourceType)
    requires Flat(elem, |node|) && |elem| == 4 * ne
  {
    built && PlacesSource(t)
    && (e0 > ne || (!GivenElementHolds(node, elem, p, e0, ne) && FirstEnclosing(node, elem, p, ne) == 0))
  }

  /**
   * The test of the given initial element: none is given when e0 <= 0, an
   * index past the last element is an error, otherwise the barycentric
   * status says whether the element holds the source.
   */
  method CheckGiven(mesh: TetMesh, cfg: Config) returns (r: Result<bool>)
    requires mesh.ElemsValid()
    modifies cfg`bary0
    ensures Flat(mesh.elem[..], |mesh.node|)
    ensures cfg.e0 > mesh.NE() ==> r == Err(MSG_E0_RANGE)
    ensures cfg.e0 <= mesh.NE() ==> r == Ok(GivenElementHolds(mesh.node, mesh.elem[..], cfg.srcpos, cfg.e0, mesh.NE()))
    ensures r == Ok(true) ==> cfg.bary0 == TestedBary(mesh.node, mesh.elem[..], cfg.srcpos, cfg.e0 - 1)
  {
    assert Flat(mesh.elem[..], |mesh.node|);
    if cfg.e0 <= 0 {
      return Ok(false);
    }
    var status := MeshBarycentric(mesh, cfg, cfg.e0);
    if status.Err? {
      return Err(status.msg);
    }
    return Ok(status.value == 0);
  }

  /**
   * Locating the source: a given initial element that holds the source is
   * kept; an index past the last element is an error; otherwise the first
   * element that encloses the source becomes e0, and there being none is
   * an error.
   */
  method LocateSource(mesh: TetMesh, cfg: Config) returns (r: Result<()>)
    requires mesh.ElemsValid()
    modifies cfg`e0, cfg`bary0
    ensures Flat(mesh.elem[..], |mesh.node|)
    ensures old(cfg.e0) > mesh.NE() ==> r == Err(MSG_E0_RANGE)
    ensures GivenElementHolds(mesh.node, mesh.elem[..], cfg.srcpos, old(cfg.e0), mesh.NE()) ==>
              r == Ok(()) && cfg.e0 == old(cfg.e0) && cfg.bary0 == TestedBary(mesh.node, mesh.elem[..], cfg.srcpos, cfg.e0 - 1)
    ensures old(cfg.e0) <= mesh.NE() && !GivenElementHolds(mesh.node, mesh.elem[..], cfg.srcpos, old(cfg.e0), mesh.NE()) ==>
              if FirstEnclosing(mesh.node, mesh.elem[..], cfg.srcpos, mesh.NE()) == 0 then r == Err(MSG_NOT_ENCLOSED)
              else r == Ok(()) && cfg.e0 == FirstEnclosing(mesh.node, mesh.elem[..], cfg.srcpos, mesh.NE())
                   && cfg.bary0 == TestedBary(mesh.node, mesh.elem[..], cfg.srcpos, cfg.e0 - 1)
  {
    var given := CheckGiven(mesh, cfg);
    if given.Err? {
      return Err(given.msg);
    }
    if !given.value {
      var found := InitElem(mesh, cfg);
      if found != 0 {
        return Err(MSG_NOT_ENCLOSED);
      }
    }
    return Ok(());
  }

  /**
   * The source-placement step: only a tracer built before this pass and a
   * point-like source are placed; the error cases are those of LocateSource.
   */
  method PlaceSource(mesh: TetMesh, cfg: Config, built: bool) returns (r: Result<()>)
    requires mesh.ElemsValid()
    modifies cfg`e0, cfg`bary0
    ensures Flat(mesh.elem[..], |mesh.node|)
    ensures r.Err? <==> PlacementFails(mesh.node, mesh.elem[..], cfg.srcpos, old(cfg.e0), mesh.NE(), built, cfg.srctype)
    ensures !built || !PlacesSource(cfg.srctype) ==> cfg.e0 == old(cfg.e0) && cfg.bary0 == old(cfg.bary0)
    ensures r.Ok? && built && PlacesSource(cfg.srctype) ==>
              cfg.e0 == (if GivenElementHolds(mesh.node, mesh.elem[..], cfg.srcpos, old(cfg.e0), mesh.NE()) then old(cfg.e0)
                         else FirstEnclosing(mesh.node, mesh.elem[..], cfg.srcpos, mesh.NE()))
              && cfg.bary0 == TestedBary(mesh.node, mesh.elem[..], cfg.srcpos, cfg.e0 - 1)
  {
    assert Flat(mesh.elem[..], |mesh.node|);
    if !built || !PlacesSource(cfg.srctype) {
      return Ok(());
    }
    r := LocateSource(mesh, cfg);
  }

  /** The surface-correction step on the nodal volumes, with a Reff table entry per medium. */
  method CorrectSurface(mesh: TetMesh, cfg: Config, getreff: (real, real) -> real)
    requires mesh.ElemsValid() && mesh.facenb != null && mesh.facenb.Length == 4 * mesh.NE()
    requires mesh.nvol.Length == |mesh.node|
    requires forall i :: 0 <= i < mesh.NE() && mesh.etype[i] >= 0 ==> mesh.etype[i] < |mesh.med|
    requires forall l :: 0 <= l < |mesh.med| ==> ReffOf(mesh.med, l, cfg.isreflect, getreff) > -1.0
    modifies mesh.nvol
    ensures Surface.Shaped(|mesh.node|, mesh.elem[..], mesh.facenb[..], mesh.etype[..], ReffList(mesh.med, cfg.isreflect, getreff), mesh.NE())
    ensures mesh.nvol[..] == SurfaceStep(old(mesh.nvol[..]), mesh.elem[..], mesh.facenb[..], mesh.etype[..],
                                         ReffList(mesh.med, cfg.isreflect, getreff), mesh.NE(),
                                         CorrectsSurface(cfg.isnormalized, cfg.rayMethod, cfg.basisorder))
  {
    ghost var reffs := ReffList(mesh.med, cfg.isreflect, getreff);
    assert Flat(mesh.elem[..], |mesh.node|);
    assert Surface.Shaped(|mesh.node|, mesh.elem[..], mesh.facenb[..], mesh.etype[..], reffs, mesh.NE());
    if CorrectsSurface(cfg.isnormalized, cfg.rayMethod, cfg.basisorder) {
      var reff := ReffTable(mesh.med, |mesh.med|, cfg.isreflect, getreff);
      assert reff[..] == reffs;
      RescaleSurface(mesh.nvol, mesh.elem[..], mesh.facenb[..], mesh.etype[..], reff[..], mesh.NE());
      RestoreSigns(mesh.nvol);
    }
  }

  /** The ROI step: counting and neighbour passes on every ROI record array present. */
  method CompressRoi(edgeroi: array?<real>, faceroi: array?<real>, nb: seq<int>, ne: nat)
    requires NeighboursInRange(nb, ne)
    requires edgeroi != null ==> edgeroi.Length == EDGE_WIDTH * ne
    requires faceroi != null ==> faceroi.Length == FACE_WIDTH * ne
    requires edgeroi != null && faceroi != null ==> edgeroi != faceroi
    modifies edgeroi, faceroi
    ensures edgeroi != null ==> edgeroi[..] == RoiStep(old(edgeroi[..]), nb, EDGE_WIDTH, ne, true)
    ensures faceroi != null ==> faceroi[..] == RoiStep(old(faceroi[..]), nb, FACE_WIDTH, ne, false)
  {
    if edgeroi != null {
      CountPass(edgeroi, ne, EDGE_WIDTH);
      NeighbourScan(edgeroi, nb, EDGE_WIDTH, ne, true);
    }
    if faceroi != null {
      CountPass(faceroi, ne, FACE_WIDTH);
      NeighbourScan(faceroi, nb, FACE_WIDTH, ne, false);
    }
  }

  /** The reflectance buffer: released, then a zeroed one of nf * srcnum * maxgate entries when reflectance is saved. */
  method ResetReflectance(mesh: TetMesh, issaveref: bool, srcnum: nat, maxgate: nat)
    requires mesh.nf >= 0
    modifies mesh`dref
    ensures issaveref ==>
              mesh.dref != null && fresh(mesh.dref) && mesh.dref.Length == mesh.nf * srcnum * maxgate
              && forall m :: 0 <= m < mesh.dref.Length ==> mesh.dref[m] == 0.0
    ensures !issaveref ==> mesh.dref == null
  {
    if issaveref {
      mesh.dref := new real[mesh.nf * srcnum * maxgate](_ => 0.0);
    } else {
      mesh.dref := null;
    }
  }

  /**
   * The steps after source placement: surface correction, ROI compression,
   * exterior-face numbering and the reflectance buffer (the previous buffer
   * is released and, when reflectance is saved, a zeroed one of
   * nf * srcnum * maxgate entries takes its place).
   */
  method FinishPrep(mesh: TetMesh, cfg: Config, getreff: (real, real) -> real)
    requires mesh.ElemsValid() && mesh.facenb != null && mesh.facenb.Length == 4 * mesh.NE()
    requires mesh.facenb != mesh.elem && mesh.facenb != mesh.etype
    requires NeighboursInRange(mesh.facenb[..], mesh.NE())
    requires mesh.nvol.Length == |mesh.node|
    requires forall i :: 0 <= i < mesh.NE() && mesh.etype[i] >= 0 ==> mesh.etype[i] < |mesh.med|
    requires forall l :: 0 <= l < |mesh.med| ==> ReffOf(mesh.med, l, cfg.isreflect, getreff) > -1.0
    requires mesh.edgeroi != null ==> mesh.edgeroi.Length == EDGE_WIDTH * mesh.NE() && mesh.edgeroi != mesh.nvol
    requires mesh.faceroi != null ==> mesh.faceroi.Length == FACE_WIDTH * mesh.NE() && mesh.faceroi != mesh.nvol
    requires mesh.edgeroi != null && mesh.faceroi != null ==> mesh.edgeroi != mesh.faceroi
    modifies mesh`nf, mesh`dref, mesh.nvol, mesh.facenb, mesh.edgeroi, mesh.faceroi
    ensures mesh.nvol[..] == SurfaceStep(old(mesh.nvol[..]), mesh.elem[..], old(mesh.facenb[..]), mesh.etype[..],
                                         ReffList(mesh.med, cfg.isreflect, getreff), mesh.NE(),
                                         CorrectsSurface(cfg.isnormalized, cfg.rayMethod, cfg.basisorder))
    ensures mesh.edgeroi != null ==> mesh.edgeroi[..] == RoiStep(old(mesh.edgeroi[..]), old(mesh.facenb[..]), EDGE_WIDTH, mesh.NE(), true)
    ensures mesh.faceroi != null ==> mesh.faceroi[..] == RoiStep(old(mesh.faceroi[..]), old(mesh.facenb[..]), FACE_WIDTH, mesh.NE(), false)
    ensures mesh.facenb[..] == Numbered(old(mesh.facenb[..])) && mesh.nf == CountOf(old(mesh.facenb[..]), 0)
    ensures cfg.issaveref ==>
              mesh.dref != null && fresh(mesh.dref) && mesh.dref.Length == mesh.nf * cfg.srcnum * cfg.maxgate
              && forall m :: 0 <= m < mesh.dref.Length ==> mesh.dref[m] == 0.0
    ensures !cfg.issaveref ==> mesh.dref == null
  {
    CorrectSurface(mesh, cfg, getreff);
    CompressRoi(mesh.edgeroi, mesh.faceroi, mesh.facenb[..], mesh.NE());
    NumberExteriorFaces(mesh);
    ResetReflectance(mesh, cfg.issaveref, cfg.srcnum, cfg.maxgate);
  }

  /**
   * The whole pass. The error cases are exactly those of source placement;
   * otherwise the state is the one the remaining steps define.
   */
  method Prepare(mesh: TetMesh, cfg: Config, built: bool, getreff: (real, real) -> real) returns (r: Result<()>)
    requires mesh.ElemsValid() && mesh.facenb != null && mesh.facenb.Length == 4 * mesh.NE()
    requires mesh.facenb != mesh.elem && mesh.facenb != mesh.etype
    requires NeighboursInRange(mesh.facenb[..], mesh.NE())
    requires mesh.nvol.Length == |mesh.node|
    requires forall i :: 0 <= i < mesh.NE() && mesh.etype[i] >= 0 ==> mesh.etype[i] < |mesh.med|
    requires forall l :: 0 <= l < |mesh.med| ==> ReffOf(mesh.med, l, cfg.isreflect, getreff) > -1.0
    requires mesh.edgeroi != null ==> mesh.edgeroi.Length == EDGE_WIDTH * mesh.NE() && mesh.edgeroi != mesh.nvol
    requires mesh.faceroi != null ==> mesh.faceroi.Length == FACE_WIDTH * mesh.NE() && mesh.faceroi != mesh.nvol
    requires mesh.edgeroi != null && mesh.faceroi != null ==> mesh.edgeroi != mesh.faceroi
    modifies cfg`e0, cfg`bary0, mesh`nf, mesh`dref, mesh.nvol, mesh.facenb, mesh.edgeroi, mesh.faceroi
    ensures Flat(mesh.elem[..], |mesh.node|)
    ensures r.Err? <==> PlacementFails(mesh.node, mesh.elem[..], cfg.srcpos, old(cfg.e0), mesh.NE(), built, cfg.srctype)
    ensures r.Ok? ==> mesh.nvol[..] == SurfaceStep(old(mesh.nvol[..]), mesh.elem[..], old(mesh.facenb[..]), mesh.etype[..],
                                         ReffList(mesh.med, cfg.isreflect, getreff), mesh.NE(),
                                         CorrectsSurface(cfg.isnormalized, cfg.rayMethod, cfg.basisorder))
    ensures r.Ok? ==> mesh.edgeroi != null ==> mesh.edgeroi[..] == RoiStep(old(mesh.edgeroi[..]), old(mesh.facenb[..]), EDGE_WIDTH, mesh.NE(), true)
    ensures r.Ok? ==> mesh.faceroi != null ==> mesh.faceroi[..] == RoiStep(old(mesh.faceroi[..]), old(mesh.facenb[..]), FACE_WIDTH, mesh.NE(), false)
    ensures r.Ok? ==> mesh.facenb[..] == Numbered(old(mesh.facenb[..])) && mesh.nf == CountOf(old(mesh.facenb[..]), 0)
    ensures r.Ok? ==> cfg.issaveref ==>
              mesh.dref != null && fresh(mesh.dref) && mesh.dref.Length == mesh.nf * cfg.srcnum * cfg.maxgate
              && forall m :: 0 <= m < mesh.dref.Length ==> mesh.dref[m] == 0.0
    ensures r.Ok? ==> !cfg.issaveref ==> mesh.dref == null
  {
    r := PlaceSource(mesh, cfg, built);
    if r.Ok? {
      FinishPrep(mesh, cfg, getreff);
    }
  }

  /**
   * As written, the Reff table holds prop + 1 entries (media 0..prop),
   * while an external-detector element relabelled by the validation pass
   * carries label prop + 1: the table cannot cover it, so a boundary face
   * of such an element reads past the table.
   */
  lemma AsWrittenTableMissesDetector(nn: nat, elem: seq<int>, facenb: seq<int>, t: seq<int>, med: seq<Medium>, prop: nat,
                                     isreflect: bool, getreff: (real, real) -> real, i: nat)
    requires |med| == prop + 2 && |t| >= 1 && i < |t| && t[i] == DETECTOR_LABEL
    ensures |ReffList(med[..prop + 1], isreflect, getreff)| == prop + 1
    ensures Relabeled(t, prop + 1)[i] == prop + 1
    ensures !Surface.Shaped(nn, elem, facenb, Relabeled(t, prop + 1), ReffList(med[..prop + 1], isreflect, getreff), |t|)
  {
  }

  /**
   * The corrected table has an entry per medium: after the validation pass
   * appends the background medium and relabels the detector elements, every
   * non-negative label of a mesh labelled -2..prop indexes it.
   */
  lemma ExtendedTableCoversLabels(nn: nat, elem: seq<int>, facenb: seq<int>, t: seq<int>, med: seq<Medium>, prop: nat,
                                   isreflect: bool, getreff: (real, real) -> real)
    requires |med| == prop + 1 && |elem| == 4 * |t| && |facenb| == 4 * |t|
    requires forall m :: 0 <= m < |elem| ==> 1 <= elem[m] <= nn
    requires forall i :: 0 <= i < |t| ==> DETECTOR_LABEL <= t[i] <= prop
    requires forall l :: 0 <= l < |med| ==> ReffOf(med, l, isreflect, getreff) > -1.0
    requires isreflect ==> getreff(med[0].n, med[0].n) > -1.0
    ensures Surface.Shaped(nn, elem, facenb, Relabeled(t, prop + 1), ReffList(ExtendedMedia(med), isreflect, getreff), |t|)
  {
    var ext := ExtendedMedia(med);
    forall l | 0 <= l < |ext|
      ensures ReffList(ext, isreflect, getreff)[l] > -1.0
    {
      if l < |med| {
        assert ext[l] == med[l] && ext[0] == med[0];
        assert ReffOf(ext, l, isreflect, getreff) == ReffOf(med, l, isreflect, getreff);
      }
    }
  }
}
