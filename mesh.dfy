/**
 * The mesh object and the simulation settings the bookkeeping passes read
 * and update. Arrays are flat and element-major with four entries per
 * element (elemlen = 4); node and element references stored in them are
 * 1-based, as in the C structure.
 */
module Mesh {
  import opened Common
  import opened Geometry

  /** Output quantity selector. */
  datatype OutputType = Flux | Fluence | Energy | Jacobian | WL | WP | OtherOutput

  /** Source kinds; the point-like ones are checked against their initial element. */
  datatype SourceType = Pencil | Isotropic | Cone | ArcSin | OtherSource

  /** The number of nodes per element in this model. */
  const ELEM_LEN: nat := 4

  /** The tetrahedral mesh (tetmesh): geometry, per-element data and output accumulators. */
  class TetMesh {
    var node: seq<Point>        // node coordinates, nn of them
    var elem: array<int>        // 4 node references per element, 1-based
    var etype: array<int>       // material label per element (`type`)
    var facenb: array?<int>     // 4 face-neighbour references per element, 0 = exterior face
    var evol: array?<real>      // element volumes
    var nvol: array<real>       // nodal volumes
    var weight: array<real>     // accumulator, entry (gate * datalen + unit) * srcnum + source
    var dref: array?<real>      // diffuse reflectance per exterior face
    var edgeroi: array?<real>   // 6 edge-ROI values per element
    var faceroi: array?<real>   // 4 face-ROI values per element
    var med: seq<Medium>        // medium table, index 0 is the background
    var prop: nat               // number of media besides the background
    var nf: int                 // number of exterior faces
    var srcelem: seq<int>       // 1-based elements labelled as wide-field source
    var detelem: seq<int>       // 1-based elements labelled as external detector
    var srcelemlen: int
    var detelemlen: int
    var nmin: Point             // dual-mesh bounding box
    var nmax: Point

    /** An empty mesh, as mesh_init leaves it. */
    constructor ()
      ensures node == [] && elem.Length == 0 && etype.Length == 0 && nvol.Length == 0 && weight.Length == 0
      ensures facenb == null && evol == null && dref == null && edgeroi == null && faceroi == null
      ensures med == [] && prop == 0 && nf == 0 && srcelem == [] && detelem == [] && srcelemlen == 0 && detelemlen == 0
      ensures nmin == Point(VERY_BIG, VERY_BIG, VERY_BIG) && nmax == Point(-VERY_BIG, -VERY_BIG, -VERY_BIG)
    {
      node := [];
      elem := new int[0];
      etype := new int[0];
      facenb := null;
      evol := null;
      nvol := new real[0];
      weight := new real[0];
      dref := null;
      edgeroi := null;
      faceroi := null;
      med := [];
      prop := 0;
      nf := 0;
      srcelem := [];
      detelem := [];
      srcelemlen := 0;
      detelemlen := 0;
      nmin := Point(VERY_BIG, VERY_BIG, VERY_BIG);
      nmax := Point(-VERY_BIG, -VERY_BIG, -VERY_BIG);
    }

    /** Number of elements. */
    function NE(): nat
      reads this
    {
      etype.Length
    }

    /** Four node references per element, each naming an existing node; the element and type buffers are distinct. */
    predicate ElemsValid()
      reads this, elem, etype
    {
      elem != etype && elem.Length == 4 * etype.Length &&
      forall m :: 0 <= m < elem.Length ==> 1 <= elem[m] <= |node|
    }
  }

  /** The simulation settings (mcconfig) the passes read, and the fields they set. */
  class Config {
    var e0: int                   // 1-based initial element, 0 = unknown
    var bary0: seq<real>          // barycentric coordinates of the source in e0
    var srcpos: Point
    var srctype: SourceType
    var isextdet: int
    var detnum: int
    var rayMethod: RayMethod
    var basisorder: int           // 0: element basis, otherwise node basis
    var steps: Point              // dual-grid voxel size
    var dim: (int, int, int)
    var crop0: (int, int, int)
    var unitinmm: real
    var srcnum: nat
    var maxgate: nat
    var tstep: real
    var isnormalized: int
    var isreflect: bool
    var issaveref: bool
    var outputtype: OutputType
    var seedFromFile: bool        // seed == SEED_FROM_FILE
    var nphoton: int
    var minenergy: real
    var replaydet: int
    var photonseed: array<seq<bv8>>  // RNG seed of each saved photon, one seedbyte-long block each
    var replayweight: seq<real>
    var replaytime: seq<real>

    constructor ()
      ensures e0 == 0 && srcnum == 1 && maxgate == 1 && photonseed.Length == 0
    {
      e0 := 0;
      bary0 := [0.0, 0.0, 0.0, 0.0];
      srcpos := Point(0.0, 0.0, 0.0);
      srctype := Pencil;
      isextdet := 0;
      detnum := 0;
      rayMethod := Plucker;
      basisorder := 1;
      steps := Point(1.0, 1.0, 1.0);
      dim := (0, 0, 0);
      crop0 := (0, 0, 0);
      unitinmm := 1.0;
      srcnum := 1;
      maxgate := 1;
      tstep := 1.0;
      isnormalized := 1;
      isreflect := false;
      issaveref := false;
      outputtype := Flux;
      seedFromFile := false;
      nphoton := 0;
      minenergy := 0.0;
      replaydet := 0;
      photonseed := new seq<bv8>[0];
      replayweight := [];
      replaytime := [];
    }
  }

  /** Number of spatial units of the accumulator: grid voxels, nodes or elements. */
  function DataLen(rayMethod: RayMethod, basisorder: int, crop0z: int, nn: nat, ne: nat): int {
    if rayMethod == BLBadouelGrid then crop0z else if basisorder != 0 then nn else ne
  }
}
