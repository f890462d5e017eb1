/**
 * The local numbering tables of a 4-node tetrahedron: the node triples of
 * its four faces, the map between a face and its opposite node, the map
 * between the face order and the face-neighbour order, and the six edges.
 */
module FaceTables {

  /** A local node, face or neighbour slot of a tetrahedron. */
  type Local = i: int | 0 <= i < 4

  /** The three local nodes of each face, counter-clockwise seen from outside (the table `out`). */
  const OUT: seq<seq<Local>> := [[0, 3, 1], [3, 2, 1], [0, 2, 3], [0, 1, 2]]

  /** Face f is opposite local node FACE_MAP[f] (the table `facemap`). */
  const FACE_MAP: seq<Local> := [2, 0, 1, 3]

  /** Local node n is opposite face IFACE_MAP[n] (the table `ifacemap`). */
  const IFACE_MAP: seq<Local> := [1, 2, 0, 3]

  /** Neighbour slot j shares face FACE_ORDER[j]; the fifth entry is a -1 terminator (the table `faceorder`). */
  const FACE_ORDER: seq<int> := [1, 3, 2, 0, -1]

  /** Face f is shared with the neighbour in slot IFACE_ORDER[f] (the table `ifaceorder`). */
  const IFACE_ORDER: seq<Local> := [3, 0, 2, 1]

  /** The six edges as pairs of local nodes (the table `pairs` of the tracer build). */
  const EDGE_PAIRS: seq<(Local, Local)> := [(0, 1), (0, 2), (0, 3), (1, 2), (1, 3), (2, 3)]

  function Out(f: Local, k: nat): (n: Local)
    requires k < 3
    ensures n != FaceMap(f)
  {
    OUT[f][k]
  }

  function FaceMap(f: Local): Local { FACE_MAP[f] }

  function IFaceMap(n: Local): Local { IFACE_MAP[n] }

  function FaceOrder(j: Local): (f: Local) { FACE_ORDER[j] }

  function IFaceOrder(f: Local): Local { IFACE_ORDER[f] }

  /** `facemap` and `ifacemap` are inverse permutations of 0..3. */
  lemma FaceMapInverse()
    ensures forall f: Local :: IFaceMap(FaceMap(f)) == f
    ensures forall n: Local :: FaceMap(IFaceMap(n)) == n
  {
  }

  /** `faceorder` (without its terminator) and `ifaceorder` are inverse permutations of 0..3. */
  lemma FaceOrderInverse()
    ensures forall j: Local :: IFaceOrder(FaceOrder(j)) == j
    ensures forall f: Local :: FaceOrder(IFaceOrder(f)) == f
    ensures FACE_ORDER[4] == -1
  {
  }

  predicate OnFace(f: Local, n: Local) {
    n == Out(f, 0) || n == Out(f, 1) || n == Out(f, 2)
  }

  /** Each face is made of exactly the three local nodes other than its opposite node, each once. */
  lemma FaceNodes(f: Local)
    ensures Out(f, 0) != Out(f, 1) && Out(f, 0) != Out(f, 2) && Out(f, 1) != Out(f, 2)
    ensures forall n: Local :: OnFace(f, n) <==> n != FaceMap(f)
  {
  }

  /** The slot of edge (a, b) in the edge table. */
  function EdgeOf(a: Local, b: Local): (e: nat)
    requires a < b
    ensures e < 6 && EDGE_PAIRS[e] == (a, b)
  {
    if a == 0 then b - 1 else if a == 1 then b + 1 else 5
  }

  /** The edge table lists every unordered pair of distinct local nodes exactly once, smaller node first. */
  lemma EdgePairsComplete()
    ensures forall e :: 0 <= e < 6 ==> EDGE_PAIRS[e].0 < EDGE_PAIRS[e].1
    ensures forall e :: 0 <= e < 6 ==> EdgeOf(EDGE_PAIRS[e].0, EDGE_PAIRS[e].1) == e
  {
  }
}
