# Mesh bookkeeping of the mesh-based Monte Carlo photon simulator

This project models the bookkeeping half of the simulator's mesh module
(`src/mmc_mesh.c`) and proves properties of it. The model covers:

- the local numbering tables of a tetrahedron;
- source and detector element resolution;
- element and nodal volumes, and the mesh validation pass;
- barycentric point location and the search for the initial element;
- the dual voxel grid;
- the post-build passes of `tracer_prep`: source placement, the surface
  nodal-volume correction, ROI compression, exterior-face numbering and
  the reflectance buffer;
- the output normalisation;
- the replay filter of the seed loader;
- the wide-field detector weight and image;
- the packed element table;
- the clamp of the scattering cosine.

**Form.** Passes that change the mesh in place are methods on the
`TetMesh` and `Config` classes or on arrays. Each method is proved against
a specification function on sequences. The properties the code relies on
are lemmas about those functions: round trips, permutation and
conservation laws, first-match and iff characterisations, and
idempotence.

**Modules:**

- `Common`: points, vector helpers and constants. `Trunc` models C's
  float-to-int cast. `Quot` is division.
- `FaceTables`: the tables `out`, `facemap`, `ifacemap`, `faceorder`,
  `ifaceorder` and the edge `pairs`.
- `Geometry`: the signed-volume expression, the face values of the
  barycentric test, and bounding boxes.
- `Mesh`: the `TetMesh` and `Config` classes.
- `SourceDetector`: `mesh_srcdetelem`.
- `Volume`: `mesh_getvolume` and the nodal rebuild of `mesh_validate`.
- `Locate`: `mesh_barycentric` and `mesh_initelem`.
- `DualGrid`: `mesh_createdualmesh`.
- `Validate`: `mesh_validate`.
- `Surface`, `Roi`, `Exterior` and `TracerPrep`: the passes of `tracer_prep`.
- `Normalize`: `mesh_normalize`.
- `Detector`: `mesh_getdetweight` and `mesh_getdetimage`.
- `Replay`: the replay filter of `mesh_loadseedfile`.
- `Layout`: the packed element table of `mesh_init_from_cfg` and
  `mesh_loadelem`.
- `Scatter`: the polar-cosine clamp of `mc_next_scatter`.
- `Strides`: row-major index arithmetic.

**Two record layouts.** The replay filter and `mesh_getdetimage` read a
detected-photon record with different column layouts, and both are
modelled as written:

- The filter reads the path of medium k from column 1 + k, the layout of a
  history file.
- The image reads it from column maxmedia + k, after the per-medium
  scattering counts.

## Model

| member | source | states |
|---|---|---|
| FaceTables.Out | src/mmc_mesh.c:59 | a node of face f is never the node opposite f |
| FaceTables.FaceMapInverse | src/mmc_mesh.c:70-81 | `facemap` and `ifacemap` are mutually inverse permutations of the four local indices |
| FaceTables.FaceOrderInverse | src/mmc_mesh.c:92-103 | `faceorder` (before its -1 terminator) and `ifaceorder` are mutually inverse permutations |
| FaceTables.FaceNodes | src/mmc_mesh.c:59-70 | each face holds three distinct nodes, exactly the nodes other than its opposite node |
| FaceTables.EdgeOf | src/mmc_mesh.c:1248 | every pair a < b of local nodes has a slot in the edge table holding exactly that pair |
| FaceTables.EdgePairsComplete | src/mmc_mesh.c:1248 | the edge table lists each of the six unordered node pairs once, smaller node first |
| Mesh.TetMesh.constructor | src/mmc_mesh.c:112-143 | a new mesh is empty: no nodes, elements, media or buffers; nmin at VERY_BIG and nmax at -VERY_BIG |
| Common.Trunc | src/mmc_mesh.c:1658 | the float-to-int cast truncates toward zero: t <= r < t + 1 for r >= 0, and t - 1 < r <= t for r < 0 |
| Common.Quot | src/mmc_mesh.c:1824 | a quotient times a nonzero divisor gives back the dividend (division by zero gives 0, see Left out) |
| SourceDetector.IndicesOfSpec | src/mmc_mesh.c:405-413 | a recorded index list holds exactly the 1-based positions of the matching labels, in increasing order |
| SourceDetector.FirstIndexOfSpec | src/mmc_mesh.c:385-389 | the e0 picked by the scan is 0 iff no element has label -1; otherwise it is the first such element |
| SourceDetector.FirstIndexIsHead | src/mmc_mesh.c:385-413 | the e0 the counting scan picks is the first entry of the source element list |
| SourceDetector.ResolvedSpec | src/mmc_mesh.c:405-413 | resolution turns every -1 label into 0 and keeps all other labels, so -2 elements keep their label |
| SourceDetector.CountResolved | src/mmc_mesh.c:410-412 | resolution keeps the number of detector elements |
| SourceDetector.SrcDetElem | src/mmc_mesh.c:379-416 | the counts, lists, e0, isextdet and detnum are set as the scan defines them; labels become resolved only when a sentinel exists |
| SourceDetector.CountSentinels | src/mmc_mesh.c:382-396 | counting scan: both counts, e0 set only when it was 0, isextdet and detnum only when a detector element exists |
| SourceDetector.CollectSentinels | src/mmc_mesh.c:401-414 | listing scan: both index lists, with the labels resolved |
| Geometry.RawVolumeDets | src/mmc_mesh.c:913-918 | the volume expression is the cofactor expansion of the 4x4 determinant with a column of ones |
| Geometry.DetSwap23 | src/mmc_mesh.c:913-918 | swapping two rows of the triple product negates it |
| Geometry.DetSwap12 | src/mmc_mesh.c:913-918 | swapping two rows of the triple product negates it |
| Geometry.DetRotate | src/mmc_mesh.c:913-918 | rotating the rows of the triple product keeps it |
| Geometry.DetRepeated | src/mmc_mesh.c:913-918 | a triple product with a repeated row is zero |
| Geometry.SwapNegates | src/mmc_mesh.c:919-926 | swapping corners 2 and 3 negates the stored value, which is why the swap fixes the winding |
| Geometry.SignedVolumeIsTripleProduct | src/mmc_mesh.c:913-919 | the stored value is minus the triple product of the edges leaving corner 0 |
| Geometry.RawBary | src/mmc_mesh.c:1005-1014 | the face loop yields four values |
| Geometry.RawBaryPlacement | src/mmc_mesh.c:1013 | the value of face f lands in slot facemap[f], and each slot is filled once |
| Geometry.FaceValueDets | src/mmc_mesh.c:1009-1013 | a face value is the corner determinant minus the three determinants in the source position |
| Geometry.RawBarySum | src/mmc_mesh.c:1005-1021 | the four raw values add up to six times the signed volume wherever the point is |
| Geometry.ScanStatus | src/mmc_mesh.c:1016-1019 | the scan status is 1 iff some value is negative |
| Geometry.Divided | src/mmc_mesh.c:1024-1026 | the division yields four values |
| Geometry.DividedSpec | src/mmc_mesh.c:1024-1026 | four non-negative values divided by their positive sum are non-negative and add up to one |
| Geometry.BaryOfSpec | src/mmc_mesh.c:1016-1028 | the test status is 0 iff no raw value is negative; it then stores the normalised values, else the raw ones |
| Geometry.OrientedNeverDegenerate | src/mmc_mesh.c:919-928 | once the winding is fixed (positive volume), the test never divides by zero, and status 0 means the point is inside |
| Geometry.LoIsMinimum | src/mmc_mesh.c:954-960 | the running minimum is below every point and is one of them, or still VERY_BIG |
| Geometry.HiIsMaximum | src/mmc_mesh.c:954-964 | the running maximum is above every point and is one of them, or still -VERY_BIG |
| Geometry.MemberInBox | src/mmc_mesh.c:954-969 | every corner of an element lies in its corner box |
| Volume.SignedValues | src/mmc_mesh.c:906-919 | the stored values hold one entry per element |
| Volume.SignedValuesAt | src/mmc_mesh.c:913-919 | stored value k is six times the signed volume of element k |
| Volume.Fixed | src/mmc_mesh.c:921-926 | the winding fix keeps the element table's length |
| Volume.Volumes | src/mmc_mesh.c:925-928 | every element volume is non-negative |
| Volume.FixedRecord | src/mmc_mesh.c:921-926 | the fix keeps corners 0 and 1, and exchanges corners 2 and 3 exactly when the stored value is negative |
| Volume.FixedFlat | src/mmc_mesh.c:921-926 | the fix keeps every entry a valid node reference |
| Volume.FixedCorners | src/mmc_mesh.c:921-926 | after the fix an element's corners are the original ones, with 2 and 3 exchanged when its value was negative |
| Volume.FixedOriented | src/mmc_mesh.c:919-928 | after the fix every element's signed value is non-negative and equals six times its stored volume |
| Volume.FixedIdempotent | src/mmc_mesh.c:906-928 | running the volume pass on its own output changes neither the elements nor the volumes |
| Volume.AddRecord | src/mmc_mesh.c:934-936 | adding an element's share keeps the length of the nodal table |
| Volume.NodalSum | src/mmc_mesh.c:930-936 | the nodal table holds one entry per node |
| Volume.Mult | src/mmc_mesh.c:934-936 | the number of corners naming a node is at most the number of corners looked at |
| Volume.AddRecordAt | src/mmc_mesh.c:934-936 | a node gains w once for each corner of the element that names it |
| Volume.NodalSumIsShare | src/mmc_mesh.c:930-936 | each node holds a quarter of the volume of every counted element, once per corner naming it |
| Volume.NodalSumNonNegative | src/mmc_mesh.c:930-936 | with non-negative element volumes every nodal volume is non-negative |
| Volume.NodalSumConserves | src/mmc_mesh.c:930-936 | the nodal volumes add up to the total volume of the counted elements |
| Volume.NodalSumFrame | src/mmc_mesh.c:930-936 | the nodal sum reads only the entries of the elements visited |
| Volume.AddCorners | src/mmc_mesh.c:934-936 | the corner loop adds w to the nodal entry of each of the element's four corners |
| Volume.GetVolume | src/mmc_mesh.c:899-938 | fresh evol and nvol; elements winding-fixed; volumes = abs(value) / 6; nodal volumes summed over nonzero-type elements |
| Volume.VolumePass | src/mmc_mesh.c:906-937 | the element loop computes exactly the fixed table, the volumes and the nodal sum |
| Volume.LoopExit | src/mmc_mesh.c:906-937 | the loop state after the last element is the pass's result |
| Volume.VolumeStep | src/mmc_mesh.c:907-936 | one loop iteration keeps the loop invariant |
| Volume.StepKeepsLoop | src/mmc_mesh.c:907-936 | one visited element takes the invariant from i to i + 1 elements |
| Volume.FixElement | src/mmc_mesh.c:909-928 | one element: its value, its swap of corners 2 and 3 when negative, and its volume |
| Volume.FixedStep | src/mmc_mesh.c:921-926 | the fixed prefix grows by one element's fixed entries |
| Volume.StoredValue | src/mmc_mesh.c:909-919 | the loop computes six times the signed volume of the element's corners |
| Volume.RebuildNodalVolume | src/mmc_mesh.c:1936-1952 | validation rebuilds nvol from scratch, summing only elements of positive type |
| Locate.FirstEnclosing | src/mmc_mesh.c:953-978 | the first-match index is at most the number of elements scanned |
| Locate.FirstEnclosingSpec | src/mmc_mesh.c:953-978 | the first match is 0 iff no element encloses the point; otherwise it encloses the point and no earlier one does |
| Locate.FirstEnclosingFrom | src/mmc_mesh.c:971-974 | once a match is found, scanning further elements does not change it |
| Locate.InBoxAxes | src/mmc_mesh.c:967-969 | the six comparisons of the scan are the box predicate |
| Locate.BaryValuesSpec | src/mmc_mesh.c:1016-1028 | the buffer holds non-negative values adding up to one when the test passes with a nonzero sum |
| Locate.FaceLoopFills | src/mmc_mesh.c:1005-1014 | writing face values in face order fills the buffer in node order |
| Locate.FaceLoop | src/mmc_mesh.c:1005-1014 | the face loop produces the raw barycentric values |
| Locate.SignScan | src/mmc_mesh.c:1016-1022 | the sign scan stops iff some value is negative; otherwise it returns the sum of all four |
| Locate.DivideBy | src/mmc_mesh.c:1024-1026 | the division loop divides each value by the sum |
| Locate.ElementBary | src/mmc_mesh.c:1005-1028 | the status and buffer of the barycentric test of one element |
| Locate.MeshBarycentric | src/mmc_mesh.c:993-1029 | an out-of-range index is an error; otherwise the status and bary0 are those of the element's test |
| Locate.ElementBox | src/mmc_mesh.c:954-965 | the element box is the running minima and maxima over its four corners |
| Locate.ScanElements | src/mmc_mesh.c:953-978 | the scan returns the first enclosing element and the buffer it left behind |
| Locate.InitElem | src/mmc_mesh.c:949-979 | returns 0 iff some element encloses the source, and then e0 is the first such element; returns 1 with e0 unchanged otherwise |
| DualGrid.CreateDualMesh | src/mmc_mesh.c:338-370 | nmin and nmax are the node box padded by EPS; dim is the voxel count per axis; crop0 holds the strides |
| DualGrid.NodesInsidePaddedBox | src/mmc_mesh.c:347-361 | every node lies strictly inside the padded box |
| DualGrid.PaddedBoxNonEmpty | src/mmc_mesh.c:356-361 | the padded box of a non-empty mesh has positive extent on each axis |
| DualGrid.CellsCover | src/mmc_mesh.c:363-365 | an axis has at least one voxel; its voxels cover the extent, and one fewer would not |
| DualGrid.GridCoversBox | src/mmc_mesh.c:347-365 | the grid covers the padded box on every axis, and one voxel fewer per axis would not |
| DualGrid.StridesPositive | src/mmc_mesh.c:367-369 | the strides are positive, each a multiple of the one before |
| Validate.ScaledMedia | src/mmc_mesh.c:1966-1971 | unit conversion keeps the size of the media table |
| Validate.Relabeled | src/mmc_mesh.c:1978-1982 | relabelling keeps the length of the label table |
| Validate.ScaleByOne | src/mmc_mesh.c:1966 | converting with unit 1 changes nothing, so skipping that case loses nothing |
| Validate.ScaleRoundTrip | src/mmc_mesh.c:1966-1971 | converting with u and then 1/u restores every medium |
| Validate.ScaleKeeps | src/mmc_mesh.c:1967-1970 | conversion keeps the background medium, every g and n, and the media past prop |
| Validate.RelabeledCounts | src/mmc_mesh.c:1978-1982 | no -2 label is left, the new label gains exactly the former -2 elements, and other labels keep their counts |
| Validate.DetectorSeesBackground | src/mmc_mesh.c:1974-1982 | former detector elements name the appended medium, a copy of medium 0; the other elements and media are unchanged |
| Validate.ScaleMedia | src/mmc_mesh.c:1967-1970 | the conversion loop computes the converted media |
| Validate.RelabelDetector | src/mmc_mesh.c:1978-1982 | the relabelling loop computes the relabelled table |
| Validate.PrepareGrid | src/mmc_mesh.c:1958-1963 | in grid mode the dual grid is built and basisorder becomes 0; datalen is voxels, nodes or elements |
| Validate.PrepareMedia | src/mmc_mesh.c:1966-1982 | the media and labels after unit conversion and the external-detector extension |
| Validate.AllocateWeight | src/mmc_mesh.c:1964 | the accumulator is fresh, zeroed, with datalen * srcnum * maxgate entries |
| Validate.Prepare | src/mmc_mesh.c:1936-1982 | the nodal rebuild, grid, accumulator, media and labels after the checks |
| Validate.Validate | src/mmc_mesh.c:1921-1982 | an error iff no media or an incomplete mesh, with its message and nothing changed; otherwise the prepared state |
| Surface.ReffTable | src/mmc_mesh.c:1094-1109 | Reff of a medium reuses the value of an earlier medium with the same refractive index, else asks getreff; 0 without reflection |
| Surface.Factor | src/mmc_mesh.c:1121 | the correction factor 2 / (1 + Reff) is positive |
| Surface.CornerNode | src/mmc_mesh.c:1118 | the corner of a face names an existing node |
| Surface.VisitAt | src/mmc_mesh.c:1118-1122 | a positive node of a labelled element is multiplied by minus the factor; anything else is untouched |
| Surface.VisitFrame | src/mmc_mesh.c:1118-1122 | a visit changes only the corner node it visits, and that one only when positive in a labelled element |
| Surface.ScaleStillPositive | src/mmc_mesh.c:1120-1121 | a value still positive has not been scaled yet, so scaling it now scales it once |
| Surface.VisitScalesOnce | src/mmc_mesh.c:1120-1121 | one visit keeps "each value is its original or its original times minus a factor" |
| Surface.RescaledOnce | src/mmc_mesh.c:1111-1126 | the loop scales each positive nodal volume at most once and leaves the others alone |
| Surface.CornersKeep | src/mmc_mesh.c:1117-1123 | corners of an exterior face leave a node as it is when it is no longer positive or none of them is that node in a labelled element |
| Surface.FacesKeep | src/mmc_mesh.c:1115-1125 | faces of an element leave a node as it is when it is no longer positive or none of their visits reaches it |
| Surface.RescaledKeep | src/mmc_mesh.c:1111-1126 | elements of the loop leave a node as it is when it is no longer positive or none of their visits reaches it; a value made negative is never touched again |
| Surface.RescaledUntouched | src/mmc_mesh.c:1111-1126 | a node that is not positive, or that is no corner of an exterior face of a labelled element, keeps its volume |
| Surface.RescaledFirstTouch | src/mmc_mesh.c:1111-1126 | a positive node ends as its volume times minus 2 / (1 + Reff) of the element whose exterior face reaches it first in loop order |
| Surface.FacesFirstTouch | src/mmc_mesh.c:1115-1125 | within that element, the node is scaled by its factor and the later faces keep it |
| Surface.FaceFirstTouch | src/mmc_mesh.c:1116-1124 | the face holding the first visit scales the node by minus the element's factor |
| Surface.CornersFirstTouch | src/mmc_mesh.c:1117-1123 | within that face, the first corner visit scales the node and the later corners keep it |
| Surface.CornerFirstTouch | src/mmc_mesh.c:1118-1122 | the first corner visit that reaches a positive node multiplies it by minus the element's factor |
| Surface.FacesStep | src/mmc_mesh.c:1116-1117 | an exterior face adds its three corner visits to the faces before it |
| Surface.TouchHasFirst | src/mmc_mesh.c:1111-1126 | a node some visit reaches has a first such visit in loop order |
| Surface.FaceCoversCorner | src/mmc_mesh.c:1116-1124 | an exterior face of a labelled element leaves each of its corners that started positive negative |
| Surface.VisitMakesNegative | src/mmc_mesh.c:1120-1121 | a visit to a node that started positive leaves it negative |
| Surface.RescaledCoversSurface | src/mmc_mesh.c:1111-1126 | every positive node on an exterior face of a labelled element has been scaled |
| Surface.CorrectionSpec | src/mmc_mesh.c:1111-1134 | after the sign restore, each node is its original volume or that volume times a positive factor |
| Surface.CorrectionUntouched | src/mmc_mesh.c:1111-1134 | after the sign restore, a node with volume zero or on no exterior face of a labelled element keeps its volume |
| Surface.CorrectionFirstTouch | src/mmc_mesh.c:1111-1134 | after the sign restore, a positive node is its volume times 2 / (1 + Reff) of the medium of the first element, in loop order, with an exterior face at that node |
| Surface.UnsignedAt | src/mmc_mesh.c:1130-1134 | a value scaled once, with its sign restored, is its original times a positive factor |
| Surface.RescaleSurface | src/mmc_mesh.c:1111-1126 | the element loop computes the rescaled volumes |
| Surface.RescaleElement | src/mmc_mesh.c:1115-1125 | the face loop of one element, visiting only faces with neighbour 0 |
| Surface.RescaleFace | src/mmc_mesh.c:1117-1123 | the corner loop of one exterior face |
| Surface.RestoreSigns | src/mmc_mesh.c:1130-1134 | the closing loop negates every negative value |
| Roi.PositiveCount | src/mmc_mesh.c:1143-1146 | the count of positive entries is at most the number examined |
| Roi.CountUpToFrame | src/mmc_mesh.c:1140-1151 | the counting pass leaves every record from k on as it was |
| Roi.CountPassSpec | src/mmc_mesh.c:1140-1151 | entry 0 becomes minus the count when the count is nonzero and the entry was within EPS of 0; other entries are kept |
| Roi.RecordCount | src/mmc_mesh.c:1141-1146 | the inner loop counts the positive entries of one record |
| Roi.CountPass | src/mmc_mesh.c:1140-1151 | the counting loop computes the counted records |
| Roi.HitSlot | src/mmc_mesh.c:1155-1162 | the slot found has a neighbour with a non-empty entry, or is 4 |
| Roi.HitSlotIsFirst | src/mmc_mesh.c:1155-1162 | no earlier slot hits |
| Roi.FirstHit | src/mmc_mesh.c:1155-1162 | the neighbour found is 0 or an element whose entry 0 is non-empty |
| Roi.FirstOrderSpec | src/mmc_mesh.c:1154-1163 | the first-order scan: a non-empty entry is kept; an empty one refers to the first hitting neighbour, or stays if none hits |
| Roi.ElementStepFrame | src/mmc_mesh.c:1153-1183 | handling an element rewrites only its entry 0, and only with a reference |
| Roi.SecondOrderFrame | src/mmc_mesh.c:1165-1182 | the second-order scan writes only entry 0 of the element, with references |
| Roi.SecondOrderSlotFrame | src/mmc_mesh.c:1166-1180 | one neighbour slot of the second-order scan writes only entry 0 of the element, and only a reference |
| Roi.ElementStepAt | src/mmc_mesh.c:1153-1183 | handling element k leaves entry 0 of every other element alone, and turns its own only from empty into a reference |
| Roi.HeadAfterTrans | src/mmc_mesh.c:1154-1159 | a reference is never within EPS of zero, so once written it is not rewritten |
| Roi.NeighbourPassKeepsTail | src/mmc_mesh.c:1153-1213 | the neighbour pass keeps every entry other than entry 0 |
| Roi.NeighbourPassHead | src/mmc_mesh.c:1153-1213 | entry 0 after the pass is its count, a reference, or unchanged |
| Roi.NeighbourPassFinal | src/mmc_mesh.c:1153-1213 | once an element is handled its entry 0 is never rewritten |
| Roi.NeighbourPassLater | src/mmc_mesh.c:1153-1213 | handling one more element keeps entry 0 of every other element |
| Roi.ScanNeighbours | src/mmc_mesh.c:1155-1162 | the scan with break returns the first hitting neighbour |
| Roi.ElementRefs | src/mmc_mesh.c:1154-1182 | the loop body for one element computes ElementStep |
| Roi.SecondOrderScan | src/mmc_mesh.c:1165-1182 | the second-order loop computes SecondOrder as written |
| Roi.NeighbourScan | src/mmc_mesh.c:1153-1213 | the neighbour loop computes the neighbour pass |
| Roi.ElementStepIntended | src/mmc_mesh.c:1165-1182 | the second-order step, stopping at its first hit |
| Roi.IntendedRefersToMarked | src/mmc_mesh.c:1165-1182 | with the intended scan an element refers only to another element whose entry was non-empty |
| Roi.SecondOrderSelfReference | src/mmc_mesh.c:1166-1180 | on a four-element ring the code as written makes element 1 refer to itself; the intended scan refers to element 4 |
| Exterior.Numbered | src/mmc_mesh.c:1217-1224 | numbering keeps the face table's length |
| Exterior.NumberedRange | src/mmc_mesh.c:1220-1223 | boundary faces get ids in -nf..-1; other entries are kept |
| Exterior.NumberedInjective | src/mmc_mesh.c:1220-1223 | two boundary faces never share an id |
| Exterior.NumberedOnto | src/mmc_mesh.c:1220-1223 | every id from -1 to -nf is used, by the k-th boundary face in index order |
| Exterior.NumberExteriorFaces | src/mmc_mesh.c:1217-1224 | the loop computes the numbered table, and nf is the number of boundary faces |
| TracerPrep.ReffList | src/mmc_mesh.c:1094-1109 | the Reff table has one entry per listed medium |
| TracerPrep.SurfaceStep | src/mmc_mesh.c:1093-1135 | the nodal volumes after the surface step keep their length |
| TracerPrep.RoiStep | src/mmc_mesh.c:1139-1213 | the ROI records after their two passes keep their length |
| TracerPrep.CheckGiven | src/mmc_mesh.c:1074 | a given e0 past the last element is an error; otherwise whether its test holds, with bary0 written |
| TracerPrep.LocateSource | src/mmc_mesh.c:1074-1077 | a given element holding the source is kept; otherwise the first enclosing element is used; none is an error |
| TracerPrep.PlaceSource | src/mmc_mesh.c:1067-1083 | only a tracer built before the call and a point-like source are placed; the error cases are exactly the placement failures |
| TracerPrep.CorrectSurface | src/mmc_mesh.c:1093-1135 | the corrected and unsigned nodal volumes, with a Reff entry per medium |
| TracerPrep.CompressRoi | src/mmc_mesh.c:1139-1214 | each present ROI array gets its counting and neighbour passes |
| TracerPrep.ResetReflectance | src/mmc_mesh.c:1226-1232 | a zeroed reflectance buffer of nf * srcnum * maxgate entries when saved, none otherwise |
| TracerPrep.FinishPrep | src/mmc_mesh.c:1093-1232 | the surface, ROI, exterior-face and reflectance steps in order |
| TracerPrep.Prepare | src/mmc_mesh.c:1064-1233 | an error iff placement fails; otherwise every post-build pass has run |
| TracerPrep.AsWrittenTableMissesDetector | src/mmc_mesh.c:1094-1121 | a detector element relabelled prop + 1 indexes past the prop + 1 entries of the Reff table as written |
| TracerPrep.ExtendedTableCoversLabels | src/mmc_mesh.c:1094-1121 | with a Reff entry for every medium, including the appended one, every label is in range |
| Normalize.SlotSpec | src/mmc_mesh.c:1785 | the entry of gate i, unit j and source p lies in the table, in row i * d + j and column p |
| Normalize.Mapped | src/mmc_mesh.c:1783-1786 | a column pass keeps the accumulator's length |
| Normalize.MappedAhead | src/mmc_mesh.c:1783-1786 | entries the pass has not reached yet are untouched |
| Normalize.MappedEntry | src/mmc_mesh.c:1783-1786 | after a whole pass every column entry is the operation applied to its original value |
| Normalize.MappedOtherSources | src/mmc_mesh.c:1783-1786 | a pass changes nothing outside column pair |
| Normalize.ColumnPass | src/mmc_mesh.c:1794-1797 | the two-level loop computes the mapped column |
| Normalize.GatePass | src/mmc_mesh.c:1848-1849 | the inner loop of one gate |
| Normalize.DivideThenScale | src/mmc_mesh.c:1831-1849 | dividing by the absorbance and scaling by f rescales each entry by f / absorbance |
| Normalize.DepositRescaled | src/mmc_mesh.c:1826-1849 | the absorbance-weighted total of the final column is f times the element deposit |
| Normalize.DepositLinear | src/mmc_mesh.c:1826-1849 | when every unit total times its absorbance is f times the original, so is the whole weighted deposit |
| Normalize.ScalePassScales | src/mmc_mesh.c:1847-1850 | the final pass multiplies every column entry by the normalizor |
| Normalize.NodeDepositScaled | src/mmc_mesh.c:1812-1822 | scaling the column scales the node-basis deposit by the same factor |
| Normalize.NodeDepositLinear | src/mmc_mesh.c:1812-1822 | when every element total is f times the original, so is the absorbance-weighted node deposit |
| Normalize.Absorbance | src/mmc_mesh.c:1821 | one absorbance per element |
| Normalize.UnitEnergy | src/mmc_mesh.c:1827-1829 | the inner loop sums a unit over all gates |
| Normalize.ElemEnergy | src/mmc_mesh.c:1826-1829 | the element-basis deposit sums the column over all units and gates |
| Normalize.ElementEnergy | src/mmc_mesh.c:1813-1819 | energyelem sums an element's four corner nodes over all gates |
| Normalize.NodeEnergy | src/mmc_mesh.c:1812-1822 | the node-basis deposit: each element's energy times its volume and absorption |
| Normalize.Cancel | src/mmc_mesh.c:1824-1844 | the normalizor brings its own deposit back to Eabsorb / Etotal |
| Normalize.ElemNormalized | src/mmc_mesh.c:1826-1850 | element basis: the absorbed energy the normalised column represents, times the flux divisor, is Eabsorb / Etotal |
| Normalize.NodeNormalized | src/mmc_mesh.c:1806-1850 | node basis: a quarter of the weighted corner total of the normalised column, times the flux divisor, is Eabsorb / Etotal |
| Normalize.BasisOf | src/mmc_mesh.c:1765 | the basis is the grid iff the grid tracer is selected, and the nodes iff not and basisorder is nonzero |
| Normalize.ElemBasisPass | src/mmc_mesh.c:1826-1837 | the element pass returns the deposit of the original column, then divides each unit by its absorbance |
| Normalize.NodeBasisPass | src/mmc_mesh.c:1806-1822 | the node pass divides each node with positive volume by it, then returns the deposit |
| Normalize.MeshAbsorbance | src/mmc_mesh.c:1821-1832 | one absorbance per element of the mesh |
| Normalize.Prescaled | src/mmc_mesh.c:1805-1837 | the per-basis pre-scaling keeps the accumulator's length |
| Normalize.PerBasisPass | src/mmc_mesh.c:1802-1845 | the grid, node or element branch: its pre-scaling and its normalizor |
| Normalize.NormalizeOutput | src/mmc_mesh.c:1761-1853 | reflectance scaled by 1/Etotal when saved; replay, energy or per-basis factor; column pair scaled by the returned factor |
| Normalize.ElemOutputAbsorbed | src/mmc_mesh.c:1824-1850 | after the element-basis normalisation of the mesh the column represents Eabsorb / Etotal |
| Normalize.NodeOutputAbsorbed | src/mmc_mesh.c:1805-1850 | after the node-basis normalisation of the mesh the column represents Eabsorb / Etotal |
| Detector.CellIndexInRaster | src/mmc_mesh.c:1744 | an in-raster cell has an in-raster index from which its column and row come back |
| Detector.CellIndexInjective | src/mmc_mesh.c:1744 | two raster cells share an index only if they are the same cell |
| Detector.DetWeight | src/mmc_mesh.c:1727-1745 | the weight is defined iff the exit position falls in the raster; it is then the pattern value of that cell, else the off-plane error |
| Detector.NearMissBinnedAtEdge | src/mmc_mesh.c:1737-1740 | a position up to one cell before the origin truncates to column 0 and is accepted |
| Detector.GateHoldsTime | src/mmc_mesh.c:1658 | the intended gate g satisfies g * tstep <= time of flight < (g + 1) * tstep |
| Detector.TruncBracket | src/mmc_mesh.c:1658 | truncating t / w to g puts t in [g * w, (g + 1) * w) |
| Detector.GateAsWrittenMissesTime | src/mmc_mesh.c:1658 | the gate as written puts a photon with path 0.9 in gate 0, whose interval misses its flight time; the intended gate is 1 |
| Detector.ClampedGate | src/mmc_mesh.c:1658-1662 | gates past the last are folded into it; all others are kept |
| Detector.ImageIndexInside | src/mmc_mesh.c:1678-1679 | an in-raster cell of a valid gate lies in the image, and its gate and cell come back from the index |
| Detector.BinOf | src/mmc_mesh.c:1658-1679 | a photon is binned iff its exit lies in the raster, into the cell of its clamped gate, column and row |
| Detector.Binned | src/mmc_mesh.c:1649-1680 | binning keeps the image size |
| Detector.BinnedKeepsWeight | src/mmc_mesh.c:1649-1680 | the image total grows by exactly the weight of the photons that land on the raster |
| Detector.BinnedElsewhereUnchanged | src/mmc_mesh.c:1649-1680 | a cell no photon lands in keeps its value |
| Detector.PhotonPathWeight | src/mmc_mesh.c:1650-1656 | the inner loop computes a photon's optical path and attenuated weight |
| Detector.SetupBinning | src/mmc_mesh.c:1637-1645 | the record width is (2 + [ismomentum > 0]) * maxmedia + 8, so it holds the path columns; the unit is the history's unless the voxel grid is traced; the raster sizes are the truncated `.w` fields |
| Detector.DetImage | src/mmc_mesh.c:1635-1681 | the image after the loop is the old image with the weight of every photon landing on the raster of detpos[0], detparam1 and detparam2 added |
| Replay.KeptIds | src/mmc_mesh.c:855-856 | the kept indices are below the number of records |
| Replay.KeptIdsExact | src/mmc_mesh.c:855-856 | a record is kept iff replaydet is 0 or its truncated id is replaydet; the kept ones are in increasing order |
| Replay.KeptAll | src/mmc_mesh.c:856 | with replaydet 0 every record is kept |
| Replay.Select | src/mmc_mesh.c:857 | one selected block per kept index |
| Replay.ReplayTimeIsOpticalTime | src/mmc_mesh.c:870-874 | the replayed time is the record's optical path times R_C0 |
| Replay.RecordedWeight | src/mmc_mesh.c:860-864 | without a wide-field pattern the weight is the last column; only wide-field replay can fail, with the off-plane error |
| Replay.ReplayWeight | src/mmc_mesh.c:860-868 | the replayed weight fails exactly when the recorded weight does |
| Replay.ReplayWeightMeaning | src/mmc_mesh.c:860-868 | failure iff wide-field and the exit is off the raster; else the recorded or pattern weight attenuated along every medium |
| Replay.NoAbsorptionKeepsWeight | src/mmc_mesh.c:866-868 | with no absorption the replayed weight is the recorded one |
| Replay.Attenuate | src/mmc_mesh.c:866-868 | the attenuation loop computes the attenuated weight |
| Replay.ReplayedWeight | src/mmc_mesh.c:860-868 | the weight branch and loop compute the replayed weight |
| Replay.ReplayedTime | src/mmc_mesh.c:870-874 | the time loop computes the replayed time |
| Replay.KeptIdsNext | src/mmc_mesh.c:855-856 | one more record extends the kept list exactly when it is kept |
| Replay.CompactKeep | src/mmc_mesh.c:857 | copying a kept block down keeps the compaction invariant |
| Replay.CompactDone | src/mmc_mesh.c:855-877 | at the end the front of the seed array is the kept blocks in order |
| Replay.KeepRecord | src/mmc_mesh.c:857-876 | the loop body for a kept record: block moved down, weight and time appended |
| Replay.Compact | src/mmc_mesh.c:853-877 | an error iff some kept record fails its weight; otherwise the count, the compacted seeds, and the weights and times of the kept records |
| Replay.ReplayFilter | src/mmc_mesh.c:816-884 | an empty history (no photons or no seed bytes) changes nothing; a media count other than the mesh's is the media error with nothing changed; else seeds from the file with nphoton = savedphoton; when filtering, only kept records remain, with their weights and times, and minenergy = 0 |
| Layout.PackingDeterminesTables | src/mmc_mesh.c:645-651 | a packed table determines the element table and the labels |
| Layout.TablesDeterminePacking | src/mmc_mesh.c:264-272 | the element table and the labels determine their packed form |
| Layout.Pack | src/mmc_mesh.c:264-272 | the result is the packed form of the tables |
| Layout.Unpack | src/mmc_mesh.c:645-651 | the result holds the tables of the packed form |
| Layout.UnpackPack | src/mmc_mesh.c:264-272 | unpacking a packed table gives the tables back |
| Layout.PackUnpack | src/mmc_mesh.c:645-651 | packing unpacked tables gives the packed table back |
| Layout.PackElems | src/mmc_mesh.c:264-272 | the pack loop builds the packed form |
| Layout.UnpackElems | src/mmc_mesh.c:645-651 | the unpack loop builds the element and label tables of the packed form |
| Scatter.ClampCosine | src/mmc_mesh.c:1438-1444 | the result is in [-1, 1], equal to the input iff the input already is, else the nearer bound |
| Scatter.ClampIdempotent | src/mmc_mesh.c:1438-1444 | clamping twice is clamping once |
| Scatter.SineDefined | src/mmc_mesh.c:1447 | 1 - cos^2 of a clamped cosine lies in [0, 1], so its square root is defined |
| Scatter.HGCosineInRange | src/mmc_mesh.c:1433-1444 | in exact arithmetic the sampled cosine is already in [-1, 1], so the clamp leaves it unchanged |
| Scatter.HGCosineBackward | src/mmc_mesh.c:1433-1435 | deviate 0 samples cosine -1 |
| Scatter.HGCosineForward | src/mmc_mesh.c:1433-1435 | deviate 1 samples cosine 1 |

## Left out

- `tracer_build` (edge vectors, moments and face normals of the ray tracer) is not part of this model. `TracerPrep.Prepare` takes whether it was built as a flag.
- The loaders' file I/O is left out: node, element, media, ROI and face-neighbour files, and the history header and seed blocks of the seed file. The replay filter starts from the header fields, the partial-path buffer and the seed blocks already read.
- The other parts of `mesh_init_from_cfg` are left out: the JSON dump and exit, and the 10-node conversion. Elements always have 4 nodes (elemlen = 4).
- `mesh_getreff` and its quadrature are a function parameter of the surface correction. `expf` is a parameter of the replay filter and the detector image.
- Random numbers, `acosf`, `sqrt` and the azimuthal angle of `mc_next_scatter` are left out. `HGCosine` models the sampling formula only for 0 < g < 1. The isotropic branch (g <= EPS) is not modelled.
- Floats and doubles are exact reals: rounding, the order of float accumulation, and overflow of `int` index arithmetic are not modelled.
- Common.Quot: division by zero (IEEE inf or NaN) is modelled as 0. The normalisation lemmas require nonzero Etotal, deposit and tstep.
- The error handler's exit becomes an `Err` result that stops the pass. Its messages are string constants; the exit code is not modelled.
- The replay filter and `Detector.DetWeight` take the detector plane with integer raster sizes, and the wide-field test `detparam1.w * detparam2.w > 0` is made on those sizes. A fractional `.w` whose float product is positive but whose truncation is 0 is not modelled there. `Detector.ImagePlane` derives the plane of `mesh_getdetimage` from the float parameters.
- Replay.ReplayFilter: the file errors of `mesh_loadseedfile` (the file cannot be opened, the header or the seed or path data are short, the seek past the records fails) are not modelled; the header, the seed blocks and the partial paths are parameters.
- The seed blocks are elements of an array of byte sequences. `replayweight` and `replaytime` are sequences in `Replay.Compact`. The `realloc` that shrinks the buffers is represented by building a fresh array of the kept blocks.
- The source leaves `dref` pointing to freed memory when reflectance is not saved. The model sets it to null.
- The Reff table is built with one entry per medium of the table, which includes the detector medium when it exists (the table size `prop + 1` of the source is recorded under Findings). TracerPrep.CorrectSurface uses this corrected table.
- `mesh_normalize`'s loop order for the element-basis deposit (units outer, gates inner) is kept. The sums are exact reals, so their order does not matter here.
- The different path columns of the replay filter (1 + k) and of `mesh_getdetimage` (maxmedia + k) are both modelled as written. Which one matches a given history file is outside this model.
- Common.Trunc: the C conversion of a value outside the `int` range is undefined, and this is not modelled.
- Detector.DetImage uses the intended gate (the time of flight over the gate width) rather than the as-written expression that truncates the path first (see Findings).

## Findings

| source | as written | input that shows it | evidently intended | confidence | as-written member | corrected member |
|---|---|---|---|---|---|---|
| src/mmc_mesh.c:1094-1121 | the Reff table has prop + 1 entries, yet `mesh_validate` has already relabelled external-detector elements to prop + 1, and the correction indexes the table with that label | a mesh with an element labelled -2 on an exterior face and isnormalized = 1: its label prop + 1 reads one past the table | one Reff entry per medium, including the appended background copy | not executed | TracerPrep.AsWrittenTableMissesDetector | TracerPrep.ExtendedTableCoversLabels |
| src/mmc_mesh.c:1166-1180 | the `break` of the second-order ROI scan leaves only the inner loop, so a later neighbour overwrites the reference; the element's own entry, just written, then counts as a hit | four elements in a ring, only element 4 with an edge ROI: element 1 ends up referring to itself (-7) instead of element 4 (-10) | stop at the first second-order neighbour that hits | not executed | Roi.SecondOrderSelfReference | Roi.ElementStepIntended |
| src/mmc_mesh.c:1658 | `(int) path * R_C0 / tstep` casts the path before it becomes a time, so the gate is the truncated path's time over tstep | path 0.9 with tstep = R_C0 / 2: as written gate 0, though the flight time 0.9 * R_C0 lies in gate 1 | the time of flight over the gate width, then truncated | not executed | Detector.GateAsWrittenMissesTime | Detector.GateHoldsTime |
