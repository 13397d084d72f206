# Suggestive contours: the discrete core of the mesh geometry

This project models the exactly stated logic of the `Geometry` and `Mesh` types
of Bicyclette/SuggestiveContours (`src/mesh.cpp`, `src/mesh.hpp`) in Dafny and
proves what that logic guarantees. Floating-point numbers become exact `real`s.
Transcendental results are inputs: angles, triangle areas, the cotangent Voronoi
values, the rotated and normalised frame bases, and the edge weight `phi`.

The model covers:

- **Loading** (`MeshModel.Mesh.constructor`). Faces are built three indices at
  a time. The `unsigned int` index buffer is filled alongside. Per-vertex and
  per-face buffers are resized. The Taubin constants are set, with
  `mu = lambda / (lambda * Kpb - 1)`.
- **Topology** (`Mesh.GetNeighboringFaces`, `Mesh.GetNeighbors`, module
  `Topology`). These build the incident-face list and the de-duplicated
  neighbour list of a vertex. They are imperative methods that return the
  caller's vectors extended.
- **`MatCube`** (module `MatCubes`). This is the rank-3 symmetric tensor stored
  as two glm 2x2 matrices, with its constructors, `+=`, `/=`, `* float` and
  `* vec2`.
- **Mixed-Voronoi weights** (module `Voronoi`). This is the acute and obtuse
  branch policy of `compute_face_mixed_voronoi_area`.
- **Per-vertex aggregation** (`Geometry.ComputePerVertexWeingarten`,
  `Geometry.ComputePerVertexC`, module `Aggregation`). Each vertex picks its
  corner weight from every incident face, sums the weights, accumulates the
  weighted tensors re-expressed in its own frame, and divides by the sum.
- **Curvature extrema** (`Geometry.ComputeMinMax`).
- **Diffusion matrices** (`Geometry.ComputeCirculantMatrix`, module
  `Smoothing`). `W(i, j) = phi_ij / sum phi` and `K = I - W`. Each row of `W`
  sums to one and each row of `K` to zero.

`Geometry` is a class whose methods update its `seq` fields, and its matrices
are `array2<real>` fields. `Mesh` is a class holding its `Geometry`.
`MatCube`, faces and vectors are values.

## Model

| member | source | states |
|---|---|---|
| MatCubes.Make | src/mesh.hpp:32-39 | the four-coefficient constructor yields both matrices symmetric, `m_a[0][1] == m_b[0][0]`, `m_a[1][1] == m_b[0][1]`, and its coefficients read back as `(a, b, c, d)` |
| MatCubes.Zero | src/mesh.hpp:31 | the default cube is `MatCube(0, 0, 0, 0)` and has the sharing pattern |
| MatCubes.Add | src/mesh.hpp:46-51 | `+=` keeps the sharing pattern of two symmetric cubes |
| MatCubes.Divide | src/mesh.hpp:52-57 | `/=` by a non-zero value keeps the sharing pattern |
| MatCubes.Scale | src/mesh.hpp:65-71 | `* float` keeps the sharing pattern |
| MatCubes.Contract | src/mesh.hpp:58-64 | `* vec2` of a symmetric cube is a symmetric 2x2 matrix |
| MatCubes.MakeOfCoefficients | src/mesh.hpp:32-39 | every cube with the sharing pattern is the constructor applied to its own four coefficients |
| MatCubes.AddMake | src/mesh.hpp:46-51 | `MatCube(a,b,c,d) += MatCube(a',b',c',d')` is `MatCube(a+a', b+b', c+c', d+d')` |
| MatCubes.ScaleMake | src/mesh.hpp:65-71 | `MatCube(a,b,c,d) * s` is `MatCube(a*s, b*s, c*s, d*s)` |
| MatCubes.DivideUndoesScale | src/mesh.hpp:52-57 | for `w != 0`, `(X * w) /= w` gives back `X` |
| MatCubes.DivideDistributes | src/mesh.hpp:46-57 | `/= s` distributes over `+=` |
| MatCubes.ScaleAddWeights | src/mesh.hpp:65-71 | `X * s += X * w` equals `X * (s + w)` |
| MatCubes.DivideByOne | src/mesh.hpp:52-57 | `/= 1` changes nothing |
| MatCubes.ZeroNeutral | src/mesh.hpp:46-51 | the default cube is neutral for `+=` on both sides, and `X * 0` is the default cube |
| MatCubes.FormExpanded | src/mesh.hpp:58-64 | `dot(x, (C * y) * z)` of a symmetric cube is the cubic form over its four coefficients |
| MatCubes.FormSymmetric | src/mesh.hpp:58-64 | that form is symmetric in its three vector arguments |
| Topology.OtherCorners | src/mesh.cpp:249-275 | a face contributes exactly two corners iff it has the vertex as a corner; they are corners of the face; on a face with distinct corners they are the other two |
| Topology.AppendIfAbsent | src/mesh.cpp:251-253 | `find` then `push_back` yields a list holding exactly the old entries plus the value; it is the old list as a prefix, grows by one iff the value was absent, and keeps the list duplicate-free |
| Topology.U32 | src/mesh.cpp:36-38 | storing a signed index into the `unsigned int` buffer gives a value below 2^32, congruent to the index modulo 2^32, and equal to it when it is in range |
| Topology.FacesOf | src/mesh.cpp:30-35 | face `f` is the loader's indices `3f`, `3f+1`, `3f+2` |
| Topology.Flatten | src/mesh.cpp:35-38 | the index buffer has `3 * |faces|` entries and entry `3i+k` is corner `k` of face `i` as `unsigned int` |
| Topology.FlattenAppend | src/mesh.cpp:35-38 | one more face appends its three corners to the index buffer |
| Topology.IndexBufferHoldsIndices | src/mesh.cpp:29-38 | the index buffer of the loaded faces is the loader's index list, entry by entry, as `unsigned int` |
| Topology.NeighborsInRange | src/mesh.cpp:240-277 | when every face corner indexes the vertex table, so does every collected neighbour |
| Topology.NoSelfNeighbor | src/mesh.cpp:249-275 | on faces with three distinct corners a vertex is never listed as its own neighbour |
| Topology.AdjacencySymmetric | src/mesh.cpp:240-277 | on faces with three distinct corners, `v` is a neighbour of `u` exactly when `u` is a neighbour of `v` |
| Voronoi.MixedVoronoiWeights | src/mesh.cpp:567-610 | the three corner weights of a face: the Voronoi values when every angle is below `g_halfPI`, otherwise half the area for the corner at or above it and a quarter for the others; its properties are the three lemmas below |
| Voronoi.VoronoiBranchExactlyWhenAcute | src/mesh.cpp:577-582 | the Voronoi values are the weights exactly when all three angles are below `g_halfPI`; otherwise the weights do not depend on them |
| Voronoi.ObtuseSplitSumsToArea | src/mesh.cpp:583-609 | for positive angles summing to at most two right angles, in the obtuse branch one corner gets `area/2`, the other two `area/4`, and the three add up to the area |
| Voronoi.WeightsPositive | src/mesh.cpp:577-609 | a triangle of positive area gets positive weights (given positive Voronoi values in the acute branch) |
| Aggregation.CornerWeight | src/mesh.cpp:650-655 | the weight a vertex takes from a face: `weights.x`, `weights.y` or `weights.z` by the first corner it matches, as both aggregators select it (also src/mesh.cpp:886-891); `CornerWeightSelectsOwnCorner` states which |
| Aggregation.CornerWeightSelectsOwnCorner | src/mesh.cpp:650-655 | on a face with distinct corners each corner takes the weight written for it; a vertex that is not a corner falls through to `weights.z` |
| Aggregation.SumPositive | src/mesh.cpp:642-656 | a vertex with incident faces of positive weight has a positive `sum_weights` |
| Aggregation.TransportWeingarten | src/mesh.cpp:676-684 | the re-expressed face tensor `[[ep, fp], [fp, gp]]` is symmetric |
| Aggregation.TransportC | src/mesh.cpp:912-917 | the re-expressed face C tensor has the sharing pattern |
| Aggregation.TransportWeingartenAligned | src/mesh.cpp:676-684 | between aligned frames a symmetric face tensor is unchanged, and otherwise its `[0][1]` entry is replaced by `[1][0]` |
| Aggregation.TransportCAligned | src/mesh.cpp:912-917 | between aligned frames a face C tensor with the sharing pattern is unchanged |
| Aggregation.WeightedSumW | src/mesh.cpp:686 | `m_vertex_weingarten[i] += weight * tensor`, face after face from a start value; `WeightedSumWSymmetric` and `WeightedSumWOfConstant` state what it yields |
| Aggregation.WeightedSumC | src/mesh.cpp:918 | `m_vertex_C[i] += tensorC * weight`, face after face from a start value; `WeightedSumCSymmetric`, `WeightedSumCOfConstant` and `WeightedSumCShiftsStart` state what it yields |
| Aggregation.FinishWeingarten | src/mesh.cpp:727 | the unguarded division by `sum_weights`: a finite tensor for a non-zero sum, `NonFinite` for zero; `AverageOfConstantW` states both cases |
| Aggregation.FinishC | src/mesh.cpp:955-958 | the guarded division by `sum_weights`, which leaves the accumulated cube as it is when the sum is zero; `AverageOfConstantC` and `StaleCLeaks` state what it yields |
| Aggregation.WeightedSumWSymmetric | src/mesh.cpp:680-686 | accumulating symmetric tensors from a symmetric start stays symmetric |
| Aggregation.WeightedSumCSymmetric | src/mesh.cpp:917-918 | accumulating cubes with the sharing pattern keeps the pattern |
| Aggregation.WeightedSumWOfConstant | src/mesh.cpp:644-686 | weighting one tensor by several weights is weighting it by their sum |
| Aggregation.WeightedSumCOfConstant | src/mesh.cpp:880-954 | the same for C tensors |
| Aggregation.AverageOfConstantW | src/mesh.cpp:642-727 | the Weingarten step is a weighted average: equal face tensors give that tensor back when the weights do not cancel, and no finite tensor when they sum to zero |
| Aggregation.AverageOfConstantC | src/mesh.cpp:877-958 | from a zero start the C step is a weighted average: equal face tensors give that tensor back |
| Aggregation.WeightedSumCShiftsStart | src/mesh.cpp:918 | accumulating onto a start value is accumulating onto zero plus the start |
| Aggregation.StaleCLeaks | src/mesh.cpp:869-960 | a vertex that already held a C tensor ends with the weighted average plus the old tensor divided by `sum_weights` |
| Aggregation.StaleCCounterexample | src/mesh.cpp:869-960 | a concrete vertex holding `MatCube(1,0,0,0)`, with one face of weight 1 and a zero tensor, keeps `MatCube(1,0,0,0)` where the average is zero |
| Smoothing.Mu | src/mesh.cpp:103 | `mu = lambda / (lambda * Kpb - 1)`; `MuSolvesPassBand`, `MuInflates` and `DefaultParameters` state its properties |
| Smoothing.MuSolvesPassBand | src/mesh.cpp:103 | `mu = lambda / (lambda * Kpb - 1)` is non-zero and satisfies `1/lambda + 1/mu == Kpb` for `lambda != 0` and `lambda * Kpb != 1` |
| Smoothing.MuInflates | src/mesh.cpp:100-103 | for `lambda > 0` and `0 < lambda * Kpb < 1`, `mu < -lambda < 0` |
| Smoothing.DefaultParameters | src/mesh.cpp:100-103 | the loader's `lambda = 0.6307` and `Kpb = 0.095` give a defined, negative `mu` that solves the pass-band equation |
| Smoothing.SumPhi | src/mesh.cpp:364-369 | `sum_phi_vi_vj`, `phi(v_i, v_j)` summed over the neighbour list left to right; `SumPhiPositive` states its sign |
| Smoothing.DiffusionWeight | src/mesh.cpp:373 | the entry `W(i, j)`: `phi(v_i, v_j) / sum_phi_vi_vj` for a neighbour `j`, zero otherwise; `DiffusionRowSumsToOne` states that a row sums to one |
| Smoothing.SumPhiPositive | src/mesh.cpp:364-369 | a non-empty neighbour list with positive `phi` has a positive `sum_phi_vi_vj` |
| Smoothing.DiffusionRowSumsToOne | src/mesh.cpp:353-377 | a row of `W` sums to one when the vertex has neighbours and to zero when it has none |
| Smoothing.LaplacianRowSumsToZero | src/mesh.cpp:353-377 | a row of `K = I - W` sums to zero when the vertex has neighbours and to one when it has none |
| Smoothing.RowSumsOfTable | src/mesh.cpp:359-376 | both row-sum facts for every vertex of a neighbour table |
| GeometryModel.Geometry.Loaded | src/mesh.cpp:18-103 | the loader's own assignments, without the compute passes (see the `MeshModel.Mesh.constructor` line under "## Left out"): the geometry holds the positions, faces and index buffer; it has one empty adjacency list per vertex, zeroed `K1`, `K2`, vertex C and face C buffers of the right sizes, and the Taubin constants with `mu` |
| GeometryModel.Geometry.SetAdjacency | src/mesh.cpp:62-63 | storing adjacency tables built for the faces makes the topology valid; its frame leaves every other field alone |
| GeometryModel.Geometry.AveragedWeingartenSymmetric | src/mesh.cpp:676-727 | every finite averaged vertex Weingarten tensor is symmetric |
| GeometryModel.Geometry.AveragedWeingartenFinite | src/mesh.cpp:642-727 | a vertex with an incident face, every incident face having positive corner weights, gets a finite averaged tensor |
| GeometryModel.Geometry.AccumulatedCSymmetric | src/mesh.cpp:877-958 | from a zero start every vertex C tensor has the sharing pattern of a symmetric cube |
| GeometryModel.Geometry.ComputePerVertexWeingarten | src/mesh.cpp:612-727 | every vertex tensor becomes the unguarded weighted average of its transported face tensors (`NonFinite` when the weights sum to zero) |
| GeometryModel.Geometry.AccumulateWeingarten | src/mesh.cpp:641-726 | the returned `sum_weights` is the sum of the corner weights, and only vertex `i` changes: to the weighted sum of its transported face tensors |
| GeometryModel.Geometry.ComputePerVertexC | src/mesh.cpp:869-960 | as written: every vertex C tensor becomes its weighted sum accumulated onto its previous value, divided by `sum_weights` when that is non-zero |
| GeometryModel.Geometry.AccumulateC | src/mesh.cpp:877-954 | the returned `sum_weights` is the sum of the corner weights, and only vertex `i` changes: its previous value plus the weighted transported C tensors |
| GeometryModel.Geometry.ComputePerVertexCFromZero | src/mesh.cpp:869-960 | corrected: zero-filled first, every vertex C tensor is the guarded weighted average of its transported face C tensors |
| GeometryModel.Geometry.ComputeMinMax | src/mesh.cpp:794-815 | `minKg <= K1[i]*K2[i] <= maxKg` and `minH <= (K1[i]+K2[i])/2 <= maxH` for every vertex, and each bound is attained by some vertex |
| GeometryModel.Geometry.ComputeCirculantMatrix | src/mesh.cpp:353-377 | fresh `W` and `K` of size n x n, with `W(i, j) = phi_ij / sum phi` for neighbours and zero elsewhere, `K = I - W`, and rows of `W` summing to one and rows of `K` to zero for vertices with neighbours |
| GeometryModel.Geometry.SumPhiOver | src/mesh.cpp:364-369 | `sum_phi_vi_vj` is `phi` summed over the neighbour list, positive when `phi` is positive and the list non-empty |
| GeometryModel.Geometry.FillRow | src/mesh.cpp:359-376 | row `i` of `W` becomes the diffusion weights and row `i` of `K` the identity row minus them; other rows are unchanged |
| MeshModel.Mesh.constructor | src/mesh.cpp:18-103 | the geometry holds the given positions, the faces of the index list, and their flattened index buffer; it has correct incident-face and neighbour lists for every vertex and a valid topology; its resized buffers are zero and the Taubin constants are set with a negative `mu` |
| MeshModel.Mesh.BuildAdjacency | src/mesh.cpp:46-65 | for every vertex, the incident-face list and the neighbour list are exactly right and all their entries are valid indices |
| MeshModel.Mesh.GetNeighboringFaces | src/mesh.cpp:225-238 | the caller's list is kept as a prefix, and the appended entries are exactly the faces having the vertex as a corner, in strictly increasing order |
| MeshModel.Mesh.GetNeighbors | src/mesh.cpp:240-277 | the face list is extended as by `get_neighboring_faces`. The new vertices are duplicate-free and absent from the caller's list. Every other corner of every listed face is present. Every new vertex is such a corner |
| MeshModel.BuildFaces | src/mesh.cpp:29-38 | the faces are the loader's indices three at a time, the index buffer is their flattening, and every corner indexes the vertex table |

## Left out

- OBJ reading through tinyobj (`src/mesh.cpp:9-17`) is left out. It is file I/O through a foreign library. Positions and the first shape's corner indices are the constructor's inputs.
- OpenGL buffer creation, updates and drawing are left out because they are GPU I/O. `create_GPU_objects` and the `update_*_vbo` functions are not part of this model.
- Face and vertex normals, coordinate systems, principal directions `m_t1`/`m_t2` and `gen_random` are not modelled. They are floating-point geometry and randomness. The transport basis from a face frame to a vertex frame enters as the parameter `basis(i, f)`, so both branches of the parallel-normal test are covered.
- `compute_per_face_weingarten_matrix` and `compute_per_face_C` are least-squares solves in Eigen. Their results are the fields `faceWeingarten`, `faceWeights` and `faceC`.
- The eigen decomposition at `src/mesh.cpp:736-744` is left out. `K1` and `K2` are fields that `ComputeMinMax` reads.
- `triangle_corner_angle`, `triangle_area`, `cot`, the cotangent Voronoi formula and `phi` are transcendental. They enter as inputs. `phi` must be a finite positive real on the neighbour pairs.
- `transfer_function` and the position update of `taubin_smoothing` are dense floating-point matrix numerics and are left out. `taubin_smoothing` appears only as the second call of `compute_per_vertex_C`, discussed under Findings.
- Floating-point rounding is left out: every computation is over exact reals. The one unguarded division whose zero divisor the model represents is `m_vertex_weingarten[i] /= sum_weights` at `src/mesh.cpp:727`, where the model says `NonFinite`; the infinite `phi` of the diffusion matrices is not represented (see the `ComputeCirculantMatrix` line below). The constants `0.095` and `0.6307` are their decimal values. `g_halfPI` is the exact value of the single-precision constant.
- MeshModel.Mesh.constructor: stops after building the tables, resizing the buffers and setting the Taubin constants. It does not run the compute passes of `src/mesh.cpp:66-96`, whose inputs are outside the model, so `vertexWeingarten`, `faceWeingarten`, `faceWeights`, `W`, `K` and the curvature extrema are not part of its contract. The source does not check corner indices, so the model requires them to be in range and the index count to be a multiple of three.
- MeshModel.Mesh.BuildAdjacency and GeometryModel.Geometry.SetAdjacency: the source stores the two lists of each vertex inside its loop at `src/mesh.cpp:62-63`; the model stores all the tables after the loop. The final state is the same.
- MatCubes.Divide: requires a non-zero divisor. Its only caller guards the division, and a zero divisor would give float infinities.
- Smoothing.Mu: requires `lambda * kpb != 1`. The source only ever evaluates it on its own constants, which meet this.
- GeometryModel.Geometry.ComputeCirculantMatrix: requires `phi` to be a finite positive real on every neighbour pair, and duplicate-free neighbour lists (from `TopologyValid`). The source's `phi` at `src/mesh.cpp:379-385` is `pow(0, -1) = inf` when two neighbours share a position. This includes a vertex that is its own neighbour through a face with a repeated corner, such as `(0, 0, 1)`, which `src/mesh.cpp:249-253` lists. Then `sum_phi_vi_vj` is infinite (`src/mesh.cpp:368`), and the source writes NaN into that row of `W` (`inf / inf` at `src/mesh.cpp:373`) and of `K` (`src/mesh.cpp:374`), so the row does not sum to one. The positivity requirement excludes this case; the row-sum facts hold only for finite `phi`.
- GeometryModel.Geometry.ComputeMinMax: requires at least one vertex, because the source reads entry 0 unconditionally.
- GeometryModel.Geometry.ComputeMinMax: `K1` and `K2` are finite reals, so the bounds hold for every vertex. In the source this fails for a vertex whose Weingarten tensor is `NonFinite`, for example a vertex no face references: `sum_weights` is 0, the division at `src/mesh.cpp:727` gives NaN, and the eigenvalues are NaN. The comparisons at `src/mesh.cpp:797-814` are then false. Such a vertex after entry 0 is skipped and lies outside the bounds. If it is vertex 0, all four extrema stay NaN.
- `MatCube` is a plain value, so `+=` and `/=` are functions that return the new value of the left-hand side, and the aggregators store that value back into the field.
- A vertex whose incident weights sum to zero gets a `NonFinite` Weingarten tensor, because the code at `src/mesh.cpp:727` divides without checking. It is not zero-filled.

## Findings

| source | as written | input that shows it | evidently intended | confidence | as-written member | corrected member |
|---|---|---|---|---|---|---|
| src/mesh.cpp:869-960 | `compute_per_vertex_C` adds onto whatever `m_vertex_C[i]` holds. The buffer is resized once at `src/mesh.cpp:86` and never cleared, so the second call from `taubin_smoothing` (`src/mesh.cpp:343-344`) adds the old tensor divided by `sum_weights` to the new average | a vertex holding `MatCube(1,0,0,0)` with one incident face of weight 1 whose transported C tensor is zero: it keeps `MatCube(1,0,0,0)` instead of the zero average | reset every vertex C tensor to the default cube before accumulating, as `compute_per_vertex_weingarten_matrix` does at `src/mesh.cpp:616-617` | not executed | GeometryModel.Geometry.ComputePerVertexC, Aggregation.StaleCLeaks, Aggregation.StaleCCounterexample | GeometryModel.Geometry.ComputePerVertexCFromZero, Aggregation.AverageOfConstantC |
