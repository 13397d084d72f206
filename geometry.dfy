/**
 * `Geometry`: the mesh's geometric data, whose per-vertex and per-face tables
 * its methods fill in place.
 *
 * Fields that only feed floating-point geometry or the GPU (normals,
 * coordinate systems, principal directions, the per-face least-squares
 * inputs) are not part of this model; the values computed from them enter as
 * fields (`faceWeingarten`, `faceWeights`, `faceC`, `K1`, `K2`) or as
 * parameters (`basis`, `phi`).
 */
module GeometryModel {
  import opened Linalg
  import opened MatCubes
  import opened Topology
  import opened Aggregation
  import opened Smoothing

  /** `n` copies of `x`: a fresh `std::vector` after `resize(n)` with `x` the
    * value-initialised element. */
  function Repeat<T>(x: T, n: nat): (r: seq<T>)
    ensures |r| == n && forall i :: 0 <= i < n ==> r[i] == x
  {
    seq(n, _ => x)
  }

  /** The Gaussian curvature `K1 * K2` of a vertex. */
  function GaussianCurvature(k1: real, k2: real): real {
    k1 * k2
  }

  /** The mean curvature `(K1 + K2) / 2` of a vertex. */
  function MeanCurvature(k1: real, k2: real): real {
    (k1 + k2) / 2.0
  }

  class Geometry {
    // per-vertex data
    var vertices: seq<Vec3>
    var neighboringFaces: seq<seq<int>>
    var neighboringVertices: seq<seq<int>>
    var K1: seq<real>
    var K2: seq<real>
    var vertexWeingarten: seq<Tensor>
    var vertexC: seq<MatCube>

    // per-face data
    var faces: seq<Face>
    var index: seq<nat>
    var faceWeingarten: seq<Mat2>
    var faceWeights: seq<Vec3>
    var faceC: seq<MatCube>

    // Taubin smoothing
    var kpb: real
    var lambda: real
    var iterations: nat
    var mu: real
    var W: array2<real>
    var K: array2<real>

    // curvature ranges
    var minKg: real
    var maxKg: real
    var minH: real
    var maxH: real

    /** The per-vertex curvature and C buffers and the per-face C buffer are
      * sized to the mesh and hold zeros, and the Taubin parameters are the
      * loader's constants with `mu` solving `1/lambda + 1/mu == kpb`. */
    ghost predicate ResizedAndParameterised()
      reads this`vertices, this`faces, this`K1, this`K2, this`faceC, this`vertexC
      reads this`kpb, this`lambda, this`iterations, this`mu
    {
      && K1 == Repeat(0.0, |vertices|) && K2 == Repeat(0.0, |vertices|)
      && faceC == Repeat(Zero(), |faces|) && vertexC == Repeat(Zero(), |vertices|)
      && kpb == Kpb && lambda == Lambda && iterations == Iterations
      && mu == Mu(Lambda, Kpb) && mu < 0.0
    }

    /** The geometry `Mesh::Mesh` holds once the model is read and before the
      * adjacency lists are built: the positions, faces and index buffer, one
      * empty adjacency list per vertex, the per-vertex curvature and C
      * buffers and the per-face C buffer resized to hold zeros, and the Taubin
      * parameters with `mu` solving `1/lambda + 1/mu == kpb`. */
    constructor Loaded(vertices: seq<Vec3>, faces: seq<Face>, index: seq<nat>)
      ensures this.vertices == vertices && this.faces == faces && this.index == index
      ensures neighboringFaces == Repeat([], |vertices|) && neighboringVertices == Repeat([], |vertices|)
      ensures ResizedAndParameterised()
    {
      this.vertices := vertices;
      this.faces := faces;
      this.index := index;
      neighboringFaces := Repeat([], |vertices|);
      neighboringVertices := Repeat([], |vertices|);
      K1 := Repeat(0.0, |vertices|);
      K2 := Repeat(0.0, |vertices|);
      vertexWeingarten := [];
      vertexC := Repeat(Zero(), |vertices|);
      faceWeingarten := [];
      faceWeights := [];
      faceC := Repeat(Zero(), |faces|);
      assert Lambda * Kpb != 1.0 && Mu(Lambda, Kpb) < 0.0 by {
        DefaultParameters();
      }
      kpb := Kpb;
      lambda := Lambda;
      iterations := Iterations;
      mu := Mu(Lambda, Kpb);
      W := new real[0, 0];
      K := new real[0, 0];
      minKg := 0.0;
      maxKg := 0.0;
      minH := 0.0;
      maxH := 0.0;
    }

    /** The adjacency tables cover every vertex and point into the vertex and
      * face tables; neighbour lists hold each vertex once. */
    ghost predicate TopologyValid()
      reads this
    {
      && |neighboringFaces| == |vertices|
      && |neighboringVertices| == |vertices|
      && (forall v :: 0 <= v < |vertices| ==> InRange(neighboringFaces[v], |faces|))
      && (forall v :: 0 <= v < |vertices| ==> InRange(neighboringVertices[v], |vertices|))
      && (forall v :: 0 <= v < |vertices| ==> NoDuplicates(neighboringVertices[v]))
    }

    /** The assignments of the per-vertex adjacency lists at the end of each
      * iteration of the vertex loop of `Mesh::Mesh`, all vertices at once. */
    method SetAdjacency(faceTable: seq<seq<int>>, vertexTable: seq<seq<int>>)
      requires AdjacencyTables(faces, |vertices|, faceTable, vertexTable)
      modifies this`neighboringFaces, this`neighboringVertices
      ensures neighboringFaces == faceTable && neighboringVertices == vertexTable
      ensures AdjacencyTables(faces, |vertices|, neighboringFaces, neighboringVertices)
      ensures TopologyValid()
    {
      neighboringFaces := faceTable;
      neighboringVertices := vertexTable;
    }

    /** Every face has its Weingarten tensor, its corner weights and its C
      * tensor. */
    ghost predicate FaceDataValid()
      reads this
    {
      |faceWeingarten| == |faces| && |faceWeights| == |faces| && |faceC| == |faces|
    }

    /** The weights vertex `i` takes from its incident faces, in order. */
    ghost function VertexWeights(i: int): seq<real>
      reads this
      requires TopologyValid() && FaceDataValid() && 0 <= i < |vertices|
    {
      CornerWeights(faces, faceWeights, i, neighboringFaces[i])
    }

    /** The weighted average of the incident face tensors, seen from vertex
      * `i` through `basis`, with the unguarded division. */
    ghost function AveragedWeingarten(i: int, basis: (int, int) -> Basis): Tensor
      reads this
      requires TopologyValid() && FaceDataValid() && 0 <= i < |vertices|
    {
      var ws := VertexWeights(i);
      FinishWeingarten(WeightedSumW(ZeroMat, ws, TransportedWeingartens(faceWeingarten, basis, i, neighboringFaces[i])), Sum(ws))
    }

    /** What the guarded C step leaves in vertex `i` when it starts from
      * `start`. */
    ghost function AccumulatedC(i: int, start: MatCube, basis: (int, int) -> Basis): MatCube
      reads this
      requires TopologyValid() && FaceDataValid() && 0 <= i < |vertices|
    {
      var ws := VertexWeights(i);
      FinishC(WeightedSumC(start, ws, TransportedCs(faceC, basis, i, neighboringFaces[i])), Sum(ws))
    }

    /** Every finite averaged vertex tensor is symmetric, as the face
      * tensors re-expressed in the vertex frame are. */
    lemma AveragedWeingartenSymmetric(i: int, basis: (int, int) -> Basis)
      requires TopologyValid() && FaceDataValid() && 0 <= i < |vertices|
      ensures AveragedWeingarten(i, basis).Finite? ==> Symmetric(AveragedWeingarten(i, basis).m)
    {
      var ts := TransportedWeingartens(faceWeingarten, basis, i, neighboringFaces[i]);
      forall k | 0 <= k < |ts|
        ensures Symmetric(ts[k])
      {
        var f := neighboringFaces[i][k];
        assert ts[k] == TransportWeingarten(faceWeingarten[f], basis(i, f));
      }
      WeightedSumWSymmetric(ZeroMat, VertexWeights(i), ts);
    }

    /** A vertex with at least one incident face, every corner weight of
      * every incident face positive, gets a finite averaged tensor. */
    lemma AveragedWeingartenFinite(i: int, basis: (int, int) -> Basis)
      requires TopologyValid() && FaceDataValid() && 0 <= i < |vertices|
      requires neighboringFaces[i] != []
      requires forall k :: 0 <= k < |neighboringFaces[i]| ==>
        var w := faceWeights[neighboringFaces[i][k]]; w.x > 0.0 && w.y > 0.0 && w.z > 0.0
      ensures AveragedWeingarten(i, basis).Finite?
    {
      SumPositive(VertexWeights(i));
    }

    /** From a zero start, the C tensor of every vertex has the sharing
      * pattern of a symmetric cube. */
    lemma AccumulatedCSymmetric(i: int, basis: (int, int) -> Basis)
      requires TopologyValid() && FaceDataValid() && 0 <= i < |vertices|
      ensures IsSymmetricCube(AccumulatedC(i, Zero(), basis))
    {
      var ts := TransportedCs(faceC, basis, i, neighboringFaces[i]);
      forall k | 0 <= k < |ts|
        ensures IsSymmetricCube(ts[k])
      {
        var f := neighboringFaces[i][k];
        assert ts[k] == TransportC(faceC[f], basis(i, f));
      }
      WeightedSumCSymmetric(Zero(), VertexWeights(i), ts);
    }

    /** `compute_per_vertex_weingarten_matrix`: reset every vertex tensor to
      * zero, add `weight * tensor` for each incident face, then divide by the
      * weight sum without checking it.  `basis(i, f)` is the transport basis
      * from face `f` to vertex `i`. */
    method ComputePerVertexWeingarten(basis: (int, int) -> Basis)
      requires TopologyValid() && FaceDataValid()
      modifies this`vertexWeingarten
      ensures |vertexWeingarten| == |vertices|
      ensures forall i :: 0 <= i < |vertices| ==> vertexWeingarten[i] == AveragedWeingarten(i, basis)
    {
      vertexWeingarten := Repeat(Finite(ZeroMat), |vertices|);
      var i := 0;
      while i < |vertices|
        invariant 0 <= i <= |vertices| && |vertexWeingarten| == |vertices|
        invariant forall j :: 0 <= j < i ==> vertexWeingarten[j] == AveragedWeingarten(j, basis)
        invariant forall j :: i <= j < |vertices| ==> vertexWeingarten[j] == Finite(ZeroMat)
      {
        var sumWeights := AccumulateWeingarten(i, basis);
        vertexWeingarten := vertexWeingarten[i := FinishWeingarten(vertexWeingarten[i].m, sumWeights)];
        i := i + 1;
      }
    }

    /** The inner loop of `compute_per_vertex_weingarten_matrix` for vertex
      * `i`, which holds the zero tensor: add `weight * tensor` for each
      * incident face and return the weight sum. */
    method AccumulateWeingarten(i: int, basis: (int, int) -> Basis) returns (sumWeights: real)
      requires TopologyValid() && FaceDataValid()
      requires |vertexWeingarten| == |vertices| && 0 <= i < |vertices|
      requires vertexWeingarten[i] == Finite(ZeroMat)
      modifies this`vertexWeingarten
      ensures sumWeights == Sum(VertexWeights(i))
      ensures vertexWeingarten == old(vertexWeingarten)[i :=
        Finite(WeightedSumW(ZeroMat, VertexWeights(i), TransportedWeingartens(faceWeingarten, basis, i, neighboringFaces[i])))]
    {
      var neighbors := neighboringFaces[i];
      ghost var ws := VertexWeights(i);
      ghost var ts := TransportedWeingartens(faceWeingarten, basis, i, neighbors);
      sumWeights := 0.0;
      var k := 0;
      while k < |neighbors|
        invariant 0 <= k <= |neighbors|
        invariant sumWeights == Sum(ws[..k])
        invariant vertexWeingarten == old(vertexWeingarten)[i := Finite(WeightedSumW(ZeroMat, ws[..k], ts[..k]))]
      {
        var fIdx := neighbors[k];
        var weight := CornerWeight(faces[fIdx], faceWeights[fIdx], i);
        sumWeights := sumWeights + weight;
        var tensor := TransportWeingarten(faceWeingarten[fIdx], basis(i, fIdx));
        vertexWeingarten := vertexWeingarten[i := Finite(MatAdd(vertexWeingarten[i].m, MatScale(tensor, weight)))];
        SumPrefixStep(ws, k);
        WeightedSumWPrefixStep(ZeroMat, ws, ts, k);
        k := k + 1;
      }
      assert ws[..k] == ws && ts[..k] == ts;
    }

    /** `compute_per_vertex_C` as written: add `tensorC * weight` for each
      * incident face onto whatever the vertex already holds, then divide by
      * the weight sum when it is non-zero. */
    method ComputePerVertexC(basis: (int, int) -> Basis)
      requires TopologyValid() && FaceDataValid()
      requires |vertexC| == |vertices|
      modifies this`vertexC
      ensures |vertexC| == |vertices|
      ensures forall i :: 0 <= i < |vertices| ==> vertexC[i] == AccumulatedC(i, old(vertexC[i]), basis)
    {
      var i := 0;
      while i < |vertices|
        invariant 0 <= i <= |vertices| && |vertexC| == |vertices|
        invariant forall j :: 0 <= j < i ==> vertexC[j] == AccumulatedC(j, old(vertexC[j]), basis)
        invariant forall j :: i <= j < |vertices| ==> vertexC[j] == old(vertexC[j])
      {
        var sumWeights := AccumulateC(i, basis);
        if sumWeights != 0.0 {
          vertexC := vertexC[i := Divide(vertexC[i], sumWeights)];
        }
        i := i + 1;
      }
    }

    /** The inner loop of `compute_per_vertex_C` for vertex `i`: add
      * `tensorC * weight` for each incident face to `vertexC[i]` and return
      * the weight sum. */
    method AccumulateC(i: int, basis: (int, int) -> Basis) returns (sumWeights: real)
      requires TopologyValid() && FaceDataValid()
      requires |vertexC| == |vertices| && 0 <= i < |vertices|
      modifies this`vertexC
      ensures sumWeights == Sum(VertexWeights(i))
      ensures vertexC == old(vertexC)[i := WeightedSumC(old(vertexC[i]), VertexWeights(i), TransportedCs(faceC, basis, i, neighboringFaces[i]))]
    {
      var neighbors := neighboringFaces[i];
      ghost var ws := VertexWeights(i);
      ghost var ts := TransportedCs(faceC, basis, i, neighbors);
      sumWeights := 0.0;
      var k := 0;
      while k < |neighbors|
        invariant 0 <= k <= |neighbors|
        invariant sumWeights == Sum(ws[..k])
        invariant vertexC == old(vertexC)[i := WeightedSumC(old(vertexC[i]), ws[..k], ts[..k])]
      {
        var fIdx := neighbors[k];
        var weight := CornerWeight(faces[fIdx], faceWeights[fIdx], i);
        sumWeights := sumWeights + weight;
        var tensorC := TransportC(faceC[fIdx], basis(i, fIdx));
        vertexC := vertexC[i := Add(vertexC[i], Scale(tensorC, weight))];
        SumPrefixStep(ws, k);
        WeightedSumCPrefixStep(old(vertexC[i]), ws, ts, k);
        k := k + 1;
      }
      assert ws[..k] == ws && ts[..k] == ts;
    }

    /** The intended `compute_per_vertex_C`: reset every vertex to the zero
      * cube first, so each call yields the weighted average of the incident
      * face tensors whatever an earlier call left behind. */
    method ComputePerVertexCFromZero(basis: (int, int) -> Basis)
      requires TopologyValid() && FaceDataValid()
      modifies this`vertexC
      ensures |vertexC| == |vertices|
      ensures forall i :: 0 <= i < |vertices| ==> vertexC[i] == AccumulatedC(i, Zero(), basis)
    {
      vertexC := Repeat(Zero(), |vertices|);
      ComputePerVertexC(basis);
    }

    /** `compute_min_max`: the range of the Gaussian and of the mean
      * curvature over the vertices.  The source
      * reads entry 0 unconditionally, so it needs at least one vertex. */
    method ComputeMinMax()
      requires 0 < |vertices| <= |K1| && |vertices| <= |K2|
      modifies this`minKg, this`maxKg, this`minH, this`maxH
      ensures forall i :: 0 <= i < |vertices| ==> minKg <= GaussianCurvature(K1[i], K2[i]) <= maxKg
      ensures exists i :: 0 <= i < |vertices| && GaussianCurvature(K1[i], K2[i]) == minKg
      ensures exists i :: 0 <= i < |vertices| && GaussianCurvature(K1[i], K2[i]) == maxKg
      ensures forall i :: 0 <= i < |vertices| ==> minH <= MeanCurvature(K1[i], K2[i]) <= maxH
      ensures exists i :: 0 <= i < |vertices| && MeanCurvature(K1[i], K2[i]) == minH
      ensures exists i :: 0 <= i < |vertices| && MeanCurvature(K1[i], K2[i]) == maxH
    {
      var n, k1, k2 := |vertices|, K1, K2;
      var lo := GaussianCurvature(k1[0], k2[0]);
      var hi := GaussianCurvature(k1[0], k2[0]);
      ghost var argLo, argHi := 0, 0;
      var i := 1;
      while i < n
        invariant 1 <= i <= n
        invariant forall j :: 0 <= j < i ==> lo <= GaussianCurvature(k1[j], k2[j]) <= hi
        invariant 0 <= argLo < i && GaussianCurvature(k1[argLo], k2[argLo]) == lo
        invariant 0 <= argHi < i && GaussianCurvature(k1[argHi], k2[argHi]) == hi
      {
        var kg := GaussianCurvature(k1[i], k2[i]);
        if kg < lo { lo := kg; argLo := i; }
        if kg > hi { hi := kg; argHi := i; }
        i := i + 1;
      }
      minKg, maxKg := lo, hi;

      lo := MeanCurvature(k1[0], k2[0]);
      hi := MeanCurvature(k1[0], k2[0]);
      argLo, argHi := 0, 0;
      i := 1;
      while i < n
        invariant 1 <= i <= n
        invariant forall j :: 0 <= j < i ==> lo <= MeanCurvature(k1[j], k2[j]) <= hi
        invariant 0 <= argLo < i && MeanCurvature(k1[argLo], k2[argLo]) == lo
        invariant 0 <= argHi < i && MeanCurvature(k1[argHi], k2[argHi]) == hi
      {
        var h := MeanCurvature(k1[i], k2[i]);
        if h < lo { lo := h; argLo := i; }
        if h > hi { hi := h; argHi := i; }
        i := i + 1;
      }
      minH, maxH := lo, hi;
    }

    /** `phi` is positive between every vertex and each of its neighbours. */
    ghost predicate PhiPositiveOnNeighbors(phi: (Vec3, Vec3) -> real)
      reads this
      requires TopologyValid()
    {
      forall i :: 0 <= i < |vertices| ==> PhiPositive(vertices, i, neighboringVertices[i], phi)
    }

    /** `compute_circulant_matrix`: `W` starts at zero and `K` at the
      * identity; for each neighbour `j` of `i`, `W(i, j)` becomes
      * `phi(v_i, v_j) / sum_phi_vi_vj` and is subtracted from `K(i, j)`.
      * Every row of `W` with neighbours sums to one, so every such row of `K`
      * sums to zero. */
    method ComputeCirculantMatrix(phi: (Vec3, Vec3) -> real)
      requires TopologyValid() && PhiPositiveOnNeighbors(phi)
      modifies this`W, this`K
      ensures fresh(W) && fresh(K)
      ensures W.Length0 == |vertices| && W.Length1 == |vertices|
      ensures K.Length0 == |vertices| && K.Length1 == |vertices|
      ensures forall i, j :: 0 <= i < |vertices| && 0 <= j < |vertices| ==>
        W[i, j] == DiffusionWeight(vertices, i, neighboringVertices[i], phi, j)
      ensures forall i, j :: 0 <= i < |vertices| && 0 <= j < |vertices| ==>
        K[i, j] == Kronecker(i, j) - W[i, j]
      ensures forall i :: 0 <= i < |vertices| ==>
        DiffusionRowSum(vertices, i, neighboringVertices[i], phi) == if neighboringVertices[i] == [] then 0.0 else 1.0
      ensures forall i :: 0 <= i < |vertices| ==>
        LaplacianRowSum(vertices, i, neighboringVertices[i], phi) == if neighboringVertices[i] == [] then 1.0 else 0.0
    {
      var d := |vertices|;
      var w := new real[d, d]((r, c) => 0.0);
      var lap := new real[d, d]((r, c) => Kronecker(r, c));
      var i := 0;
      while i < d
        invariant 0 <= i <= d
        invariant fresh(w) && fresh(lap)
        invariant w.Length0 == d && w.Length1 == d && lap.Length0 == d && lap.Length1 == d
        invariant forall r, c :: 0 <= r < i && 0 <= c < d ==>
          w[r, c] == DiffusionWeight(vertices, r, neighboringVertices[r], phi, c) && lap[r, c] == Kronecker(r, c) - w[r, c]
        invariant forall r, c :: i <= r < d && 0 <= c < d ==> w[r, c] == 0.0 && lap[r, c] == Kronecker(r, c)
      {
        FillRow(w, lap, i, phi);
        i := i + 1;
      }
      W, K := w, lap;
      RowSumsOfTable(vertices, neighboringVertices, phi);
    }

    /** The first inner loop of `compute_circulant_matrix`: `phi` from vertex
      * `i` to each of its neighbours, summed in list order. */
    method SumPhiOver(i: int, phi: (Vec3, Vec3) -> real) returns (sumPhi: real)
      requires TopologyValid() && 0 <= i < |vertices|
      ensures sumPhi == SumPhi(vertices, i, neighboringVertices[i], phi)
      ensures PhiPositive(vertices, i, neighboringVertices[i], phi) && neighboringVertices[i] != [] ==> sumPhi > 0.0
    {
      var vi := vertices[i];
      var neighbors := neighboringVertices[i];
      sumPhi := 0.0;
      var k := 0;
      while k < |neighbors|
        invariant 0 <= k <= |neighbors|
        invariant sumPhi == SumPhi(vertices, i, neighbors[..k], phi)
      {
        assert neighbors[..k + 1][..k] == neighbors[..k];
        sumPhi := sumPhi + phi(vi, vertices[neighbors[k]]);
        k := k + 1;
      }
      assert neighbors[..k] == neighbors;
      if PhiPositive(vertices, i, neighbors, phi) && neighbors != [] {
        SumPhiPositive(vertices, i, neighbors, phi);
      }
    }

    /** One step of `compute_circulant_matrix`'s outer loop: sum `phi` over
      * the neighbours of `i`, then write row `i` of `W` and subtract it from
      * row `i` of `K`, which start as the zero and the identity row. */
    method FillRow(w: array2<real>, lap: array2<real>, i: int, phi: (Vec3, Vec3) -> real)
      requires TopologyValid() && PhiPositiveOnNeighbors(phi)
      requires w != lap && 0 <= i < |vertices|
      requires w.Length0 == |vertices| && w.Length1 == |vertices|
      requires lap.Length0 == |vertices| && lap.Length1 == |vertices|
      requires forall c :: 0 <= c < |vertices| ==> w[i, c] == 0.0 && lap[i, c] == Kronecker(i, c)
      modifies w, lap
      ensures forall r, c :: 0 <= r < |vertices| && r != i && 0 <= c < |vertices| ==>
        w[r, c] == old(w[r, c]) && lap[r, c] == old(lap[r, c])
      ensures forall c :: 0 <= c < |vertices| ==>
        w[i, c] == DiffusionWeight(vertices, i, neighboringVertices[i], phi, c) && lap[i, c] == Kronecker(i, c) - w[i, c]
    {
      var vs, n := vertices, |vertices|;
      var vi := vs[i];
      var neighbors := neighboringVertices[i];
      assert NoDuplicates(neighbors) && InRange(neighbors, n);
      var sumPhi := SumPhiOver(i, phi);
      var k := 0;
      while k < |neighbors|
        invariant 0 <= k <= |neighbors|
        invariant forall r, c :: 0 <= r < n && r != i && 0 <= c < n ==>
          w[r, c] == old(w[r, c]) && lap[r, c] == old(lap[r, c])
        invariant forall c :: 0 <= c < n ==>
          && w[i, c] == (if c in neighbors[..k] then phi(vi, vs[c]) / sumPhi else 0.0)
          && lap[i, c] == Kronecker(i, c) - w[i, c]
      {
        var j := neighbors[k];
        NotInPrefix(neighbors, k);
        assert neighbors[..k + 1] == neighbors[..k] + [j];
        w[i, j] := phi(vi, vs[j]) / sumPhi;
        lap[i, j] := lap[i, j] - w[i, j];
        k := k + 1;
      }
      assert neighbors[..k] == neighbors;
    }
  }
}
