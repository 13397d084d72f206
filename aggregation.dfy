/**
 * The per-vertex weighted accumulation shared by
 * `Geometry::compute_per_vertex_weingarten_matrix` and
 * `Geometry::compute_per_vertex_C`: for each incident face, pick the face's
 * mixed-Voronoi weight for this vertex, re-express the face's tensor in the
 * vertex frame, add `weight * tensor` to the vertex's tensor and to a running
 * weight sum, and finally divide by that sum.
 *
 * The frame transport itself (quaternion rotation when the normals are not
 * parallel, `normalize` of the projected axes) is floating-point geometry; it
 * is summarised by a `Basis`: the two normalised vec2 the source builds from
 * the dot products of the vertex axes with the (possibly rotated) face axes.
 * Both branches of the parallel-normal test feed the same formulas, so the
 * branch lives inside the `Basis` given to the model.
 */
module Aggregation {
  import opened Linalg
  import opened MatCubes
  import opened Topology

  /** `normalize(vec2(UpUf, UpVf))` and `normalize(vec2(VpUf, VpVf))`. */
  datatype Basis = Basis(u: Vec2, v: Vec2)

  /** The basis met when the vertex frame coincides with the face frame. */
  const Aligned: Basis := Basis(Vec2(1.0, 0.0), Vec2(0.0, 1.0))

  /** A vertex tensor after the unguarded float division: finite, or holding
    * infinities / NaN when the divisor was zero. */
  datatype Tensor = Finite(m: Mat2) | NonFinite

  /** Component `k` of a vec3. */
  function Component(w: Vec3, k: int): real
    requires 0 <= k < 3
  {
    if k == 0 then w.x else if k == 1 then w.y else w.z
  }

  /** The weight vertex `i` takes from face `f`: `weights.x` if `f.x == i`,
    * else `weights.y` if `f.y == i`, else `weights.z`. */
  function CornerWeight(f: Face, weights: Vec3, i: int): real {
    if f.x == i then weights.x else if f.y == i then weights.y else weights.z
  }

  /** On a face with three distinct corners, each corner takes the weight
    * written for it; a vertex that is no corner falls through to `weights.z`. */
  lemma CornerWeightSelectsOwnCorner(f: Face, weights: Vec3, k: int, i: int)
    requires 0 <= k < 3
    ensures DistinctCorners(f) ==> CornerWeight(f, weights, Corner(f, k)) == Component(weights, k)
    ensures !HasCorner(f, i) ==> CornerWeight(f, weights, i) == weights.z
  {
  }

  /** The weights vertex `i` takes from the faces `F`, in order. */
  function CornerWeights(faces: seq<Face>, faceWeights: seq<Vec3>, i: int, F: seq<int>): seq<real>
    requires InRange(F, |faces|) && InRange(F, |faceWeights|)
  {
    seq(|F|, k requires 0 <= k < |F| => CornerWeight(faces[F[k]], faceWeights[F[k]], i))
  }

  /** The face Weingarten tensors of `F` as seen from vertex `i`. */
  function TransportedWeingartens(faceWeingarten: seq<Mat2>, basis: (int, int) -> Basis, i: int, F: seq<int>): seq<Mat2>
    requires InRange(F, |faceWeingarten|)
  {
    seq(|F|, k requires 0 <= k < |F| => TransportWeingarten(faceWeingarten[F[k]], basis(i, F[k])))
  }

  /** The face C tensors of `F` as seen from vertex `i`. */
  function TransportedCs(faceC: seq<MatCube>, basis: (int, int) -> Basis, i: int, F: seq<int>): seq<MatCube>
    requires InRange(F, |faceC|)
  {
    seq(|F|, k requires 0 <= k < |F| => TransportC(faceC[F[k]], basis(i, F[k])))
  }

  /** `sum_weights`, accumulated left to right. */
  function Sum(ws: seq<real>): real {
    if ws == [] then 0.0 else Sum(ws[..|ws| - 1]) + ws[|ws| - 1]
  }

  /** A vertex with at least one incident face, all of positive weight, has a
    * positive weight sum. */
  lemma {:induction false} SumPositive(ws: seq<real>)
    requires ws != []
    requires forall k :: 0 <= k < |ws| ==> ws[k] > 0.0
    ensures Sum(ws) > 0.0
  {
    var n := |ws| - 1;
    if n > 0 {
      SumPositive(ws[..n]);
    }
  }

  /** The face tensor re-expressed in the vertex frame:
    * `ep = dot(u, M u)`, `fp = dot(u, M v)`, `gp = dot(v, M v)`,
    * laid out as `[[ep, fp], [fp, gp]]`. */
  function TransportWeingarten(m: Mat2, b: Basis): (r: Mat2)
    ensures Symmetric(r)
  {
    var ep := Bilinear(m, b.u, b.u);
    var fp := Bilinear(m, b.u, b.v);
    var gp := Bilinear(m, b.v, b.v);
    Mat2(Vec2(ep, fp), Vec2(fp, gp))
  }

  /** The face C tensor re-expressed in the vertex frame:
    * `a = C(u,u,u)`, `b = C(u,v,u)`, `c = C(v,v,u)`, `d = C(v,v,v)`. */
  function TransportC(c: MatCube, b: Basis): (r: MatCube)
    ensures IsSymmetricCube(r)
  {
    Make(Form(c, b.u, b.u, b.u), Form(c, b.u, b.v, b.u), Form(c, b.v, b.v, b.u), Form(c, b.v, b.v, b.v))
  }

  /** Between aligned frames the transport leaves a symmetric tensor as it
    * is; a non-symmetric face tensor has its `m[0][1]` replaced by `m[1][0]`. */
  lemma TransportWeingartenAligned(m: Mat2)
    ensures TransportWeingarten(m, Aligned) == Mat2(Vec2(m.c0.x, m.c1.x), Vec2(m.c1.x, m.c1.y))
    ensures Symmetric(m) ==> TransportWeingarten(m, Aligned) == m
  {
  }

  /** Between aligned frames the transport leaves a cube with the sharing
    * pattern as it is. */
  lemma TransportCAligned(c: MatCube)
    requires IsSymmetricCube(c)
    ensures TransportC(c, Aligned) == c
  {
    var (a, b, cc, d) := Coefficients(c);
    FormExpanded(c, Aligned.u, Aligned.u, Aligned.u);
    FormExpanded(c, Aligned.u, Aligned.v, Aligned.u);
    FormExpanded(c, Aligned.v, Aligned.v, Aligned.u);
    FormExpanded(c, Aligned.v, Aligned.v, Aligned.v);
    MakeOfCoefficients(c);
  }

  /** `m_vertex_weingarten[i] += weight * tensor`, face after face. */
  function WeightedSumW(start: Mat2, ws: seq<real>, ts: seq<Mat2>): Mat2
    requires |ws| == |ts|
  {
    if ws == [] then start
    else
      var n := |ws| - 1;
      MatAdd(WeightedSumW(start, ws[..n], ts[..n]), MatScale(ts[n], ws[n]))
  }

  /** `m_vertex_C[i] += tensorC * weight`, face after face. */
  function WeightedSumC(start: MatCube, ws: seq<real>, ts: seq<MatCube>): MatCube
    requires |ws| == |ts|
  {
    if ws == [] then start
    else
      var n := |ws| - 1;
      Add(WeightedSumC(start, ws[..n], ts[..n]), Scale(ts[n], ws[n]))
  }

  /** One more face: the running weight sum over the first `k + 1` faces
    * extends the sum over the first `k`. */
  lemma SumPrefixStep(ws: seq<real>, k: int)
    requires 0 <= k < |ws|
    ensures Sum(ws[..k + 1]) == Sum(ws[..k]) + ws[k]
  {
    assert ws[..k + 1][..k] == ws[..k];
  }

  /** One more face for the Weingarten accumulation. */
  lemma WeightedSumWPrefixStep(start: Mat2, ws: seq<real>, ts: seq<Mat2>, k: int)
    requires |ws| == |ts| && 0 <= k < |ws|
    ensures WeightedSumW(start, ws[..k + 1], ts[..k + 1])
         == MatAdd(WeightedSumW(start, ws[..k], ts[..k]), MatScale(ts[k], ws[k]))
  {
    assert ws[..k + 1][..k] == ws[..k] && ts[..k + 1][..k] == ts[..k];
  }

  /** One more face for the C accumulation. */
  lemma WeightedSumCPrefixStep(start: MatCube, ws: seq<real>, ts: seq<MatCube>, k: int)
    requires |ws| == |ts| && 0 <= k < |ws|
    ensures WeightedSumC(start, ws[..k + 1], ts[..k + 1])
         == Add(WeightedSumC(start, ws[..k], ts[..k]), Scale(ts[k], ws[k]))
  {
    assert ws[..k + 1][..k] == ws[..k] && ts[..k + 1][..k] == ts[..k];
  }

  /** The end of `compute_per_vertex_weingarten_matrix`'s vertex step:
    * `m_vertex_weingarten[i] /= sum_weights`, unguarded. */
  function FinishWeingarten(acc: Mat2, s: real): Tensor {
    if s == 0.0 then NonFinite else Finite(MatDiv(acc, s))
  }

  /** The end of `compute_per_vertex_C`'s vertex step: divide only when the
    * weight sum is non-zero. */
  function FinishC(acc: MatCube, s: real): MatCube {
    if s != 0.0 then Divide(acc, s) else acc
  }

  /** Accumulating symmetric tensors onto a symmetric start keeps it
    * symmetric, so the averaged vertex tensor is symmetric. */
  lemma {:induction false} WeightedSumWSymmetric(start: Mat2, ws: seq<real>, ts: seq<Mat2>)
    requires |ws| == |ts|
    requires Symmetric(start)
    requires forall k :: 0 <= k < |ts| ==> Symmetric(ts[k])
    ensures Symmetric(WeightedSumW(start, ws, ts))
  {
    if ws != [] {
      var n := |ws| - 1;
      WeightedSumWSymmetric(start, ws[..n], ts[..n]);
    }
  }

  /** Accumulating cubes with the sharing pattern keeps the pattern. */
  lemma {:induction false} WeightedSumCSymmetric(start: MatCube, ws: seq<real>, ts: seq<MatCube>)
    requires |ws| == |ts|
    requires IsSymmetricCube(start)
    requires forall k :: 0 <= k < |ts| ==> IsSymmetricCube(ts[k])
    ensures IsSymmetricCube(WeightedSumC(start, ws, ts))
  {
    if ws != [] {
      var n := |ws| - 1;
      WeightedSumCSymmetric(start, ws[..n], ts[..n]);
    }
  }

  /** Weighting one tensor by several weights is weighting it by their sum. */
  lemma {:induction false} WeightedSumWOfConstant(ws: seq<real>, ts: seq<Mat2>, t: Mat2)
    requires |ws| == |ts|
    requires forall k :: 0 <= k < |ts| ==> ts[k] == t
    ensures WeightedSumW(ZeroMat, ws, ts) == MatScale(t, Sum(ws))
  {
    if ws != [] {
      var n := |ws| - 1;
      WeightedSumWOfConstant(ws[..n], ts[..n], t);
      var s := Sum(ws[..n]);
      assert t.c0.x * s + t.c0.x * ws[n] == t.c0.x * (s + ws[n]);
      assert t.c0.y * s + t.c0.y * ws[n] == t.c0.y * (s + ws[n]);
      assert t.c1.x * s + t.c1.x * ws[n] == t.c1.x * (s + ws[n]);
      assert t.c1.y * s + t.c1.y * ws[n] == t.c1.y * (s + ws[n]);
    }
  }

  /** Weighting one cube by several weights is weighting it by their sum. */
  lemma {:induction false} WeightedSumCOfConstant(ws: seq<real>, ts: seq<MatCube>, t: MatCube)
    requires |ws| == |ts|
    requires forall k :: 0 <= k < |ts| ==> ts[k] == t
    ensures WeightedSumC(Zero(), ws, ts) == Scale(t, Sum(ws))
  {
    if ws != [] {
      var n := |ws| - 1;
      WeightedSumCOfConstant(ws[..n], ts[..n], t);
      ScaleAddWeights(t, Sum(ws[..n]), ws[n]);
    }
  }

  /** The Weingarten aggregator is a weighted average: when every incident
    * face contributes the same tensor and the weights do not cancel, the
    * vertex gets that tensor; when they sum to zero it gets no finite
    * tensor. */
  lemma AverageOfConstantW(ws: seq<real>, ts: seq<Mat2>, t: Mat2)
    requires |ws| == |ts|
    requires forall k :: 0 <= k < |ts| ==> ts[k] == t
    ensures Sum(ws) != 0.0 ==> FinishWeingarten(WeightedSumW(ZeroMat, ws, ts), Sum(ws)) == Finite(t)
    ensures Sum(ws) == 0.0 ==> FinishWeingarten(WeightedSumW(ZeroMat, ws, ts), Sum(ws)) == NonFinite
  {
    WeightedSumWOfConstant(ws, ts, t);
    if Sum(ws) != 0.0 {
      CancelMat(t, Sum(ws));
    }
  }

  /** Starting from zero, the C aggregator is a weighted average in the same
    * sense. */
  lemma AverageOfConstantC(ws: seq<real>, ts: seq<MatCube>, t: MatCube)
    requires |ws| == |ts|
    requires Sum(ws) != 0.0
    requires forall k :: 0 <= k < |ts| ==> ts[k] == t
    ensures FinishC(WeightedSumC(Zero(), ws, ts), Sum(ws)) == t
  {
    WeightedSumCOfConstant(ws, ts, t);
    DivideUndoesScale(t, Sum(ws));
  }

  /** Accumulating onto a non-zero start is accumulating onto zero and
    * adding the start afterwards. */
  lemma {:induction false} WeightedSumCShiftsStart(start: MatCube, ws: seq<real>, ts: seq<MatCube>)
    requires |ws| == |ts|
    ensures WeightedSumC(start, ws, ts) == Add(start, WeightedSumC(Zero(), ws, ts))
  {
    if ws == [] {
      ZeroNeutral(start);
    } else {
      var n := |ws| - 1;
      WeightedSumCShiftsStart(start, ws[..n], ts[..n]);
    }
  }

  /** What `compute_per_vertex_C` leaves in a vertex that already held
    * `start`: the weighted average plus `start / sum_weights`, so whatever a
    * previous call stored leaks into the new result. */
  lemma StaleCLeaks(start: MatCube, ws: seq<real>, ts: seq<MatCube>)
    requires |ws| == |ts|
    requires Sum(ws) != 0.0
    ensures FinishC(WeightedSumC(start, ws, ts), Sum(ws))
         == Add(Divide(start, Sum(ws)), FinishC(WeightedSumC(Zero(), ws, ts), Sum(ws)))
  {
    WeightedSumCShiftsStart(start, ws, ts);
    DivideDistributes(start, WeightedSumC(Zero(), ws, ts), Sum(ws));
  }

  /** A concrete instance: a vertex that held the cube `(1,0,0,0)` and has one
    * incident face of weight 1 whose transported tensor is zero keeps
    * `(1,0,0,0)`, where the weighted average is zero. */
  lemma StaleCCounterexample()
    ensures FinishC(WeightedSumC(Make(1.0, 0.0, 0.0, 0.0), [1.0], [Zero()]), Sum([1.0])) == Make(1.0, 0.0, 0.0, 0.0)
    ensures FinishC(WeightedSumC(Zero(), [1.0], [Zero()]), Sum([1.0])) == Zero()
    ensures Make(1.0, 0.0, 0.0, 0.0) != Zero()
  {
    var m := Make(1.0, 0.0, 0.0, 0.0);
    assert [1.0][..0] == [] && [Zero()][..0] == [];
    assert Sum([1.0]) == 1.0;
    ZeroNeutral(m);
    ZeroNeutral(Zero());
    assert Scale(Zero(), 1.0) == Zero();
    assert WeightedSumC(m, [1.0], [Zero()]) == m;
    assert WeightedSumC(Zero(), [1.0], [Zero()]) == Zero();
    DivideByOne(m);
    DivideByOne(Zero());
  }
}
