/**
 * The Taubin low-pass smoothing parameters and the diffusion operator behind
 * them: `W(i, j)` is `phi(v_i, v_j)` normalised over the neighbours of `i`,
 * and `K = I - W`.
 *
 * `phi(vi, vj) = |vi - vj|^-1` goes through `sqrt` and `pow`; the model takes
 * it as a function parameter and asks that it be a positive real on the
 * pairs it is applied to. Coincident positions, where the source's `phi` is
 * infinite and a row of `W` becomes NaN, are outside the model.
 */
module Smoothing {
  import opened Linalg
  import opened Topology

  /** The pass-band frequency the mesh loader stores. */
  const Kpb: real := 0.095

  /** The shrinking factor the mesh loader stores. */
  const Lambda: real := 0.6307

  /** The number of smoothing iterations the mesh loader stores. */
  const Iterations: nat := 25

  /** `lambda / (lambda * Kpb - 1)`: the inflating factor chosen so that
    * `1/lambda + 1/mu == Kpb`. */
  function Mu(lambda: real, kpb: real): real
    requires lambda * kpb != 1.0
  {
    lambda / (lambda * kpb - 1.0)
  }

  /** `Mu` solves the pass-band equation `1/lambda + 1/mu == kpb` for every
    * non-zero `lambda` it is defined on. */
  lemma MuSolvesPassBand(lambda: real, kpb: real)
    requires lambda != 0.0 && lambda * kpb != 1.0
    ensures Mu(lambda, kpb) != 0.0
    ensures 1.0 / lambda + 1.0 / Mu(lambda, kpb) == kpb
  {
    var d := lambda * kpb - 1.0;
    assert Mu(lambda, kpb) * d == lambda;
    assert 1.0 / Mu(lambda, kpb) == d / lambda;
    assert 1.0 / lambda + d / lambda == (1.0 + d) / lambda;
  }

  /** With `0 < lambda` and `0 < lambda * kpb < 1`, `mu` is negative and
    * larger in magnitude than `lambda`: each step shrinks, then inflates a
    * little more. */
  lemma MuInflates(lambda: real, kpb: real)
    requires 0.0 < lambda && 0.0 < lambda * kpb < 1.0
    ensures Mu(lambda, kpb) < -lambda < 0.0
  {
    var d := lambda * kpb - 1.0;
    assert -1.0 < d < 0.0;
    assert Mu(lambda, kpb) * d == lambda;
    assert -lambda * d < lambda;
  }

  /** The loader's constants satisfy the pass-band equation and give an
    * inflating `mu`. */
  lemma DefaultParameters()
    ensures Lambda * Kpb != 1.0
    ensures Mu(Lambda, Kpb) < -Lambda < 0.0
    ensures 1.0 / Lambda + 1.0 / Mu(Lambda, Kpb) == Kpb
  {
    MuInflates(Lambda, Kpb);
    MuSolvesPassBand(Lambda, Kpb);
  }

  /** `sum_phi_vi_vj`: `phi(v_i, v_j)` summed over the list `nbrs`, left to
    * right. */
  function SumPhi(vertices: seq<Vec3>, i: int, nbrs: seq<int>, phi: (Vec3, Vec3) -> real): real
    requires 0 <= i < |vertices| && InRange(nbrs, |vertices|)
  {
    if nbrs == [] then 0.0
    else
      var n := |nbrs| - 1;
      SumPhi(vertices, i, nbrs[..n], phi) + phi(vertices[i], vertices[nbrs[n]])
  }

  /** `phi` is positive from `v_i` to every vertex of `nbrs`. */
  predicate PhiPositive(vertices: seq<Vec3>, i: int, nbrs: seq<int>, phi: (Vec3, Vec3) -> real)
    requires 0 <= i < |vertices| && InRange(nbrs, |vertices|)
  {
    forall k :: 0 <= k < |nbrs| ==> phi(vertices[i], vertices[nbrs[k]]) > 0.0
  }

  /** A non-empty neighbour list with positive `phi` has a positive sum. */
  lemma {:induction false} SumPhiPositive(vertices: seq<Vec3>, i: int, nbrs: seq<int>, phi: (Vec3, Vec3) -> real)
    requires 0 <= i < |vertices| && InRange(nbrs, |vertices|)
    requires PhiPositive(vertices, i, nbrs, phi)
    requires nbrs != []
    ensures SumPhi(vertices, i, nbrs, phi) > 0.0
  {
    var n := |nbrs| - 1;
    if n > 0 {
      SumPhiPositive(vertices, i, nbrs[..n], phi);
    }
  }

  /** The entry `W(i, j)`: `phi(v_i, v_j) / sum_phi_vi_vj` for a neighbour `j`
    * of `i`, zero otherwise. */
  function DiffusionWeight(vertices: seq<Vec3>, i: int, nbrs: seq<int>, phi: (Vec3, Vec3) -> real, j: int): real
    requires 0 <= i < |vertices| && InRange(nbrs, |vertices|)
    requires PhiPositive(vertices, i, nbrs, phi)
  {
    if j in nbrs then
      SumPhiPositive(vertices, i, nbrs, phi);
      phi(vertices[i], vertices[j]) / SumPhi(vertices, i, nbrs, phi)
    else 0.0
  }

  /** `1` on the diagonal, `0` elsewhere: the entries of the identity. */
  function Kronecker(i: int, j: int): real {
    if i == j then 1.0 else 0.0
  }

  /** `f(0) + ... + f(n - 1)`: the sum of one row of an `n`-column matrix. */
  function RowSum(f: int -> real, n: nat): real {
    if n == 0 then 0.0 else RowSum(f, n - 1) + f(n - 1)
  }

  /** The entries of `nbrs`, each mapped through `g`, summed left to right. */
  function ListSum(nbrs: seq<int>, g: int -> real): real {
    if nbrs == [] then 0.0 else ListSum(nbrs[..|nbrs| - 1], g) + g(nbrs[|nbrs| - 1])
  }

  /** Row sums are additive. */
  lemma {:induction false} RowSumAdd(f: int -> real, g: int -> real, h: int -> real, n: nat)
    requires forall j :: h(j) == f(j) + g(j)
    ensures RowSum(h, n) == RowSum(f, n) + RowSum(g, n)
  {
    if n > 0 {
      RowSumAdd(f, g, h, n - 1);
    }
  }

  /** Row sums respect subtraction. */
  lemma {:induction false} RowSumSub(f: int -> real, g: int -> real, h: int -> real, n: nat)
    requires forall j :: h(j) == f(j) - g(j)
    ensures RowSum(h, n) == RowSum(f, n) - RowSum(g, n)
  {
    if n > 0 {
      RowSumSub(f, g, h, n - 1);
    }
  }

  /** A row that is zero outside column `x` sums to its entry at `x` when `x`
    * is one of the `n` columns, and to zero otherwise. */
  lemma {:induction false} RowSumPoint(f: int -> real, x: int, n: nat)
    requires forall j :: j != x ==> f(j) == 0.0
    ensures RowSum(f, n) == if 0 <= x < n then f(x) else 0.0
  {
    if n > 0 {
      RowSumPoint(f, x, n - 1);
    }
  }

  /** A row that is `g` on the distinct in-range columns `nbrs` and zero
    * elsewhere sums to the sum of `g` over `nbrs`. */
  lemma {:induction false} MaskedRowSum(nbrs: seq<int>, g: int -> real, f: int -> real, n: nat)
    requires NoDuplicates(nbrs) && InRange(nbrs, n)
    requires forall j :: f(j) == if j in nbrs then g(j) else 0.0
    ensures RowSum(f, n) == ListSum(nbrs, g)
  {
    if nbrs == [] {
      RowSumPoint(f, 0, n);
      assert forall j :: f(j) == 0.0;
    } else {
      var m := |nbrs| - 1;
      var x := nbrs[m];
      var init := nbrs[..m];
      assert nbrs == init + [x];
      assert x !in init by {
        forall k | 0 <= k < m ensures init[k] != x {
          assert nbrs[k] != nbrs[m];
        }
      }
      var f': int -> real := j => if j in init then g(j) else 0.0;
      var p: int -> real := j => if j == x then g(j) else 0.0;
      forall j ensures f(j) == f'(j) + p(j) {
        assert j in nbrs <==> j in init || j == x;
      }
      RowSumAdd(f', p, f, n);
      MaskedRowSum(init, g, f', n);
      RowSumPoint(p, x, n);
    }
  }

  /** Dividing every term of a neighbour sum by `s` divides the sum. */
  lemma {:induction false} SumPhiScaled(vertices: seq<Vec3>, i: int, nbrs: seq<int>, phi: (Vec3, Vec3) -> real,
                                        s: real, g: int -> real)
    requires 0 <= i < |vertices| && InRange(nbrs, |vertices|)
    requires s != 0.0
    requires forall j :: 0 <= j < |vertices| ==> g(j) == phi(vertices[i], vertices[j]) / s
    ensures ListSum(nbrs, g) == SumPhi(vertices, i, nbrs, phi) / s
  {
    if nbrs != [] {
      var n := |nbrs| - 1;
      SumPhiScaled(vertices, i, nbrs[..n], phi, s, g);
      SplitEntry(SumPhi(vertices, i, nbrs[..n], phi), phi(vertices[i], vertices[nbrs[n]]), s);
    }
  }

  /** The sum of row `i` of `W`. */
  function DiffusionRowSum(vertices: seq<Vec3>, i: int, nbrs: seq<int>, phi: (Vec3, Vec3) -> real): real
    requires 0 <= i < |vertices| && InRange(nbrs, |vertices|)
    requires PhiPositive(vertices, i, nbrs, phi)
  {
    RowSum(j => DiffusionWeight(vertices, i, nbrs, phi, j), |vertices|)
  }

  /** The sum of row `i` of `K = I - W`. */
  function LaplacianRowSum(vertices: seq<Vec3>, i: int, nbrs: seq<int>, phi: (Vec3, Vec3) -> real): real
    requires 0 <= i < |vertices| && InRange(nbrs, |vertices|)
    requires PhiPositive(vertices, i, nbrs, phi)
  {
    RowSum(j => Kronecker(i, j) - DiffusionWeight(vertices, i, nbrs, phi, j), |vertices|)
  }

  /** `W` is row-stochastic: each row of a vertex with neighbours sums to one
    * (and a vertex without neighbours has a zero row). */
  lemma DiffusionRowSumsToOne(vertices: seq<Vec3>, i: int, nbrs: seq<int>, phi: (Vec3, Vec3) -> real)
    requires 0 <= i < |vertices| && InRange(nbrs, |vertices|) && NoDuplicates(nbrs)
    requires PhiPositive(vertices, i, nbrs, phi)
    ensures DiffusionRowSum(vertices, i, nbrs, phi) == if nbrs == [] then 0.0 else 1.0
  {
    var f: int -> real := j => DiffusionWeight(vertices, i, nbrs, phi, j);
    if nbrs == [] {
      RowSumPoint(f, -1, |vertices|);
    } else {
      SumPhiPositive(vertices, i, nbrs, phi);
      var s := SumPhi(vertices, i, nbrs, phi);
      var g: int -> real := j => if 0 <= j < |vertices| then phi(vertices[i], vertices[j]) / s else 0.0;
      forall j ensures f(j) == if j in nbrs then g(j) else 0.0 {
      }
      MaskedRowSum(nbrs, g, f, |vertices|);
      SumPhiScaled(vertices, i, nbrs, phi, s, g);
      assert RowSum(f, |vertices|) == s / s;
      assert s / s == 1.0;
    }
  }

  /** `K` annihilates constants: each row of a vertex with neighbours sums to
    * zero; a vertex without neighbours keeps its identity row. */
  lemma LaplacianRowSumsToZero(vertices: seq<Vec3>, i: int, nbrs: seq<int>, phi: (Vec3, Vec3) -> real)
    requires 0 <= i < |vertices| && InRange(nbrs, |vertices|) && NoDuplicates(nbrs)
    requires PhiPositive(vertices, i, nbrs, phi)
    ensures LaplacianRowSum(vertices, i, nbrs, phi) == if nbrs == [] then 1.0 else 0.0
  {
    var w: int -> real := j => DiffusionWeight(vertices, i, nbrs, phi, j);
    var e: int -> real := j => Kronecker(i, j);
    var k: int -> real := j => Kronecker(i, j) - DiffusionWeight(vertices, i, nbrs, phi, j);
    RowSumSub(e, w, k, |vertices|);
    RowSumPoint(e, i, |vertices|);
    DiffusionRowSumsToOne(vertices, i, nbrs, phi);
  }

  /** Every vertex of a neighbour table, with positive `phi` on each of its
    * neighbours, has a row of `W` that sums to one (zero without neighbours)
    * and a row of `K` that sums to zero (one without neighbours). */
  lemma RowSumsOfTable(vertices: seq<Vec3>, table: seq<seq<int>>, phi: (Vec3, Vec3) -> real)
    requires |table| == |vertices|
    requires forall i :: 0 <= i < |vertices| ==> InRange(table[i], |vertices|) && NoDuplicates(table[i])
    requires forall i :: 0 <= i < |vertices| ==> PhiPositive(vertices, i, table[i], phi)
    ensures forall i :: 0 <= i < |vertices| ==>
      DiffusionRowSum(vertices, i, table[i], phi) == if table[i] == [] then 0.0 else 1.0
    ensures forall i :: 0 <= i < |vertices| ==>
      LaplacianRowSum(vertices, i, table[i], phi) == if table[i] == [] then 1.0 else 0.0
  {
    forall i | 0 <= i < |vertices|
      ensures DiffusionRowSum(vertices, i, table[i], phi) == if table[i] == [] then 0.0 else 1.0
      ensures LaplacianRowSum(vertices, i, table[i], phi) == if table[i] == [] then 1.0 else 0.0
    {
      DiffusionRowSumsToOne(vertices, i, table[i], phi);
      LaplacianRowSumsToZero(vertices, i, table[i], phi);
    }
  }
}
