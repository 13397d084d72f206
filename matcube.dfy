/**
 * `MatCube`: the rank-3 totally symmetric tensor over a 2D tangent plane
 * (the derivative of the curvature tensor), stored as two glm 2x2 matrices
 * `m_a` and `m_b` that share entries.  Its four free coefficients `a, b, c, d`
 * are the tensor's values on (u,u,u), (u,u,v), (u,v,v) and (v,v,v).
 *
 * `MatCube` is a plain value in the source (copied into and out of
 * `std::vector`s), so the compound assignments `+=` and `/=` are modelled as
 * functions that return the value the left-hand side holds afterwards.
 */
module MatCubes {
  import opened Linalg

  datatype MatCube = MatCube(a: Mat2, b: Mat2)

  /** The sharing pattern of a totally symmetric tensor: both matrices
    * symmetric, `m_a[0][1] == m_b[0][0]` and `m_a[1][1] == m_b[0][1]`. */
  predicate IsSymmetricCube(m: MatCube) {
    && Symmetric(m.a)
    && Symmetric(m.b)
    && m.a.c0.y == m.b.c0.x
    && m.a.c1.y == m.b.c0.y
  }

  /** The four free coefficients, read back out of the two matrices. */
  function Coefficients(m: MatCube): (real, real, real, real) {
    (m.a.c0.x, m.a.c0.y, m.a.c1.y, m.b.c1.y)
  }

  /** `MatCube(a, b, c, d)`: `m_a = [[a,b],[b,c]]`, `m_b = [[b,c],[c,d]]`. */
  function Make(a: real, b: real, c: real, d: real): (r: MatCube)
    ensures IsSymmetricCube(r)
    ensures Coefficients(r) == (a, b, c, d)
  {
    MatCube(Mat2(Vec2(a, b), Vec2(b, c)), Mat2(Vec2(b, c), Vec2(c, d)))
  }

  /** The default constructor: both matrices zero. */
  function Zero(): (r: MatCube)
    ensures r == Make(0.0, 0.0, 0.0, 0.0)
    ensures IsSymmetricCube(r)
  {
    MatCube(ZeroMat, ZeroMat)
  }

  /** The value of `self` after `self += other`. */
  function Add(self: MatCube, other: MatCube): (r: MatCube)
    ensures IsSymmetricCube(self) && IsSymmetricCube(other) ==> IsSymmetricCube(r)
  {
    MatCube(MatAdd(self.a, other.a), MatAdd(self.b, other.b))
  }

  /** The value of `self` after `self /= s`.  The only caller divides by a
    * weight it has checked to be non-zero. */
  function Divide(self: MatCube, s: real): (r: MatCube)
    requires s != 0.0
    ensures IsSymmetricCube(self) ==> IsSymmetricCube(r)
  {
    MatCube(MatDiv(self.a, s), MatDiv(self.b, s))
  }

  /** `cube * s`: both matrices scaled. */
  function Scale(self: MatCube, s: real): (r: MatCube)
    ensures IsSymmetricCube(self) ==> IsSymmetricCube(r)
  {
    MatCube(MatScale(self.a, s), MatScale(self.b, s))
  }

  /** `cube * v`: the 2x2 matrix whose columns are `m_a * v` and `m_b * v`,
    * that is, the tensor with its last slot filled by `v`. */
  function Contract(self: MatCube, v: Vec2): (r: Mat2)
    ensures IsSymmetricCube(self) ==> Symmetric(r)
  {
    Mat2(MulVec(self.a, v), MulVec(self.b, v))
  }

  /** The trilinear form `dot(x, (cube * y) * z)` the per-vertex transport
    * evaluates. */
  function Form(m: MatCube, x: Vec2, y: Vec2, z: Vec2): real {
    Dot(x, MulVec(Contract(m, y), z))
  }

  /** Every cube with the sharing pattern is the four-coefficient
    * constructor of its coefficients. */
  lemma MakeOfCoefficients(m: MatCube)
    requires IsSymmetricCube(m)
    ensures Make(m.a.c0.x, m.a.c0.y, m.a.c1.y, m.b.c1.y) == m
  {
  }

  /** `+=` on two constructed cubes adds their coefficients. */
  lemma AddMake(a: real, b: real, c: real, d: real, a': real, b': real, c': real, d': real)
    ensures Add(Make(a, b, c, d), Make(a', b', c', d')) == Make(a + a', b + b', c + c', d + d')
  {
  }

  /** `cube * s` on a constructed cube scales its coefficients. */
  lemma ScaleMake(a: real, b: real, c: real, d: real, s: real)
    ensures Scale(Make(a, b, c, d), s) == Make(a * s, b * s, c * s, d * s)
  {
  }

  /** `/= w` undoes `* w` for every non-zero `w`. */
  lemma DivideUndoesScale(m: MatCube, w: real)
    requires w != 0.0
    ensures Divide(Scale(m, w), w) == m
  {
    CancelMat(m.a, w);
    CancelMat(m.b, w);
  }

  /** `/= s` distributes over `+=`. */
  lemma DivideDistributes(m: MatCube, n: MatCube, s: real)
    requires s != 0.0
    ensures Divide(Add(m, n), s) == Add(Divide(m, s), Divide(n, s))
  {
    SplitMat(m.a, n.a, s);
    SplitMat(m.b, n.b, s);
  }

  /** Scaling by two weights and adding is scaling by their sum. */
  lemma ScaleAddWeights(t: MatCube, s: real, w: real)
    ensures Add(Scale(t, s), Scale(t, w)) == Scale(t, s + w)
  {
    assert t.a.c0.x * s + t.a.c0.x * w == t.a.c0.x * (s + w);
    assert t.a.c0.y * s + t.a.c0.y * w == t.a.c0.y * (s + w);
    assert t.a.c1.x * s + t.a.c1.x * w == t.a.c1.x * (s + w);
    assert t.a.c1.y * s + t.a.c1.y * w == t.a.c1.y * (s + w);
    assert t.b.c0.x * s + t.b.c0.x * w == t.b.c0.x * (s + w);
    assert t.b.c0.y * s + t.b.c0.y * w == t.b.c0.y * (s + w);
    assert t.b.c1.x * s + t.b.c1.x * w == t.b.c1.x * (s + w);
    assert t.b.c1.y * s + t.b.c1.y * w == t.b.c1.y * (s + w);
  }

  /** `/= 1` changes nothing. */
  lemma DivideByOne(m: MatCube)
    ensures Divide(m, 1.0) == m
  {
  }

  /** Zero is neutral for `+=`, and scaling by zero gives zero. */
  lemma ZeroNeutral(m: MatCube)
    ensures Add(m, Zero()) == m && Add(Zero(), m) == m
    ensures Scale(m, 0.0) == Zero()
  {
  }

  /** The trilinear form of a cube with the sharing pattern, written out
    * over its four coefficients. */
  lemma FormExpanded(m: MatCube, x: Vec2, y: Vec2, z: Vec2)
    requires IsSymmetricCube(m)
    ensures var (a, b, c, d) := Coefficients(m);
      Form(m, x, y, z)
      == a * (x.x * y.x * z.x)
       + b * (x.x * y.x * z.y + x.x * y.y * z.x + x.y * y.x * z.x)
       + c * (x.x * y.y * z.y + x.y * y.x * z.y + x.y * y.y * z.x)
       + d * (x.y * y.y * z.y)
  {
  }

  /** For a cube with the sharing pattern, the trilinear form is symmetric
    * in all three of its arguments. */
  lemma FormSymmetric(m: MatCube, x: Vec2, y: Vec2, z: Vec2)
    requires IsSymmetricCube(m)
    ensures Form(m, x, y, z) == Form(m, y, x, z)
    ensures Form(m, x, y, z) == Form(m, x, z, y)
  {
    FormExpanded(m, x, y, z);
    FormExpanded(m, y, x, z);
    FormExpanded(m, x, z, y);
  }
}
