/**
 * The small glm vector and matrix types the mesh core uses, over exact reals
 * in place of single-precision floats.
 *
 * glm stores a 2x2 matrix by columns: `m[i][j]` is row `j` of column `i`.
 * `Mat2(c0, c1)` keeps that layout, so `m[0][1]` is `c0.y` and `m[1][0]` is
 * `c1.x`.
 */
module Linalg {

  datatype Vec2 = Vec2(x: real, y: real)

  datatype Vec3 = Vec3(x: real, y: real, z: real)

  /** A glm::mat2, column by column. */
  datatype Mat2 = Mat2(c0: Vec2, c1: Vec2)

  const ZeroMat: Mat2 := Mat2(Vec2(0.0, 0.0), Vec2(0.0, 0.0))

  /** glm::dot on two vec2. */
  function Dot(u: Vec2, v: Vec2): real {
    u.x * v.x + u.y * v.y
  }

  /** glm's `m * v` for a mat2 and a vec2 (column-major). */
  function MulVec(m: Mat2, v: Vec2): Vec2 {
    Vec2(m.c0.x * v.x + m.c1.x * v.y, m.c0.y * v.x + m.c1.y * v.y)
  }

  /** glm's componentwise `m + n`. */
  function MatAdd(m: Mat2, n: Mat2): Mat2 {
    Mat2(Vec2(m.c0.x + n.c0.x, m.c0.y + n.c0.y), Vec2(m.c1.x + n.c1.x, m.c1.y + n.c1.y))
  }

  /** glm's `m * s` (and `s * m`) for a scalar `s`. */
  function MatScale(m: Mat2, s: real): Mat2 {
    Mat2(Vec2(m.c0.x * s, m.c0.y * s), Vec2(m.c1.x * s, m.c1.y * s))
  }

  /** glm's `m / s`; a zero divisor is the caller's concern. */
  function MatDiv(m: Mat2, s: real): Mat2
    requires s != 0.0
  {
    Mat2(Vec2(m.c0.x / s, m.c0.y / s), Vec2(m.c1.x / s, m.c1.y / s))
  }

  /** `m[0][1] == m[1][0]`. */
  predicate Symmetric(m: Mat2) {
    m.c0.y == m.c1.x
  }

  /** The bilinear form `dot(u, m * v)` of a matrix. */
  function Bilinear(m: Mat2, u: Vec2, v: Vec2): real {
    Dot(u, MulVec(m, v))
  }

  /** `(x * w) / w == x` for a single entry. */
  lemma CancelEntry(x: real, w: real)
    requires w != 0.0
    ensures (x * w) / w == x
  {
  }

  /** Dividing a scaled matrix by the same non-zero factor gives it back. */
  lemma CancelMat(m: Mat2, w: real)
    requires w != 0.0
    ensures MatDiv(MatScale(m, w), w) == m
  {
    CancelEntry(m.c0.x, w);
    CancelEntry(m.c0.y, w);
    CancelEntry(m.c1.x, w);
    CancelEntry(m.c1.y, w);
  }

  /** `(x + y) / s == x / s + y / s` for a single entry. */
  lemma SplitEntry(x: real, y: real, s: real)
    requires s != 0.0
    ensures (x + y) / s == x / s + y / s
  {
  }

  /** Dividing a sum of matrices divides each part. */
  lemma SplitMat(m: Mat2, n: Mat2, s: real)
    requires s != 0.0
    ensures MatDiv(MatAdd(m, n), s) == MatAdd(MatDiv(m, s), MatDiv(n, s))
  {
    SplitEntry(m.c0.x, n.c0.x, s);
    SplitEntry(m.c0.y, n.c0.y, s);
    SplitEntry(m.c1.x, n.c1.x, s);
    SplitEntry(m.c1.y, n.c1.y, s);
  }
}
