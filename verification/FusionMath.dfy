/** Quaternions and rotation matrices of the orientation filter, over the real numbers. */
module FusionMath {

  datatype Vector = Vector(x: real, y: real, z: real)

  datatype Quaternion = Quaternion(w: real, x: real, y: real, z: real)

  datatype Matrix = Matrix(xx: real, xy: real, xz: real, yx: real, yy: real, yz: real, zx: real, zy: real, zz: real)

  const IDENTITY := Matrix(1.0, 0.0, 0.0, 0.0, 1.0, 0.0, 0.0, 0.0, 1.0)

  function VectorAdd(a: Vector, b: Vector): Vector {
    Vector(a.x + b.x, a.y + b.y, a.z + b.z)
  }

  function VectorSubtract(a: Vector, b: Vector): Vector {
    Vector(a.x - b.x, a.y - b.y, a.z - b.z)
  }

  function QuaternionMultiply(a: Quaternion, b: Quaternion): Quaternion {
    Quaternion(a.w * b.w - a.x * b.x - a.y * b.y - a.z * b.z,
               a.w * b.x + a.x * b.w + a.y * b.z - a.z * b.y,
               a.w * b.y - a.x * b.z + a.y * b.w + a.z * b.x,
               a.w * b.z + a.x * b.y - a.y * b.x + a.z * b.w)
  }

  function SumOfSquares(s: real, t: real, u: real, v: real): real {
    s * s + t * t + u * u + v * v
  }

  function NormSquared(q: Quaternion): real {
    SumOfSquares(q.w, q.x, q.y, q.z)
  }

  function Unit(w: real, x: real): real {
    2.0 * (w * w - 0.5 + x * x)
  }

  function TwiceSum(p: real, q: real, r: real, s: real): real {
    2.0 * (p * q + r * s)
  }

  function TwiceDifference(p: real, q: real, r: real, s: real): real {
    2.0 * (p * q - r * s)
  }

  /** The program's rotation matrix; the diagonal has the unit norm built in. */
  function QuaternionToMatrix(q: Quaternion): Matrix {
    Matrix(Unit(q.w, q.x), TwiceDifference(q.x, q.y, q.w, q.z), TwiceSum(q.x, q.z, q.w, q.y),
           TwiceSum(q.y, q.x, q.w, q.z), Unit(q.w, q.y), TwiceDifference(q.y, q.z, q.w, q.x),
           TwiceDifference(q.z, q.x, q.w, q.y), TwiceSum(q.z, q.y, q.w, q.x), Unit(q.w, q.z))
  }

  function Dot(a: real, b: real, c: real, d: real, e: real, f: real): real {
    a * d + b * e + c * f
  }

  function MatrixMultiplyVector(m: Matrix, v: Vector): Vector {
    Vector(Dot(m.xx, m.xy, m.xz, v.x, v.y, v.z),
           Dot(m.yx, m.yy, m.yz, v.x, v.y, v.z),
           Dot(m.zx, m.zy, m.zz, v.x, v.y, v.z))
  }

  function MatrixMultiply(m: Matrix, n: Matrix): Matrix {
    Matrix(Dot(m.xx, m.xy, m.xz, n.xx, n.yx, n.zx), Dot(m.xx, m.xy, m.xz, n.xy, n.yy, n.zy),
           Dot(m.xx, m.xy, m.xz, n.xz, n.yz, n.zz),
           Dot(m.yx, m.yy, m.yz, n.xx, n.yx, n.zx), Dot(m.yx, m.yy, m.yz, n.xy, n.yy, n.zy),
           Dot(m.yx, m.yy, m.yz, n.xz, n.yz, n.zz),
           Dot(m.zx, m.zy, m.zz, n.xx, n.yx, n.zx), Dot(m.zx, m.zy, m.zz, n.xy, n.yy, n.zy),
           Dot(m.zx, m.zy, m.zz, n.xz, n.yz, n.zz))
  }

  function Transpose(m: Matrix): Matrix {
    Matrix(m.xx, m.yx, m.zx, m.xy, m.yy, m.zy, m.xz, m.yz, m.zz)
  }

  function Conjugate(q: Quaternion): Quaternion {
    Quaternion(q.w, -q.x, -q.y, -q.z)
  }

  // ---------- The same matrix without the unit norm built in

  function Diagonal(s: real, t: real, u: real, v: real): real {
    s * s + t * t - u * u - v * v
  }

  function Homogeneous(q: Quaternion): Matrix {
    Matrix(Diagonal(q.w, q.x, q.y, q.z), TwiceDifference(q.x, q.y, q.w, q.z), TwiceSum(q.x, q.z, q.w, q.y),
           TwiceSum(q.y, q.x, q.w, q.z), Diagonal(q.w, q.y, q.z, q.x), TwiceDifference(q.y, q.z, q.w, q.x),
           TwiceDifference(q.z, q.x, q.w, q.y), TwiceSum(q.z, q.y, q.w, q.x), Diagonal(q.w, q.z, q.x, q.y))
  }

  lemma UnitDiagonal(w: real, x: real, y: real, z: real)
    requires w * w + x * x + y * y + z * z == 1.0
    ensures Unit(w, x) == Diagonal(w, x, y, z)
  {
  }

  lemma UnitDiagonals(q: Quaternion)
    requires NormSquared(q) == 1.0
    ensures Unit(q.w, q.x) == Diagonal(q.w, q.x, q.y, q.z)
    ensures Unit(q.w, q.y) == Diagonal(q.w, q.y, q.z, q.x)
    ensures Unit(q.w, q.z) == Diagonal(q.w, q.z, q.x, q.y)
  {
    UnitDiagonal(q.w, q.x, q.y, q.z);
    UnitDiagonal(q.w, q.y, q.z, q.x);
    UnitDiagonal(q.w, q.z, q.x, q.y);
  }

  lemma UnitIsHomogeneous(q: Quaternion)
    requires NormSquared(q) == 1.0
    ensures QuaternionToMatrix(q) == Homogeneous(q)
  {
    hide Diagonal, TwiceSum, TwiceDifference, NormSquared, Unit;
    UnitDiagonals(q);
  }

  // The product of two such matrices, entry by entry; the nine entries are three up to renaming the axes in a circle.

  lemma EntryXX(aw: real, ax: real, ay: real, az: real, bw: real, bx: real, b_y: real, bz: real)
    ensures Diagonal(aw * bw - ax * bx - ay * b_y - az * bz, aw * bx + ax * bw + ay * bz - az * b_y,
                     aw * b_y - ax * bz + ay * bw + az * bx, aw * bz + ax * b_y - ay * bx + az * bw)
         == Dot(Diagonal(aw, ax, ay, az), TwiceDifference(ax, ay, aw, az), TwiceSum(ax, az, aw, ay),
                Diagonal(bw, bx, b_y, bz), TwiceSum(b_y, bx, bw, bz), TwiceDifference(bz, bx, bw, b_y))
  {
    assert Dot(Diagonal(aw, ax, ay, az), TwiceDifference(ax, ay, aw, az), TwiceSum(ax, az, aw, ay),
               Diagonal(bw, bx, b_y, bz), TwiceSum(b_y, bx, bw, bz), TwiceDifference(bz, bx, bw, b_y))
        == Dot(aw * aw + ax * ax - ay * ay - az * az, 2.0 * (ax * ay - aw * az), 2.0 * (ax * az + aw * ay),
               bw * bw + bx * bx - b_y * b_y - bz * bz, 2.0 * (b_y * bx + bw * bz), 2.0 * (bz * bx - bw * b_y));
  }

  lemma EntryXY(aw: real, ax: real, ay: real, az: real, bw: real, bx: real, b_y: real, bz: real)
    ensures TwiceDifference(aw * bx + ax * bw + ay * bz - az * b_y, aw * b_y - ax * bz + ay * bw + az * bx,
                            aw * bw - ax * bx - ay * b_y - az * bz, aw * bz + ax * b_y - ay * bx + az * bw)
         == Dot(Diagonal(aw, ax, ay, az), TwiceDifference(ax, ay, aw, az), TwiceSum(ax, az, aw, ay),
                TwiceDifference(bx, b_y, bw, bz), Diagonal(bw, b_y, bz, bx), TwiceSum(bz, b_y, bw, bx))
  {
    assert Dot(Diagonal(aw, ax, ay, az), TwiceDifference(ax, ay, aw, az), TwiceSum(ax, az, aw, ay),
               TwiceDifference(bx, b_y, bw, bz), Diagonal(bw, b_y, bz, bx), TwiceSum(bz, b_y, bw, bx))
        == Dot(aw * aw + ax * ax - ay * ay - az * az, 2.0 * (ax * ay - aw * az), 2.0 * (ax * az + aw * ay),
               2.0 * (bx * b_y - bw * bz), bw * bw + b_y * b_y - bz * bz - bx * bx, 2.0 * (bz * b_y + bw * bx));
  }

  lemma EntryXZ(aw: real, ax: real, ay: real, az: real, bw: real, bx: real, b_y: real, bz: real)
    ensures TwiceSum(aw * bx + ax * bw + ay * bz - az * b_y, aw * bz + ax * b_y - ay * bx + az * bw,
                     aw * bw - ax * bx - ay * b_y - az * bz, aw * b_y - ax * bz + ay * bw + az * bx)
         == Dot(Diagonal(aw, ax, ay, az), TwiceDifference(ax, ay, aw, az), TwiceSum(ax, az, aw, ay),
                TwiceSum(bx, bz, bw, b_y), TwiceDifference(b_y, bz, bw, bx), Diagonal(bw, bz, bx, b_y))
  {
    assert Dot(Diagonal(aw, ax, ay, az), TwiceDifference(ax, ay, aw, az), TwiceSum(ax, az, aw, ay),
               TwiceSum(bx, bz, bw, b_y), TwiceDifference(b_y, bz, bw, bx), Diagonal(bw, bz, bx, b_y))
        == Dot(aw * aw + ax * ax - ay * ay - az * az, 2.0 * (ax * ay - aw * az), 2.0 * (ax * az + aw * ay),
               2.0 * (bx * bz + bw * b_y), 2.0 * (b_y * bz - bw * bx), bw * bw + bz * bz - bx * bx - b_y * b_y);
  }

  /** The first row of the matrix of a product, with the axes named x, y, z in any cyclic order. */
  lemma EntryRow(aw: real, ax: real, ay: real, az: real, bw: real, bx: real, b_y: real, bz: real,
                 w: real, x: real, y: real, z: real)
    requires w == aw * bw - ax * bx - ay * b_y - az * bz && x == aw * bx + ax * bw + ay * bz - az * b_y
    requires y == aw * b_y - ax * bz + ay * bw + az * bx && z == aw * bz + ax * b_y - ay * bx + az * bw
    ensures Diagonal(w, x, y, z)
         == Dot(Diagonal(aw, ax, ay, az), TwiceDifference(ax, ay, aw, az), TwiceSum(ax, az, aw, ay),
                Diagonal(bw, bx, b_y, bz), TwiceSum(b_y, bx, bw, bz), TwiceDifference(bz, bx, bw, b_y))
    ensures TwiceDifference(x, y, w, z)
         == Dot(Diagonal(aw, ax, ay, az), TwiceDifference(ax, ay, aw, az), TwiceSum(ax, az, aw, ay),
                TwiceDifference(bx, b_y, bw, bz), Diagonal(bw, b_y, bz, bx), TwiceSum(bz, b_y, bw, bx))
    ensures TwiceSum(x, z, w, y)
         == Dot(Diagonal(aw, ax, ay, az), TwiceDifference(ax, ay, aw, az), TwiceSum(ax, az, aw, ay),
                TwiceSum(bx, bz, bw, b_y), TwiceDifference(b_y, bz, bw, bx), Diagonal(bw, bz, bx, b_y))
  {
    hide Diagonal, TwiceSum, TwiceDifference, Dot;
    EntryXX(aw, ax, ay, az, bw, bx, b_y, bz);
    EntryXY(aw, ax, ay, az, bw, bx, b_y, bz);
    EntryXZ(aw, ax, ay, az, bw, bx, b_y, bz);
  }

  lemma DotRotates()
    ensures forall a, b, c, d, e, f :: Dot(a, b, c, d, e, f) == Dot(b, c, a, e, f, d)
  {
  }

  lemma HomogeneousOfProduct(a: Quaternion, b: Quaternion)
    ensures Homogeneous(QuaternionMultiply(a, b)) == MatrixMultiply(Homogeneous(a), Homogeneous(b))
  {
    hide Diagonal, TwiceSum, TwiceDifference, Dot;
    var q := QuaternionMultiply(a, b);
    EntryRow(a.w, a.x, a.y, a.z, b.w, b.x, b.y, b.z, q.w, q.x, q.y, q.z);
    EntryRow(a.w, a.y, a.z, a.x, b.w, b.y, b.z, b.x, q.w, q.y, q.z, q.x);
    EntryRow(a.w, a.z, a.x, a.y, b.w, b.z, b.x, b.y, q.w, q.z, q.x, q.y);
    DotRotates();
  }

  function Times(s: real, t: real): real {
    s * t
  }

  lemma FourSquares(aw: real, ax: real, ay: real, az: real, bw: real, bx: real, b_y: real, bz: real)
    ensures SumOfSquares(aw * bw - ax * bx - ay * b_y - az * bz, aw * bx + ax * bw + ay * bz - az * b_y,
                         aw * b_y - ax * bz + ay * bw + az * bx, aw * bz + ax * b_y - ay * bx + az * bw)
         == Times(SumOfSquares(aw, ax, ay, az), SumOfSquares(bw, bx, b_y, bz))
  {
    assert Times(SumOfSquares(aw, ax, ay, az), SumOfSquares(bw, bx, b_y, bz))
        == (aw * aw + ax * ax + ay * ay + az * az) * (bw * bw + bx * bx + b_y * b_y + bz * bz);
  }

  lemma FourSquaresOf(aw: real, ax: real, ay: real, az: real, bw: real, bx: real, b_y: real, bz: real,
                      w: real, x: real, y: real, z: real)
    requires w == aw * bw - ax * bx - ay * b_y - az * bz && x == aw * bx + ax * bw + ay * bz - az * b_y
    requires y == aw * b_y - ax * bz + ay * bw + az * bx && z == aw * bz + ax * b_y - ay * bx + az * bw
    ensures SumOfSquares(w, x, y, z) == Times(SumOfSquares(aw, ax, ay, az), SumOfSquares(bw, bx, b_y, bz))
  {
    hide SumOfSquares, Times;
    FourSquares(aw, ax, ay, az, bw, bx, b_y, bz);
  }

  lemma NormTimes(a: Quaternion, b: Quaternion)
    ensures NormSquared(QuaternionMultiply(a, b)) == Times(NormSquared(a), NormSquared(b))
  {
    hide SumOfSquares, Times;
    var q := QuaternionMultiply(a, b);
    FourSquaresOf(a.w, a.x, a.y, a.z, b.w, b.x, b.y, b.z, q.w, q.x, q.y, q.z);
  }

  lemma NormOfProduct(a: Quaternion, b: Quaternion)
    ensures NormSquared(QuaternionMultiply(a, b)) == NormSquared(a) * NormSquared(b)
  {
    hide NormSquared, QuaternionMultiply;
    NormTimes(a, b);
  }

  // ---------- Unit quaternions

  /** The matrix of a product is the product of the matrices. */
  lemma MatrixOfProduct(a: Quaternion, b: Quaternion)
    requires NormSquared(a) == 1.0 && NormSquared(b) == 1.0
    ensures NormSquared(QuaternionMultiply(a, b)) == 1.0
    ensures QuaternionToMatrix(QuaternionMultiply(a, b)) == MatrixMultiply(QuaternionToMatrix(a), QuaternionToMatrix(b))
  {
    hide Homogeneous, QuaternionToMatrix, NormSquared, QuaternionMultiply, MatrixMultiply;
    NormOfProduct(a, b);
    UnitIsHomogeneous(a);
    UnitIsHomogeneous(b);
    UnitIsHomogeneous(QuaternionMultiply(a, b));
    HomogeneousOfProduct(a, b);
  }

  lemma ConjugateNorm(q: Quaternion)
    ensures NormSquared(Conjugate(q)) == NormSquared(q)
  {
  }

  lemma ConjugateMatrix(q: Quaternion)
    ensures QuaternionToMatrix(Conjugate(q)) == Transpose(QuaternionToMatrix(q))
  {
    hide TwiceSum, TwiceDifference, Unit;
    ConjugateEntries(q.w, q.x, q.y, q.z);
    ConjugateEntries(q.w, q.y, q.z, q.x);
    ConjugateEntries(q.w, q.z, q.x, q.y);
  }

  lemma ConjugateEntries(w: real, x: real, y: real, z: real)
    ensures Unit(w, -x) == Unit(w, x)
    ensures TwiceDifference(-x, -y, w, -z) == TwiceSum(y, x, w, z) && TwiceSum(-y, -x, w, -z) == TwiceDifference(x, y, w, z)
  {
  }

  lemma ConjugateInverse(q: Quaternion)
    requires NormSquared(q) == 1.0
    ensures QuaternionMultiply(q, Conjugate(q)) == Quaternion(1.0, 0.0, 0.0, 0.0) == QuaternionMultiply(Conjugate(q), q)
  {
  }

  lemma MatrixOfOne()
    ensures QuaternionToMatrix(Quaternion(1.0, 0.0, 0.0, 0.0)) == IDENTITY
  {
  }

  /** The matrix of a unit quaternion is orthogonal. */
  lemma MatrixOrthogonal(q: Quaternion)
    requires NormSquared(q) == 1.0
    ensures MatrixMultiply(Transpose(QuaternionToMatrix(q)), QuaternionToMatrix(q)) == IDENTITY
    ensures MatrixMultiply(QuaternionToMatrix(q), Transpose(QuaternionToMatrix(q))) == IDENTITY
  {
    hide QuaternionToMatrix, NormSquared, QuaternionMultiply, MatrixMultiply, Conjugate, Transpose;
    ConjugateNorm(q);
    ConjugateMatrix(q);
    ConjugateInverse(q);
    MatrixOfProduct(q, Conjugate(q));
    MatrixOfProduct(Conjugate(q), q);
    MatrixOfOne();
  }
}
