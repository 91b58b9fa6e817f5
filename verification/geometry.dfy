/**
 * Points, rotation matrices and the two rigid motions the solver applies to
 * joints. The source works in single-precision floats; this model uses reals,
 * and the two places where the source needs a square root (the vector length
 * and the rotation-matrix entries of ik_align_branch) are supplied by a
 * FloatOps value instead of being computed here.
 */
module Geometry {
  import opened Wrappers

  datatype Vec = Vec(x: real, y: real)

  function Add(a: Vec, b: Vec): Vec { Vec(a.x + b.x, a.y + b.y) }

  function Sub(a: Vec, b: Vec): Vec { Vec(a.x - b.x, a.y - b.y) }

  function Neg(a: Vec): Vec { Vec(-a.x, -a.y) }

  /** Squared length of a vector (the model never takes the square root). */
  function Norm2(v: Vec): real
  {
    v.x * v.x + v.y * v.y
  }

  /** Squared Euclidean distance. */
  function Dist2(a: Vec, b: Vec): real
  {
    Norm2(Sub(a, b))
  }

  /**
   * Entries of a rotation matrix as the source stores them:
   * C = cos |angle|, S = sin |angle|, P = sign of the angle.
   */
  datatype Matrix = Matrix(C: real, S: real, P: real)

  /** The entries describe a proper rotation. */
  ghost predicate IsRotation(m: Matrix)
  {
    m.C * m.C + m.S * m.S == 1.0 && (m.P == 1.0 || m.P == -1.0)
  }

  /** The matrix [[C, -P*S], [P*S, C]] applied to v. */
  function Rotate(m: Matrix, v: Vec): Vec
  {
    Vec(m.C * v.x + (-m.P * m.S) * v.y, (m.P * m.S) * v.x + m.C * v.y)
  }

  /**
   * The map applied to every joint of a branch: a plain translation, or
   * "translate by offset, then rotate about pivot".
   */
  datatype Motion = Shift(delta: Vec) | Turn(pivot: Vec, mat: Matrix, offset: Vec)

  function Apply(mo: Motion, p: Vec): Vec
  {
    match mo
    case Shift(d) => Add(p, d)
    case Turn(pivot, m, off) => Add(pivot, Rotate(m, Sub(Add(p, off), pivot)))
  }

  /** A motion is rigid when it is a translation or its matrix is a rotation. */
  ghost predicate Rigid(mo: Motion)
  {
    mo.Turn? ==> IsRotation(mo.mat)
  }

  /**
   * The two float results reals cannot reproduce, taken as parameters:
   * `sqrt` is the square root (IK_SQRT), and `overZero(a)` is a real that
   * stands for what the division a / 0 yields. In IEEE arithmetic that is an
   * infinity or NaN, which no real can represent, so results reached through
   * a division by zero are not faithful.
   */
  datatype FloatOps = FloatOps(sqrt: real -> real, overZero: real -> real)

  /** The square root is exact: non-negative, and it squares back to its argument. */
  ghost predicate ExactSqrt(ops: FloatOps)
  {
    forall v :: v >= 0.0 ==> ops.sqrt(v) >= 0.0 && ops.sqrt(v) * ops.sqrt(v) == v
  }

  /** The helper `length`: the length of the vector (x, y). */
  function Length(ops: FloatOps, x: real, y: real): real
  {
    ops.sqrt(x * x + y * y)
  }

  /** Division as the source performs it, including the division by zero. */
  function Quot(a: real, b: real, ops: FloatOps): real
  {
    if b == 0.0 then ops.overZero(a) else a / b
  }

  /**
   * Where ik_move_within_dist puts a joint at p: on the ray from t through p,
   * `distance` away from t; onto t itself when the length of p - t is zero.
   */
  function Moved(p: Vec, distance: real, t: Vec, ops: FloatOps): Vec
  {
    var d := Sub(p, t);
    var n := Length(ops, d.x, d.y);
    if n == 0.0 then t else Add(t, Vec(distance * d.x / n, distance * d.y / n))
  }

  /** The source's `S2 > 0.0f ? S2 : 0.0f`: negative values are clamped to zero. */
  function Clamp(v: real): (r: real)
    ensures r >= 0.0
    ensures v >= 0.0 ==> r == v
  {
    if v > 0.0 then v else 0.0
  }

  /**
   * The rotation ik_align_branch derives from the old and new offsets of a
   * joint to its parent: C is the cosine of the angle between them, S the
   * square root of 1 - C*C (clamped at 0), P the sign of their cross product.
   */
  function AlignMatrix(from: Vec, to: Vec, ops: FloatOps): Matrix
  {
    var c := Cosine(from, to, ops);
    Matrix(c, Sine(c, ops), Orientation(from, to))
  }

  /** The cosine of the angle from `from` to `to`: their dot product over the product of their lengths. */
  function Cosine(from: Vec, to: Vec, ops: FloatOps): real
  {
    Quot(from.x * to.x + from.y * to.y, Length(ops, from.x, from.y) * Length(ops, to.x, to.y), ops)
  }

  /** The sign of the angle from `from` to `to`: 1 when their cross product is positive, -1 otherwise. */
  function Orientation(from: Vec, to: Vec): (p: real)
    ensures p == 1.0 || p == -1.0
  {
    if from.x * to.y - from.y * to.x > 0.0 then 1.0 else -1.0
  }

  /** The sine ik_align_branch derives from the cosine c. */
  function Sine(c: real, ops: FloatOps): real
  {
    ops.sqrt(Clamp(1.0 - c * c))
  }

  /**
   * The motion a branch hanging off a joint receives when the joint moved
   * from org to now: a translation by the joint's displacement when the joint
   * has no parent, otherwise the rotation ik_align_branch derives from the
   * joint's old and new offsets to its parent, pivoting on the joint.
   */
  function BranchMotion(org: Vec, now: Vec, parentPos: Option<Vec>, ops: FloatOps): Motion
  {
    match parentPos
    case None => Shift(Sub(now, org))
    case Some(pp) =>
      var from := Sub(org, pp);
      var to := Sub(now, pp);
      Turn(now, AlignMatrix(from, to, ops), Sub(to, from))
  }

  /** Translating by d and then by -d restores the point. */
  lemma ShiftRoundTrip(d: Vec, p: Vec)
    ensures Apply(Shift(Neg(d)), Apply(Shift(d), p)) == p
  {
  }

  /** A rotation keeps the squared length of a vector. */
  lemma RotateKeepsNorm(m: Matrix, v: Vec)
    requires IsRotation(m)
    ensures Norm2(Rotate(m, v)) == Norm2(v)
  {
    var c, s, p, x, y := m.C, m.S, m.P, v.x, v.y;
    var r := Rotate(m, v);
    assert p * p == 1.0;
    calc {
      Norm2(r);
      (c * x - p * s * y) * (c * x - p * s * y) + (p * s * x + c * y) * (p * s * x + c * y);
      c * c * x * x + (p * p) * s * s * y * y + (p * p) * s * s * x * x + c * c * y * y;
      c * c * x * x + s * s * y * y + s * s * x * x + c * c * y * y;
      (c * c + s * s) * (x * x + y * y);
      x * x + y * y;
    }
  }

  /** Rotation distributes over the difference of two vectors. */
  lemma RotateSub(m: Matrix, a: Vec, b: Vec)
    ensures Sub(Rotate(m, a), Rotate(m, b)) == Rotate(m, Sub(a, b))
  {
    var c, q := m.C, m.P * m.S;
    assert c * a.x + (-q) * a.y - (c * b.x + (-q) * b.y) == c * (a.x - b.x) + (-q) * (a.y - b.y);
    assert q * a.x + c * a.y - (q * b.x + c * b.y) == q * (a.x - b.x) + c * (a.y - b.y);
  }

  /** A rigid motion keeps every pairwise distance. */
  lemma RigidKeepsDistance(mo: Motion, a: Vec, b: Vec)
    requires Rigid(mo)
    ensures Dist2(Apply(mo, a), Apply(mo, b)) == Dist2(a, b)
  {
    match mo
    case Shift(d) =>
      assert Sub(Apply(mo, a), Apply(mo, b)) == Sub(a, b);
    case Turn(pivot, m, off) =>
      var u := Sub(Add(a, off), pivot);
      var w := Sub(Add(b, off), pivot);
      assert Sub(u, w) == Sub(a, b);
      RotateSub(m, u, w);
      assert Sub(Apply(mo, a), Apply(mo, b)) == Sub(Rotate(m, u), Rotate(m, w));
      RotateKeepsNorm(m, Sub(u, w));
  }

  /** The branch motion carries the joint's old position onto its new one. */
  lemma BranchMotionFollowsJoint(org: Vec, now: Vec, parentPos: Option<Vec>, ops: FloatOps)
    ensures Apply(BranchMotion(org, now, parentPos, ops), org) == now
  {
    match parentPos
    case None =>
    case Some(pp) =>
      var from := Sub(org, pp);
      var to := Sub(now, pp);
      var m := AlignMatrix(from, to, ops);
      assert Sub(Add(org, Sub(to, from)), now) == Vec(0.0, 0.0);
      assert Rotate(m, Vec(0.0, 0.0)) == Vec(0.0, 0.0);
  }

  /**
   * Once the matrix is a rotation, a branch aligned after its joint moved
   * from org to now keeps its shape and its distance to the joint.
   */
  lemma BranchMotionRigid(org: Vec, now: Vec, parentPos: Option<Vec>, ops: FloatOps, a: Vec, b: Vec)
    requires Rigid(BranchMotion(org, now, parentPos, ops))
    ensures var mo := BranchMotion(org, now, parentPos, ops);
            Dist2(Apply(mo, a), Apply(mo, b)) == Dist2(a, b) && Dist2(Apply(mo, a), now) == Dist2(a, org)
  {
    var mo := BranchMotion(org, now, parentPos, ops);
    RigidKeepsDistance(mo, a, b);
    RigidKeepsDistance(mo, a, org);
    BranchMotionFollowsJoint(org, now, parentPos, ops);
  }

  /** Scaling a vector of squared length n * n by distance / n gives squared length distance * distance. */
  lemma ScaledLength(v: Vec, n: real, distance: real)
    requires n != 0.0 && n * n == Norm2(v)
    ensures Norm2(Vec(distance * v.x / n, distance * v.y / n)) == distance * distance
  {
    var k, dx, dy := distance / n, v.x, v.y;
    assert distance * dx / n == k * dx;
    assert distance * dy / n == k * dy;
    calc {
      (k * dx) * (k * dx) + (k * dy) * (k * dy);
      k * k * (dx * dx + dy * dy);
      k * k * (n * n);
      (k * n) * (k * n);
      distance * distance;
    }
  }

  /** A point offset by w from t lies at the squared distance Norm2(w) from t. */
  lemma OffsetLength(t: Vec, w: Vec, distance: real)
    requires Norm2(w) == distance * distance
    ensures Dist2(Add(t, w), t) == distance * distance
  {
    assert Sub(Add(t, w), t) == w;
  }

  /** A sum of two squares is never negative. */
  lemma SumSquaresNonNeg(x: real, y: real)
    ensures x * x + y * y >= 0.0
  {
    if x < 0.0 {
      assert (-x) * (-x) >= 0.0;
    }
    if y < 0.0 {
      assert (-y) * (-y) >= 0.0;
    }
  }

  /** With an exact square root, `length` is non-negative and squares to the squared length. */
  lemma LengthSquared(ops: FloatOps, v: Vec)
    requires ExactSqrt(ops)
    ensures Length(ops, v.x, v.y) >= 0.0
    ensures Length(ops, v.x, v.y) * Length(ops, v.x, v.y) == Norm2(v)
  {
    SumSquaresNonNeg(v.x, v.y);
  }

  /** A joint whose offset to the target has non-zero computed length lands `distance` away from the target. */
  lemma MovedOnCircle(p: Vec, distance: real, t: Vec, ops: FloatOps)
    requires ExactSqrt(ops) && Length(ops, Sub(p, t).x, Sub(p, t).y) != 0.0
    ensures Dist2(Moved(p, distance, t, ops), t) == distance * distance
  {
    var v := Sub(p, t);
    var n := Length(ops, v.x, v.y);
    var w := Vec(distance * v.x / n, distance * v.y / n);
    assert Moved(p, distance, t, ops) == Add(t, w);
    LengthSquared(ops, v);
    ScaledLength(v, n, distance);
    OffsetLength(t, w, distance);
  }

  /**
   * ik_move_within_dist puts a joint that coincides with the target onto the
   * target, and, with an exact square root, a joint whose offset has non-zero
   * computed length exactly `distance` away from the target.
   */
  lemma MovedWithinDistance(p: Vec, distance: real, t: Vec, ops: FloatOps)
    requires ExactSqrt(ops)
    ensures p == t ==> Moved(p, distance, t, ops) == t
    ensures Length(ops, Sub(p, t).x, Sub(p, t).y) != 0.0 ==> Dist2(Moved(p, distance, t, ops), t) == distance * distance
  {
    if Length(ops, Sub(p, t).x, Sub(p, t).y) != 0.0 {
      MovedOnCircle(p, distance, t, ops);
    }
  }

  /** Moving within distance 0 of a target puts the joint on the target, whatever the square root. */
  lemma MovedZero(p: Vec, t: Vec, ops: FloatOps)
    ensures Moved(p, 0.0, t, ops) == t
  {
  }

  /** With an exact square root, a cosine in [-1, 1] and the sine derived from it satisfy C*C + S*S == 1. */
  lemma SineOfCosine(c: real, ops: FloatOps)
    requires ExactSqrt(ops) && c * c <= 1.0
    ensures c * c + Sine(c, ops) * Sine(c, ops) == 1.0
  {
    assert Clamp(1.0 - c * c) == 1.0 - c * c;
  }

  /** Cauchy–Schwarz in the plane: the squared dot product is at most the product of the squared norms. */
  lemma CauchySchwarz(a: real, b: real, c: real, d: real)
    ensures (a * c + b * d) * (a * c + b * d) <= (a * a + b * b) * (c * c + d * d)
  {
    assert (a * a + b * b) * (c * c + d * d) - (a * c + b * d) * (a * c + b * d) == (a * d - b * c) * (a * d - b * c);
  }

  /**
   * With an exact square root, the cosine ik_align_branch computes lies in
   * [-1, 1] whenever both offsets have non-zero computed length.
   */
  lemma CosineBounded(from: Vec, to: Vec, ops: FloatOps)
    requires ExactSqrt(ops)
    requires Length(ops, from.x, from.y) != 0.0 && Length(ops, to.x, to.y) != 0.0
    ensures Cosine(from, to, ops) * Cosine(from, to, ops) <= 1.0
  {
    LengthSquared(ops, from);
    LengthSquared(ops, to);
    CauchySchwarz(from.x, from.y, to.x, to.y);
    QuotientBound(from.x * to.x + from.y * to.y, Length(ops, from.x, from.y), Length(ops, to.x, to.y));
  }

  /** A value whose square is at most (a*a)*(b*b), divided by a*b (both positive), squares to at most 1. */
  lemma QuotientBound(dot: real, a: real, b: real)
    requires a > 0.0 && b > 0.0 && dot * dot <= (a * a) * (b * b)
    ensures (dot / (a * b)) * (dot / (a * b)) <= 1.0
  {
    var m := a * b;
    assert m > 0.0;
    assert m * m == (a * a) * (b * b);
    UnitBound(dot / m, m, dot);
  }

  /** A quotient c = dot / m with m positive and dot*dot <= m*m lies in [-1, 1], so c*c <= 1. */
  lemma UnitBound(c: real, m: real, dot: real)
    requires m > 0.0 && c * m == dot && dot * dot <= m * m
    ensures c * c <= 1.0
  {
    if c > 1.0 {
      assert c * m > 1.0 * m;
      SquareGrows(dot, m);
    } else if c < -1.0 {
      assert c * m < -1.0 * m;
      NegSquareGrows(dot, m);
    } else {
      UnitSquare(c);
    }
  }

  /** Squaring is increasing on positive reals. */
  lemma SquareGrows(u: real, v: real)
    requires u > v > 0.0
    ensures u * u > v * v
  {
    assert u * u > u * v;
    assert u * v > v * v;
  }

  /** A value below -v, for positive v, squares to more than v*v. */
  lemma NegSquareGrows(u: real, v: real)
    requires -u > v > 0.0
    ensures u * u > v * v
  {
    assert u * u > u * (-v);
    assert u * (-v) > v * v;
  }

  /** A real in [-1, 1] squares to at most 1. */
  lemma UnitSquare(c: real)
    requires -1.0 <= c <= 1.0
    ensures c * c <= 1.0
  {
    if c >= 0.0 {
      assert c * c <= c * 1.0;
    } else {
      assert c * c <= c * -1.0;
    }
  }

  /**
   * With an exact square root, the matrix ik_align_branch builds is a
   * rotation whenever both offsets have non-zero computed length: C*C + S*S
   * == 1, and P is 1 or -1.
   */
  lemma AlignMatrixShape(from: Vec, to: Vec, ops: FloatOps)
    requires ExactSqrt(ops)
    requires Length(ops, from.x, from.y) != 0.0 && Length(ops, to.x, to.y) != 0.0
    ensures IsRotation(AlignMatrix(from, to, ops))
  {
    var c := Cosine(from, to, ops);
    CosineBounded(from, to, ops);
    SineOfCosine(c, ops);
    assert AlignMatrix(from, to, ops) == Matrix(c, Sine(c, ops), Orientation(from, to));
  }
}
