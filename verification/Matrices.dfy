/** 4x4 matrices in row-vector form, numbered row by row; exact real arithmetic. */
module Matrices {

  datatype Mat = Mat(m0: real, m1: real, m2: real, m3: real, m4: real, m5: real, m6: real, m7: real, m8: real,
                     m9: real, m10: real, m11: real, m12: real, m13: real, m14: real, m15: real)

  const IDENTITY := Mat(1.0, 0.0, 0.0, 0.0, 0.0, 1.0, 0.0, 0.0, 0.0, 0.0, 1.0, 0.0, 0.0, 0.0, 0.0, 1.0)

  function Dot(a: real, b: real, c: real, d: real, w: real, x: real, y: real, z: real): real {
    a * w + b * x + c * y + d * z
  }

  /** The product `a * b`: first `a`, then `b`, on row vectors. */
  function Product(a: Mat, b: Mat): Mat {
    Mat(Dot(a.m0, a.m1, a.m2, a.m3, b.m0, b.m4, b.m8, b.m12),
        Dot(a.m0, a.m1, a.m2, a.m3, b.m1, b.m5, b.m9, b.m13),
        Dot(a.m0, a.m1, a.m2, a.m3, b.m2, b.m6, b.m10, b.m14),
        Dot(a.m0, a.m1, a.m2, a.m3, b.m3, b.m7, b.m11, b.m15),
        Dot(a.m4, a.m5, a.m6, a.m7, b.m0, b.m4, b.m8, b.m12),
        Dot(a.m4, a.m5, a.m6, a.m7, b.m1, b.m5, b.m9, b.m13),
        Dot(a.m4, a.m5, a.m6, a.m7, b.m2, b.m6, b.m10, b.m14),
        Dot(a.m4, a.m5, a.m6, a.m7, b.m3, b.m7, b.m11, b.m15),
        Dot(a.m8, a.m9, a.m10, a.m11, b.m0, b.m4, b.m8, b.m12),
        Dot(a.m8, a.m9, a.m10, a.m11, b.m1, b.m5, b.m9, b.m13),
        Dot(a.m8, a.m9, a.m10, a.m11, b.m2, b.m6, b.m10, b.m14),
        Dot(a.m8, a.m9, a.m10, a.m11, b.m3, b.m7, b.m11, b.m15),
        Dot(a.m12, a.m13, a.m14, a.m15, b.m0, b.m4, b.m8, b.m12),
        Dot(a.m12, a.m13, a.m14, a.m15, b.m1, b.m5, b.m9, b.m13),
        Dot(a.m12, a.m13, a.m14, a.m15, b.m2, b.m6, b.m10, b.m14),
        Dot(a.m12, a.m13, a.m14, a.m15, b.m3, b.m7, b.m11, b.m15))
  }

  /** The guard of the shortcut: the first three rows are those of the identity. */
  predicate OnlyTranslates(t: Mat) {
    t == IDENTITY.(m12 := t.m12, m13 := t.m13, m14 := t.m14, m15 := t.m15)
  }

  function Shortcut(y: Mat, t: Mat): Mat {
    y.(m12 := y.m12 * t.m0 + y.m15 * t.m12,
       m13 := y.m13 * t.m5 + y.m15 * t.m13,
       m14 := y.m14 * t.m10 + y.m15 * t.m14,
       m15 := y.m15 * t.m15)
  }

  /** The transform method: the shortcut under its guard, otherwise the product. */
  function Transformed(y: Mat, t: Mat): Mat {
    if OnlyTranslates(t) then Shortcut(y, t) else Product(y, t)
  }

  /** The last column of the first three rows is zero. */
  predicate Affine(a: Mat) {
    a.m3 == a.m7 == a.m11 == 0.0
  }

  /** An affine matrix whose homogeneous factor is one: what translate, scale and rotate build. */
  predicate Placement(a: Mat) {
    Affine(a) && a.m15 == 1.0
  }

  /** The shortcut agrees with the product exactly when the columns it leaves alone would not change. */
  lemma ShortcutIsProductIff(y: Mat, t: Mat)
    requires OnlyTranslates(t)
    ensures Shortcut(y, t) == Product(y, t) <==> Affine(y) || t == IDENTITY
  {
    hide Dot;
    RowUnmoved(y.m0, y.m1, y.m2, y.m3, t);
    RowUnmoved(y.m4, y.m5, y.m6, y.m7, t);
    RowUnmoved(y.m8, y.m9, y.m10, y.m11, t);
    RowTimes(y.m12, y.m13, y.m14, y.m15, t);
    var s, p := Shortcut(y, t), Product(y, t);
    assert s.m12 == p.m12 && s.m13 == p.m13 && s.m14 == p.m14 && s.m15 == p.m15;
    assert (p.m0 == s.m0 && p.m1 == s.m1 && p.m2 == s.m2 && p.m3 == s.m3) <==> y.m3 == 0.0 || Idle(t);
    assert (p.m4 == s.m4 && p.m5 == s.m5 && p.m6 == s.m6 && p.m7 == s.m7) <==> y.m7 == 0.0 || Idle(t);
    assert (p.m8 == s.m8 && p.m9 == s.m9 && p.m10 == s.m10 && p.m11 == s.m11) <==> y.m11 == 0.0 || Idle(t);
    assert Idle(t) <==> t == IDENTITY;
  }

  predicate Idle(t: Mat) {
    t.m12 == t.m13 == t.m14 == 0.0 && t.m15 == 1.0
  }

  /** A row times a matrix that only translates. */
  lemma RowTimes(a: real, b: real, c: real, d: real, t: Mat)
    requires OnlyTranslates(t)
    ensures Dot(a, b, c, d, t.m0, t.m4, t.m8, t.m12) == a * t.m0 + d * t.m12
    ensures Dot(a, b, c, d, t.m1, t.m5, t.m9, t.m13) == b * t.m5 + d * t.m13
    ensures Dot(a, b, c, d, t.m2, t.m6, t.m10, t.m14) == c * t.m10 + d * t.m14
    ensures Dot(a, b, c, d, t.m3, t.m7, t.m11, t.m15) == d * t.m15
  {
    hide Dot;
    OnlyLast(a, b, c, d, t.m12, t.m13, t.m14, t.m15);
  }

  /** When a row is the same after the product as before. */
  lemma RowUnmoved(a: real, b: real, c: real, d: real, t: Mat)
    requires OnlyTranslates(t)
    ensures (Dot(a, b, c, d, t.m0, t.m4, t.m8, t.m12) == a && Dot(a, b, c, d, t.m1, t.m5, t.m9, t.m13) == b
             && Dot(a, b, c, d, t.m2, t.m6, t.m10, t.m14) == c && Dot(a, b, c, d, t.m3, t.m7, t.m11, t.m15) == d)
            <==> (d == 0.0 || Idle(t))
  {
    hide Dot;
    LastUnmoved(a, b, c, d, t.m12, t.m13, t.m14, t.m15);
  }

  lemma LastUnmoved(a: real, b: real, c: real, d: real, x: real, y: real, z: real, w: real)
    ensures (Dot(a, b, c, d, 1.0, 0.0, 0.0, x) == a && Dot(a, b, c, d, 0.0, 1.0, 0.0, y) == b
             && Dot(a, b, c, d, 0.0, 0.0, 1.0, z) == c && Dot(a, b, c, d, 0.0, 0.0, 0.0, w) == d)
            <==> (d == 0.0 || (x == y == z == 0.0 && w == 1.0))
  {
    OnlyLast(a, b, c, d, x, y, z, w);
    Vanishes(d, x, y, z, w);
    hide Dot;
  }

  lemma OnlyLast(a: real, b: real, c: real, d: real, x: real, y: real, z: real, w: real)
    ensures Dot(a, b, c, d, 1.0, 0.0, 0.0, x) == a + d * x == a * 1.0 + d * x
    ensures Dot(a, b, c, d, 0.0, 1.0, 0.0, y) == b + d * y == b * 1.0 + d * y
    ensures Dot(a, b, c, d, 0.0, 0.0, 1.0, z) == c + d * z == c * 1.0 + d * z
    ensures Dot(a, b, c, d, 0.0, 0.0, 0.0, w) == d * w
  {
  }

  lemma Vanishes(d: real, x: real, y: real, z: real, w: real)
    ensures d * x == 0.0 && d * y == 0.0 && d * z == 0.0 && d * w == d <==> d == 0.0 || (x == y == z == 0.0 && w == 1.0)
  {
    if d * x == 0.0 && d * y == 0.0 && d * z == 0.0 && d * w == d && d != 0.0 {
      Cancel(d, x);
      Cancel(d, y);
      Cancel(d, z);
      Cancel(d, w - 1.0);
    }
  }

  lemma Cancel(d: real, x: real)
    requires d != 0.0 && d * x == 0.0
    ensures x == 0.0
  {
    assert x == (d * x) / d;
  }

  /** So the method computes the product on every affine matrix. */
  lemma TransformedIsProduct(y: Mat, t: Mat)
    requires Affine(y)
    ensures Transformed(y, t) == Product(y, t)
  {
    if OnlyTranslates(t) {
      ShortcutIsProductIff(y, t);
    }
  }

  // ----- points -----

  datatype Point = Point(x: real, y: real, z: real)

  function Affinely(x: real, y: real, z: real, c: real, d: real, e: real, f: real): real {
    x * c + y * d + z * e + f
  }

  function Apply(a: Mat, p: Point): Point {
    Point(Affinely(p.x, p.y, p.z, a.m0, a.m4, a.m8, a.m12),
          Affinely(p.x, p.y, p.z, a.m1, a.m5, a.m9, a.m13),
          Affinely(p.x, p.y, p.z, a.m2, a.m6, a.m10, a.m14))
  }

  /** On placements the method composes: the result acts as the old matrix and then the new one. */
  lemma TransformedComposes(a: Mat, b: Mat, p: Point)
    requires Placement(a) && Placement(b)
    ensures Placement(Transformed(a, b))
    ensures Apply(Transformed(a, b), p) == Apply(b, Apply(a, p))
  {
    hide Dot, Affinely;
    TransformedIsProduct(a, b);
    ProductPlaces(a, b);
    Distributes(p.x, p.y, p.z, a, b.m0, b.m4, b.m8, b.m12);
    Distributes(p.x, p.y, p.z, a, b.m1, b.m5, b.m9, b.m13);
    Distributes(p.x, p.y, p.z, a, b.m2, b.m6, b.m10, b.m14);
  }

  lemma ProductPlaces(a: Mat, b: Mat)
    requires Placement(a) && Placement(b)
    ensures Placement(Product(a, b))
  {
  }

  lemma Distributes(x: real, y: real, z: real, a: Mat, b0: real, b4: real, b8: real, b12: real)
    requires Placement(a)
    ensures Affinely(x, y, z, Dot(a.m0, a.m1, a.m2, a.m3, b0, b4, b8, b12),
                     Dot(a.m4, a.m5, a.m6, a.m7, b0, b4, b8, b12),
                     Dot(a.m8, a.m9, a.m10, a.m11, b0, b4, b8, b12), Dot(a.m12, a.m13, a.m14, a.m15, b0, b4, b8, b12))
         == Affinely(Affinely(x, y, z, a.m0, a.m4, a.m8, a.m12), Affinely(x, y, z, a.m1, a.m5, a.m9, a.m13),
                     Affinely(x, y, z, a.m2, a.m6, a.m10, a.m14), b0, b4, b8, b12)
  {
    hide Dot, Affinely;
    DistributesOver(x, y, z, a.m0, a.m1, a.m2, a.m4, a.m5, a.m6, a.m8, a.m9, a.m10, a.m12, a.m13, a.m14, b0, b4,
                    b8, b12);
  }

  lemma DistributesOver(x: real, y: real, z: real, a0: real, a1: real, a2: real, a4: real, a5: real, a6: real,
                        a8: real, a9: real, a10: real, a12: real, a13: real, a14: real, b0: real, b4: real, b8: real,
                        b12: real)
    ensures Affinely(x, y, z, Dot(a0, a1, a2, 0.0, b0, b4, b8, b12), Dot(a4, a5, a6, 0.0, b0, b4, b8, b12),
                     Dot(a8, a9, a10, 0.0, b0, b4, b8, b12), Dot(a12, a13, a14, 1.0, b0, b4, b8, b12))
         == Affinely(Affinely(x, y, z, a0, a4, a8, a12), Affinely(x, y, z, a1, a5, a9, a13),
                     Affinely(x, y, z, a2, a6, a10, a14), b0, b4, b8, b12)
  {
    var p, q, r := Affinely(x, y, z, a0, a4, a8, a12), Affinely(x, y, z, a1, a5, a9, a13),
                   Affinely(x, y, z, a2, a6, a10, a14);
    FlatDot(a0, a1, a2, b0, b4, b8, b12);
    FlatDot(a4, a5, a6, b0, b4, b8, b12);
    FlatDot(a8, a9, a10, b0, b4, b8, b12);
    FlatDot(a12, a13, a14, b0, b4, b8, b12);
    assert Affinely(p, q, r, b0, b4, b8, b12) == p * b0 + q * b4 + r * b8 + b12;
    hide Affinely, Dot;
    ScaledRow(x, y, z, a0, a4, a8, a12, b0);
    ScaledRow(x, y, z, a1, a5, a9, a13, b4);
    ScaledRow(x, y, z, a2, a6, a10, a14, b8);
    Gathered(x, y, z, a0 * b0, a4 * b0, a8 * b0, a12 * b0, a1 * b4, a5 * b4, a9 * b4, a13 * b4,
             a2 * b8, a6 * b8, a10 * b8, a14 * b8, b12);
  }

  lemma FlatDot(a: real, b: real, c: real, w: real, x: real, y: real, z: real)
    ensures Dot(a, b, c, 0.0, w, x, y, z) == a * w + b * x + c * y
    ensures Dot(a, b, c, 1.0, w, x, y, z) == a * w + b * x + c * y + z
  {
  }

  lemma ScaledRow(x: real, y: real, z: real, a: real, b: real, c: real, d: real, m: real)
    ensures Affinely(x, y, z, a, b, c, d) * m == Affinely(x, y, z, a * m, b * m, c * m, d * m)
  {
  }

  lemma Gathered(x: real, y: real, z: real, p0: real, q0: real, r0: real, t0: real, p1: real, q1: real, r1: real,
                 t1: real,
                 p2: real, q2: real, r2: real, t2: real, t: real)
    ensures Affinely(x, y, z, p0 + p1 + p2, q0 + q1 + q2, r0 + r1 + r2, t0 + t1 + t2 + t)
         == Affinely(x, y, z, p0, q0, r0, t0) + Affinely(x, y, z, p1, q1, r1, t1)
             + Affinely(x, y, z, p2, q2, r2, t2) + t
  {
  }

  // ----- the inverse of a plane matrix -----

  /** The third row and column are those of the identity. */
  predicate Plane(a: Mat) {
    Placement(a) && a.m2 == a.m6 == a.m8 == a.m9 == a.m14 == 0.0 && a.m10 == 1.0
  }

  function Minor(a: real, b: real, c: real, d: real): real {
    a * d - b * c
  }

  function Over(x: real, t: real): real
    requires t != 0.0
  {
    x / t
  }

  function Determinant(a: Mat): real {
    Minor(a.m0, a.m1, a.m4, a.m5)
  }

  function Inverse(a: Mat): Mat
    requires Determinant(a) != 0.0
  {
    var t := Determinant(a);
    IDENTITY.(m0 := Over(a.m5, t), m1 := Over(-a.m1, t), m4 := Over(-a.m4, t), m5 := Over(a.m0, t),
              m12 := Over(Minor(a.m4, a.m5, a.m12, a.m13), t), m13 := Over(-Minor(a.m0, a.m1, a.m12, a.m13), t))
  }

  /** Mapping a point and mapping it back gives the point, in both orders and at every depth. */
  lemma InverseUndoes(a: Mat, p: Point)
    requires Plane(a) && Determinant(a) != 0.0
    ensures Apply(Inverse(a), Apply(a, p)) == p
    ensures Apply(a, Apply(Inverse(a), p)) == p
  {
    hide Linear, Apply, Minor, Over;
    var i := Inverse(a);
    PlaneApply(a, p);
    PlaneApply(i, p);
    PlaneApply(i, Apply(a, p));
    PlaneApply(a, Apply(i, p));
    Undo(p.x, p.y, a.m0, a.m1, a.m4, a.m5, a.m12, a.m13);
    Redo(p.x, p.y, a.m0, a.m1, a.m4, a.m5, a.m12, a.m13);
  }

  function Linear(x: real, y: real, c: real, d: real, e: real): real {
    x * c + y * d + e
  }

  lemma PlaneApply(a: Mat, p: Point)
    requires a.m2 == a.m6 == a.m8 == a.m9 == a.m14 == 0.0 && a.m10 == 1.0
    ensures Apply(a, p) == Point(Linear(p.x, p.y, a.m0, a.m4, a.m12), Linear(p.x, p.y, a.m1, a.m5, a.m13), p.z)
  {
  }

  lemma Undo(x: real, y: real, a: real, b: real, c: real, d: real, e: real, f: real)
    requires Minor(a, b, c, d) != 0.0
    ensures var t := Minor(a, b, c, d);
            var u, v := Linear(x, y, a, c, e), Linear(x, y, b, d, f);
            && Linear(u, v, Over(d, t), Over(-c, t), Over(Minor(c, d, e, f), t)) == x
            && Linear(u, v, Over(-b, t), Over(a, t), Over(-Minor(a, b, e, f), t)) == y
  {
    hide Linear, Minor, Over;
    var t := Minor(a, b, c, d);
    var u, v := Linear(x, y, a, c, e), Linear(x, y, b, d, f);
    Scale(u, v, d, -c, Minor(c, d, e, f), t);
    Scale(u, v, -b, a, -Minor(a, b, e, f), t);
    UndoScaled(x, y, a, b, c, d, e, f);
  }

  lemma UndoScaled(x: real, y: real, a: real, b: real, c: real, d: real, e: real, f: real)
    requires Minor(a, b, c, d) != 0.0
    ensures var u, v := Linear(x, y, a, c, e), Linear(x, y, b, d, f);
            && Over(Linear(u, v, d, -c, Minor(c, d, e, f)), Minor(a, b, c, d)) == x
            && Over(Linear(u, v, -b, a, -Minor(a, b, e, f)), Minor(a, b, c, d)) == y
  {
    Cramer(x, y, a, b, c, d, e, f);
    Cancels(x, Minor(a, b, c, d));
    Cancels(y, Minor(a, b, c, d));
    hide Linear, Minor, Over;
  }

  lemma Cramer(x: real, y: real, a: real, b: real, c: real, d: real, e: real, f: real)
    ensures Linear(Linear(x, y, a, c, e), Linear(x, y, b, d, f), d, -c, Minor(c, d, e, f)) == x * Minor(a, b, c, d)
    ensures Linear(Linear(x, y, a, c, e), Linear(x, y, b, d, f), -b, a, -Minor(a, b, e, f)) == y * Minor(a, b, c, d)
  {
  }

  lemma Cancels(x: real, t: real)
    requires t != 0.0
    ensures Over(x * t, t) == x
  {
  }

  lemma Redo(x: real, y: real, a: real, b: real, c: real, d: real, e: real, f: real)
    requires Minor(a, b, c, d) != 0.0
    ensures var t := Minor(a, b, c, d);
            var u := Linear(x, y, Over(d, t), Over(-c, t), Over(Minor(c, d, e, f), t));
            var v := Linear(x, y, Over(-b, t), Over(a, t), Over(-Minor(a, b, e, f), t));
            Linear(u, v, a, c, e) == x && Linear(u, v, b, d, f) == y
  {
    hide Linear, Minor, Over;
    var t := Minor(a, b, c, d);
    Scale(x, y, d, -c, Minor(c, d, e, f), t);
    Scale(x, y, -b, a, -Minor(a, b, e, f), t);
    RedoScaled(x, y, a, b, c, d, e, f);
  }

  lemma RedoScaled(x: real, y: real, a: real, b: real, c: real, d: real, e: real, f: real)
    requires Minor(a, b, c, d) != 0.0
    ensures var t := Minor(a, b, c, d);
            var m, n := Linear(x, y, d, -c, Minor(c, d, e, f)), Linear(x, y, -b, a, -Minor(a, b, e, f));
            Linear(Over(m, t), Over(n, t), a, c, e) == x && Linear(Over(m, t), Over(n, t), b, d, f) == y
  {
    var t := Minor(a, b, c, d);
    var m, n := Linear(x, y, d, -c, Minor(c, d, e, f)), Linear(x, y, -b, a, -Minor(a, b, e, f));
    CramerBack(x, y, a, b, c, d, e, f);
    Spread(m, n, a, c, e, t);
    Spread(m, n, b, d, f, t);
    Cancels(x - e, t);
    Cancels(y - f, t);
    hide Linear, Minor, Over;
  }

  lemma CramerBack(x: real, y: real, a: real, b: real, c: real, d: real, e: real, f: real)
    ensures var m, n := Linear(x, y, d, -c, Minor(c, d, e, f)), Linear(x, y, -b, a, -Minor(a, b, e, f));
            Linear(m, n, a, c, 0.0) == (x - e) * Minor(a, b, c, d)
                && Linear(m, n, b, d, 0.0) == (y - f) * Minor(a, b, c, d)
  {
  }

  lemma Reciprocal(m: real, t: real)
    requires t != 0.0
    ensures Over(m, t) == m * Over(1.0, t)
  {
  }

  lemma Scale(u: real, v: real, c: real, d: real, e: real, t: real)
    requires t != 0.0
    ensures Linear(u, v, Over(c, t), Over(d, t), Over(e, t)) == Over(Linear(u, v, c, d, e), t)
  {
    Reciprocal(c, t);
    Reciprocal(d, t);
    Reciprocal(e, t);
    Reciprocal(Linear(u, v, c, d, e), t);
    hide Over;
    var k := Over(1.0, t);
    assert u * (c * k) + v * (d * k) + e * k == (u * c + v * d + e) * k;
  }

  lemma Spread(m: real, n: real, a: real, c: real, e: real, t: real)
    requires t != 0.0
    ensures Linear(Over(m, t), Over(n, t), a, c, e) == Over(Linear(m, n, a, c, 0.0), t) + e
  {
    Reciprocal(m, t);
    Reciprocal(n, t);
    Reciprocal(Linear(m, n, a, c, 0.0), t);
    hide Over;
    var k := Over(1.0, t);
    assert (m * k) * a + (n * k) * c == (m * a + n * c + 0.0) * k;
  }

  // ----- the matrix object -----

  function Translation(x: real, y: real, z: real): Mat {
    IDENTITY.(m12 := x, m13 := y, m14 := z)
  }

  function Scaling(x: real, y: real, z: real): Mat {
    IDENTITY.(m0 := x, m5 := y, m10 := z)
  }

  /** Rotations, given the cosine `c` and the sine `s` of the angle. */
  function RotationX(c: real, s: real): Mat {
    IDENTITY.(m5 := c, m6 := -s, m9 := s, m10 := c)
  }

  function RotationY(c: real, s: real): Mat {
    IDENTITY.(m0 := c, m2 := s, m8 := -s, m10 := c)
  }

  function RotationZ(c: real, s: real): Mat {
    IDENTITY.(m0 := c, m1 := -s, m4 := s, m5 := c)
  }

  /** What the builders do to a point, in coordinates. */
  lemma BuildersMovePoints(p: Point, x: real, y: real, z: real, c: real, s: real)
    ensures Apply(Translation(x, y, z), p) == Point(p.x + x, p.y + y, p.z + z)
    ensures Apply(Scaling(x, y, z), p) == Point(x * p.x, y * p.y, z * p.z)
    ensures Apply(RotationX(c, s), p) == Point(p.x, c * p.y + s * p.z, c * p.z - s * p.y)
    ensures Apply(RotationY(c, s), p) == Point(c * p.x - s * p.z, p.y, c * p.z + s * p.x)
    ensures Apply(RotationZ(c, s), p) == Point(c * p.x + s * p.y, c * p.y - s * p.x, p.z)
  {
    TranslationMoves(p, x, y, z);
    ScalingMoves(p, x, y, z);
    RotationsMove(p, c, s);
    hide Apply;
  }

  lemma TranslationMoves(p: Point, x: real, y: real, z: real)
    ensures Apply(Translation(x, y, z), p) == Point(p.x + x, p.y + y, p.z + z)
  {
  }

  lemma ScalingMoves(p: Point, x: real, y: real, z: real)
    ensures Apply(Scaling(x, y, z), p) == Point(x * p.x, y * p.y, z * p.z)
  {
  }

  lemma RotationsMove(p: Point, c: real, s: real)
    ensures Apply(RotationX(c, s), p) == Point(p.x, c * p.y + s * p.z, c * p.z - s * p.y)
    ensures Apply(RotationY(c, s), p) == Point(c * p.x - s * p.z, p.y, c * p.z + s * p.x)
    ensures Apply(RotationZ(c, s), p) == Point(c * p.x + s * p.y, c * p.y - s * p.x, p.z)
  {
  }

  // ----- the product on homogeneous points -----

  datatype Homogeneous = Homogeneous(x: real, y: real, z: real, w: real)

  /** A row of four numbers times a column. */
  function Along(v: Homogeneous, p: real, q: real, r: real, s: real): real {
    Times(v.x, p) + Times(v.y, q) + Times(v.z, r) + Times(v.w, s)
  }

  function Times(x: real, y: real): real {
    x * y
  }

  function TimesRow(v: Homogeneous, a: Mat): Homogeneous {
    Homogeneous(Along(v, a.m0, a.m4, a.m8, a.m12), Along(v, a.m1, a.m5, a.m9, a.m13),
                Along(v, a.m2, a.m6, a.m10, a.m14), Along(v, a.m3, a.m7, a.m11, a.m15))
  }

  /** The product acts as one matrix after the other, whatever the sixteen numbers. */
  lemma ProductComposes(v: Homogeneous, a: Mat, b: Mat)
    ensures TimesRow(v, Product(a, b)) == TimesRow(TimesRow(v, a), b)
  {
    Column(v, a, b.m0, b.m4, b.m8, b.m12);
    Column(v, a, b.m1, b.m5, b.m9, b.m13);
    Column(v, a, b.m2, b.m6, b.m10, b.m14);
    Column(v, a, b.m3, b.m7, b.m11, b.m15);
    hide Dot, Along;
  }

  lemma Column(v: Homogeneous, a: Mat, p: real, q: real, r: real, s: real)
    ensures Along(v, Dot(a.m0, a.m1, a.m2, a.m3, p, q, r, s), Dot(a.m4, a.m5, a.m6, a.m7, p, q, r, s),
                  Dot(a.m8, a.m9, a.m10, a.m11, p, q, r, s), Dot(a.m12, a.m13, a.m14, a.m15, p, q, r, s))
         == Along(TimesRow(v, a), p, q, r, s)
  {
    var u := TimesRow(v, a);
    assert Dot(u.x, u.y, u.z, u.w, p, q, r, s) == Along(u, p, q, r, s);
    hide Dot, Times;
    Row(v.x, a.m0, a.m1, a.m2, a.m3, p, q, r, s);
    Row(v.y, a.m4, a.m5, a.m6, a.m7, p, q, r, s);
    Row(v.z, a.m8, a.m9, a.m10, a.m11, p, q, r, s);
    Row(v.w, a.m12, a.m13, a.m14, a.m15, p, q, r, s);
    var x0, x1, x2, x3 := Times(v.x, a.m0), Times(v.x, a.m1), Times(v.x, a.m2), Times(v.x, a.m3);
    var y0, y1, y2, y3 := Times(v.y, a.m4), Times(v.y, a.m5), Times(v.y, a.m6), Times(v.y, a.m7);
    var z0, z1, z2, z3 := Times(v.z, a.m8), Times(v.z, a.m9), Times(v.z, a.m10), Times(v.z, a.m11);
    var w0, w1, w2, w3 := Times(v.w, a.m12), Times(v.w, a.m13), Times(v.w, a.m14), Times(v.w, a.m15);
    SumOfRows(x0, x1, x2, x3, y0, y1, y2, y3, p, q, r, s);
    SumOfRows(z0, z1, z2, z3, w0, w1, w2, w3, p, q, r, s);
    SumOfRows(x0 + y0, x1 + y1, x2 + y2, x3 + y3, z0 + w0, z1 + w1, z2 + w2, z3 + w3, p, q, r, s);
    assert u == Homogeneous(x0 + y0 + (z0 + w0), x1 + y1 + (z1 + w1), x2 + y2 + (z2 + w2), x3 + y3 + (z3 + w3));
  }

  lemma Row(x: real, a: real, b: real, c: real, d: real, p: real, q: real, r: real, s: real)
    ensures Times(x, Dot(a, b, c, d, p, q, r, s)) == Dot(Times(x, a), Times(x, b), Times(x, c), Times(x, d), p, q, r, s)
  {
    assert (x * a) * p == x * (a * p) && (x * b) * q == x * (b * q);
    assert (x * c) * r == x * (c * r) && (x * d) * s == x * (d * s);
  }

  lemma SumOfRows(a: real, b: real, c: real, d: real, e: real, f: real, g: real, h: real,
                  p: real, q: real, r: real, s: real)
    ensures Dot(a, b, c, d, p, q, r, s) + Dot(e, f, g, h, p, q, r, s) == Dot(a + e, b + f, c + g, d + h, p, q, r, s)
  {
  }

  /** What one builder call multiplies by. */
  datatype Build =
    | Translate(x: real, y: real, z: real)
    | Scale(x: real, y: real, z: real)
    | Rotate(axis: Axis, c: real, s: real)

  datatype Axis = X | Y | Z

  function Built(b: Build): Mat {
    match b
    case Translate(x, y, z) => Translation(x, y, z)
    case Scale(x, y, z) => Scaling(x, y, z)
    case Rotate(axis, c, s) => match axis case X => RotationX(c, s) case Y => RotationY(c, s) case Z => RotationZ(c, s)
  }

  /** A matrix after a list of builder calls, and a point after the same calls one by one. */
  function BuiltAll(m: Mat, bs: seq<Build>): Mat {
    if bs == [] then m else Transformed(BuiltAll(m, bs[..|bs| - 1]), Built(bs[|bs| - 1]))
  }

  function Moved(p: Point, bs: seq<Build>): Point {
    if bs == [] then p else Apply(Built(bs[|bs| - 1]), Moved(p, bs[..|bs| - 1]))
  }

  /** However translations, scalings and rotations are chained from a reset matrix, the shortcut
      never shows: the matrix moves every point as the calls would, one after the other. */
  lemma {:induction false} BuildersCompose(bs: seq<Build>, p: Point)
    ensures Placement(BuiltAll(IDENTITY, bs))
    ensures Apply(BuiltAll(IDENTITY, bs), p) == Moved(p, bs)
  {
    hide Apply, Transformed;
    if bs == [] {
      IdentityApplies(p);
    } else {
      var before, b := bs[..|bs| - 1], bs[|bs| - 1];
      BuildersCompose(before, p);
      BuilderPlaces(b);
      TransformedComposes(BuiltAll(IDENTITY, before), Built(b), p);
    }
  }

  lemma BuilderPlaces(b: Build)
    ensures Placement(Built(b))
  {
  }

  lemma ProductWithIdentity(a: Mat)
    ensures Product(a, IDENTITY) == a
  {
  }

  /** Sixteen numbers updated in place, and a cached answer to "is this the identity?". */
  class Matrix {
    const props: array<real>
    var identity: bool
    var identityCalculated: bool

    ghost predicate Valid()
      reads this
    {
      props.Length == 16
    }

    function View(): Mat
      requires props.Length == 16
      reads props
    {
      Mat(props[0], props[1], props[2], props[3], props[4], props[5], props[6], props[7], props[8], props[9],
          props[10], props[11], props[12], props[13], props[14], props[15])
    }

    /** The cache, when it is in use, tells the truth. */
    ghost predicate Coherent()
      requires props.Length == 16
      reads this, props
    {
      identityCalculated ==> identity == (View() == IDENTITY)
    }

    constructor ()
      ensures Valid() && fresh(props) && View() == IDENTITY && !identityCalculated
    {
      props := new real[16];
      identity := true;
      identityCalculated := false;
      new;
      Store(IDENTITY);
    }

    method Store(m: Mat)
      requires Valid()
      modifies props
      ensures View() == m
    {
      props[0] := m.m0;
      props[1] := m.m1;
      props[2] := m.m2;
      props[3] := m.m3;
      props[4] := m.m4;
      props[5] := m.m5;
      props[6] := m.m6;
      props[7] := m.m7;
      props[8] := m.m8;
      props[9] := m.m9;
      props[10] := m.m10;
      props[11] := m.m11;
      props[12] := m.m12;
      props[13] := m.m13;
      props[14] := m.m14;
      props[15] := m.m15;
    }

    /** `reset` and `cloneFromProps` write the numbers and leave the cache as it was. */
    method CloneFromProps(m: Mat)
      requires Valid()
      modifies props
      ensures View() == m
      ensures Coherent() <==> (identityCalculated ==> identity == (m == IDENTITY))
    {
      Store(m);
    }

    method Reset()
      requires Valid()
      modifies props
      ensures View() == IDENTITY
    {
      Store(IDENTITY);
    }

    /** `transform`: multiplies from the right and drops the cached answer. */
    method Transform(t: Mat)
      requires Valid()
      modifies this, props
      ensures View() == Transformed(old(View()), t)
      ensures Affine(old(View())) ==> View() == Product(old(View()), t)
      ensures Coherent() && !identityCalculated
    {
      var y := View();
      if Affine(y) {
        TransformedIsProduct(y, t);
      }
      if OnlyTranslates(t) {
        props[12] := props[12] * t.m0 + props[15] * t.m12;
        props[13] := props[13] * t.m5 + props[15] * t.m13;
        props[14] := props[14] * t.m10 + props[15] * t.m14;
        props[15] := props[15] * t.m15;
      } else {
        Store(Product(y, t));
      }
      identityCalculated := false;
    }

    method Translate(x: real, y: real, z: real)
      requires Valid()
      modifies this, props
      ensures Affine(old(View())) ==> View() == Product(old(View()), Translation(x, y, z))
      ensures old(Coherent()) ==> Coherent()
    {
      if x != 0.0 || y != 0.0 || z != 0.0 {
        Transform(Translation(x, y, z));
      } else {
        ProductWithIdentity(View());
      }
    }

    method Scale(x: real, y: real, z: real)
      requires Valid()
      modifies this, props
      ensures Affine(old(View())) ==> View() == Product(old(View()), Scaling(x, y, z))
      ensures old(Coherent()) ==> Coherent()
    {
      if x != 1.0 || y != 1.0 || z != 1.0 {
        Transform(Scaling(x, y, z));
      } else {
        ProductWithIdentity(View());
      }
    }

    /** `rotate`, given the cosine and the sine of the angle. */
    method Rotate(angle: real, c: real, s: real)
      requires Valid() && (angle == 0.0 ==> c == 1.0 && s == 0.0)
      modifies this, props
      ensures Affine(old(View())) ==> View() == Product(old(View()), RotationZ(c, s))
      ensures old(Coherent()) ==> Coherent()
    {
      if angle != 0.0 {
        Transform(RotationZ(c, s));
      } else {
        ProductWithIdentity(View());
      }
    }

    method IsIdentity() returns (b: bool)
      requires Valid()
      modifies this
      ensures b == if old(identityCalculated) then old(identity) else View() == IDENTITY
      ensures identityCalculated && identity == b
      ensures old(Coherent()) ==> Coherent() && b == (View() == IDENTITY)
    {
      if !identityCalculated {
        identity := View() == IDENTITY;
        identityCalculated := true;
      }
      b := identity;
    }

    /** `applyToPointArray`: skips the arithmetic for an identity. */
    method ApplyToPoint(p: Point) returns (r: Point)
      requires Valid()
      modifies this
      ensures old(Coherent()) ==> Coherent() && r == Apply(View(), p)
      ensures !old(Coherent()) ==> r == if old(identity) then p else Apply(View(), p)
    {
      var b := IsIdentity();
      IdentityApplies(p);
      r := if b then p else Apply(View(), p);
    }

    /** `inversePoint`: a new matrix with the inverse's numbers, applied to the point. */
    method InversePoint(p: Point) returns (r: Point)
      requires Valid() && Determinant(View()) != 0.0
      ensures r == Apply(Inverse(View()), p)
      ensures Plane(View()) ==> Apply(View(), r) == p
    {
      var o := new Matrix();
      o.Store(Inverse(View()));
      r := o.ApplyToPoint(p);
      if Plane(View()) {
        InverseUndoes(View(), p);
      }
    }
  }

  lemma IdentityApplies(p: Point)
    ensures Apply(IDENTITY, p) == p
  {
  }

  /** A matrix whose identity answer was cached ignores numbers that are copied in afterwards. */
  method CopyAfterIdentityCheckIsIgnored(m: Mat, p: Point) returns (r: Point)
    ensures r == p
  {
    var a := new Matrix();
    var _ := a.IsIdentity();
    a.CloneFromProps(m);
    r := a.ApplyToPoint(p);
    if a.Coherent() {
      IdentityApplies(p);
    }
  }
}
