/** The projective map of a photo onto a facade: its algebra, and the map four
    pairs of corners determine. */
module Homographies {
  import opened Geometry
  import opened LinearSolve
  import opened Options

  /** A point before the division by its weight. */
  datatype Triple = Triple(x: real, y: real, w: real)

  /** Nine entries, row by row. */
  datatype Homography = Homography(h0: real, h1: real, h2: real, h3: real, h4: real, h5: real, h6: real, h7: real, h8: real) {

    function On(v: Triple): Triple {
      Triple(Row3(h0, h1, h2, v.x, v.y, v.w), Row3(h3, h4, h5, v.x, v.y, v.w), Row3(h6, h7, h8, v.x, v.y, v.w))
    }

    function Weight(p: Point): real { Affine(h6, h7, h8, p) }

    /** Apply: nothing for a point on the horizon. */
    function Apply(p: Point): Option<Point> {
      var w := Weight(p);
      if w == 0.0 then None
      else Some(Point(Affine(h0, h1, h2, p) / w, Affine(h3, h4, h5, p) / w))
    }

    function After(o: Homography): Homography {
      Homography(
        Row3(h0, h1, h2, o.h0, o.h3, o.h6), Row3(h0, h1, h2, o.h1, o.h4, o.h7), Row3(h0, h1, h2, o.h2, o.h5, o.h8),
        Row3(h3, h4, h5, o.h0, o.h3, o.h6), Row3(h3, h4, h5, o.h1, o.h4, o.h7), Row3(h3, h4, h5, o.h2, o.h5, o.h8),
        Row3(h6, h7, h8, o.h0, o.h3, o.h6), Row3(h6, h7, h8, o.h1, o.h4, o.h7), Row3(h6, h7, h8, o.h2, o.h5, o.h8))
    }

    function Over(d: real): Homography
      requires d != 0.0
    {
      Homography(h0 / d, h1 / d, h2 / d, h3 / d, h4 / d, h5 / d, h6 / d, h7 / d, h8 / d)
    }

    function Adjugate(): Homography {
      Homography(
        Minor(h4, h8, h5, h7), Minor(h2, h7, h1, h8), Minor(h1, h5, h2, h4),
        Minor(h5, h6, h3, h8), Minor(h0, h8, h2, h6), Minor(h2, h3, h0, h5),
        Minor(h3, h7, h4, h6), Minor(h1, h6, h0, h7), Minor(h0, h4, h1, h3))
    }

    function Det(): real { Row3(h0, h1, h2, Adjugate().h0, Adjugate().h3, Adjugate().h6) }

    function Inverse(): Option<Homography> {
      if Det() == 0.0 then None else Some(Adjugate().Over(Det()))
    }
  }

  const IDENTITY := Homography(1.0, 0.0, 0.0, 0.0, 1.0, 0.0, 0.0, 0.0, 1.0)

  function Minor(a: real, b: real, c: real, d: real): real { a * b - c * d }

  function Affine(a: real, b: real, c: real, p: Point): real { a * p.x + b * p.y + c }

  function Row3(a: real, b: real, c: real, x: real, y: real, z: real): real { a * x + b * y + c * z }

  function Lifted(p: Point): Triple { Triple(p.x, p.y, 1.0) }

  // ---- algebra ----

  lemma RowOver(a: real, b: real, c: real, x: real, y: real, z: real, d: real, e: real)
    requires d != 0.0 && Row3(a, b, c, x, y, z) == e * d
    ensures Row3(a, b, c, x / d, y / d, z / d) == e && Row3(x / d, y / d, z / d, a, b, c) == e
  {
    DivMul(x, d);
    DivMul(y, d);
    DivMul(z, d);
    RowTimes(a, b, c, x / d, y / d, z / d, d);
    CancelDiv(Row3(a, b, c, x / d, y / d, z / d), e, d);
  }

  lemma RowTimes(a: real, b: real, c: real, x: real, y: real, z: real, d: real)
    ensures Row3(a, b, c, x, y, z) * d == Row3(a, b, c, x * d, y * d, z * d)
    ensures Row3(a, b, c, x, y, z) == Row3(x, y, z, a, b, c)
  {}

  lemma CancelDiv(a: real, b: real, d: real)
    requires d != 0.0 && a * d == b * d
    ensures a == b
  {}

  /** The determinant along the first row, and along any column. */
  function Det3(a: real, b: real, c: real, d: real, e: real, f: real, g: real, h: real, i: real): real {
    Row3(a, b, c, Minor(e, i, f, h), Minor(f, g, d, i), Minor(d, h, e, g))
  }

  lemma AlongRows(a: real, b: real, c: real, d: real, e: real, f: real, g: real, h: real, i: real)
    ensures Row3(d, e, f, Minor(c, h, b, i), Minor(a, i, c, g), Minor(b, g, a, h)) == Det3(a, b, c, d, e, f, g, h, i)
    ensures Row3(g, h, i, Minor(b, f, c, e), Minor(c, d, a, f), Minor(a, e, b, d)) == Det3(a, b, c, d, e, f, g, h, i)
  {}

  lemma AlongFirstColumn(a: real, b: real, c: real, d: real, e: real, f: real, g: real, h: real, i: real)
    ensures Row3(a, d, g, Minor(e, i, f, h), Minor(c, h, b, i), Minor(b, f, c, e)) == Det3(a, b, c, d, e, f, g, h, i)
  {}

  lemma AlongSecondColumn(a: real, b: real, c: real, d: real, e: real, f: real, g: real, h: real, i: real)
    ensures Row3(b, e, h, Minor(f, g, d, i), Minor(a, i, c, g), Minor(c, d, a, f)) == Det3(a, b, c, d, e, f, g, h, i)
  {}

  lemma AlongThirdColumn(a: real, b: real, c: real, d: real, e: real, f: real, g: real, h: real, i: real)
    ensures Row3(c, f, i, Minor(d, h, e, g), Minor(b, g, a, h), Minor(a, e, b, d)) == Det3(a, b, c, d, e, f, g, h, i)
  {}

  /** The minors of two rows or columns vanish against either of them. */
  lemma Vanish(a: real, b: real, c: real, x: real, y: real, z: real)
    ensures Row3(a, b, c, Minor(b, z, c, y), Minor(c, x, a, z), Minor(a, y, b, x)) == 0.0
    ensures Row3(x, y, z, Minor(b, z, c, y), Minor(c, x, a, z), Minor(a, y, b, x)) == 0.0
  {}

  lemma VanishMirrored(a: real, b: real, c: real, x: real, y: real, z: real)
    ensures Row3(a, b, c, Minor(c, y, b, z), Minor(a, z, c, x), Minor(b, x, a, y)) == 0.0
    ensures Row3(x, y, z, Minor(c, y, b, z), Minor(a, z, c, x), Minor(b, x, a, y)) == 0.0
  {}

  lemma VanishColumns(a: real, b: real, c: real, x: real, y: real, z: real)
    ensures Row3(a, b, c, Minor(b, z, y, c), Minor(x, c, a, z), Minor(a, y, x, b)) == 0.0
    ensures Row3(x, y, z, Minor(b, z, y, c), Minor(x, c, a, z), Minor(a, y, x, b)) == 0.0
  {}

  lemma ProductIsIdentity(h: Homography, d: real)
    requires d != 0.0 && d == h.Det()
    ensures h.After(h.Adjugate().Over(d)) == IDENTITY
  {
    var a := h.Adjugate();
    AlongRows(h.h0, h.h1, h.h2, h.h3, h.h4, h.h5, h.h6, h.h7, h.h8);
    Vanish(h.h3, h.h4, h.h5, h.h6, h.h7, h.h8);
    VanishMirrored(h.h0, h.h1, h.h2, h.h6, h.h7, h.h8);
    Vanish(h.h0, h.h1, h.h2, h.h3, h.h4, h.h5);
    RowOver(h.h0, h.h1, h.h2, a.h0, a.h3, a.h6, d, 1.0);
    RowOver(h.h0, h.h1, h.h2, a.h1, a.h4, a.h7, d, 0.0);
    RowOver(h.h0, h.h1, h.h2, a.h2, a.h5, a.h8, d, 0.0);
    RowOver(h.h3, h.h4, h.h5, a.h0, a.h3, a.h6, d, 0.0);
    RowOver(h.h3, h.h4, h.h5, a.h1, a.h4, a.h7, d, 1.0);
    RowOver(h.h3, h.h4, h.h5, a.h2, a.h5, a.h8, d, 0.0);
    RowOver(h.h6, h.h7, h.h8, a.h0, a.h3, a.h6, d, 0.0);
    RowOver(h.h6, h.h7, h.h8, a.h1, a.h4, a.h7, d, 0.0);
    RowOver(h.h6, h.h7, h.h8, a.h2, a.h5, a.h8, d, 1.0);
  }

  lemma LeftProductIsIdentity(h: Homography, d: real)
    requires d != 0.0 && d == h.Det()
    ensures h.Adjugate().Over(d).After(h) == IDENTITY
  {
    var a := h.Adjugate();
    AlongFirstColumn(h.h0, h.h1, h.h2, h.h3, h.h4, h.h5, h.h6, h.h7, h.h8);
    AlongSecondColumn(h.h0, h.h1, h.h2, h.h3, h.h4, h.h5, h.h6, h.h7, h.h8);
    AlongThirdColumn(h.h0, h.h1, h.h2, h.h3, h.h4, h.h5, h.h6, h.h7, h.h8);
    VanishColumns(h.h1, h.h4, h.h7, h.h2, h.h5, h.h8);
    VanishColumns(h.h2, h.h5, h.h8, h.h0, h.h3, h.h6);
    VanishColumns(h.h0, h.h3, h.h6, h.h1, h.h4, h.h7);
    RowOver(h.h0, h.h3, h.h6, a.h0, a.h1, a.h2, d, 1.0);
    RowOver(h.h1, h.h4, h.h7, a.h0, a.h1, a.h2, d, 0.0);
    RowOver(h.h2, h.h5, h.h8, a.h0, a.h1, a.h2, d, 0.0);
    RowOver(h.h0, h.h3, h.h6, a.h3, a.h4, a.h5, d, 0.0);
    RowOver(h.h1, h.h4, h.h7, a.h3, a.h4, a.h5, d, 1.0);
    RowOver(h.h2, h.h5, h.h8, a.h3, a.h4, a.h5, d, 0.0);
    RowOver(h.h0, h.h3, h.h6, a.h6, a.h7, a.h8, d, 0.0);
    RowOver(h.h1, h.h4, h.h7, a.h6, a.h7, a.h8, d, 0.0);
    RowOver(h.h2, h.h5, h.h8, a.h6, a.h7, a.h8, d, 1.0);
  }

  /** Inverse is the two-sided matrix inverse, and exists unless the matrix is
      singular. */
  lemma InverseIsTwoSided(h: Homography)
    ensures h.Inverse().None? <==> h.Det() == 0.0
    ensures h.Inverse().Some? ==> h.After(h.Inverse().value) == IDENTITY && h.Inverse().value.After(h) == IDENTITY
  {
    if h.Det() != 0.0 {
      ProductIsIdentity(h, h.Det());
      LeftProductIsIdentity(h, h.Det());
    }
  }

  lemma RowScaled(a: real, b: real, c: real, x: real, y: real, z: real, k: real)
    ensures Row3(a, b, c, x * k, y * k, z * k) == Row3(a, b, c, x, y, z) * k
  {}

  lemma RowAdd(a: real, b: real, c: real, x: Triple, y: Triple, z: Triple, sum: Triple)
    requires sum.x == x.x + y.x + z.x && sum.y == x.y + y.y + z.y && sum.w == x.w + y.w + z.w
    ensures Row3(a, b, c, sum.x, sum.y, sum.w)
         == Row3(a, b, c, x.x, x.y, x.w) + Row3(a, b, c, y.x, y.y, y.w) + Row3(a, b, c, z.x, z.y, z.w)
  {}

  lemma RowSum(a: real, b: real, c: real, x: real, y: real, z: real, u: real, v: real, w: real)
    requires u == a * x && v == b * y && w == c * z
    ensures Row3(a, b, c, x, y, z) == u + v + w
  {}

  lemma SumOfRows(a: real, b: real, c: real, p: Triple, q: Triple, r: Triple, x: real, y: real, z: real)
    ensures Row3(Row3(a, b, c, p.x, p.y, p.w), Row3(a, b, c, q.x, q.y, q.w), Row3(a, b, c, r.x, r.y, r.w), x, y, z)
         == Row3(a, b, c, p.x * x, p.y * x, p.w * x) + Row3(a, b, c, q.x * y, q.y * y, q.w * y) + Row3(a, b, c, r.x * z, r.y * z, r.w * z)
  {
    RowScaled(a, b, c, p.x, p.y, p.w, x);
    RowScaled(a, b, c, q.x, q.y, q.w, y);
    RowScaled(a, b, c, r.x, r.y, r.w, z);
    RowSum(Row3(a, b, c, p.x, p.y, p.w), Row3(a, b, c, q.x, q.y, q.w), Row3(a, b, c, r.x, r.y, r.w), x, y, z,
      Row3(a, b, c, p.x * x, p.y * x, p.w * x), Row3(a, b, c, q.x * y, q.y * y, q.w * y), Row3(a, b, c, r.x * z, r.y * z, r.w * z));
  }

  lemma RowAfter(a: real, b: real, c: real, p: real, q: real, r: real, s: real, t: real, u: real, v: real, w: real, o: real, x: real, y: real, z: real)
    ensures Row3(Row3(a, b, c, p, s, v), Row3(a, b, c, q, t, w), Row3(a, b, c, r, u, o), x, y, z)
         == Row3(a, b, c, Row3(p, q, r, x, y, z), Row3(s, t, u, x, y, z), Row3(v, w, o, x, y, z))
  {
    SumOfRows(a, b, c, Triple(p, s, v), Triple(q, t, w), Triple(r, u, o), x, y, z);
    RowAdd(a, b, c, Triple(p * x, s * x, v * x), Triple(q * y, t * y, w * y), Triple(r * z, u * z, o * z),
      Triple(Row3(p, q, r, x, y, z), Row3(s, t, u, x, y, z), Row3(v, w, o, x, y, z)));
  }

  /** The product maps as its factors do in turn. */
  lemma AfterMaps(h: Homography, o: Homography, v: Triple)
    ensures h.After(o).On(v) == h.On(o.On(v))
  {
    RowAfter(h.h0, h.h1, h.h2, o.h0, o.h1, o.h2, o.h3, o.h4, o.h5, o.h6, o.h7, o.h8, v.x, v.y, v.w);
    RowAfter(h.h3, h.h4, h.h5, o.h0, o.h1, o.h2, o.h3, o.h4, o.h5, o.h6, o.h7, o.h8, v.x, v.y, v.w);
    RowAfter(h.h6, h.h7, h.h8, o.h0, o.h1, o.h2, o.h3, o.h4, o.h5, o.h6, o.h7, o.h8, v.x, v.y, v.w);
  }

  function Scale(v: Triple, k: real): Triple { Triple(v.x * k, v.y * k, v.w * k) }

  lemma OnScaled(h: Homography, v: Triple, k: real)
    ensures h.On(Scale(v, k)) == Scale(h.On(v), k)
  {
    RowScaled(h.h0, h.h1, h.h2, v.x, v.y, v.w, k);
    RowScaled(h.h3, h.h4, h.h5, v.x, v.y, v.w, k);
    RowScaled(h.h6, h.h7, h.h8, v.x, v.y, v.w, k);
  }

  lemma AffineIsRow(a: real, b: real, c: real, p: Point)
    ensures Affine(a, b, c, p) == Row3(a, b, c, p.x, p.y, 1.0)
  {}

  lemma OnLifted(h: Homography, p: Point)
    ensures h.On(Lifted(p)) == Triple(Affine(h.h0, h.h1, h.h2, p), Affine(h.h3, h.h4, h.h5, p), h.Weight(p))
  {
    AffineIsRow(h.h0, h.h1, h.h2, p);
    AffineIsRow(h.h3, h.h4, h.h5, p);
    AffineIsRow(h.h6, h.h7, h.h8, p);
  }

  /** What Apply gives is what the triple stands for. */
  lemma AppliesAs(h: Homography, p: Point, q: Point, w: real)
    requires w != 0.0 && h.On(Lifted(p)) == Scale(Lifted(q), w)
    ensures h.Weight(p) == w && h.Apply(p) == Some(q)
  {
    OnLifted(h, p);
    OneTimes(w);
    Divided(Affine(h.h0, h.h1, h.h2, p), q.x, w);
    Divided(Affine(h.h3, h.h4, h.h5, p), q.y, w);
  }

  lemma OneTimes(w: real)
    ensures 1.0 * w == w
  {}

  lemma Divided(a: real, b: real, w: real)
    requires w != 0.0 && a == b * w
    ensures a / w == b
  {
    DivMul(a, w);
    CancelDiv(a / w, b, w);
  }

  lemma LiftOfApply(h: Homography, p: Point)
    requires h.Weight(p) != 0.0
    ensures h.On(Lifted(p)) == Scale(Lifted(h.Apply(p).value), h.Weight(p))
  {
    OnLifted(h, p);
    OneTimes(h.Weight(p));
    DivMul(Affine(h.h0, h.h1, h.h2, p), h.Weight(p));
    DivMul(Affine(h.h3, h.h4, h.h5, p), h.Weight(p));
  }

  lemma IdentityMaps(v: Triple)
    ensures IDENTITY.On(v) == v
  {}

  lemma ScaleBack(v: Triple, w: real)
    requires w != 0.0
    ensures Scale(Scale(v, w), 1.0 / w) == v
  {
    Undone(v.x, w);
    Undone(v.y, w);
    Undone(v.w, w);
  }

  lemma Undone(a: real, w: real)
    requires w != 0.0
    ensures a * w * (1.0 / w) == a
  {
    DivMul(1.0, w);
    assert a * w * (1.0 / w) == a * (1.0 / w * w);
  }

  /** The inverse maps every point off the horizon back, with the reciprocal
      weight: positive where the map's own is. */
  lemma InverseUndoes(h: Homography, p: Point)
    requires h.Inverse().Some? && h.Weight(p) != 0.0
    ensures var g, q := h.Inverse().value, h.Apply(p).value;
      g.Weight(q) == 1.0 / h.Weight(p) && g.Apply(q) == Some(p)
  {
    var g, q, w := h.Inverse().value, h.Apply(p).value, h.Weight(p);
    InverseIsTwoSided(h);
    LiftOfApply(h, p);
    AfterMaps(g, h, Lifted(p));
    IdentityMaps(Lifted(p));
    OnScaled(g, Lifted(q), w);
    ScaleBack(g.On(Lifted(q)), w);
    NonZeroReciprocal(w);
    AppliesAs(g, q, p, 1.0 / w);
  }

  lemma NonZeroReciprocal(w: real)
    requires w != 0.0
    ensures 1.0 / w != 0.0
  {
    DivMul(1.0, w);
  }

  // ---- a singular map ----

  /** The adjugate of a singular map sends everything the map gives to zero. */
  lemma AdjugateKills(h: Homography, v: Triple)
    requires h.Det() == 0.0
    ensures var a, u := h.Adjugate(), h.On(v);
      Row3(a.h0, a.h1, a.h2, u.x, u.y, u.w) == 0.0 && Row3(a.h3, a.h4, a.h5, u.x, u.y, u.w) == 0.0 && Row3(a.h6, a.h7, a.h8, u.x, u.y, u.w) == 0.0
  {
    var a := h.Adjugate();
    AlongFirstColumn(h.h0, h.h1, h.h2, h.h3, h.h4, h.h5, h.h6, h.h7, h.h8);
    AlongSecondColumn(h.h0, h.h1, h.h2, h.h3, h.h4, h.h5, h.h6, h.h7, h.h8);
    AlongThirdColumn(h.h0, h.h1, h.h2, h.h3, h.h4, h.h5, h.h6, h.h7, h.h8);
    VanishColumns(h.h1, h.h4, h.h7, h.h2, h.h5, h.h8);
    VanishColumns(h.h2, h.h5, h.h8, h.h0, h.h3, h.h6);
    VanishColumns(h.h0, h.h3, h.h6, h.h1, h.h4, h.h7);
    RowKills(h, a.h0, a.h1, a.h2, v);
    RowKills(h, a.h3, a.h4, a.h5, v);
    RowKills(h, a.h6, a.h7, a.h8, v);
  }

  /** A row that vanishes on every column vanishes on every combination of them. */
  lemma RowKills(h: Homography, a: real, b: real, c: real, v: Triple)
    requires Row3(h.h0, h.h3, h.h6, a, b, c) == 0.0 && Row3(h.h1, h.h4, h.h7, a, b, c) == 0.0 && Row3(h.h2, h.h5, h.h8, a, b, c) == 0.0
    ensures Row3(a, b, c, h.On(v).x, h.On(v).y, h.On(v).w) == 0.0
  {
    RowTimes(h.h0, h.h3, h.h6, a, b, c, v.x);
    RowTimes(h.h1, h.h4, h.h7, a, b, c, v.y);
    RowTimes(h.h2, h.h5, h.h8, a, b, c, v.w);
    RowAfter(a, b, c, h.h0, h.h1, h.h2, h.h3, h.h4, h.h5, h.h6, h.h7, h.h8, v.x, v.y, v.w);
    ZeroRow(Row3(a, b, c, h.h0, h.h3, h.h6), Row3(a, b, c, h.h1, h.h4, h.h7), Row3(a, b, c, h.h2, h.h5, h.h8), v.x, v.y, v.w);
  }

  lemma ZeroRow(a: real, b: real, c: real, x: real, y: real, z: real)
    requires a == 0.0 && b == 0.0 && c == 0.0
    ensures Row3(a, b, c, x, y, z) == 0.0
  {}
}
