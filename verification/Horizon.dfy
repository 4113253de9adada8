/** Why no corner of a facade lies beyond the horizon of its photo: a map of one
    convex quadrilateral onto another weighs all four corners alike. */
module Horizon {
  import opened Geometry
  import opened Homographies

  /** Twice the signed area the turn at b spans. */
  function Turn(a: Point, b: Point, c: Point): real {
    (b.x - a.x) * (c.y - b.y) - (b.y - a.y) * (c.x - b.x)
  }

  /** h takes p to f, whatever its weight. */
  predicate Takes(h: Homography, p: Point, f: Point) { h.On(Lifted(p)) == Scale(Lifted(f), h.Weight(p)) }

  // ---- the dependency of four points ----

  lemma BalanceOne(a: Point, b: Point, c: Point, d: Point)
    ensures Turn(b, c, d) - Turn(c, d, a) + Turn(d, a, b) - Turn(a, b, c) == 0.0
  {}

  lemma BalanceAt(x0: real, y0: real, x1: real, y1: real, x2: real, y2: real, x3: real, y3: real)
    ensures ((x2 - x1) * (y3 - y2) - (y2 - y1) * (x3 - x2)) * x0 - ((x3 - x2) * (y0 - y3) - (y3 - y2) * (x0 - x3)) * x1
          + ((x0 - x3) * (y1 - y0) - (y0 - y3) * (x1 - x0)) * x2 - ((x1 - x0) * (y2 - y1) - (y1 - y0) * (x2 - x1)) * x3 == 0.0
  {}

  lemma BalanceX(a: Point, b: Point, c: Point, d: Point)
    ensures Turn(b, c, d) * a.x - Turn(c, d, a) * b.x + Turn(d, a, b) * c.x - Turn(a, b, c) * d.x == 0.0
  {
    BalanceAt(a.x, a.y, b.x, b.y, c.x, c.y, d.x, d.y);
  }

  lemma BalanceY(a: Point, b: Point, c: Point, d: Point)
    ensures Turn(b, c, d) * a.y - Turn(c, d, a) * b.y + Turn(d, a, b) * c.y - Turn(a, b, c) * d.y == 0.0
  {
    BalanceAt(a.y, a.x, b.y, b.x, c.y, c.x, d.y, d.x);
  }

  /** What balances the points balances every row of a map at them. */
  lemma Combine(k: real, l: real, m: real, n: real, e: real, f: real, g: real,
                x0: real, y0: real, x1: real, y1: real, x2: real, y2: real, x3: real, y3: real)
    requires k + l + m + n == 0.0 && k * x0 + l * x1 + m * x2 + n * x3 == 0.0 && k * y0 + l * y1 + m * y2 + n * y3 == 0.0
    ensures k * (e + f * x0 + g * y0) + l * (e + f * x1 + g * y1) + m * (e + f * x2 + g * y2) + n * (e + f * x3 + g * y3) == 0.0
  {
    assert k * (e + f * x0 + g * y0) + l * (e + f * x1 + g * y1) + m * (e + f * x2 + g * y2) + n * (e + f * x3 + g * y3)
      == e * (k + l + m + n) + f * (k * x0 + l * x1 + m * x2 + n * x3) + g * (k * y0 + l * y1 + m * y2 + n * y3);
  }

  lemma RowBalances(a: Point, b: Point, c: Point, d: Point, f: real, g: real, e: real)
    ensures Turn(b, c, d) * Affine(f, g, e, a) - Turn(c, d, a) * Affine(f, g, e, b)
          + Turn(d, a, b) * Affine(f, g, e, c) - Turn(a, b, c) * Affine(f, g, e, d) == 0.0
  {
    BalanceOne(a, b, c, d);
    BalanceX(a, b, c, d);
    BalanceY(a, b, c, d);
    Combine(Turn(b, c, d), -Turn(c, d, a), Turn(d, a, b), -Turn(a, b, c), e, f, g, a.x, a.y, b.x, b.y, c.x, c.y, d.x, d.y);
  }

  // ---- carried over by the map ----

  function Mixed(k: real, l: real, m: real, n: real, x0: real, x1: real, x2: real, x3: real): real {
    k * x0 + l * x1 + m * x2 + n * x3
  }

  predicate Balances(k: real, l: real, m: real, n: real, a: Point, b: Point, c: Point, d: Point) {
    k + l + m + n == 0.0 && Mixed(k, l, m, n, a.x, b.x, c.x, d.x) == 0.0 && Mixed(k, l, m, n, a.y, b.y, c.y, d.y) == 0.0
  }

  lemma SumCarried(l0: real, l1: real, l2: real, l3: real, r0: real, r1: real, r2: real, r3: real,
                   x0: real, x1: real, x2: real, x3: real, w0: real, w1: real, w2: real, w3: real)
    requires l0 * r0 - l1 * r1 + l2 * r2 - l3 * r3 == 0.0
    requires r0 == x0 * w0 && r1 == x1 * w1 && r2 == x2 * w2 && r3 == x3 * w3
    ensures Mixed(Times(l0, w0), -Times(l1, w1), Times(l2, w2), -Times(l3, w3), x0, x1, x2, x3) == 0.0
  {
    assert Times(l0, w0) * x0 == l0 * (x0 * w0);
    assert -Times(l1, w1) * x1 == -(l1 * (x1 * w1));
    assert Times(l2, w2) * x2 == l2 * (x2 * w2);
    assert -Times(l3, w3) * x3 == -(l3 * (x3 * w3));
  }

  lemma TakesRows(h: Homography, p: Point, f: Point)
    requires Takes(h, p, f)
    ensures Affine(h.h0, h.h1, h.h2, p) == Times(f.x, h.Weight(p)) && Affine(h.h3, h.h4, h.h5, p) == Times(f.y, h.Weight(p))
  {
    OnLifted(h, p);
  }

  lemma TurnRow(a: Point, c: Point, d: Point)
    ensures Turn(a, c, d) == (c.x * (d.y - c.y) - c.y * (d.x - c.x)) + (c.y - d.y) * a.x + (d.x - c.x) * a.y
    ensures Turn(a, c, d) == Turn(c, d, a)
  {}

  lemma TurnFlat(c: Point, d: Point)
    ensures Turn(c, c, d) == 0.0 && Turn(d, c, d) == 0.0
  {}

  /** Four points balanced by k, l, m and n: k and l stand to each other as the
      turns that leave the other's point out. */
  lemma Pairs(k: real, l: real, m: real, n: real, a: Point, b: Point, c: Point, d: Point)
    requires Balances(k, l, m, n, a, b, c, d)
    ensures k * Turn(c, d, a) + l * Turn(b, c, d) == 0.0
  {
    TurnRow(a, c, d);
    TurnRow(b, c, d);
    TurnRow(c, c, d);
    TurnRow(d, c, d);
    TurnFlat(c, d);
    Combine(k, l, m, n, c.x * (d.y - c.y) - c.y * (d.x - c.x), c.y - d.y, d.x - c.x, a.x, a.y, b.x, b.y, c.x, c.y, d.x, d.y);
  }

  lemma Rotated(k: real, l: real, m: real, n: real, a: Point, b: Point, c: Point, d: Point)
    requires Balances(k, l, m, n, a, b, c, d)
    ensures Balances(l, m, n, k, b, c, d, a)
  {}

  lemma SignOf(w: real, p: real)
    requires p > 0.0
    ensures w * p > 0.0 <==> w > 0.0
  {
    if w > 0.0 {
      PositiveTimes(w, p);
    } else {
      MulMono(w, 0.0, p);
    }
  }

  predicate Opposite(t: real, u: real) { (t > 0.0 && u < 0.0) || (t < 0.0 && u > 0.0) }

  lemma OppositeProduct(t: real, w: real, u: real)
    requires Opposite(t, u)
    ensures Times(t, w) * u < 0.0 <==> w > 0.0
  {
    var p := if t > 0.0 then Times(t, -u) else Times(-t, u);
    if t > 0.0 {
      PositiveTimes(t, -u);
      assert Times(t, w) * u == -(w * Times(t, -u));
    } else {
      PositiveTimes(-t, u);
      assert Times(t, w) * u == -(w * Times(-t, u));
    }
    SignOf(w, p);
  }

  lemma SignCarries(t: real, w: real, u: real, s: real, v: real, r: real)
    requires Times(t, w) * u - Times(s, v) * r == 0.0 && Opposite(t, u) && Opposite(s, r)
    ensures w > 0.0 <==> v > 0.0
  {
    OppositeProduct(t, w, u);
    OppositeProduct(s, v, r);
  }

  /** The quadrilaterals a b c d and p q r s turn opposite ways at every corner. */
  predicate OppositeTurns(a: Point, b: Point, c: Point, d: Point, p: Point, q: Point, r: Point, s: Point) {
    && ((Turn(a, b, c) > 0.0 && Turn(b, c, d) > 0.0 && Turn(c, d, a) > 0.0 && Turn(d, a, b) > 0.0
         && Turn(p, q, r) < 0.0 && Turn(q, r, s) < 0.0 && Turn(r, s, p) < 0.0 && Turn(s, p, q) < 0.0)
        || (Turn(a, b, c) < 0.0 && Turn(b, c, d) < 0.0 && Turn(c, d, a) < 0.0 && Turn(d, a, b) < 0.0
            && Turn(p, q, r) > 0.0 && Turn(q, r, s) > 0.0 && Turn(r, s, p) > 0.0 && Turn(s, p, q) > 0.0))
  }

  /** One row of a map, its values at the corners x times w: what balances the
      corners, times w, balances the x. */
  lemma CarriedRow(a: Point, b: Point, c: Point, d: Point, f: real, g: real, e: real,
                   x0: real, x1: real, x2: real, x3: real, w0: real, w1: real, w2: real, w3: real)
    requires Affine(f, g, e, a) == Times(x0, w0) && Affine(f, g, e, b) == Times(x1, w1)
    requires Affine(f, g, e, c) == Times(x2, w2) && Affine(f, g, e, d) == Times(x3, w3)
    ensures Mixed(Times(Turn(b, c, d), w0), -Times(Turn(c, d, a), w1), Times(Turn(d, a, b), w2), -Times(Turn(a, b, c), w3),
                  x0, x1, x2, x3) == 0.0
  {
    RowBalances(a, b, c, d, f, g, e);
    SumCarried(Turn(b, c, d), Turn(c, d, a), Turn(d, a, b), Turn(a, b, c),
               Affine(f, g, e, a), Affine(f, g, e, b), Affine(f, g, e, c), Affine(f, g, e, d), x0, x1, x2, x3, w0, w1, w2, w3);
  }

  lemma CarriedX(h: Homography, a: Point, b: Point, c: Point, d: Point, p: Point, q: Point, r: Point, s: Point)
    requires Takes(h, a, p) && Takes(h, b, q) && Takes(h, c, r) && Takes(h, d, s)
    ensures Mixed(Times(Turn(b, c, d), h.Weight(a)), -Times(Turn(c, d, a), h.Weight(b)),
                  Times(Turn(d, a, b), h.Weight(c)), -Times(Turn(a, b, c), h.Weight(d)), p.x, q.x, r.x, s.x) == 0.0
  {
    TakesRows(h, a, p);
    TakesRows(h, b, q);
    TakesRows(h, c, r);
    TakesRows(h, d, s);
    CarriedRow(a, b, c, d, h.h0, h.h1, h.h2, p.x, q.x, r.x, s.x, h.Weight(a), h.Weight(b), h.Weight(c), h.Weight(d));
  }

  lemma CarriedY(h: Homography, a: Point, b: Point, c: Point, d: Point, p: Point, q: Point, r: Point, s: Point)
    requires Takes(h, a, p) && Takes(h, b, q) && Takes(h, c, r) && Takes(h, d, s)
    ensures Mixed(Times(Turn(b, c, d), h.Weight(a)), -Times(Turn(c, d, a), h.Weight(b)),
                  Times(Turn(d, a, b), h.Weight(c)), -Times(Turn(a, b, c), h.Weight(d)), p.y, q.y, r.y, s.y) == 0.0
  {
    TakesRows(h, a, p);
    TakesRows(h, b, q);
    TakesRows(h, c, r);
    TakesRows(h, d, s);
    CarriedRow(a, b, c, d, h.h3, h.h4, h.h5, p.y, q.y, r.y, s.y, h.Weight(a), h.Weight(b), h.Weight(c), h.Weight(d));
  }

  lemma CarriedWeights(h: Homography, a: Point, b: Point, c: Point, d: Point)
    ensures Times(Turn(b, c, d), h.Weight(a)) + -Times(Turn(c, d, a), h.Weight(b))
          + Times(Turn(d, a, b), h.Weight(c)) + -Times(Turn(a, b, c), h.Weight(d)) == 0.0
  {
    RowBalances(a, b, c, d, h.h6, h.h7, h.h8);
  }

  /** The weights, each times the turn that leaves its corner out, balance the
      points the corners are taken to. */
  lemma Carried(h: Homography, a: Point, b: Point, c: Point, d: Point, p: Point, q: Point, r: Point, s: Point)
    returns (k: real, l: real, m: real, n: real)
    requires Takes(h, a, p) && Takes(h, b, q) && Takes(h, c, r) && Takes(h, d, s)
    ensures k == Times(Turn(b, c, d), h.Weight(a)) && l == -Times(Turn(c, d, a), h.Weight(b))
    ensures m == Times(Turn(d, a, b), h.Weight(c)) && n == -Times(Turn(a, b, c), h.Weight(d))
    ensures Balances(k, l, m, n, p, q, r, s)
  {
    k, l := Times(Turn(b, c, d), h.Weight(a)), -Times(Turn(c, d, a), h.Weight(b));
    m, n := Times(Turn(d, a, b), h.Weight(c)), -Times(Turn(a, b, c), h.Weight(d));
    CarriedX(h, a, b, c, d, p, q, r, s);
    CarriedY(h, a, b, c, d, p, q, r, s);
    CarriedWeights(h, a, b, c, d);
  }

  /** A map that takes the corners of a convex quadrilateral to those of one that
      turns the other way weighs them all positively or none. */
  lemma WeightsAgree(h: Homography, a: Point, b: Point, c: Point, d: Point, p: Point, q: Point, r: Point, s: Point)
    requires Takes(h, a, p) && Takes(h, b, q) && Takes(h, c, r) && Takes(h, d, s)
    requires OppositeTurns(a, b, c, d, p, q, r, s)
    ensures (h.Weight(a) > 0.0 <==> h.Weight(b) > 0.0) && (h.Weight(b) > 0.0 <==> h.Weight(c) > 0.0)
    ensures h.Weight(c) > 0.0 <==> h.Weight(d) > 0.0
  {
    var k, l, m, n := Carried(h, a, b, c, d, p, q, r, s);
    Pairs(k, l, m, n, p, q, r, s);
    Rotated(k, l, m, n, p, q, r, s);
    Pairs(l, m, n, k, q, r, s, p);
    Rotated(l, m, n, k, q, r, s, p);
    Pairs(m, n, k, l, r, s, p, q);
    SignCarries(Turn(b, c, d), h.Weight(a), Turn(r, s, p), Turn(c, d, a), h.Weight(b), Turn(q, r, s));
    SignCarries(Turn(c, d, a), h.Weight(b), Turn(s, p, q), Turn(d, a, b), h.Weight(c), Turn(r, s, p));
    SignCarries(Turn(d, a, b), h.Weight(c), Turn(p, q, r), Turn(a, b, c), h.Weight(d), Turn(s, p, q));
  }

  // ---- the map can be undone ----

  lemma RowVanishes(a: real, b: real, c: real, f: Point, w: real)
    requires w != 0.0 && Row3(a, b, c, f.x * w, f.y * w, 1.0 * w) == 0.0
    ensures Affine(a, b, c, f) == 0.0
  {
    RowScaled(a, b, c, f.x, f.y, 1.0, w);
    AffineIsRow(a, b, c, f);
    if Affine(a, b, c, f) != 0.0 {
      CancelDiv(Affine(a, b, c, f), 0.0, w);
    }
  }

  /** An affine function that vanishes at three corners of a turn is zero. */
  lemma AffineZero(a: real, b: real, c: real, p: Point, q: Point, r: Point)
    requires Affine(a, b, c, p) == 0.0 && Affine(a, b, c, q) == 0.0 && Affine(a, b, c, r) == 0.0 && Turn(p, q, r) != 0.0
    ensures a == 0.0 && b == 0.0 && c == 0.0
  {
    SlopesZero(a, b, q.x - p.x, q.y - p.y, r.x - q.x, r.y - q.y);
  }

  lemma SlopesZero(a: real, b: real, x: real, y: real, u: real, v: real)
    requires a * x + b * y == 0.0 && a * u + b * v == 0.0 && x * v - y * u != 0.0
    ensures a == 0.0 && b == 0.0
  {
    assert a * (x * v - y * u) == (a * x + b * y) * v - (a * u + b * v) * y;
    assert b * (x * v - y * u) == (a * u + b * v) * x - (a * x + b * y) * u;
    CancelDiv(a, 0.0, x * v - y * u);
    CancelDiv(b, 0.0, x * v - y * u);
  }

  /** Two proportional rows: their values at two points are proportional too. */
  lemma Proportional(a: real, b: real, c: real, d: real, e: real, f: real, p: Point, q: Point)
    requires Minor(a, e, b, d) == 0.0 && Minor(a, f, c, d) == 0.0 && Minor(b, f, c, e) == 0.0
    ensures Affine(a, b, c, p) * Affine(d, e, f, q) == Affine(a, b, c, q) * Affine(d, e, f, p)
  {
    assert Affine(a, b, c, p) * Affine(d, e, f, q) - Affine(a, b, c, q) * Affine(d, e, f, p)
      == Minor(a, e, b, d) * (p.x * q.y - p.y * q.x) + Minor(a, f, c, d) * (p.x - q.x) + Minor(b, f, c, e) * (p.y - q.y);
  }

  lemma SameCoordinate(s: real, t: real, w: real, v: real)
    requires w != 0.0 && v != 0.0 && Times(s, w) * v == Times(t, v) * w
    ensures s == t
  {
    assert s * (w * v) == t * (w * v);
    ProductNonZero(w, v);
    CancelDiv(s, t, w * v);
  }

  lemma ProductNonZero(w: real, v: real)
    requires w != 0.0 && v != 0.0
    ensures w * v != 0.0
  {}

  lemma MinorFlips(a: real, b: real, c: real, d: real)
    requires Minor(a, b, c, d) == 0.0
    ensures Minor(c, d, a, b) == 0.0
  {}

  /** With a zero adjugate, two points off the horizon go to one point. */
  lemma Collapses(h: Homography, a: Point, b: Point, p: Point, q: Point)
    requires Takes(h, a, p) && Takes(h, b, q) && h.Weight(a) != 0.0 && h.Weight(b) != 0.0
    requires h.Adjugate() == Homography(0.0, 0.0, 0.0, 0.0, 0.0, 0.0, 0.0, 0.0, 0.0)
    ensures p == q
  {
    TakesRows(h, a, p);
    TakesRows(h, b, q);
    MinorFlips(h.h2, h.h7, h.h1, h.h8);
    MinorFlips(h.h1, h.h6, h.h0, h.h7);
    MinorFlips(h.h5, h.h6, h.h3, h.h8);
    Proportional(h.h0, h.h1, h.h2, h.h6, h.h7, h.h8, a, b);
    Proportional(h.h3, h.h4, h.h5, h.h6, h.h7, h.h8, a, b);
    SameCoordinate(p.x, q.x, h.Weight(a), h.Weight(b));
    SameCoordinate(p.y, q.y, h.Weight(a), h.Weight(b));
  }

  /** A map that takes three points off the horizon to three corners of a turn is
      not singular. */
  lemma NotSingular(h: Homography, a: Point, b: Point, c: Point, p: Point, q: Point, r: Point)
    requires Takes(h, a, p) && Takes(h, b, q) && Takes(h, c, r) && Turn(p, q, r) != 0.0
    requires h.Weight(a) != 0.0 && h.Weight(b) != 0.0 && h.Weight(c) != 0.0
    ensures h.Det() != 0.0
  {
    if h.Det() == 0.0 {
      AdjugateZero(h, a, b, c, p, q, r);
      Collapses(h, a, b, p, q);
      FlatTurn(p, r);
      assert false;
    }
  }

  lemma FlatTurn(p: Point, r: Point)
    ensures Turn(p, p, r) == 0.0
  {}

  lemma VanishAt(h: Homography, a: Point, p: Point)
    requires Takes(h, a, p) && h.Weight(a) != 0.0 && h.Det() == 0.0
    ensures var d := h.Adjugate(); Affine(d.h0, d.h1, d.h2, p) == 0.0 && Affine(d.h3, d.h4, d.h5, p) == 0.0 && Affine(d.h6, d.h7, d.h8, p) == 0.0
  {
    var d := h.Adjugate();
    AdjugateKills(h, Lifted(a));
    RowVanishes(d.h0, d.h1, d.h2, p, h.Weight(a));
    RowVanishes(d.h3, d.h4, d.h5, p, h.Weight(a));
    RowVanishes(d.h6, d.h7, d.h8, p, h.Weight(a));
  }

  lemma AdjugateZero(h: Homography, a: Point, b: Point, c: Point, p: Point, q: Point, r: Point)
    requires Takes(h, a, p) && Takes(h, b, q) && Takes(h, c, r) && Turn(p, q, r) != 0.0 && h.Det() == 0.0
    requires h.Weight(a) != 0.0 && h.Weight(b) != 0.0 && h.Weight(c) != 0.0
    ensures h.Adjugate() == Homography(0.0, 0.0, 0.0, 0.0, 0.0, 0.0, 0.0, 0.0, 0.0)
  {
    var d := h.Adjugate();
    VanishAt(h, a, p);
    VanishAt(h, b, q);
    VanishAt(h, c, r);
    AffineZero(d.h0, d.h1, d.h2, p, q, r);
    AffineZero(d.h3, d.h4, d.h5, p, q, r);
    AffineZero(d.h6, d.h7, d.h8, p, q, r);
  }
}
