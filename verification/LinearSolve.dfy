/** Gaussian elimination with partial pivoting, in place. */
module LinearSolve {
  import opened Geometry

  const N := 8

  /** An equation: eight coefficients and the right-hand side. */
  type Row = r: seq<real> | |r| == N + 1 witness [0.0, 0.0, 0.0, 0.0, 0.0, 0.0, 0.0, 0.0, 0.0]

  type Vector = v: seq<real> | |v| == N witness [0.0, 0.0, 0.0, 0.0, 0.0, 0.0, 0.0, 0.0]

  function Terms(row: Row, y: Vector): (t: Vector) { seq(N, k requires 0 <= k < N => Times(row[k], y[k])) }

  function SumFrom(t: Vector, c: nat): real
    requires c <= N
    decreases N - c
  {
    if c == N then 0.0 else t[c] + SumFrom(t, c + 1)
  }

  /** The coefficients from c on, applied to y. */
  function TailDot(row: Row, y: Vector, c: nat): real
    requires c <= N
  {
    SumFrom(Terms(row, y), c)
  }

  predicate Holds(row: Row, y: Vector) { TailDot(row, y, 0) == row[N] }

  /** y satisfies every equation of the system. */
  ghost predicate Solves(rows: seq<Row>, y: Vector) {
    forall r :: 0 <= r < |rows| ==> Holds(rows[r], y)
  }

  lemma DotInFull(row: Row, y: Vector)
    ensures TailDot(row, y, 0) ==
      Times(row[0], y[0]) + Times(row[1], y[1]) + Times(row[2], y[2]) + Times(row[3], y[3])
      + Times(row[4], y[4]) + Times(row[5], y[5]) + Times(row[6], y[6]) + Times(row[7], y[7])
  {
    var t := Terms(row, y);
    assert SumFrom(t, 4) == t[4] + (t[5] + (t[6] + (t[7] + SumFrom(t, 8))));
    assert SumFrom(t, 0) == t[0] + (t[1] + (t[2] + (t[3] + SumFrom(t, 4))));
  }

  /** The two systems have the same solutions. */
  ghost predicate Equivalent(s: seq<Row>, t: seq<Row>) {
    forall y: Vector :: Solves(s, y) <==> Solves(t, y)
  }

  // ---- one elimination ----

  /** Row minus f times the pivot's row, from column c on. */
  ghost predicate IsMinus(reduced: Row, row: Row, f: real, pivot: Row, c: nat) {
    forall k :: 0 <= k <= N ==> reduced[k] == if k < c then row[k] else row[k] - Times(f, pivot[k])
  }

  lemma TermMinus(n: real, a: real, f: real, b: real, y: real)
    requires n == a - Times(f, b)
    ensures Times(n, y) == Times(a, y) - Times(f, Times(b, y))
  {}

  lemma ScaleStep(f: real, a: real, b: real)
    ensures Times(f, a + b) == Times(f, a) + Times(f, b)
  {}

  lemma {:induction false} SumScaled(t: Vector, f: real, u: Vector, c: nat)
    requires c <= N && forall k :: 0 <= k < N ==> t[k] == Times(f, u[k])
    ensures SumFrom(t, c) == Times(f, SumFrom(u, c))
    decreases N - c
  {
    if c < N {
      SumScaled(t, f, u, c + 1);
      ScaleStep(f, u[c], SumFrom(u, c + 1));
    }
  }

  lemma {:induction false} SumMinus(t: Vector, u: Vector, v: Vector, c: nat)
    requires c <= N && forall k :: 0 <= k < N ==> t[k] == u[k] - v[k]
    ensures SumFrom(t, c) == SumFrom(u, c) - SumFrom(v, c)
    decreases N - c
  {
    if c < N {
      SumMinus(t, u, v, c + 1);
    }
  }

  function Scaled(f: real, t: Vector): Vector { seq(N, k requires 0 <= k < N => Times(f, t[k])) }

  lemma DotMinus(reduced: Row, row: Row, f: real, pivot: Row, y: Vector)
    requires forall k :: 0 <= k < N ==> reduced[k] == row[k] - Times(f, pivot[k])
    ensures TailDot(reduced, y, 0) == TailDot(row, y, 0) - Times(f, TailDot(pivot, y, 0))
  {
    var u := Terms(pivot, y);
    forall k | 0 <= k < N
      ensures Terms(reduced, y)[k] == Terms(row, y)[k] - Scaled(f, u)[k]
    {
      TermMinus(reduced[k], row[k], f, pivot[k], y[k]);
    }
    SumMinus(Terms(reduced, y), Terms(row, y), Scaled(f, u), 0);
    SumScaled(Scaled(f, u), f, u, 0);
  }

  lemma MinusEqual(t: real, tn: real, tp: real, b: real, bn: real, bp: real, f: real)
    requires tn == t - Times(f, tp) && bn == b - Times(f, bp) && tp == bp
    ensures tn == bn <==> t == b
  {}

  /** The leading zeros of a pivot row make the partial subtraction a whole one. */
  lemma MinusHolds(reduced: Row, row: Row, f: real, pivot: Row, c: nat, y: Vector)
    requires c <= N && IsMinus(reduced, row, f, pivot, c) && Holds(pivot, y)
    requires forall k :: 0 <= k < c ==> pivot[k] == 0.0
    ensures Holds(reduced, y) <==> Holds(row, y)
  {
    forall k | 0 <= k < N
      ensures reduced[k] == row[k] - Times(f, pivot[k])
    {
      if k < c {
        TimesZero(f, pivot[k]);
      }
    }
    DotMinus(reduced, row, f, pivot, y);
    MinusEqual(TailDot(row, y, 0), TailDot(reduced, y, 0), TailDot(pivot, y, 0), row[N], reduced[N], pivot[N], f);
  }

  lemma TimesZero(f: real, z: real)
    requires z == 0.0
    ensures Times(f, z) == 0.0 && Times(z, f) == 0.0
  {}

  lemma EliminateEquivalent(s: seq<Row>, t: seq<Row>, r: nat, col: nat, f: real)
    requires col < |s| && r < |s| == |t| && r != col && col <= N
    requires forall k :: 0 <= k < |s| && k != r ==> t[k] == s[k]
    requires IsMinus(t[r], s[r], f, s[col], col)
    requires forall k :: 0 <= k < col ==> s[col][k] == 0.0
    ensures Equivalent(s, t)
  {
    forall y: Vector
      ensures Solves(s, y) <==> Solves(t, y)
    {
      if Holds(s[col], y) {
        MinusHolds(t[r], s[r], f, s[col], col, y);
      } else {
        assert !Holds(t[col], y);
      }
    }
  }

  lemma SwapEquivalent(s: seq<Row>, t: seq<Row>, i: nat, j: nat)
    requires i < |s| && j < |s| && t == s[i := s[j]][j := s[i]]
    ensures Equivalent(s, t)
  {
    forall y: Vector
      ensures Solves(s, y) <==> Solves(t, y)
    {
      if Solves(t, y) {
        forall r | 0 <= r < |s|
          ensures Holds(s[r], y)
        {
          assert Holds(t[if r == i then j else if r == j then i else r], y);
        }
      }
    }
  }

  // ---- the triangle ----

  /** The first cols columns are zero below the diagonal and pivot on it. */
  ghost predicate Reduced(rows: seq<Row>, cols: nat) {
    && |rows| == N && cols <= N
    && (forall r, c :: 0 <= c < cols && c < r < N ==> rows[r][c] == 0.0)
    && forall c :: 0 <= c < cols ==> rows[c][c] != 0.0
  }

  lemma {:induction false} SumSkips(t: Vector, c: nat)
    requires c <= N && forall k :: 0 <= k < c ==> t[k] == 0.0
    ensures SumFrom(t, 0) == SumFrom(t, c)
    decreases c
  {
    if c > 0 {
      SumSkips(t, c - 1);
    }
  }

  lemma TailFrom(row: Row, y: Vector, c: nat)
    requires c <= N && forall k :: 0 <= k < c ==> row[k] == 0.0
    ensures TailDot(row, y, 0) == TailDot(row, y, c)
  {
    forall k | 0 <= k < c
      ensures Terms(row, y)[k] == 0.0
    {
      TimesZero(y[k], row[k]);
    }
    SumSkips(Terms(row, y), c);
  }

  /** x[r] as back substitution computes it from the unknowns after r. */
  function Back(row: Row, x: Vector, r: nat): real
    requires r < N && row[r] != 0.0
  {
    (row[N] - TailDot(row, x, r + 1)) / row[r]
  }

  lemma BackHolds(row: Row, y: Vector, r: nat)
    requires r < N && row[r] != 0.0 && forall k :: 0 <= k < r ==> row[k] == 0.0
    ensures Holds(row, y) <==> y[r] == Back(row, y, r)
  {
    TailFrom(row, y, r);
    BackStep(row[r], y[r], TailDot(row, y, r + 1), TailDot(row, y, r), row[N]);
  }

  lemma BackStep(d: real, y: real, rest: real, all: real, b: real)
    requires d != 0.0 && all == Times(d, y) + rest
    ensures all == b <==> y == (b - rest) / d
  {
    DivMul(b - rest, d);
    if all == b {
      Cancelled(y, (b - rest) / d, d);
    }
  }

  lemma Cancelled(a: real, b: real, d: real)
    requires d != 0.0 && a * d == b * d
    ensures a == b
  {}

  lemma {:induction false} SumSame(t: Vector, u: Vector, c: nat)
    requires c <= N && forall k :: c <= k < N ==> t[k] == u[k]
    ensures SumFrom(t, c) == SumFrom(u, c)
    decreases N - c
  {
    if c < N {
      SumSame(t, u, c + 1);
    }
  }

  lemma TailSame(row: Row, x: Vector, y: Vector, c: nat)
    requires c <= N && forall k :: c <= k < N ==> x[k] == y[k]
    ensures TailDot(row, x, c) == TailDot(row, y, c)
  {
    SumSame(Terms(row, x), Terms(row, y), c);
  }

  /** Solutions of a triangular system agree with x from r on when x solves its
      rows from r on. */
  lemma {:induction false} TriangleUnique(rows: seq<Row>, x: Vector, y: Vector, r: nat)
    requires Reduced(rows, N) && r <= N
    requires forall k :: r <= k < N ==> Holds(rows[k], x) && Holds(rows[k], y)
    ensures forall k :: r <= k < N ==> x[k] == y[k]
    decreases N - r
  {
    if r < N {
      TriangleUnique(rows, x, y, r + 1);
      BackHolds(rows[r], x, r);
      BackHolds(rows[r], y, r);
      TailSame(rows[r], x, y, r + 1);
    }
  }

  // ---- what a refusal means ----

  const PIVOT_MIN: real := 0.000000000001

  /** Where row col of u applied to y is zero, u's rows and t's agree on y. */
  ghost predicate SameWhereZero(t: seq<Row>, u: seq<Row>, col: nat) {
    && col < N == |t| == |u|
    && forall y: Vector :: TailDot(u[col], y, 0) == 0.0 ==> forall k :: 0 <= k < N ==> TailDot(t[k], y, 0) == TailDot(u[k], y, 0)
  }

  /** y is sent to zero by the rows below n. */
  ghost predicate Nulls(t: seq<Row>, y: Vector, n: nat) {
    n <= |t| && forall k :: 0 <= k < n ==> TailDot(t[k], y, 0) == 0.0
  }

  /** Each row of s applied to y is some row of t applied to y. */
  ghost predicate Among(s: seq<Row>, t: seq<Row>, y: Vector) {
    forall r :: 0 <= r < |s| ==> OneOf(TailDot(s[r], y, 0), t, y)
  }

  ghost predicate OneOf(v: real, t: seq<Row>, y: Vector) {
    exists k :: 0 <= k < |t| && v == TailDot(t[k], y, 0)
  }

  /** u is t with column col cleared: what u's rows up to col send to zero, its
      rows treat as t's do. */
  ghost predicate Follows(t: seq<Row>, u: seq<Row>, col: nat) {
    && col < N == |t| == |u| && (forall k :: 0 <= k < col ==> t[k] == u[k])
    && forall y: Vector :: Nulls(u, y, col + 1) ==> Among(t, u, y)
  }

  ghost predicate Leads(s: seq<Row>, t: seq<Row>, col: nat) {
    |s| == |t| == N && col <= N && forall y: Vector :: Nulls(t, y, col) ==> Among(s, t, y)
  }

  /** A column is, up to the pivot limit in every row, a combination of the ones
      before it. */
  ghost predicate NearlyDependent(s: seq<Row>) {
    exists y: Vector, c: nat :: Combines(y, c) && forall r :: 0 <= r < |s| ==> Abs(TailDot(s[r], y, 0)) < PIVOT_MIN
  }

  predicate Combines(y: Vector, c: nat) { c < N && y[c] == 1.0 && forall k :: c < k < N ==> y[k] == 0.0 }

  lemma EliminateWhereZero(s: seq<Row>, t: seq<Row>, r: nat, col: nat, f: real)
    requires col < N == |s| == |t| && r < N && r != col
    requires forall k :: 0 <= k < |s| && k != r ==> t[k] == s[k]
    requires IsMinus(t[r], s[r], f, s[col], col)
    requires forall k :: 0 <= k < col ==> s[col][k] == 0.0
    ensures SameWhereZero(s, t, col)
  {
    forall k | 0 <= k < N
      ensures t[r][k] == s[r][k] - Times(f, s[col][k])
    {
      if k < col {
        TimesZero(f, s[col][k]);
      }
    }
    forall y: Vector | TailDot(t[col], y, 0) == 0.0
      ensures TailDot(s[r], y, 0) == TailDot(t[r], y, 0)
    {
      DotMinus(t[r], s[r], f, s[col], y);
      TimesZero(f, TailDot(s[col], y, 0));
    }
  }

  lemma SwapFollows(s: seq<Row>, swapped: seq<Row>, u: seq<Row>, i: nat, j: nat)
    requires |s| == N && i <= j < N && swapped == s[i := s[j]][j := s[i]] && SameWhereZero(swapped, u, i)
    requires forall k :: 0 <= k <= i ==> u[k] == swapped[k]
    ensures Follows(s, u, i)
  {
    forall y: Vector, r | Nulls(u, y, i + 1) && 0 <= r < N
      ensures OneOf(TailDot(s[r], y, 0), u, y)
    {
      var k := if r == i then j else if r == j then i else r;
      assert swapped[k] == s[r];
      assert TailDot(u[i], y, 0) == 0.0;
      assert TailDot(s[r], y, 0) == TailDot(u[k], y, 0);
    }
  }

  lemma LeadsOn(s: seq<Row>, t: seq<Row>, u: seq<Row>, col: nat)
    requires Leads(s, t, col) && Follows(t, u, col)
    ensures Leads(s, u, col + 1)
  {
    forall y: Vector | Nulls(u, y, col + 1)
      ensures Among(s, u, y)
    {
      assert Nulls(t, y, col);
      AmongTrans(s, t, u, y);
    }
  }

  lemma AmongTrans(s: seq<Row>, t: seq<Row>, u: seq<Row>, y: Vector)
    requires Among(s, t, y) && Among(t, u, y)
    ensures Among(s, u, y)
  {
    forall r | 0 <= r < |s|
      ensures OneOf(TailDot(s[r], y, 0), u, y)
    {
      assert OneOf(TailDot(s[r], y, 0), t, y);
      var k :| 0 <= k < |t| && TailDot(s[r], y, 0) == TailDot(t[k], y, 0);
    }
  }

  lemma LeadsItself(s: seq<Row>)
    requires |s| == N
    ensures Leads(s, s, 0)
  {
    forall y: Vector, r | 0 <= r < N
      ensures OneOf(TailDot(s[r], y, 0), s, y)
    {}
  }

  const NOTHING: Vector := [0.0, 0.0, 0.0, 0.0, 0.0, 0.0, 0.0, 0.0]

  /** The combination of the columns up to col that the rows from n to col - 1
      send to zero. */
  lemma {:induction false} Null(t: seq<Row>, col: nat, n: nat) returns (y: Vector)
    requires Reduced(t, col) && n <= col < N
    ensures Combines(y, col) && forall k :: n <= k < col ==> TailDot(t[k], y, 0) == 0.0
    decreases col - n
  {
    if n == col {
      y := NOTHING[col := 1.0];
    } else {
      var z := Null(t, col, n + 1);
      var row := t[n][N := 0.0];
      y := z[n := Back(row, z, n)];
      TailSame(row, z, y, n + 1);
      BackHolds(row, y, n);
      assert Terms(row, y) == Terms(t[n], y);
      forall k | n < k < col
        ensures TailDot(t[k], y, 0) == 0.0
      {
        assert TailDot(t[k], z, 0) == 0.0;
        TailFrom(t[k], y, k);
        TailFrom(t[k], z, k);
        TailSame(t[k], z, y, k);
        assert TailDot(t[k], z, k) == TailDot(t[k], y, k);
      }
    }
  }

  /** On a combination up to col, a row that is zero before col gives its entry there. */
  lemma EntryAlone(row: Row, y: Vector, col: nat)
    requires Combines(y, col) && forall k :: 0 <= k < col ==> row[k] == 0.0
    ensures TailDot(row, y, 0) == row[col]
  {
    TailFrom(row, y, col);
    TailZero(row, y, col + 1);
    TimesOne(row[col]);
  }

  lemma TimesOne(a: real)
    ensures Times(a, 1.0) == a
  {}

  lemma {:induction false} TailZero(row: Row, y: Vector, c: nat)
    requires c <= N && forall k :: c <= k < N ==> y[k] == 0.0
    ensures TailDot(row, y, c) == 0.0
    decreases N - c
  {
    if c < N {
      TailZero(row, y, c + 1);
      TimesZero(row[c], y[c]);
    }
  }

  lemma RefusedMeans(s: seq<Row>, t: seq<Row>, col: nat)
    requires col < N && Leads(s, t, col) && Reduced(t, col) && forall r :: col <= r < N ==> Abs(t[r][col]) < PIVOT_MIN
    ensures NearlyDependent(s)
  {
    var y := Null(t, col, 0);
    assert Nulls(t, y, col);
    forall r | 0 <= r < N
      ensures Abs(TailDot(s[r], y, 0)) < PIVOT_MIN
    {
      assert OneOf(TailDot(s[r], y, 0), t, y);
      var k :| 0 <= k < N && TailDot(s[r], y, 0) == TailDot(t[k], y, 0);
      if k >= col {
        EntryAlone(t[k], y, col);
      }
    }
  }

  // ---- the algorithm ----

  /** The row with the largest entry of the column, from row col on. */
  method FindPivot(a: array<Row>, col: nat) returns (pivot: nat)
    requires a.Length == N && col < N
    ensures col <= pivot < N && forall r :: col <= r < N ==> Abs(a[r][col]) <= Abs(a[pivot][col])
  {
    pivot := col;
    for r := col + 1 to N
      invariant col <= pivot < N && forall k :: col <= k < r ==> Abs(a[k][col]) <= Abs(a[pivot][col])
    {
      if Abs(a[r][col]) > Abs(a[pivot][col]) {
        pivot := r;
      }
    }
  }

  /** Clears column col of row r with the pivot's row. */
  method Eliminate(a: array<Row>, col: nat, r: nat)
    requires a.Length == N && col < r < N && Reduced(a[..], col) && a[col][col] != 0.0
    modifies a
    ensures forall k :: 0 <= k < N && k != r ==> a[k] == old(a[k])
    ensures forall c :: 0 <= c < col ==> a[r][c] == old(a[r][c])
    ensures a[r][col] == 0.0
    ensures Equivalent(old(a[..]), a[..]) && SameWhereZero(old(a[..]), a[..], col)
  {
    ghost var s, row := a[..], a[r];
    var f := a[r][col] / a[col][col];
    for c := col to N + 1
      invariant forall k :: 0 <= k < N && k != r ==> a[k] == old(a[k])
      invariant forall k :: 0 <= k <= N ==> a[r][k] == if col <= k < c then row[k] - Times(f, s[col][k]) else row[k]
    {
      a[r] := a[r][c := a[r][c] - Times(f, a[col][c])];
    }
    DivMul(row[col], s[col][col]);
    EliminateEquivalent(s, a[..], r, col, f);
    EliminateWhereZero(s, a[..], r, col, f);
  }

  lemma EquivalentTrans(s: seq<Row>, t: seq<Row>, u: seq<Row>)
    requires Equivalent(s, t) && Equivalent(t, u)
    ensures Equivalent(s, u)
  {}

  /** Swaps the pivot in and clears its column below the diagonal. */
  method ClearColumn(a: array<Row>, col: nat, pivot: nat)
    requires a.Length == N && col <= pivot < N && Reduced(a[..], col) && a[pivot][col] != 0.0
    modifies a
    ensures Reduced(a[..], col + 1) && Equivalent(old(a[..]), a[..])
    ensures Follows(old(a[..]), a[..], col)
  {
    ghost var s := a[..];
    a[col], a[pivot] := a[pivot], a[col];
    SwapEquivalent(s, a[..], col, pivot);
    ghost var swapped := a[..];
    for r := col + 1 to N
      invariant Reduced(a[..], col) && a[col][col] != 0.0
      invariant forall k :: col < k < r ==> a[k][col] == 0.0
      invariant Equivalent(s, a[..]) && SameWhereZero(swapped, a[..], col)
      invariant forall k :: 0 <= k <= col ==> a[k] == swapped[k]
    {
      ghost var t := a[..];
      Eliminate(a, col, r);
      EquivalentTrans(s, t, a[..]);
    }
    SwapFollows(s, swapped, a[..], col, pivot);
  }

  /** Solves a triangular system from its last row up. */
  method BackSubstitute(a: array<Row>) returns (x: Vector)
    requires a.Length == N && Reduced(a[..], N)
    ensures Solves(a[..], x)
  {
    x := [0.0, 0.0, 0.0, 0.0, 0.0, 0.0, 0.0, 0.0];
    var r := N;
    while r > 0
      invariant 0 <= r <= N && forall k :: r <= k < N ==> Holds(a[k], x)
    {
      r := r - 1;
      ghost var was := x;
      var s := a[r][N];
      for c := r + 1 to N
        invariant s == a[r][N] - (TailDot(a[r], x, r + 1) - TailDot(a[r], x, c))
      {
        s := s - Times(a[r][c], x[c]);
      }
      x := x[r := s / a[r][r]];
      TailSame(a[r], was, x, r + 1);
      BackHolds(a[r], x, r);
      forall k | r < k < N
        ensures Holds(a[k], x)
      {
        TailFrom(a[k], x, k);
        TailFrom(a[k], was, k);
        TailSame(a[k], was, x, k);
      }
    }
  }

  /** solve8: the one solution of the system, or a refusal because some column
      is nearly a combination of those before it. */
  method Solve8(a: array<Row>) returns (x: Vector, ok: bool)
    requires a.Length == N
    modifies a
    ensures ok ==> forall y: Vector :: Solves(old(a[..]), y) <==> y == x
    ensures !ok ==> NearlyDependent(old(a[..]))
  {
    ghost var s := a[..];
    LeadsItself(s);
    for col := 0 to N
      invariant Reduced(a[..], col) && Equivalent(s, a[..]) && Leads(s, a[..], col)
    {
      var pivot := FindPivot(a, col);
      if Abs(a[pivot][col]) < PIVOT_MIN {
        RefusedMeans(s, a[..], col);
        return NOTHING, false;
      }
      ghost var t := a[..];
      ClearColumn(a, col, pivot);
      EquivalentTrans(s, t, a[..]);
      LeadsOn(s, t, a[..], col);
    }
    x := BackSubstitute(a);
    ok := true;
    OnlySolution(s, a[..], x);
  }

  lemma OnlySolution(s: seq<Row>, t: seq<Row>, x: Vector)
    requires Equivalent(s, t) && Reduced(t, N) && Solves(t, x)
    ensures forall y: Vector :: Solves(s, y) <==> y == x
  {
    forall y: Vector
      ensures Solves(s, y) <==> y == x
    {
      assert Solves(s, y) <==> Solves(t, y);
      if Solves(t, y) {
        TriangleUnique(t, x, y, 0);
      }
    }
  }
}
