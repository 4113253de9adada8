/** The uniform cell layout of a box grid: which cells a box covers, and why a
    walk over cells cannot lose a box it should have met. */
module GridLayout {
  import opened Geometry

  const MAX_CELLS_PER_SIDE := 512
  const WIDE_CELL_LIMIT := 64

  // ---- one axis ----

  /** How many cells an extent spans, one past the cap when that is too many. */
  function SideCount(extent: real, cellSize: real): (n: int)
    ensures 1 <= n <= MAX_CELLS_PER_SIDE + 1
  {
    if extent <= 0.0 || cellSize <= 0.0 then 1
    else
      var count := extent / cellSize + 1.0;
      if count > MAX_CELLS_PER_SIDE as real then MAX_CELLS_PER_SIDE + 1
      else
        PositiveQuotient(extent, cellSize);
        count.Floor
  }

  lemma PositiveQuotient(a: real, c: real)
    requires a > 0.0 && c > 0.0
    ensures a / c > 0.0
  {
    DivCompare(a, 0.0, c);
  }

  /** Below the cap the cells reach past the extent they were counted for. */
  lemma SideCountCovers(extent: real, cellSize: real)
    requires cellSize > 0.0
    requires SideCount(extent, cellSize) <= MAX_CELLS_PER_SIDE
    ensures extent <= SideCount(extent, cellSize) as real * cellSize
  {
    if extent > 0.0 {
      var n := SideCount(extent, cellSize) as real;
      assert extent / cellSize < n;
      DivCompare(extent, n, cellSize);
    }
  }

  /** The cell an offset from the grid origin falls in, clamped into the grid. */
  function AxisIndex(offset: real, cellSize: real, count: int): (i: int)
    requires cellSize > 0.0 && count >= 1
    ensures 0 <= i < count
  {
    if offset <= 0.0 then 0
    else
      var cell := offset / cellSize;
      PositiveQuotient(offset, cellSize);
      if cell >= (count - 1) as real then count - 1 else cell.Floor
  }

  lemma AxisMonotone(a: real, b: real, cellSize: real, count: int)
    requires cellSize > 0.0 && count >= 1 && a <= b
    ensures AxisIndex(a, cellSize, count) <= AxisIndex(b, cellSize, count)
  {
    DivMono(a, b, cellSize);
  }

  /** An offset inside the grid lies in the band of the cell it is indexed to. */
  lemma AxisBand(offset: real, cellSize: real, count: int)
    requires cellSize > 0.0 && count >= 1
    requires 0.0 <= offset <= count as real * cellSize
    ensures var i := AxisIndex(offset, cellSize, count);
            i as real * cellSize <= offset <= i as real * cellSize + cellSize
  {
    if offset > 0.0 {
      PositiveQuotient(offset, cellSize);
      var i := AxisIndex(offset, cellSize, count);
      FloorBelow(offset, cellSize, i as real);
      if offset / cellSize <= (i + 1) as real {
        FloorAbove(offset, cellSize, i as real);
      } else {
        LastAbove(offset, cellSize, i as real, count as real);
      }
    }
  }

  lemma FloorBelow(a: real, c: real, i: real)
    requires c > 0.0 && i <= a / c
    ensures i * c <= a
  {
    MulMono(i, a / c, c);
    DivMul(a, c);
  }

  lemma FloorAbove(a: real, c: real, i: real)
    requires c > 0.0 && a / c <= i + 1.0
    ensures a <= i * c + c
  {
    MulMono(a / c, i + 1.0, c);
    DivMul(a, c);
    assert (i + 1.0) * c == i * c + c;
  }

  lemma LastAbove(a: real, c: real, i: real, n: real)
    requires c > 0.0 && a <= n * c && n <= i + 1.0
    ensures a <= i * c + c
  {
    MulMono(n, i + 1.0, c);
    assert (i + 1.0) * c == i * c + c;
  }

  // ---- the layout ----

  datatype CellRange = CellRange(x0: int, x1: int, y0: int, y1: int) {

    predicate Has(x: int, y: int) { x0 <= x <= x1 && y0 <= y <= y1 }

    predicate IsWide() { (x1 - x0 + 1) * (y1 - y0 + 1) > WIDE_CELL_LIMIT }
  }

  /** The row-major number of a cell in a grid nx cells wide. */
  function CellNumber(x: int, y: int, nx: int): int { y * nx + x }

  lemma CellBound(x: int, y: int, nx: int, ny: int)
    requires 0 <= x < nx && 0 <= y < ny
    ensures 0 <= CellNumber(x, y, nx) < nx * ny
  {
    assert y * nx <= (ny - 1) * nx == ny * nx - nx;
  }

  /** The rectangle of cells one item covers, in a grid nx cells wide. */
  datatype Block = Block(r: CellRange, nx: int) {

    function CellOf(x: int, y: int): int { CellNumber(x, y, nx) }

    ghost predicate InGrid(cells: nat) {
      && 0 <= r.x0 <= r.x1 < nx && 0 <= r.y0 <= r.y1
      && forall x, y :: r.Has(x, y) ==> 0 <= CellOf(x, y) < cells
    }

    ghost predicate Covers(c: int) {
      exists x, y :: r.Has(x, y) && CellOf(x, y) == c
    }

    lemma NextRow(y: int)
      requires 0 <= r.x0 <= r.x1 < nx
      ensures CellOf(r.x1 + 1, y) <= CellOf(r.x0, y + 1)
    {
      assert (y + 1) * nx == y * nx + nx;
    }

    lemma RangeInGrid(ny: int)
      requires 0 <= r.x0 <= r.x1 < nx && 0 <= r.y0 <= r.y1 < ny
      ensures InGrid(nx * ny)
    {
      forall x, y | r.Has(x, y)
        ensures 0 <= CellOf(x, y) < nx * ny
      {
        CellBound(x, y, nx, ny);
      }
    }
  }

  datatype Layout = Layout(boxes: seq<BBox>, bounds: BBox, cellSize: real, nx: int, ny: int) {

    /** What NewBBoxGrid establishes: every box is well formed and inside the
        bounds, and the cells reach across the bounds. */
    ghost predicate Valid() {
      && |boxes| > 0
      && bounds.IsValid()
      && (forall i :: 0 <= i < |boxes| ==> boxes[i].IsValid() && boxes[i].Within(bounds))
      && cellSize > 0.0
      && 1 <= nx <= MAX_CELLS_PER_SIDE && 1 <= ny <= MAX_CELLS_PER_SIDE
      && bounds.Width() <= nx as real * cellSize
      && bounds.Height() <= ny as real * cellSize
    }

    function Column(x: real): (i: int)
      requires Valid()
      ensures 0 <= i < nx
    {
      AxisIndex(x - bounds.minX, cellSize, nx)
    }

    function Row(y: real): (i: int)
      requires Valid()
      ensures 0 <= i < ny
    {
      AxisIndex(y - bounds.minY, cellSize, ny)
    }

    function Range(box: BBox): CellRange
      requires Valid()
    {
      CellRange(Column(box.minX), Column(box.maxX), Row(box.minY), Row(box.maxY))
    }

    /** Whether item i covers too many cells to be listed in each of them. */
    predicate IsWide(i: nat)
      requires Valid() && i < |boxes|
    {
      Range(boxes[i]).IsWide()
    }

    function Cells(): nat
      requires Valid()
    {
      CellBound(0, 0, nx, ny);
      nx * ny
    }

    predicate InGrid(x: int, y: int) { 0 <= x < nx && 0 <= y < ny }

    /** The cells item i covers. */
    function BlockOf(i: nat): Block
      requires Valid() && i < |boxes|
    {
      Block(Range(boxes[i]), nx)
    }

    /** The items a cell lists: those covering it that are not wide. */
    ghost function Members(cell: int): set<nat>
      requires Valid()
    {
      set i: nat | i < |boxes| && !IsWide(i) && BlockOf(i).Covers(cell)
    }

    lemma BlockInGrid(i: nat)
      requires Valid() && i < |boxes|
      ensures BlockOf(i).InGrid(Cells())
    {
      ColumnMonotone(boxes[i].minX, boxes[i].maxX);
      RowMonotone(boxes[i].minY, boxes[i].maxY);
      BlockOf(i).RangeInGrid(ny);
    }

    ghost function WideItems(): set<nat>
      requires Valid()
    {
      set i: nat | i < |boxes| && IsWide(i)
    }

    /** What scanning every box finds. */
    ghost function Hits(q: BBox): set<nat> {
      set i: nat | i < |boxes| && boxes[i].Intersects(q)
    }

    lemma ColumnMonotone(a: real, b: real)
      requires Valid() && a <= b
      ensures Column(a) <= Column(b)
    {
      AxisMonotone(a - bounds.minX, b - bounds.minX, cellSize, nx);
    }

    lemma RowMonotone(a: real, b: real)
      requires Valid() && a <= b
      ensures Row(a) <= Row(b)
    {
      AxisMonotone(a - bounds.minY, b - bounds.minY, cellSize, ny);
    }

    /** Two intersecting boxes cover a common cell. */
    lemma SharedCell(i: nat, q: BBox) returns (x: int, y: int)
      requires Valid() && q.IsValid() && i < |boxes| && boxes[i].Intersects(q)
      ensures Range(boxes[i]).Has(x, y) && Range(q).Has(x, y)
    {
      var b := boxes[i];
      ColumnMonotone(b.minX, q.maxX);
      ColumnMonotone(q.minX, b.maxX);
      RowMonotone(b.minY, q.maxY);
      RowMonotone(q.minY, b.maxY);
      ColumnMonotone(b.minX, b.maxX);
      RowMonotone(b.minY, b.maxY);
      ColumnMonotone(q.minX, q.maxX);
      RowMonotone(q.minY, q.maxY);
      x := if Column(b.minX) <= Column(q.minX) then Column(q.minX) else Column(b.minX);
      y := if Row(b.minY) <= Row(q.minY) then Row(q.minY) else Row(b.minY);
    }

    /** A height within the bounds lies in the band of its row. */
    lemma RowBand(y: real)
      requires Valid() && bounds.minY <= y <= bounds.maxY
      ensures bounds.minY + Row(y) as real * cellSize <= y <= bounds.minY + Row(y) as real * cellSize + cellSize
    {
      AxisBand(y - bounds.minY, cellSize, ny);
    }

    /** A point of a box lies in a cell the box covers. */
    lemma PointCell(i: nat, p: Point)
      requires Valid() && i < |boxes| && boxes[i].ContainsPoint(p)
      ensures Range(boxes[i]).Has(Column(p.x), Row(p.y))
      ensures bounds.ContainsPoint(p)
    {
      var b := boxes[i];
      assert b.Within(bounds);
      ColumnMonotone(b.minX, p.x);
      ColumnMonotone(p.x, b.maxX);
      RowMonotone(b.minY, p.y);
      RowMonotone(p.y, b.maxY);
    }

    /** A box outside the bounds meets nothing indexed. */
    lemma DisjointFromBounds(q: BBox)
      requires Valid() && !bounds.Intersects(q)
      ensures Hits(q) == {}
    {
      forall i | 0 <= i < |boxes|
        ensures !boxes[i].Intersects(q)
      {
        assert boxes[i].Within(bounds);
      }
    }
  }

  // ---- ascending answers ----

  /** The members of s below n, in ascending order. */
  function Ascending(s: set<nat>, n: nat): (r: seq<nat>)
    ensures forall k :: 0 <= k < |r| ==> r[k] in s && r[k] < n
    ensures forall i :: i in s && i < n ==> i in r
    ensures forall j, k :: 0 <= j < k < |r| ==> r[j] < r[k]
  {
    if n == 0 then []
    else
      var below := Ascending(s, n - 1);
      if n - 1 in s then below + [n - 1] else below
  }

  lemma {:induction false} AscendingSkip(s: set<nat>, a: nat, b: nat)
    requires a <= b
    requires forall i :: a <= i < b ==> i !in s
    ensures Ascending(s, a) == Ascending(s, b)
  {
    if a < b {
      AscendingSkip(s, a, b - 1);
    }
  }

  lemma {:induction false} AscendingGrows(s: set<nat>, a: nat, b: nat)
    requires a <= b
    ensures Ascending(s, a) <= Ascending(s, b)
  {
    if a < b {
      AscendingGrows(s, a, b - 1);
    }
  }

  lemma {:induction false} AscendingAgree(s: set<nat>, t: set<nat>, n: nat)
    requires forall i: nat :: i < n ==> (i in s <==> i in t)
    ensures Ascending(s, n) == Ascending(t, n)
  {
    if n > 0 {
      AscendingAgree(s, t, n - 1);
    }
  }

  lemma AscendingEmpty(n: nat)
    ensures Ascending({}, n) == []
  {
    AscendingSkip({}, 0, n);
  }

  // ---- building the layout ----

  predicate Usable(boxes: seq<BBox>) {
    |boxes| > 0 && forall i :: 0 <= i < |boxes| ==> boxes[i].IsValid()
  }

  ghost predicate Encloses(o: BBox, boxes: seq<BBox>) {
    forall i :: 0 <= i < |boxes| ==> boxes[i].Within(o)
  }

  /** gridBounds: the least box enclosing every input box, or nothing usable. */
  method Bounds(boxes: seq<BBox>) returns (bounds: BBox, ok: bool)
    ensures ok <==> Usable(boxes)
    ensures ok ==> bounds.IsValid() && Encloses(bounds, boxes)
    ensures ok ==> forall o: BBox :: Encloses(o, boxes) ==> bounds.Within(o)
  {
    if |boxes| == 0 {
      return BBox(0.0, 0.0, 0.0, 0.0), false;
    }
    bounds := boxes[0];
    for n := 0 to |boxes|
      invariant forall i :: 0 <= i < n ==> boxes[i].IsValid() && boxes[i].Within(bounds)
      invariant forall o: BBox :: Encloses(o, boxes) ==> bounds.Within(o)
    {
      var b := boxes[n];
      if !b.IsValid() {
        return BBox(0.0, 0.0, 0.0, 0.0), false;
      }
      bounds := bounds.ExpandToIncludeBBox(b);
    }
    assert boxes[0].Within(bounds);
    return bounds, true;
  }

  function TotalExtent(boxes: seq<BBox>, n: nat): real
    requires n <= |boxes|
  {
    if n == 0 then 0.0
    else TotalExtent(boxes, n - 1) + Max(boxes[n - 1].Width(), boxes[n - 1].Height())
  }

  /** How many times over the cap an extent still is. */
  ghost function Overrun(extent: real, cellSize: real): int
    requires cellSize > 0.0
  {
    (extent / cellSize).Floor
  }

  lemma DoublingShrinks(extent: real, cellSize: real)
    requires cellSize > 0.0
    ensures SideCount(extent, cellSize) > MAX_CELLS_PER_SIDE ==>
      0 <= Overrun(extent, 2.0 * cellSize) < Overrun(extent, cellSize)
  {
    if SideCount(extent, cellSize) > MAX_CELLS_PER_SIDE {
      var u, v := extent / cellSize, extent / (2.0 * cellSize);
      assert u * cellSize == extent;
      assert v * (2.0 * cellSize) == extent;
      assert (2.0 * v) * cellSize == u * cellSize;
      if 2.0 * v < u { MulStrict(2.0 * v, u, cellSize); }
      if 2.0 * v > u { MulStrict(u, 2.0 * v, cellSize); }
    }
  }

  function MaxInt(a: int, b: int): int { if a >= b then a else b }

  /** gridCellSize: at least the average box extent, doubled until neither side
      exceeds the cap. squareRoot stands for math.Sqrt. */
  method CellSize(boxes: seq<BBox>, bounds: BBox, squareRoot: real -> real) returns (cellSize: real)
    requires |boxes| > 0
    ensures cellSize > 0.0
    ensures SideCount(bounds.Width(), cellSize) <= MAX_CELLS_PER_SIDE
    ensures SideCount(bounds.Height(), cellSize) <= MAX_CELLS_PER_SIDE
    ensures TotalExtent(boxes, |boxes|) / |boxes| as real <= cellSize
    ensures squareRoot(bounds.Width() * bounds.Height() / (2 * |boxes|) as real) <= cellSize
  {
    var extent := 0.0;
    for i := 0 to |boxes|
      invariant extent == TotalExtent(boxes, i)
    {
      extent := extent + Max(boxes[i].Width(), boxes[i].Height());
    }
    var average := extent / |boxes| as real;
    var target := squareRoot(bounds.Width() * bounds.Height() / (2 * |boxes|) as real);
    cellSize := Max(average, target);
    if cellSize <= 0.0 {
      cellSize := 1.0;
    }
    while SideCount(bounds.Width(), cellSize) > MAX_CELLS_PER_SIDE || SideCount(bounds.Height(), cellSize) > MAX_CELLS_PER_SIDE
      invariant cellSize > 0.0 && average <= cellSize && target <= cellSize
      decreases MaxInt(0, Overrun(Max(bounds.Width(), bounds.Height()), cellSize))
    {
      var side := Max(bounds.Width(), bounds.Height());
      LongerSide(bounds.Width(), side, cellSize);
      LongerSide(bounds.Height(), side, cellSize);
      DoublingShrinks(side, cellSize);
      cellSize := 2.0 * cellSize;
    }
  }

  lemma LongerSide(a: real, b: real, cellSize: real)
    requires a <= b && cellSize > 0.0
    ensures SideCount(a, cellSize) > MAX_CELLS_PER_SIDE ==> SideCount(b, cellSize) > MAX_CELLS_PER_SIDE
  {
    DivMono(a, b, cellSize);
  }
}
