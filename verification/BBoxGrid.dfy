/** The candidate index of a propagation walk: a read-only uniform grid over
    boxes, and the cursor one goroutine queries it through. */
module BBoxGrids {
  import opened Geometry
  import opened GridLayout
  import CellLists
  import opened Options

  /** A finished grid is never modified: cell c owns items[starts[c]..starts[c + 1]],
      and wide holds the items kept out of the cells. */
  datatype BBoxGrid = BBoxGrid(layout: Layout, starts: seq<nat>, items: seq<nat>, wide: seq<nat>) {

    ghost predicate Valid() {
      && layout.Valid()
      && |starts| == layout.Cells() + 1
      && CellLists.Filled(MembersOf(layout), starts, items, |layout.boxes|)
      && wide == Ascending(layout.WideItems(), |layout.boxes|)
    }

    /** The list of cell (x, y). */
    function CellList(x: int, y: int): (list: seq<nat>)
      requires Valid() && layout.InGrid(x, y)
      ensures list == Ascending(layout.Members(CellNumber(x, y, layout.nx)), |layout.boxes|)
    {
      CellBound(x, y, layout.nx, layout.ny);
      assert CellLists.Owns(MembersOf(layout), starts, items, |layout.boxes|, CellNumber(x, y, layout.nx));
      items[starts[CellNumber(x, y, layout.nx)]..starts[CellNumber(x, y, layout.nx) + 1]]
    }

    /** scanAll: tests every box in order. */
    method ScanAll(q: BBox, dst: seq<nat>) returns (r: seq<nat>)
      ensures r == dst + Ascending(layout.Hits(q), |layout.boxes|)
    {
      r := dst;
      for i := 0 to |layout.boxes|
        invariant r == dst + Ascending(layout.Hits(q), i)
      {
        if layout.boxes[i].Intersects(q) {
          r := r + [i];
        }
      }
    }
  }

  lemma ItemFits(l: Layout, i: nat)
    requires l.Valid() && i < |l.boxes| && !l.IsWide(i)
    ensures CellLists.Fits(MembersOf(l), l.BlockOf(i), l.Cells(), i)
  {
    l.BlockInGrid(i);
  }

  ghost function MembersOf(l: Layout): int -> set<nat>
    requires l.Valid()
  {
    c => l.Members(c)
  }

  /** fill: lays out the cell lists and the wide list. */
  method FillLists(l: Layout) returns (grid: BBoxGrid)
    requires l.Valid()
    ensures grid.Valid() && grid.layout == l
  {
    var blocks := seq(|l.boxes|, i requires 0 <= i < |l.boxes| => l.BlockOf(i));
    var out := set i: nat | i < |l.boxes| && l.IsWide(i);
    assert out == l.WideItems();
    var cells := l.Cells();
    forall i | 0 <= i < |blocks| && i !in out
      ensures CellLists.Fits(MembersOf(l), blocks[i], cells, i)
    {
      ItemFits(l, i);
    }
    var starts, items := CellLists.Fill(MembersOf(l), blocks, out, cells);
    grid := BBoxGrid(l, starts[..], items[..], Ascending(out, |l.boxes|));
  }

  lemma ChosenLayout(boxes: seq<BBox>, bounds: BBox, cellSize: real)
    requires Usable(boxes) && bounds.IsValid() && Encloses(bounds, boxes) && cellSize > 0.0
    requires SideCount(bounds.Width(), cellSize) <= MAX_CELLS_PER_SIDE
    requires SideCount(bounds.Height(), cellSize) <= MAX_CELLS_PER_SIDE
    ensures Layout(boxes, bounds, cellSize, SideCount(bounds.Width(), cellSize), SideCount(bounds.Height(), cellSize)).Valid()
  {
    SideCountCovers(bounds.Width(), cellSize);
    SideCountCovers(bounds.Height(), cellSize);
  }

  /** NewBBoxGrid: no index when there is nothing to index or a box is malformed. */
  method NewBBoxGrid(boxes: seq<BBox>, squareRoot: real -> real) returns (grid: Option<BBoxGrid>)
    ensures grid.None? <==> !Usable(boxes)
    ensures grid.Some? ==> grid.value.Valid() && grid.value.layout.boxes == boxes
  {
    var bounds, ok := Bounds(boxes);
    if !ok {
      return None;
    }
    var cellSize := CellSize(boxes, bounds, squareRoot);
    ChosenLayout(boxes, bounds, cellSize);
    var g := FillLists(Layout(boxes, bounds, cellSize, SideCount(bounds.Width(), cellSize), SideCount(bounds.Height(), cellSize)));
    return Some(g);
  }
}
