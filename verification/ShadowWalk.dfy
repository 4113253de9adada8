/** The walk along a shadow: which cells of each row it visits, and why they are enough. */
module ShadowWalk {
  import opened Geometry
  import opened GridLayout
  import opened BBoxGrids
  import opened Shadows
  import opened Options

  const SHADOW_ROW_LIMIT := 32

  ghost predicate ShadowMeets(s: SegmentShadow, box: BBox) {
    exists v :: box.ContainsPoint(v) && s.Holds(v)
  }

  /** The indexed boxes that hold a point of the shadow. */
  ghost function InShadow(l: Layout, s: SegmentShadow): set<nat> {
    set i: nat | i < |l.boxes| && ShadowMeets(s, l.boxes[i])
  }

  /** The part of row y the shadow's box reaches across. */
  function RowBox(l: Layout, full: BBox, y: int): BBox {
    var low := l.bounds.minY + y as real * l.cellSize;
    BBox(full.minX, low, full.maxX, low + l.cellSize)
  }

  function SpanColumns(l: Layout, span: Option<BBox>): (c: Option<(int, int)>)
    requires l.Valid()
    ensures c.Some? ==> 0 <= c.value.0 < l.nx && 0 <= c.value.1 < l.nx
  {
    match span
    case None => None
    case Some(b) => Some((l.Column(b.minX), l.Column(b.maxX)))
  }

  /** The cells QueryShadow walks. */
  ghost predicate Visits(l: Layout, s: SegmentShadow, full: BBox, margin: real, x: int, y: int)
    requires l.Valid()
  {
    var c := SpanColumns(l, ShadowBounds(s, RowBox(l, full, y), margin));
    l.Row(full.minY) <= y <= l.Row(full.maxY) && c.Some? && c.value.0 <= x <= c.value.1
  }

  /** A shadow point in an indexed box lies in a cell its row's walk visits. */
  lemma RowFinds(l: Layout, s: SegmentShadow, full: BBox, margin: real, i: nat, v: Point)
    requires l.Valid() && margin >= 0.0 && i < |l.boxes|
    requires l.boxes[i].ContainsPoint(v) && s.Holds(v) && full.ContainsPoint(v)
    ensures l.BlockOf(i).Covers(CellNumber(l.Column(v.x), l.Row(v.y), l.nx))
    ensures Visits(l, s, full, margin, l.Column(v.x), l.Row(v.y))
  {
    l.PointCell(i, v);
    assert l.BlockOf(i).r.Has(l.Column(v.x), l.Row(v.y));
    VisitsPoint(l, s, full, margin, v);
  }

  lemma InRowBox(l: Layout, full: BBox, v: Point)
    requires l.Valid() && l.bounds.ContainsPoint(v) && full.ContainsPoint(v)
    ensures RowBox(l, full, l.Row(v.y)).ContainsPoint(v)
  {
    l.RowBand(v.y);
  }

  lemma ColumnsHold(l: Layout, b: BBox, v: Point)
    requires l.Valid() && b.ContainsPoint(v)
    ensures l.Column(b.minX) <= l.Column(v.x) <= l.Column(b.maxX)
    ensures l.Row(b.minY) <= l.Row(v.y) <= l.Row(b.maxY)
  {
    l.ColumnMonotone(b.minX, v.x);
    l.ColumnMonotone(v.x, b.maxX);
    l.RowMonotone(b.minY, v.y);
    l.RowMonotone(v.y, b.maxY);
  }

  lemma VisitsPoint(l: Layout, s: SegmentShadow, full: BBox, margin: real, v: Point)
    requires l.Valid() && margin >= 0.0
    requires l.bounds.ContainsPoint(v) && s.Holds(v) && full.ContainsPoint(v)
    ensures Visits(l, s, full, margin, l.Column(v.x), l.Row(v.y))
  {
    InRowBox(l, full, v);
    var row := RowBox(l, full, l.Row(v.y));
    BoundsHold(s, row, margin, v);
    ColumnsHold(l, full, v);
    ColumnsHold(l, ShadowBounds(s, row, margin).value, v);
  }

  /** Every indexed box in the shadow meets the shadow's box. */
  lemma FullHolds(l: Layout, s: SegmentShadow, margin: real, i: nat, v: Point)
    requires l.Valid() && margin >= 0.0 && i < |l.boxes|
    requires l.boxes[i].ContainsPoint(v) && s.Holds(v)
    ensures var f := ShadowBounds(s, l.bounds, margin);
            f.Some? && f.value.ContainsPoint(v) && f.value.IsValid() && l.bounds.Intersects(f.value) && l.boxes[i].Intersects(f.value)
  {
    l.PointCell(i, v);
    BoundsHold(s, l.bounds, margin, v);
  }

  /** A walk over every row's columns, and the wide items, meets every box in the shadow. */
  lemma ShadowFinds(l: Layout, s: SegmentShadow, full: BBox, margin: real, tested: set<nat>)
    requires l.Valid() && margin >= 0.0 && ShadowBounds(s, l.bounds, margin) == Some(full)
    requires forall x, y :: Visits(l, s, full, margin, x, y) ==> l.Members(CellNumber(x, y, l.nx)) <= tested
    requires l.WideItems() <= tested
    ensures InShadow(l, s) <= tested * l.Hits(full)
  {
    forall i | i in InShadow(l, s)
      ensures i in tested && i in l.Hits(full)
    {
      var v :| l.boxes[i].ContainsPoint(v) && s.Holds(v);
      FullHolds(l, s, margin, i, v);
      if !l.IsWide(i) {
        RowFinds(l, s, full, margin, i, v);
        assert i in l.Members(CellNumber(l.Column(v.x), l.Row(v.y), l.nx));
      }
    }
  }

  /** A box search of the shadow's box meets every box in the shadow. */
  lemma BoxFinds(l: Layout, s: SegmentShadow, margin: real)
    requires l.Valid() && margin >= 0.0
    ensures match ShadowBounds(s, l.bounds, margin)
      case None => InShadow(l, s) == {}
      case Some(full) =>
        && InShadow(l, s) <= l.Hits(full)
        && (!l.bounds.Intersects(full) || !full.IsValid() ==> InShadow(l, s) == {})
  {
    forall i, v | 0 <= i < |l.boxes| && l.boxes[i].ContainsPoint(v) && s.Holds(v)
      ensures ShadowBounds(s, l.bounds, margin).Some?
      ensures ShadowBounds(s, l.bounds, margin).value.IsValid()
      ensures l.bounds.Intersects(ShadowBounds(s, l.bounds, margin).value)
      ensures l.boxes[i].Intersects(ShadowBounds(s, l.bounds, margin).value)
    {
      FullHolds(l, s, margin, i, v);
    }
  }
}
