/** The walk along a segment: how far it strays within one row of cells. */
module SegmentWalk {
  import opened Geometry
  import opened GridLayout
  import opened BBoxGrids
  import opened Options

  datatype Span = Span(low: real, high: real)

  ghost predicate InBand(p: Point, q: Point, t: real, low: real, high: real) {
    0.0 <= t <= 1.0 && low <= Along(p, q, t).y <= high
  }

  /** The parameters of the segment between its crossings of the band's edges. */
  function BandParameters(p: Point, q: Point, low: real, high: real): Option<Span> {
    var dy := q.y - p.y;
    if dy == 0.0 then
      if p.y < low || p.y > high then None else Some(Span(0.0, 1.0))
    else
      var a, b := (low - p.y) / dy, (high - p.y) / dy;
      var first, last := Max(0.0, Min(a, b)), Min(1.0, Max(a, b));
      if first > last then None else Some(Span(first, last))
  }

  /** segmentSpanInBand: the x extent of the part of the segment in the band. */
  function SegmentSpanInBand(p: Point, q: Point, low: real, high: real): Option<Span> {
    match BandParameters(p, q, low, high)
    case None => None
    case Some(s) =>
      var x0, x1 := Along(p, q, s.low).x, Along(p, q, s.high).x;
      Some(Span(Min(x0, x1), Max(x0, x1)))
  }

  /** Dividing a bound on a height by the rise bounds the parameter. */
  lemma HeightToParameter(t: real, h: real, dy: real)
    requires dy != 0.0
    ensures dy > 0.0 ==> (t * dy <= h <==> t <= h / dy) && (t * dy >= h <==> t >= h / dy)
    ensures dy < 0.0 ==> (t * dy <= h <==> t >= h / dy) && (t * dy >= h <==> t <= h / dy)
  {
    var u := h / dy;
    assert u * dy == h;
    if dy > 0.0 {
      if t < u { MulStrict(t, u, dy); }
      if t > u { MulStrict(u, t, dy); }
    } else {
      assert u * -dy == -h && t * -dy == -(t * dy);
      if t < u { MulStrict(t, u, -dy); }
      if t > u { MulStrict(u, t, -dy); }
    }
  }

  /** The parameters in the band are exactly an interval of [0, 1]. */
  lemma BandIsInterval(p: Point, q: Point, low: real, high: real, t: real)
    requires low <= high && 0.0 <= t <= 1.0
    ensures InBand(p, q, t, low, high) <==>
      BandParameters(p, q, low, high).Some? &&
      BandParameters(p, q, low, high).value.low <= t <= BandParameters(p, q, low, high).value.high
  {
    var dy := q.y - p.y;
    assert Along(p, q, t).y == p.y + t * dy;
    if dy != 0.0 {
      HeightToParameter(t, low - p.y, dy);
      HeightToParameter(t, high - p.y, dy);
    } else {
      assert t * dy == 0.0;
    }
  }

  /** The span holds every point of the segment in the band. */
  lemma SpanHolds(p: Point, q: Point, low: real, high: real, t: real)
    requires InBand(p, q, t, low, high)
    ensures var s := SegmentSpanInBand(p, q, low, high);
            s.Some? && s.value.low <= Along(p, q, t).x <= s.value.high
  {
    var b := BandParameters(p, q, low, high);
    BandIsInterval(p, q, low, high, t);
    LerpBetween(p.x, q.x, b.value.low, t, b.value.high);
  }

  /** Both ends of the span are reached by points of the segment in the band,
      so a span is absent only when the band meets no part of the segment. */
  lemma SpanReached(p: Point, q: Point, low: real, high: real) returns (t0: real, t1: real)
    requires low <= high && SegmentSpanInBand(p, q, low, high).Some?
    ensures InBand(p, q, t0, low, high) && InBand(p, q, t1, low, high)
    ensures SegmentSpanInBand(p, q, low, high).value == Span(Along(p, q, t0).x, Along(p, q, t1).x)
  {
    var b := BandParameters(p, q, low, high).value;
    BandIsInterval(p, q, low, high, b.low);
    BandIsInterval(p, q, low, high, b.high);
    if Along(p, q, b.low).x <= Along(p, q, b.high).x {
      t0, t1 := b.low, b.high;
    } else {
      t0, t1 := b.high, b.low;
    }
  }

  /** The box QuerySegment searches: the segment's own, grown by the margin. */
  function SegmentBox(p: Point, q: Point, margin: real): BBox {
    BBox(Min(p.x, q.x) - margin, Min(p.y, q.y) - margin, Max(p.x, q.x) + margin, Max(p.y, q.y) + margin)
  }

  lemma SegmentInBox(p: Point, q: Point, margin: real, t: real)
    requires 0.0 <= t <= 1.0 && margin >= 0.0
    ensures SegmentBox(p, q, margin).ContainsPoint(Along(p, q, t))
  {
    LerpWithin(p.x, q.x, t);
    LerpWithin(p.y, q.y, t);
  }

  ghost predicate SegmentMeets(p: Point, q: Point, box: BBox) {
    exists t :: 0.0 <= t <= 1.0 && box.ContainsPoint(Along(p, q, t))
  }

  /** The indexed boxes the segment meets. */
  ghost function OnSegment(l: Layout, p: Point, q: Point): set<nat> {
    set i: nat | i < |l.boxes| && SegmentMeets(p, q, l.boxes[i])
  }

  /** The band of row y, widened by the margin. */
  function RowLow(l: Layout, y: int, margin: real): real {
    l.bounds.minY + y as real * l.cellSize - margin
  }

  function RowHigh(l: Layout, y: int, margin: real): real {
    RowLow(l, y, margin) + l.cellSize + 2.0 * margin
  }

  /** The columns the walk visits in row y, or nothing when the segment misses it. */
  function RowColumns(l: Layout, p: Point, q: Point, margin: real, y: int): (c: Option<(int, int)>)
    requires l.Valid()
    ensures c.Some? ==> 0 <= c.value.0 < l.nx && 0 <= c.value.1 < l.nx
  {
    match SegmentSpanInBand(p, q, RowLow(l, y, margin), RowHigh(l, y, margin))
    case None => None
    case Some(s) => Some((l.Column(s.low - margin), l.Column(s.high + margin)))
  }

  /** The cells QuerySegment walks. */
  ghost predicate Visits(l: Layout, p: Point, q: Point, margin: real, x: int, y: int)
    requires l.Valid()
  {
    && l.Row(SegmentBox(p, q, margin).minY) <= y <= l.Row(SegmentBox(p, q, margin).maxY)
    && RowColumns(l, p, q, margin, y).Some?
    && RowColumns(l, p, q, margin, y).value.0 <= x <= RowColumns(l, p, q, margin, y).value.1
  }

  lemma RowHoldsHeight(l: Layout, y: real, margin: real)
    requires l.Valid() && margin >= 0.0 && l.bounds.minY <= y <= l.bounds.maxY
    ensures RowLow(l, l.Row(y), margin) <= y <= RowHigh(l, l.Row(y), margin)
  {
    l.RowBand(y);
  }

  /** A point of the segment in an indexed box lies in a cell its row's walk visits. */
  lemma RowFinds(l: Layout, p: Point, q: Point, margin: real, i: nat, t: real)
    requires l.Valid() && margin >= 0.0 && i < |l.boxes|
    requires 0.0 <= t <= 1.0 && l.boxes[i].ContainsPoint(Along(p, q, t))
    ensures var v := Along(p, q, t);
      && l.BlockOf(i).Covers(CellNumber(l.Column(v.x), l.Row(v.y), l.nx))
      && Visits(l, p, q, margin, l.Column(v.x), l.Row(v.y))
  {
    var v := Along(p, q, t);
    var box := SegmentBox(p, q, margin);
    SegmentInBox(p, q, margin, t);
    l.PointCell(i, v);
    assert l.BlockOf(i).r.Has(l.Column(v.x), l.Row(v.y));
    l.RowMonotone(box.minY, v.y);
    l.RowMonotone(v.y, box.maxY);
    RowHoldsHeight(l, v.y, margin);
    var low, high := RowLow(l, l.Row(v.y), margin), RowHigh(l, l.Row(v.y), margin);
    assert InBand(p, q, t, low, high);
    SpanHolds(p, q, low, high, t);
    var s := SegmentSpanInBand(p, q, low, high).value;
    l.ColumnMonotone(s.low - margin, v.x);
    l.ColumnMonotone(v.x, s.high + margin);
  }

  /** A walk over every row's columns, and the wide items, meets every box on the segment. */
  lemma SegmentFinds(l: Layout, p: Point, q: Point, margin: real, tested: set<nat>)
    requires l.Valid() && margin >= 0.0
    requires forall x, y :: Visits(l, p, q, margin, x, y) ==> l.Members(CellNumber(x, y, l.nx)) <= tested
    requires l.WideItems() <= tested
    ensures OnSegment(l, p, q) <= tested * l.Hits(SegmentBox(p, q, margin))
  {
    forall i | i in OnSegment(l, p, q)
      ensures i in tested && i in l.Hits(SegmentBox(p, q, margin))
    {
      var t :| 0.0 <= t <= 1.0 && l.boxes[i].ContainsPoint(Along(p, q, t));
      SegmentInBox(p, q, margin, t);
      if !l.IsWide(i) {
        RowFinds(l, p, q, margin, i, t);
        assert i in l.Members(CellNumber(l.Column(Along(p, q, t).x), l.Row(Along(p, q, t).y), l.nx));
      }
    }
  }

  lemma NothingOnSegment(l: Layout, p: Point, q: Point, margin: real)
    requires l.Valid() && margin >= 0.0 && !l.bounds.Intersects(SegmentBox(p, q, margin))
    ensures OnSegment(l, p, q) == {}
  {
    forall i: nat, t | i < |l.boxes| && 0.0 <= t <= 1.0
      ensures !l.boxes[i].ContainsPoint(Along(p, q, t))
    {
      SegmentInBox(p, q, margin, t);
      assert l.boxes[i].Within(l.bounds);
    }
  }
}
