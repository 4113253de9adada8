/** One goroutine's view of a grid: the marks a query needs, and the queries. */
module GridCursors {
  import opened Geometry
  import opened GridLayout
  import opened Words
  import opened CursorWords
  import opened BBoxGrids
  import opened SegmentWalk
  import opened Shadows
  import ShadowWalk
  import CellLists
  import opened Options

  function WordCount(n: nat): nat { (n + 63) / 64 }

  class BBoxGridCursor {
    const grid: BBoxGrid

    /** marks[2w] is the tested word of items 64w..64w+63, marks[2w + 1] their
        answered word; bit w of touched says marks[2w] holds a mark. */
    const marks: array<bv64>
    const touched: array<bv64>

    /** The summary words the current query has written. */
    var loTouched: int
    var hiTouched: int

    /** The items the current query has tested. */
    ghost var tested: set<nat>

    /** How many items are indexed. */
    ghost const count: nat

    ghost predicate Shape() {
      && marks.Length == 2 * WordCount(count)
      && touched.Length == WordCount(WordCount(count))
      && marks != touched
    }

    /** Between queries nothing is marked. */
    ghost predicate Idle()
      reads marks, touched
    {
      Shape() && AllZero(marks[..]) && AllZero(touched[..])
    }

    /** During a query answered by hits, the words hold what has been tested
        and what of it has been answered. */
    ghost predicate Walking(hits: set<nat>)
      reads this, marks, touched
    {
      && Shape()
      && (forall i :: i in tested ==> i < count)
      && 0 <= loTouched && hiTouched < touched.Length
      && MarksAre(marks[..], tested, tested * hits)
      && TouchedAre(touched[..], WordsOf(tested), loTouched, hiTouched)
    }

    constructor (grid: BBoxGrid)
      requires grid.Valid()
      ensures Idle() && this.grid == grid && count == |grid.layout.boxes| && fresh(marks) && fresh(touched)
    {
      this.grid := grid;
      count := |grid.layout.boxes|;
      var words := WordCount(|grid.layout.boxes|);
      marks := new bv64[2 * words](_ => 0);
      touched := new bv64[WordCount(words)](_ => 0);
      loTouched, hiTouched := WordCount(words), -1;
      tested := {};
    }

    method BeginQuery(ghost hits: set<nat>)
      requires Idle()
      modifies this
      ensures Walking(hits) && tested == {}
    {
      loTouched := touched.Length;
      hiTouched := -1;
      tested := {};
      NothingMarked(marks[..], touched[..], hits, loTouched, hiTouched);
    }

    /** Enters a word of marks in the summary. */
    method Touch(word: nat, ghost words: set<nat>)
      requires word / 64 < touched.Length && 0 <= loTouched && hiTouched < touched.Length
      requires TouchedAre(touched[..], words, loTouched, hiTouched)
      modifies this`loTouched, this`hiTouched, touched
      ensures TouchedAre(touched[..], words + {word}, loTouched, hiTouched)
      ensures 0 <= loTouched && hiTouched < touched.Length
    {
      var summary := word / 64;
      ghost var was := touched[..];
      ghost var lo, hi := loTouched, hiTouched;
      assert SummaryIs(was, summary, words, lo, hi);
      var bit := Mask(word % 64);
      touched[summary] := OrItem(touched[summary], bit, words, word);
      if summary < loTouched { loTouched := summary; }
      if summary > hiTouched { hiTouched := summary; }
      TouchWord(was, touched[..], word, words, lo, hi, loTouched, hiTouched);
    }

    /** Sets an item's tested bit, and its answered bit when it was hit. */
    method SetMarks(item: nat, bit: bv64, hit: bool, ghost done: set<nat>, ghost answered: set<nat>)
      requires 2 * (item / 64) + 1 < marks.Length && IsOne(bit, item % 64)
      requires MarksAre(marks[..], done, answered)
      modifies marks
      ensures MarksAre(marks[..], done + {item}, if hit then answered + {item} else answered)
    {
      var slot := 2 * (item / 64);
      ghost var before := marks[..];
      assert PairIs(before, item / 64, done, answered);
      marks[slot] := OrItem(marks[slot], bit, done, item);
      if hit {
        marks[slot + 1] := OrItem(marks[slot + 1], bit, answered, item);
      }
      assert PairIs(marks[..], item / 64, done + {item}, if hit then answered + {item} else answered);
      MarkItem(before, marks[..], item, done, answered, if hit then answered + {item} else answered);
    }

    /** Takes one item through the Intersects test, here the answer hit, unless
        this query already has. */
    method CollectItem(item: nat, hit: bool, ghost hits: set<nat>)
      requires Walking(hits) && item < count && (hit <==> item in hits)
      modifies this, marks, touched
      ensures Walking(hits) && tested == old(tested) + {item}
    {
      var word := item / 64;
      var slot := 2 * word;
      var bit := Mask(item % 64);
      var seen := IsMarked(marks[slot], bit, item, tested, tested * hits);
      if seen {
        assert tested == tested + {item};
        return;
      }
      WordsOfAdd(tested, item);
      if marks[slot] == 0 {
        Touch(word, WordsOf(tested));
      } else {
        MarkedWord(tested, word, marks[slot]);
        assert WordsOf(tested) == WordsOf(tested) + {word};
      }
      assert (tested + {item}) * hits == if hit then tested * hits + {item} else tested * hits;
      SetMarks(item, bit, hit, tested, tested * hits);
      tested := tested + {item};
    }

    method IsMarked(w: bv64, bit: bv64, item: nat, ghost done: set<nat>, ghost answered: set<nat>) returns (seen: bool)
      requires 2 * (item / 64) + 1 < marks.Length && IsOne(bit, item % 64)
      requires MarksAre(marks[..], done, answered) && w == marks[2 * (item / 64)]
      ensures seen <==> item in done
      ensures WordIs(w, done, 64 * (item / 64))
    {
      assert PairIs(marks[..], item / 64, done, answered);
      assert 64 * (item / 64) + item % 64 == item;
      TestBit(w, bit, item % 64);
      seen := w & bit != 0;
    }

    /** One summary word of the answer. */
    method EmitSummary(summary: nat, r: seq<nat>, ghost out: seq<nat>, ghost answered: set<nat>) returns (r': seq<nat>)
      requires Shape() && summary < touched.Length && answered <= tested
      requires forall i :: i in tested ==> i < count
      requires SummaryLeft(touched[..], WordsOf(tested), summary)
      requires Emitted(marks[..], r, out, tested, answered, 64 * summary)
      modifies marks, touched
      ensures SummaryLeft(touched[..], WordsOf(tested), summary + 1)
      ensures Emitted(marks[..], r', out, tested, answered, 64 * (summary + 1))
    {
      r' := r;
      var words := touched[summary];
      touched[summary] := 0;
      ghost var ws := WordsOf(tested);
      ghost var at := 64 * summary;
      assert From(ws, at) <= ws && WordIs(words, From(ws, at), 64 * summary);
      while words != 0
        invariant 64 * summary <= at <= 64 * (summary + 1)
        invariant WordIs(words, From(ws, at), 64 * summary)
        invariant Emitted(marks[..], r', out, tested, answered, at)
        invariant SummaryLeft(touched[..], ws, summary + 1)
        decreases 64 * (summary + 1) - at
      {
        var word;
        word, words := PopLowest(words, 64 * summary, From(ws, at));
        WordInMarks(tested, word, count);
        NoneFrom(ws, 64 * summary, at, word);
        Advance(marks[..], r', out, tested, answered, at, word);
        r' := EmitPair(marks, word, r', out, tested, answered);
        assert From(From(ws, at), word + 1) == From(ws, word + 1);
        at := word + 1;
      }
      WordZero(words, From(ws, at), 64 * summary);
      NoneFrom(ws, 64 * summary, at, 64 * (summary + 1));
      Advance(marks[..], r', out, tested, answered, at, 64 * (summary + 1));
    }

    /** finish: turns the marks into the query's answer after dst, and clears them. */
    method Finish(dst: seq<nat>, ghost hits: set<nat>) returns (r: seq<nat>)
      requires Walking(hits)
      modifies this, marks, touched
      ensures Idle() && tested == old(tested)
      ensures r == dst + Ascending(tested * hits, count)
    {
      r := dst;
      ghost var answered := tested * hits;
      var summary := loTouched;
      SummaryFits(tested, count);
      SummaryStart(touched[..], WordsOf(tested), loTouched, hiTouched);
      assert From(tested, 0) == tested && From(answered, 0) == answered;
      Advance(marks[..], r, dst, tested, answered, 0, 64 * summary);
      while summary <= hiTouched
        invariant 0 <= summary && tested == old(tested) && hiTouched == old(hiTouched)
        invariant SummaryLeft(touched[..], WordsOf(tested), summary)
        invariant Emitted(marks[..], r, dst, tested, answered, 64 * summary)
      {
        r := EmitSummary(summary, r, dst, answered);
        summary := summary + 1;
      }
      ghost var last := if summary > WordCount(count) then summary else WordCount(count);
      Advance(marks[..], r, dst, tested, answered, 64 * summary, 64 * last);
      AllEmitted(marks[..], r, dst, tested, answered, 64 * last, count);
      forall s: nat | s < touched.Length
        ensures touched[s] == 0
      {
        if s >= summary {
          WordZero(touched[s], WordsOf(tested), 64 * s);
        }
      }
    }

    /** collect: takes one list through the test. */
    method Collect(list: seq<nat>, q: BBox, ghost hits: set<nat>)
      requires Walking(hits) && count == |grid.layout.boxes| && hits == grid.layout.Hits(q)
      requires forall k :: 0 <= k < |list| ==> list[k] < count
      modifies this, marks, touched
      ensures Walking(hits)
      ensures tested == old(tested) + set i | i in list
    {
      for k := 0 to |list|
        invariant Walking(hits)
        invariant tested == old(tested) + set i | i in list[..k]
      {
        CollectItem(list[k], grid.layout.boxes[list[k]].Intersects(q), hits);
        assert list[..k + 1] == list[..k] + [list[k]];
      }
      assert list[..|list|] == list;
    }

    // ---- the queries ----

    /** A cursor that can answer a query. */
    ghost predicate Ready()
      reads marks, touched
    {
      Idle() && grid.Valid() && count == |grid.layout.boxes|
    }

    /** During a query with answering box q. */
    ghost predicate Walk(q: BBox)
      reads this, marks, touched
    {
      && grid.Valid() && count == |grid.layout.boxes|
      && Walking(grid.layout.Hits(q))
    }

    /** Takes the list of one cell through the test. */
    method CollectCell(x: int, y: int, q: BBox)
      requires Walk(q) && grid.layout.InGrid(x, y)
      modifies this, marks, touched
      ensures Walk(q) && tested == old(tested) + grid.layout.Members(CellNumber(x, y, grid.layout.nx))
    {
      Collect(grid.CellList(x, y), q, grid.layout.Hits(q));
    }

    /** Takes columns x0 to x1 of a row through the test. */
    method CollectRow(y: int, x0: int, x1: int, q: BBox)
      requires Walk(q) && 0 <= y < grid.layout.ny && 0 <= x0 && x1 < grid.layout.nx
      modifies this, marks, touched
      ensures Walk(q) && old(tested) <= tested
      ensures forall x :: x0 <= x <= x1 ==> grid.layout.Members(CellNumber(x, y, grid.layout.nx)) <= tested
    {
      var x := x0;
      while x <= x1
        invariant x0 <= x && Walk(q) && old(tested) <= tested
        invariant forall x' :: x0 <= x' < x && x' <= x1 ==> grid.layout.Members(CellNumber(x', y, grid.layout.nx)) <= tested
      {
        CollectCell(x, y, q);
        x := x + 1;
      }
    }

    /** Takes the wide items through the test. */
    method CollectWide(q: BBox)
      requires Walk(q)
      modifies this, marks, touched
      ensures Walk(q) && tested == old(tested) + grid.layout.WideItems()
    {
      Collect(grid.wide, q, grid.layout.Hits(q));
    }

    /** Query: every indexed box intersecting q, in ascending order. */
    method Query(q: BBox, dst: seq<nat>) returns (r: seq<nat>)
      requires Ready()
      modifies this, marks, touched
      ensures Ready()
      ensures r == dst + if q.IsValid() then Ascending(grid.layout.Hits(q), count) else []
    {
      var l := grid.layout;
      if !q.IsValid() || !l.bounds.Intersects(q) {
        if q.IsValid() {
          l.DisjointFromBounds(q);
          AscendingEmpty(count);
        }
        return dst;
      }
      var c := l.Range(q);
      if 2 * (c.x1 - c.x0 + 1) * (c.y1 - c.y0 + 1) >= |l.boxes| {
        r := grid.ScanAll(q, dst);
        return r;
      }
      BeginQuery(l.Hits(q));
      var y := c.y0;
      while y <= c.y1
        invariant c.y0 <= y && Walk(q)
        invariant forall x', y' :: c.Has(x', y') && y' < y ==> l.Members(CellNumber(x', y', l.nx)) <= tested
      {
        CollectRow(y, c.x0, c.x1, q);
        y := y + 1;
      }
      CollectWide(q);
      RangeFinds(l, q, tested);
      AscendingAgree(l.Hits(q), tested * l.Hits(q), count);
      r := Finish(dst, l.Hits(q));
    }

    /** QuerySegment: boxes around the segment's own box, and among them every
        box the segment meets, in ascending order. */
    method QuerySegment(p: Point, q: Point, margin: real, dst: seq<nat>) returns (r: seq<nat>, ghost found: set<nat>)
      requires Ready() && margin >= 0.0
      modifies this, marks, touched
      ensures Ready()
      ensures r == dst + Ascending(found, count)
      ensures OnSegment(grid.layout, p, q) <= found <= grid.layout.Hits(SegmentBox(p, q, margin))
    {
      var l, box := grid.layout, SegmentBox(p, q, margin);
      if !l.bounds.Intersects(box) {
        NothingOnSegment(l, p, q, margin);
        AscendingEmpty(count);
        return dst, {};
      }
      BeginQuery(l.Hits(box));
      var y, y1 := l.Row(box.minY), l.Row(box.maxY);
      while y <= y1
        invariant l.Row(box.minY) <= y && Walk(box)
        invariant forall x', y' :: Visits(l, p, q, margin, x', y') && y' < y ==> l.Members(CellNumber(x', y', l.nx)) <= tested
      {
        var columns := RowColumns(l, p, q, margin, y);
        if columns.Some? {
          CollectRow(y, columns.value.0, columns.value.1, box);
        }
        y := y + 1;
      }
      CollectWide(box);
      SegmentFinds(l, p, q, margin, tested);
      found := tested * l.Hits(box);
      r := Finish(dst, l.Hits(box));
    }

    /** QueryShadow: every box holding a point of the shadow, and none clear of
        the shadow's box, in ascending order. */
    method QueryShadow(s: SegmentShadow, margin: real, dst: seq<nat>) returns (r: seq<nat>, ghost found: set<nat>)
      requires Ready() && margin >= 0.0
      modifies this, marks, touched
      ensures Ready()
      ensures r == dst + Ascending(found, count)
      ensures ShadowWalk.InShadow(grid.layout, s) <= found
      ensures var full := ShadowBounds(s, grid.layout.bounds, margin);
              found <= if full.Some? then grid.layout.Hits(full.value) else {}
    {
      var l := grid.layout;
      AscendingEmpty(count);
      ShadowWalk.BoxFinds(l, s, margin);
      var reach := ComputeBounds(s, l.bounds, margin);
      if reach.None? || !l.bounds.Intersects(reach.value) {
        return dst, {};
      }
      var full := reach.value;
      var y, y1 := l.Row(full.minY), l.Row(full.maxY);
      if y1 - y >= ShadowWalk.SHADOW_ROW_LIMIT {
        r := Query(full, dst);
        found := if full.IsValid() then l.Hits(full) else {};
        return;
      }
      BeginQuery(l.Hits(full));
      while y <= y1
        invariant l.Row(full.minY) <= y && Walk(full)
        invariant forall x', y' :: ShadowWalk.Visits(l, s, full, margin, x', y') && y' < y ==> l.Members(CellNumber(x', y', l.nx)) <= tested
      {
        var span := ComputeBounds(s, ShadowWalk.RowBox(l, full, y), margin);
        var columns := ShadowWalk.SpanColumns(l, span);
        if columns.Some? {
          CollectRow(y, columns.value.0, columns.value.1, full);
        }
        y := y + 1;
      }
      CollectWide(full);
      ShadowWalk.ShadowFinds(l, s, full, margin, tested);
      found := tested * l.Hits(full);
      r := Finish(dst, l.Hits(full));
    }
  }

  /** A walk over every cell of q's range, and the wide items, meets every hit. */
  lemma RangeFinds(l: Layout, q: BBox, tested: set<nat>)
    requires l.Valid() && q.IsValid()
    requires forall x, y :: l.Range(q).Has(x, y) ==> l.Members(CellNumber(x, y, l.nx)) <= tested
    requires l.WideItems() <= tested
    ensures l.Hits(q) <= tested
  {
    forall i | i in l.Hits(q)
      ensures i in tested
    {
      if !l.IsWide(i) {
        var x, y := l.SharedCell(i, q);
        assert i in l.Members(CellNumber(x, y, l.nx)) by {
          assert l.BlockOf(i).r.Has(x, y) && l.BlockOf(i).CellOf(x, y) == CellNumber(x, y, l.nx);
        }
      }
    }
  }

  /** Summary words before summary are cleared; the others still say which of
      words they hold. */
  ghost predicate SummaryLeft(touched: seq<bv64>, words: set<nat>, summary: nat) {
    forall s: nat :: s < |touched| ==>
      if s < summary then touched[s] == 0 else WordIs(touched[s], words, 64 * s)
  }

  lemma SummaryStart(touched: seq<bv64>, words: set<nat>, lo: nat, hi: int)
    requires TouchedAre(touched, words, lo, hi)
    requires forall w :: w in words ==> w / 64 < |touched|
    ensures SummaryLeft(touched, words, lo)
    ensures NoneIn(words, 0, 64 * lo)
    ensures forall w :: w in words ==> w < 64 * (hi + 1)
  {
    forall s: nat | s < |touched|
      ensures if s < lo then touched[s] == 0 else WordIs(touched[s], words, 64 * s)
    {
      assert SummaryIs(touched, s, words, lo, hi);
    }
    forall w | w in words
      ensures 64 * lo <= w < 64 * (hi + 1)
    {
      assert SummaryIs(touched, w / 64, words, lo, hi);
      WordZero(touched[w / 64], words, 64 * (w / 64));
    }
  }

  lemma WordInMarks(tested: set<nat>, word: nat, n: nat)
    requires word in WordsOf(tested) && forall i :: i in tested ==> i < n
    ensures word < WordCount(n)
  {}

  lemma SummaryFits(tested: set<nat>, n: nat)
    requires forall i :: i in tested ==> i < n
    ensures forall w :: w in WordsOf(tested) ==> w / 64 < WordCount(WordCount(n))
  {
    forall w | w in WordsOf(tested)
      ensures w / 64 < WordCount(WordCount(n))
    {
      WordInMarks(tested, w, n);
    }
  }

  lemma NoneFrom(s: set<nat>, base: nat, at: nat, i: nat)
    requires base <= at && NoneIn(From(s, at), base, i)
    ensures NoneIn(s, at, i)
  {
    forall j | j in s
      ensures j < at || i <= j
    {
      if at <= j {
        assert j in From(s, at);
      }
    }
  }

  lemma NothingMarked(marks: seq<bv64>, touched: seq<bv64>, hits: set<nat>, lo: int, hi: int)
    requires AllZero(marks) && AllZero(touched)
    ensures MarksAre(marks, {}, {} * hits)
    ensures TouchedAre(touched, WordsOf({}), lo, hi)
  {
    forall w: nat | 2 * w + 1 < |marks|
      ensures PairIs(marks, w, {}, {} * hits)
    {
      ZeroWord({}, 64 * w);
    }
    forall s: nat | s < |touched|
      ensures SummaryIs(touched, s, WordsOf({}), lo, hi)
    {
      ZeroWord(WordsOf({}), 64 * s);
    }
  }

  lemma MarkedWord(tested: set<nat>, word: nat, w: bv64)
    requires WordIs(w, tested, 64 * word) && w != 0
    ensures word in WordsOf(tested)
  {
    WordZero(w, tested, 64 * word);
    var i :| i in tested && 64 * word <= i < 64 * word + 64;
    assert i / 64 == word;
  }

  lemma WordsOfAdd(tested: set<nat>, item: nat)
    ensures WordsOf(tested + {item}) == WordsOf(tested) + {item / 64}
  {
    assert item in tested + {item};
  }

  /** The query for a shadow a segment casts: every box that holds a point
      apex + lambda (s - apex), s on [a, b] and lambda at least 1, is answered. */
  method QueryCast(cursor: BBoxGridCursor, apex: Point, a: Point, b: Point, margin: real, hypot: (real, real) -> real, dst: seq<nat>)
    returns (r: seq<nat>)
    requires cursor.Ready() && margin >= 0.0
    modifies cursor, cursor.marks, cursor.touched
    ensures cursor.Ready() && dst <= r
    ensures forall i, v :: 0 <= i < |cursor.grid.layout.boxes| && cursor.grid.layout.boxes[i].ContainsPoint(v) && Casts(apex, a, b, v) ==> i in r[|dst|..]
  {
    var shadow := NewSegmentShadow(apex, a, b, margin, hypot);
    ghost var found;
    r, found := cursor.QueryShadow(shadow, margin, dst);
    forall i, v | 0 <= i < |cursor.grid.layout.boxes| && cursor.grid.layout.boxes[i].ContainsPoint(v) && Casts(apex, a, b, v)
      ensures i in r[|dst|..]
    {
      ShadowHolds(apex, a, b, margin, hypot, v);
      assert ShadowWalk.ShadowMeets(shadow, cursor.grid.layout.boxes[i]);
      assert i in ShadowWalk.InShadow(cursor.grid.layout, shadow);
    }
  }
}
