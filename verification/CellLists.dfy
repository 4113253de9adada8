/** Compressed-row cell lists, counted first and placed second: cell c ends up
    owning items[starts[c]..starts[c + 1]], the ascending list of its members.
    What the members of a cell are is the caller's business. */
module CellLists {
  import opened GridLayout

  /** How far the list of a cell has got while item n is being entered. */
  ghost function Upto(visited: set<int>, c: int, n: nat): nat {
    if c in visited then n + 1 else n
  }

  ghost function Listed(members: int -> set<nat>, c: int, n: nat): seq<nat> {
    Ascending(members(c), n)
  }

  /** Item n belongs to exactly the cells of block b. */
  ghost predicate Fits(members: int -> set<nat>, b: Block, cells: nat, n: nat) {
    && b.InGrid(cells)
    && forall c :: 0 <= c < cells ==> (n in members(c) <==> b.Covers(c))
  }

  /** Item n belongs to no cell. */
  ghost predicate Nowhere(members: int -> set<nat>, cells: nat, n: nat) {
    forall c :: 0 <= c < cells ==> n !in members(c)
  }

  /** Once every cell of item n has been visited, its lists include item n. */
  lemma Entered(members: int -> set<nat>, visited: set<int>, n: nat, c: int)
    requires n in members(c) ==> c in visited
    ensures Listed(members, c, Upto(visited, c, n)) == Listed(members, c, n + 1)
  {}

  // ---- counting ----

  /** counts[c + 1] is the length of cell c's list so far. */
  ghost predicate Counted(members: int -> set<nat>, counts: seq<nat>, visited: set<int>, n: nat) {
    && |counts| >= 1 && counts[0] == 0
    && forall c :: 0 <= c < |counts| - 1 ==> CountOf(members, counts, visited, n, c)
  }

  ghost predicate CountOf(members: int -> set<nat>, counts: seq<nat>, visited: set<int>, n: nat, c: int)
    requires 0 <= c < |counts| - 1
  {
    counts[c + 1] == |Listed(members, c, Upto(visited, c, n))|
  }

  lemma CountOne(members: int -> set<nat>, counts: seq<nat>, visited: set<int>, n: nat, cell: int)
    requires 0 <= cell < |counts| - 1 && cell !in visited && n in members(cell)
    requires Counted(members, counts, visited, n)
    ensures Counted(members, counts[cell + 1 := counts[cell + 1] + 1], visited + {cell}, n)
  {
    var after := counts[cell + 1 := counts[cell + 1] + 1];
    forall c | 0 <= c < |counts| - 1
      ensures CountOf(members, after, visited + {cell}, n, c)
    {
      assert CountOf(members, counts, visited, n, c);
    }
  }

  lemma CountDone(members: int -> set<nat>, counts: seq<nat>, visited: set<int>, n: nat)
    requires Counted(members, counts, visited, n)
    requires forall c :: 0 <= c < |counts| - 1 && n in members(c) ==> c in visited
    ensures Counted(members, counts, {}, n + 1)
  {
    var m := n + 1;
    forall c | 0 <= c < |counts| - 1
      ensures CountOf(members, counts, {}, m, c)
    {
      assert CountOf(members, counts, visited, n, c);
      Entered(members, visited, n, c);
    }
  }

  /** Counts item n once in each cell of its block. */
  method CountItem(ghost members: int -> set<nat>, b: Block, counts: array<nat>, n: nat)
    requires counts.Length >= 1 && Fits(members, b, counts.Length - 1, n)
    requires Counted(members, counts[..], {}, n)
    modifies counts
    ensures Counted(members, counts[..], {}, n + 1)
  {
    ghost var visited: set<int> := {};
    var y := b.r.y0;
    while y <= b.r.y1
      invariant b.r.y0 <= y
      invariant Counted(members, counts[..], visited, n)
      invariant forall x', y' :: b.r.Has(x', y') && y' < y ==> b.CellOf(x', y') in visited
      invariant forall c :: c in visited ==> c < b.CellOf(b.r.x0, y)
    {
      var x := b.r.x0;
      while x <= b.r.x1
        invariant b.r.x0 <= x <= b.r.x1 + 1
        invariant Counted(members, counts[..], visited, n)
        invariant forall x', y' :: b.r.Has(x', y') && (y' < y || (y' == y && x' < x)) ==> b.CellOf(x', y') in visited
        invariant forall c :: c in visited ==> c < b.CellOf(x, y)
      {
        assert b.r.Has(x, y);
        var cell := b.CellOf(x, y);
        assert b.Covers(cell);
        CountOne(members, counts[..], visited, n, cell);
        counts[cell + 1] := counts[cell + 1] + 1;
        visited := visited + {cell};
        x := x + 1;
      }
      b.NextRow(y);
      y := y + 1;
    }
    CountDone(members, counts[..], visited, n);
  }

  // ---- prefix sums ----

  /** starts are the running sums of counts as far as n: each segment is as
      long as its count. */
  ghost predicate Summed(starts: seq<nat>, counts: seq<nat>, n: nat)
    requires n <= |starts| == |counts|
  {
    && (forall c :: 0 < c < n ==> starts[c] == starts[c - 1] + counts[c])
    && (forall c, d :: 0 <= c <= d < n ==> starts[c] <= starts[d])
    && (forall c :: n <= c < |starts| ==> starts[c] == counts[c])
  }

  method PrefixSums(starts: array<nat>)
    requires starts.Length >= 1
    modifies starts
    ensures starts[0] == old(starts[0])
    ensures Summed(starts[..], old(starts[..]), starts.Length)
  {
    var i := 1;
    while i < starts.Length
      invariant 1 <= i <= starts.Length
      invariant starts[0] == old(starts[0])
      invariant Summed(starts[..], old(starts[..]), i)
    {
      starts[i] := starts[i] + starts[i - 1];
      i := i + 1;
    }
  }

  // ---- placement ----

  ghost predicate Ascends(starts: seq<nat>) {
    forall c, d :: 0 <= c <= d < |starts| ==> starts[c] <= starts[d]
  }

  /** Cell c's segment has room for its whole list of total items. */
  ghost predicate Room(members: int -> set<nat>, starts: seq<nat>, total: nat, c: int)
    requires 0 <= c < |starts| - 1
  {
    starts[c] + |Listed(members, c, total)| == starts[c + 1]
  }

  /** Cell c's segment holds, up to next[c], its share of the first n items. */
  ghost predicate Segment(members: int -> set<nat>, starts: seq<nat>, next: seq<nat>, items: seq<nat>, visited: set<int>, n: nat, c: int)
    requires 0 <= c < |starts| && c < |next|
  {
    && starts[c] <= next[c] <= |items|
    && items[starts[c]..next[c]] == Listed(members, c, Upto(visited, c, n))
  }

  ghost predicate Placed(members: int -> set<nat>, starts: seq<nat>, next: seq<nat>, items: seq<nat>, visited: set<int>, n: nat, total: nat) {
    && |starts| == |next| + 1 && Ascends(starts)
    && starts[|next|] == |items|
    && (forall c :: 0 <= c < |next| ==> Room(members, starts, total, c))
    && forall c :: 0 <= c < |next| ==> Segment(members, starts, next, items, visited, n, c)
  }

  /** A cell's share never runs into the next segment. */
  lemma ShareFits(members: int -> set<nat>, starts: seq<nat>, next: seq<nat>, items: seq<nat>, visited: set<int>, n: nat, total: nat, c: int)
    requires n < total && 0 <= c < |next|
    requires Placed(members, starts, next, items, visited, n, total)
    ensures next[c] <= starts[c + 1]
    ensures c !in visited && n in members(c) ==> next[c] < starts[c + 1]
  {
    assert Segment(members, starts, next, items, visited, n, c) && Room(members, starts, total, c);
    AscendingGrows(members(c), Upto(visited, c, n), total);
    AscendingGrows(members(c), n + 1, total);
    assert next[c] - starts[c] == |Listed(members, c, Upto(visited, c, n))|;
  }

  lemma OtherSegment(starts: seq<nat>, next: seq<nat>, c: int, cell: int)
    requires |starts| == |next| + 1 && Ascends(starts)
    requires 0 <= c < |next| && 0 <= cell < |next| && c != cell
    requires next[c] <= starts[c + 1] && starts[cell] <= next[cell] < starts[cell + 1]
    ensures next[c] <= next[cell] || next[cell] < starts[c]
  {
    if c < cell {
      assert starts[c + 1] <= starts[cell];
    } else {
      assert starts[cell + 1] <= starts[c];
    }
  }

  lemma OwnSegment(members: int -> set<nat>, starts: seq<nat>, next: seq<nat>, items: seq<nat>, visited: set<int>, n: nat, cell: int)
    requires 0 <= cell < |next| && cell < |starts| && cell !in visited && n in members(cell)
    requires Segment(members, starts, next, items, visited, n, cell) && next[cell] < |items|
    ensures Segment(members, starts, next[cell := next[cell] + 1], items[next[cell] := n], visited + {cell}, n, cell)
  {
    var pos := next[cell];
    assert items[pos := n][starts[cell]..pos + 1] == items[starts[cell]..pos] + [n];
  }

  lemma UntouchedSegment(members: int -> set<nat>, starts: seq<nat>, next: seq<nat>, items: seq<nat>, visited: set<int>, n: nat, cell: int, c: int)
    requires 0 <= c < |next| && c < |starts| && c != cell && 0 <= cell < |next|
    requires Segment(members, starts, next, items, visited, n, c) && next[cell] < |items|
    requires next[c] <= next[cell] || next[cell] < starts[c]
    ensures Segment(members, starts, next[cell := next[cell] + 1], items[next[cell] := n], visited + {cell}, n, c)
  {
    assert items[next[cell] := n][starts[c]..next[c]] == items[starts[c]..next[c]];
  }

  /** Writing an item at the end of one cell's share leaves the others alone. */
  lemma PlaceOne(members: int -> set<nat>, starts: seq<nat>, next: seq<nat>, items: seq<nat>, visited: set<int>, n: nat, total: nat, cell: int)
    requires n < total && 0 <= cell < |next| && cell !in visited && n in members(cell)
    requires Placed(members, starts, next, items, visited, n, total)
    ensures next[cell] < |items|
    ensures Placed(members, starts, next[cell := next[cell] + 1], items[next[cell] := n], visited + {cell}, n, total)
  {
    assert Segment(members, starts, next, items, visited, n, cell);
    ShareFits(members, starts, next, items, visited, n, total, cell);
    assert starts[cell + 1] <= starts[|next|];
    var next', items' := next[cell := next[cell] + 1], items[next[cell] := n];
    forall c | 0 <= c < |next|
      ensures Segment(members, starts, next', items', visited + {cell}, n, c)
    {
      assert Segment(members, starts, next, items, visited, n, c);
      if c == cell {
        OwnSegment(members, starts, next, items, visited, n, cell);
      } else {
        ShareFits(members, starts, next, items, visited, n, total, c);
        OtherSegment(starts, next, c, cell);
        UntouchedSegment(members, starts, next, items, visited, n, cell, c);
      }
    }
  }

  lemma PlaceDone(members: int -> set<nat>, starts: seq<nat>, next: seq<nat>, items: seq<nat>, visited: set<int>, n: nat, total: nat)
    requires Placed(members, starts, next, items, visited, n, total)
    requires forall c :: 0 <= c < |next| && n in members(c) ==> c in visited
    ensures Placed(members, starts, next, items, {}, n + 1, total)
  {
    var m := n + 1;
    forall c | 0 <= c < |next|
      ensures Segment(members, starts, next, items, {}, m, c)
    {
      assert Segment(members, starts, next, items, visited, n, c);
      Entered(members, visited, n, c);
    }
  }

  /** Enters item n at the end of each cell of its block. */
  method PlaceItem(ghost members: int -> set<nat>, b: Block, ghost starts: seq<nat>, next: array<nat>, items: array<nat>, n: nat, ghost total: nat)
    requires n < total && next != items && Fits(members, b, next.Length, n)
    requires Placed(members, starts, next[..], items[..], {}, n, total)
    modifies next, items
    ensures Placed(members, starts, next[..], items[..], {}, n + 1, total)
  {
    ghost var visited: set<int> := {};
    var y := b.r.y0;
    while y <= b.r.y1
      invariant b.r.y0 <= y
      invariant Placed(members, starts, next[..], items[..], visited, n, total)
      invariant forall x', y' :: b.r.Has(x', y') && y' < y ==> b.CellOf(x', y') in visited
      invariant forall c :: c in visited ==> c < b.CellOf(b.r.x0, y)
    {
      var x := b.r.x0;
      while x <= b.r.x1
        invariant b.r.x0 <= x <= b.r.x1 + 1
        invariant Placed(members, starts, next[..], items[..], visited, n, total)
        invariant forall x', y' :: b.r.Has(x', y') && (y' < y || (y' == y && x' < x)) ==> b.CellOf(x', y') in visited
        invariant forall c :: c in visited ==> c < b.CellOf(x, y)
      {
        assert b.r.Has(x, y);
        var cell := b.CellOf(x, y);
        assert b.Covers(cell);
        PlaceOne(members, starts, next[..], items[..], visited, n, total, cell);
        items[next[cell]] := n;
        next[cell] := next[cell] + 1;
        visited := visited + {cell};
        x := x + 1;
      }
      b.NextRow(y);
      y := y + 1;
    }
    PlaceDone(members, starts, next[..], items[..], visited, n, total);
  }

  // ---- the whole layout ----

  /** Cell c owns items[starts[c]..starts[c + 1]], the ascending list of its members. */
  ghost predicate Owns(members: int -> set<nat>, starts: seq<nat>, items: seq<nat>, total: nat, c: int)
    requires 0 <= c < |starts| - 1
  {
    && starts[c] <= starts[c + 1] <= |items|
    && items[starts[c]..starts[c + 1]] == Ascending(members(c), total)
  }

  ghost predicate Filled(members: int -> set<nat>, starts: seq<nat>, items: seq<nat>, total: nat) {
    |starts| >= 1 && forall c :: 0 <= c < |starts| - 1 ==> Owns(members, starts, items, total, c)
  }

  /** The counts of all items, summed, leave room for every list. */
  lemma RoomForAll(members: int -> set<nat>, counts: seq<nat>, starts: seq<nat>, total: nat)
    requires Counted(members, counts, {}, total)
    requires |starts| == |counts| && Summed(starts, counts, |starts|) && starts[0] == 0
    ensures Ascends(starts)
    ensures forall c :: 0 <= c < |starts| - 1 ==> Room(members, starts, total, c)
  {
    forall c | 0 <= c < |starts| - 1
      ensures Room(members, starts, total, c)
    {
      assert CountOf(members, counts, {}, total, c);
      assert starts[c + 1] == starts[c + 1 - 1] + counts[c + 1];
    }
  }

  lemma AllPlaced(members: int -> set<nat>, starts: seq<nat>, next: seq<nat>, items: seq<nat>, total: nat)
    requires Placed(members, starts, next, items, {}, total, total)
    ensures Filled(members, starts, items, total)
  {
    forall c | 0 <= c < |starts| - 1
      ensures Owns(members, starts, items, total, c)
    {
      assert Segment(members, starts, next, items, {}, total, c) && Room(members, starts, total, c);
      assert next[c] == starts[c + 1];
      assert starts[c + 1] <= starts[|next|];
    }
  }

  /** fill: blocks[i] is item i's block, or nothing for an item held out. */
  method Fill(ghost members: int -> set<nat>, blocks: seq<Block>, out: set<nat>, cells: nat)
    returns (starts: array<nat>, items: array<nat>)
    requires forall i :: 0 <= i < |blocks| && i !in out ==> Fits(members, blocks[i], cells, i)
    requires forall i :: 0 <= i < |blocks| && i in out ==> Nowhere(members, cells, i)
    ensures fresh(starts) && fresh(items) && starts.Length == cells + 1
    ensures Filled(members, starts[..], items[..], |blocks|)
  {
    var n := |blocks|;
    starts := new nat[cells + 1](_ => 0);
    for i := 0 to n
      invariant Counted(members, starts[..], {}, i)
    {
      if i in out {
        CountDone(members, starts[..], {}, i);
      } else {
        CountItem(members, blocks[i], starts, i);
      }
    }
    ghost var counts := starts[..];
    PrefixSums(starts);
    RoomForAll(members, counts, starts[..], n);
    items := new nat[starts[cells]];
    var next := new nat[cells](c requires 0 <= c < cells reads starts => starts[c]);
    ghost var s := starts[..];
    for i := 0 to n
      invariant starts[..] == s
      invariant Placed(members, s, next[..], items[..], {}, i, n)
    {
      if i in out {
        PlaceDone(members, s, next[..], items[..], {}, i, n);
      } else {
        PlaceItem(members, blocks[i], s, next, items, i, n);
      }
    }
    AllPlaced(members, s, next[..], items[..], n);
  }
}
