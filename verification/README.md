# Aconiq, verified

A Dafny model of the parts of Aconiq, a deterministic noise computation engine,
whose promises no finite number of cases can settle, with proofs of those
promises. Coordinates and costs are exact reals, machine words are 64-bit
vectors, and every object the program updates in place is a class or an array
here. `dafny verify dfyconfig.toml` checks everything.

## What is modelled

**Spatial index and screening geometry.** `BBoxGrids`, `GridLayout`,
`CellLists`, `Words`, `CursorWords` and `GridCursors` are the compressed-row
grid and its reusable two-level bitset cursor: whatever queries went before, an
answer equals a plain scan of all boxes. `SegmentWalk`, `Shadows`,
`HalfPlaneClip` and `ShadowWalk` are the two narrowed searches, which lose no
candidate. `RayWalk` and `CrossingSort` show that the narrowed, branch-free and
insertion-sorted ray walk gives exactly what the exhaustive one gives.
`RubberBand` and `HullBuffers` are the upper hull over a cross-section and its
recursive thinning. `FootprintMask` is the point mask and `ConvexRings` its
even-odd test on convex rings; `LinearSolve`, `Homographies`, `Horizon` and
`FacadeHomographies` the rectification of a facade photo.

**Facade receivers.** `CanonicalRings` and `CanonicalFootprints` are the
canonical form of a footprint, `FacadeReceivers` the generation of a receiver
set on top of it.

**Browser run store.** `RunDocument` and `RunStore` are the protocol between
tabs over one document and its byte records: lock, sweep, eviction with one
retry, and minting from a persisted mark. Every await is a step; a tab may die,
be cancelled, or be refused by the store between any two. `RunEffects` is what
a writer that nothing disturbs does from start to end.

**Engine.** `WorkerPool` is the pool of goroutines as a transition system,
`ChunkCache` the chunks, the reduction and the two caches.

**Partition, shards and estimates.** `Partition` and `Shards` cut a run up and
put it together again; `Makespan` and `SampleOrders` are the estimate's list
schedule, bands and visiting order.

**Event stream.** `EventStream` is the incremental parser of server-sent events
beside a character-level reading of the standard and the server's own writer.

## What the proofs found

- The upper hull passes under a point when three or more points tie at the
  first distance and one between the first and the last of them is highest: two
  obstructing candidates at the source, the higher first
  (`HullBuffers.LostEdge`). It can in no other way, and by how much is exact:
  `RubberBand.ChainCoversExactly` for the hull, `RubberBand.BandHoldsExactly`
  and `HullBuffers.EdgesHold` for the thinned band.
- The store protocol needs four things of the browser, each with a run that
  loses a raster without it: locks; a reload inside a writer that reaches the
  store, since a tab's own copy may name a run another tab has deleted; a put
  that fails through its request, since one that throws at once leaves the
  deletes before it standing; and transactions in the order they were issued,
  since a run's bytes are given up without awaiting it and its id is minted
  again. With all four it is safe (`RunStore.SafeExactlyWhenDependable`).
- A run just stored is dropped by the very write that stores it when 20 stored
  runs are at least as new, as after a clock that went back
  (`RunDocument.KeptExactlyWhenNewEnough`).
- The run-local cache is keyed by chunk index alone. It is transparent exactly
  when caching runs that share a run directory compute the same for each index
  (`ChunkCache.AlwaysTrueExactlyWhenCompatible`).
- A ring that touches itself at its smallest vertex can have several canonical
  forms (`CanonicalRings.TwoForms`): it has one, however it is written, exactly
  when it reads alike from each smallest vertex (`CanonicalRings.WritingExactly`). A footprint
  with two parts of one outline and different courtyards has several too, as
  the sort compares exteriors alone (`CanonicalFootprints.TwoForms`,
  `CanonicalFootprints.WritingExactly`). Outside those cases neither order nor writing shows, in the
  footprint or in the receivers.
- In exact arithmetic the check that a corner lies beyond the horizon never
  fires: once both quadrilaterals are convex and turn opposite ways, scaling the
  weight to 1 at the centroid makes it positive at every corner
  (`FacadeHomographies.AllPositive`).
- The parser holds back a carriage return that ends its input, where the
  standard's reader has already ended the line; everything else agrees.

## Model

| member | source | states |
|---|---|---|
| `BBoxGrids.NewBBoxGrid` | backend/internal/geo/bbox_grid.go:74-96 | no index exactly when there is no box or a malformed one; otherwise a valid grid over exactly these boxes |
| `GridLayout.Bounds` | backend/internal/geo/bbox_grid.go:120-140 | the least box enclosing every input box, and a refusal exactly when there is none to take |
| `GridLayout.CellSize` | backend/internal/geo/bbox_grid.go:145-168 | the doubling loop ends; the cell is positive, at least the average box extent and at least the edge the item count justifies, and neither side has more cells than the cap |
| `GridLayout.SideCountCovers` | backend/internal/geo/bbox_grid.go:174-185 | below the cap the cells of a side reach past the extent they were counted for |
| `GridLayout.AxisBand` | backend/internal/geo/bbox_grid.go:190-201 | an offset inside the grid lies within the band of the cell it is clamped into |
| `GridLayout.Layout.SharedCell` | backend/internal/geo/bbox_grid.go:309-316 | two intersecting boxes cover a common cell, whatever was clamped |
| `CellLists.PrefixSums` | backend/internal/geo/bbox_grid.go:266-305 | the running sums, in place: every cell's segment is exactly as long as its count |
| `CellLists.Fill` | backend/internal/geo/bbox_grid.go:266-305 | counting and then placing gives every cell the ascending list of the items whose block holds it, each once |
| `BBoxGrids.FillLists` | backend/internal/geo/bbox_grid.go:266-305 | the filled arrays are the cell lists and the wide list of this layout |
| `BBoxGrids.BBoxGrid.ScanAll` | backend/internal/geo/bbox_grid.go:516-524 | dst, then every box meeting the query, ascending |
| `Words.LowestBit` | backend/internal/geo/bbox_grid.go:600-623 | the trailing zero count is the index of the lowest set bit of a 64-bit word |
| `Words.ClearLowest` | backend/internal/geo/bbox_grid.go:600-623 | w & (w - 1) drops that bit and keeps every other, at every position |
| `Words.TestBit` | backend/internal/geo/bbox_grid.go:548-582 | masking with a single bit tests that bit of the word |
| `Words.SetBit` | backend/internal/geo/bbox_grid.go:548-582 | or-ing a single bit in sets that bit and no other |
| `CursorWords.EmitWord` | backend/internal/geo/bbox_grid.go:600-623 | popping the lowest bit until none is left appends a word's members in ascending order |
| `CursorWords.AllEmitted` | backend/internal/geo/bbox_grid.go:600-623 | once every touched word has been emitted, all words are zero again and the answer is complete and ascending |
| `GridCursors.BBoxGridCursor.constructor` | backend/internal/geo/bbox_grid.go:246-261 | a new cursor is idle: every mark and summary word is zero |
| `GridCursors.BBoxGridCursor.BeginQuery` | backend/internal/geo/bbox_grid.go:537-543 | a query starts with nothing tested |
| `GridCursors.BBoxGridCursor.CollectItem` | backend/internal/geo/bbox_grid.go:548-582 | an item is tested once a query, and answered exactly when it was hit |
| `GridCursors.BBoxGridCursor.Finish` | backend/internal/geo/bbox_grid.go:600-623 | dst, then exactly the answered items ascending without repeats, and every mark and summary word zero again |
| `GridCursors.BBoxGridCursor.Query` | backend/internal/geo/bbox_grid.go:325-358 | on any idle cursor, so after any sequence of queries: dst followed by exactly what a scan of all boxes appends, and the cursor idle again |
| `GridCursors.BBoxGridCursor.QuerySegment` | backend/internal/geo/bbox_grid.go:440-484 | dst followed by an ascending set that holds every box the segment meets and none clear of the segment's own box grown by the margin |
| `GridCursors.BBoxGridCursor.QueryShadow` | backend/internal/geo/bbox_grid.go:375-424 | dst followed by an ascending set that holds every box with a point of the shadow and none clear of the shadow's box, walked row by row or handed to Query |
| `GridCursors.QueryCast` | backend/internal/standards/rls19/road/reflections_receiver.go:321-328 | building a shadow and querying for it answers, after dst, every box that holds a point apex + lambda (s - apex), s on [a, b] and lambda at least 1 |
| `SegmentWalk.BandIsInterval` | backend/internal/geo/bbox_grid.go:488-513 | the parameters at which a segment runs in a band of heights are exactly the interval computed |
| `SegmentWalk.SpanHolds` | backend/internal/geo/bbox_grid.go:488-513 | the x span of a band holds every point of the segment in the band |
| `SegmentWalk.SpanReached` | backend/internal/geo/bbox_grid.go:488-513 | both ends of the span are reached by points of the segment in the band, so no span can be narrower |
| `SegmentWalk.SegmentFinds` | backend/internal/geo/bbox_grid.go:440-484 | testing the cells of every row's span and the wide items meets every box on the segment |
| `ShadowWalk.ShadowFinds` | backend/internal/geo/bbox_grid.go:375-424 | testing the cells of every row's stretch and the wide items meets every box in the shadow |
| `ShadowWalk.BoxFinds` | backend/internal/geo/bbox_grid.go:375-424 | handing the whole query to Query, or answering nothing, loses no box in the shadow either |
| `Shadows.ShadowHolds` | backend/internal/geo/shadow.go:52-85 | every point apex + lambda (s - apex), s on [a, b] and lambda at least 1, is held by all the half-planes, for any margin of at least 0 |
| `Shadows.ShadowExactly` | backend/internal/geo/shadow.go:52-85 | without a margin, and with the apex off the segment's line, the half-planes hold exactly those points |
| `Shadows.NoLostSegment` | backend/internal/geo/shadow.go:95-107 | a segment that reaches a shadow point is never rejected |
| `HalfPlaneClip.CrossingOnEdge` | backend/internal/geo/shadow.go:176-205 | the vertex emitted for an edge that changes sides lies on the edge and on the boundary |
| `HalfPlaneClip.ClipConvexHalfPlane` | backend/internal/geo/shadow.go:176-205 | the pass over the edges emits the clip of the ring, each edge's crossing before its end |
| `HalfPlaneClip.ClipIsConvex` | backend/internal/geo/shadow.go:176-205 | clipping a convex ring gives a convex ring inside the half-plane and inside the ring |
| `HalfPlaneClip.ClipKeepsHull` | backend/internal/geo/shadow.go:176-205 | every point of the ring's hull that the half-plane holds is in the clipped ring's hull |
| `Shadows.ComputeBounds` | backend/internal/geo/shadow.go:115-153 | the buffers clipped by one plane after another give the specified box |
| `Shadows.BoundsHold` | backend/internal/geo/shadow.go:115-153 | the box holds every point of the given bounds that the planes hold; it is absent only when there is none |
| `Shadows.BoundsTouch` | backend/internal/geo/shadow.go:115-153 | each side of the box, less the margin, is touched by a point of the bounds in the shadow: no smaller box would do |
| `RayWalk.RayEdgeAgrees` | backend/internal/geo/geometry.go:246-257 | the branch-free edge test accepts exactly the edges the branching test accepts, with the same parameter |
| `RayWalk.CrossingOnBoth` | backend/internal/geo/geometry.go:159-184 | an accepted crossing is one point of both segments |
| `RayWalk.AcceptedExactly` | backend/internal/geo/geometry.go:159-184 | an edge is accepted with parameter t if and only if the cross product of the directions is at least 1e-12 either way, t is between 0 and 1, and the point a fraction t along the ray is a point of the edge |
| `RayWalk.NearestCrosses` | backend/internal/geo/geometry.go:192-221 | the nearest hit is a crossing no other is before, the first of equals, and it is there whenever an edge is crossed |
| `RayWalk.LineStringIntersectsSegment` | backend/internal/geo/geometry.go:192-221 | the loop returns the polyline's nearest crossing, the first of equals |
| `RayWalk.NearestIsFirst` | backend/internal/geo/geometry.go:192-221 | that crossing is no later than any other, strictly earlier than those on earlier edges, and absent only when there is none |
| `RayWalk.AppendRayCrossings` | backend/internal/geo/screening.go:340-402 | dst, then the candidates' crossings in stable order of distance; for ascending candidates these are exactly one crossing for each candidate the ray crosses: on the ray and on the named edge, nearest the source and the first of equals, its distance measured from the source, not within a positive tolerance of either end; listed by distance and then by obstacle |
| `RayWalk.RayCrossings` | backend/internal/geo/screening.go:310-402 | a crossing is listed if and only if it is where the ray first crosses its obstacle and grazes neither end; by distance and then by obstacle |
| `RayWalk.NewRayEdges` | backend/internal/geo/screening.go:412-442 | the flat layout holds every polyline's edges, each obstacle's in its own stretch |
| `RayWalk.NearestEdgeCrossing` | backend/internal/geo/screening.go:485-502 | the scan of one stretch of the layout returns the least accepted parameter, the first of equals |
| `RayWalk.AppendRayEdgeCrossings` | backend/internal/geo/screening.go:451-480 | over the layout: exactly what AppendRayCrossings appends for the same candidates, and for ascending ones exactly their first crossings that graze neither end |
| `RayWalk.SortedAnswers` | backend/internal/geo/screening.go:340-402 | the stable sort of ascending candidates' crossings holds exactly the first crossing of each candidate that grazes neither end, by distance and then by obstacle |
| `CrossingSort.StableSortSorts` | backend/internal/geo/screening.go:584-596 | inserting each crossing after those no further away is a stable sort: ascending, equal distances in their order |
| `CrossingSort.StableSortUnique` | backend/internal/geo/screening.go:545-566 | two sequences sorted by distance that agree on the order at each distance are equal: there is one stable sort |
| `CrossingSort.InsertionSort` | backend/internal/geo/screening.go:584-596 | shifting in place gives the stable sort of the array |
| `CrossingSort.SortRayCrossings` | backend/internal/geo/screening.go:545-566 | whichever way is taken, the array becomes its stable sort |
| `RayWalk.CrossedIsOnSegment` | backend/internal/geo/screening.go:360-374 | an obstacle the ray crosses has its bounding box on the ray |
| `RayWalk.NarrowingIsExact` | backend/internal/geo/screening.go:451-480 | any ascending candidate set that holds every box on the ray gives exactly the crossings of all obstacles |
| `RayWalk.NarrowedCrossings` | backend/internal/geo/bbox_grid.go:440-484 | QuerySegment with any margin, the edge layout and the sort together give exactly RayCrossings over every obstacle, on any cursor that is between queries: where the ray first crosses each of them, grazing neither end |
| `FootprintMask.PointInRingStrict` | backend/internal/geo/geometry.go:126-145 | on the ring within tolerance; otherwise inside exactly when an odd number of edges passes the point's height, lower end counted, on its right: the point lies left of the edge going up |
| `FootprintMask.PointInPolygonInterior` | backend/internal/geo/geometry.go:98-121 | strictly inside the exterior and in or on no hole, for the parity test that CrossesExactly, OddCounts and ConvexIsItsInterior pin |
| `FootprintMask.CrossesExactly` | backend/internal/geo/geometry.go:137-138 | the computed comparison holds if and only if the edge passes the point's height and the point lies left of it going up |
| `FootprintMask.CrossingOnEdge` | backend/internal/geo/geometry.go:137-138 | a straddling edge's computed crossing is the point of the edge at that height |
| `FootprintMask.OddCounts` | backend/internal/geo/geometry.go:126-145 | the flag flipped at each crossing tells whether the number of such edges is odd |
| `ConvexRings.ConvexIsItsInterior` | backend/internal/geo/geometry.go:126-145 | on every closed convex ring, turning left or right, the test holds of each point strictly on the inner side of all edges and of none strictly on the outer side of one |
| `FootprintMask.StraddlesTelescope` | backend/internal/geo/geometry.go:126-145 | going round a ring the count of straddling edges is odd exactly when its ends lie on different sides |
| `FootprintMask.OutsideIsEven` | backend/internal/geo/geometry.go:126-145 | a point outside a box that holds the ring crosses an even number of edges |
| `FootprintMask.RectangleIsItsInterior` | backend/internal/geo/geometry.go:126-145 | on a rectangle the parity test is the rectangle itself |
| `FootprintMask.RingBBox` | backend/internal/geo/footprint_mask.go:83-95 | the least box that holds the ring |
| `FootprintMask.FootprintBoxes` | backend/internal/geo/footprint_mask.go:62-81 | exactly the footprints that can contain a point are kept, each with its box |
| `FootprintMask.MaskPointsInFootprints` | backend/internal/geo/footprint_mask.go:15-57 | a point is flagged exactly when it is strictly inside some footprint: neither the index nor the box test nor the footprints' order can change an answer |
| `RubberBand.ChainConcave` | backend/internal/geo/screening.go:88-112 | every vertex of the chain strictly protrudes between its neighbours |
| `RubberBand.ChainCoversExactly` | backend/internal/geo/screening.go:88-112 | the chain stands over every input point if and only if no point at the first distance stands above both the first and the last point there |
| `RubberBand.LostPoint` | backend/internal/geo/screening.go:88-112 | three obstructing points at one distance, the middle one highest: chain and final band pass under it |
| `RubberBand.AnyThreeTurn` | backend/internal/geo/screening.go:88-112 | any three vertices of a strictly concave band turn down, not only neighbours |
| `RubberBand.KeptCover` | backend/internal/geo/screening.go:153-184 | what lies under an edge of the hull stands at most the tolerance above the band through the kept vertices |
| `RubberBand.ThinnedConcave` | backend/internal/geo/screening.go:133-149 | thinning keeps a strictly concave band strictly concave |
| `RubberBand.ThinnedEnds` | backend/internal/geo/screening.go:133-149 | thinning keeps the band's first and last vertex |
| `RubberBand.BandHoldsExactly` | backend/internal/geo/screening.go:77-83 | every input point past the first distance stands at most 1e-6 above the final band, and all the others do if and only if none stands more than that over the band there, whose height counts the last tied point only when it clears the first by more than 1e-6 or nothing lies beyond |
| `HullBuffers.ChainInto` | backend/internal/geo/screening.go:88-112 | pushing and popping in a buffer gives the chain |
| `HullBuffers.MarkDropped` | backend/internal/geo/screening.go:153-184 | recursion over the buffer marks exactly the vertices the thinning drops, and leaves the rest alone |
| `HullBuffers.Compact` | backend/internal/geo/screening.go:133-149 | the unmarked vertices, in order, at the front of the buffer |
| `HullBuffers.Thin` | backend/internal/geo/screening.go:133-149 | marking and compacting in place gives the thinned band |
| `HullBuffers.EdgesRise` | backend/internal/geo/screening.go:236-276 | the indices returned are candidates, strictly ascending |
| `HullBuffers.EdgesSpanBand` | backend/internal/geo/screening.go:236-276 | the selected candidates with the source before them and the receiver after them are the whole band |
| `HullBuffers.EdgesHold` | backend/internal/geo/screening.go:236-276 | every point of the cross-section lies within the tolerance under the band if and only if no candidate at the source stands more than the tolerance over the band there |
| `HullBuffers.LostEdge` | backend/internal/geo/screening.go:236-276 | two obstructing candidates at the source, the higher first: it is not selected and the band passes under it |
| `HullBuffers.SelectedUnder` | backend/internal/geo/screening.go:236-276 | a selected index is a candidate's that the band does not pass under |
| `HullBuffers.AppendDiffractionEdges` | backend/internal/geo/screening.go:236-276 | dst, then the candidates the band over the whole cross-section rests on: in order, each once, and, with the candidates in order of distance, each strictly over the line between its neighbours, source and receiver counted |
| `LinearSolve.FindPivot` | backend/internal/geo/homography.go:274-311 | a row whose entry in the column is largest in magnitude |
| `LinearSolve.Eliminate` | backend/internal/geo/homography.go:274-311 | one row elimination changes that row alone, clears its entry, and keeps the solutions of the system |
| `LinearSolve.ClearColumn` | backend/internal/geo/homography.go:274-311 | swap and elimination clear the column, keep the solutions, and treat alike every vector the pivot rows send to zero |
| `LinearSolve.BackSubstitute` | backend/internal/geo/homography.go:274-311 | a solution of the triangular system |
| `LinearSolve.TriangleUnique` | backend/internal/geo/homography.go:274-311 | a triangular system has no other |
| `LinearSolve.Solve8` | backend/internal/geo/homography.go:274-311 | the answer is the one solution of the original system; a refusal means that some column of it is, to within 1e-12 in every row, a combination of the columns before it |
| `Homographies.InverseIsTwoSided` | backend/internal/geo/homography.go:128-147 | Inverse is refused exactly for a singular matrix, and multiplied on either side gives the identity |
| `Homographies.AfterMaps` | backend/internal/geo/homography.go:149-159 | the product maps as its factors do in turn |
| `Homographies.InverseUndoes` | backend/internal/geo/homography.go:113-147 | the inverse takes the image of a point off the horizon back to the point, with the reciprocal weight |
| `FacadeHomographies.ConvexTurn` | backend/internal/geo/homography.go:213-246 | the way every corner turns by more than the tolerance, or a refusal exactly when they do not turn alike |
| `FacadeHomographies.Normalised` | backend/internal/geo/homography.go:250-270 | the points moved to their centroid and scaled to the mean distance given |
| `FacadeHomographies.SolvePairs` | backend/internal/geo/homography.go:72-97 | the map solved takes each image point to its facade point and weighs the centroid 1; a refusal means a nearly dependent system |
| `Horizon.WeightsAgree` | backend/internal/geo/homography.go:98-108 | a map that takes the corners of a convex quadrilateral to those of one turning the other way weighs all of them positively or none |
| `FacadeHomographies.AllPositive` | backend/internal/geo/homography.go:22-41 | scaled to weigh the image's centroid 1, the map weighs every corner positively |
| `Horizon.NotSingular` | backend/internal/geo/homography.go:42-109 | a map that takes three points off the horizon to three corners of a turn is not singular |
| `FacadeHomographies.InverseMapsBack` | backend/internal/geo/homography.go:126-147 | the inverse of a map of the corners exists and maps the facade corners back onto the image corners, with positive weights |
| `FacadeHomographies.FacadeHomography` | backend/internal/geo/homography.go:42-109 | a solved map takes each image corner to its facade corner with positive weight, and its inverse takes them back; each refusal happens exactly or only for its own reason, and no corner is ever beyond the horizon |
| `FacadeHomographies.PositiveInside` | backend/internal/geo/homography.go:22-41 | the weight is positive over the whole image quadrilateral |
| `CanonicalRings.CanonicalRing` | backend/internal/geo/facade_receivers.go:766-805 | deduplicating, trimming, reversing and turning in place give the canonical ring or its refusal |
| `CanonicalRings.AreaTurned` | backend/internal/geo/geometry.go:469-481 | the shoelace area does not depend on where the ring starts |
| `CanonicalRings.AreaReversed` | backend/internal/geo/geometry.go:469-481 | reversing the ring negates the area |
| `CanonicalRings.AreaIsFan` | backend/internal/geo/geometry.go:469-481 | twice the area is the sum of the signed triangles fanned from the first vertex, positive going left |
| `CanonicalRings.CanonicalIs` | backend/internal/geo/facade_receivers.go:766-805 | the canonical ring runs once round the ring without its repeats, repeats no vertex itself, begins at a least vertex, and turns left for an exterior and right for a hole; refusals exactly for fewer than three vertices and for no area |
| `CanonicalRings.EditKeeps` | backend/internal/geo/facade_receivers.go:766-805 | starting elsewhere, reversing, closing the ring or repeating a vertex changes neither the canonical ring or refusal nor that the ring is steady: refused, or reading alike from each smallest vertex once open and oriented |
| `CanonicalRings.WritingExactly` | backend/internal/geo/facade_receivers.go:727-733 | a ring has one canonical form for all sequences of such rewritings if and only if it is steady |
| `CanonicalRings.CanonicalTwice` | backend/internal/geo/facade_receivers.go:766-805 | the canonical form of a canonical ring is itself, for every ring |
| `CanonicalRings.AnyStartExactly` | backend/internal/geo/facade_receivers.go:766-805 | every start of a ring, as written, gives one canonical ring if and only if it is steady |
| `CanonicalRings.OnceIsSteady` | backend/internal/geo/facade_receivers.go:795-804 | a ring whose smallest vertex occurs once is steady |
| `CanonicalRings.TwoForms` | backend/internal/geo/facade_receivers.go:795-804 | a ring that touches itself at its smallest vertex, and two starts of it with two canonical rings |
| `CanonicalFootprints.CanonicalPart` | backend/internal/geo/facade_receivers.go:741-760 | the canonical exterior, then the canonical holes sorted; refused exactly when a ring has no canonical form |
| `CanonicalFootprints.CanonicalFootprint` | backend/internal/geo/facade_receivers.go:734-764 | the parts' canonical forms in an order sorted by exterior; refused exactly when there is no polygon or a ring has no form |
| `CanonicalFootprints.PartKept` | backend/internal/geo/facade_receivers.go:741-760 | rewriting a part's rings and reordering its holes keeps whether it is accepted, its canonical exterior and its canonical holes |
| `CanonicalFootprints.RingLeExactly` | backend/internal/geo/facade_receivers.go:807-813 | one ring sorts no later than another if and only if it begins it or is less, by x and then y, at the first vertex they differ in |
| `CanonicalFootprints.WritingDoesNotMatter` | backend/internal/geo/facade_receivers.go:727-764 | footprints whose parts and holes are reordered and whose rings are rewritten have one form, or are both refused, when each ring is steady and parts with one canonical exterior have the same canonical holes |
| `CanonicalFootprints.WritingExactly` | backend/internal/geo/facade_receivers.go:727-764 | an accepted footprint has one form for every order of its parts and holes and every rewriting of its rings if and only if each ring is steady and parts with one canonical exterior have the same canonical holes |
| `CanonicalFootprints.OneArrangementExactly` | backend/internal/geo/facade_receivers.go:761-761 | sorting by exterior has one outcome if and only if parts with the same exterior are the same part |
| `CanonicalFootprints.OneFormExactly` | backend/internal/geo/facade_receivers.go:734-764 | a footprint has one canonical form if and only if its parts with one canonical exterior have the same canonical holes |
| `CanonicalFootprints.TwoForms` | backend/internal/geo/facade_receivers.go:761-761 | two parts with one outline, one of them with a courtyard, and the footprint's two forms |
| `FacadeReceivers.SlabsStand` | backend/internal/geo/facade_receivers.go:607-653 | the slabs stand one storey height apart above the ground floor; a measured building's last is its roof; without a storey count as many fallback storeys as fit, and at least one |
| `FacadeReceivers.StationWithin` | backend/internal/geo/facade_receivers.go:579-595 | every station stands within its edge and off its corners, and no part is longer than the spacing |
| `FacadeReceivers.StationCountLeast` | backend/internal/geo/facade_receivers.go:579-595 | the number of stations is the least, at least 1, that makes no part longer than the spacing |
| `FacadeReceivers.ItemsStand` | backend/internal/geo/facade_receivers.go:343-459 | what place appends for a building is exactly what stands on it, described by edge, window, station, storey, offset and probe |
| `FacadeReceivers.BelongsStands` | backend/internal/geo/facade_receivers.go:262-302 | the receivers kept are exactly those that stand on a selected building with their probe strictly inside no closed part of any footprint |
| `FacadeReceivers.BeforeIsSpelled` | backend/internal/geo/facade_receivers.go:462-471 | one key comes before another if and only if the first of the six parts they differ in is less |
| `FacadeReceivers.Room` | backend/internal/geo/facade_receivers.go:366-396 | the cap checked on the counts: room exactly when the edge's receivers still fit |
| `FacadeReceivers.JoinedRise` | backend/internal/geo/facade_receivers.go:343-471 | a building's receivers are placed in the order their keys spell, each key once |
| `FacadeReceivers.Place` | backend/internal/geo/facade_receivers.go:343-459 | after those placed before, exactly the receivers that stand on the building: on every edge of its canonical footprint, courtyards on request, one a window with the window's own offset and height, or one a station and storey, u the middle of one of the least number of equal parts no longer than the spacing, at the rule's offset and the slab's height, each probed 0.1 m out; a refusal exactly when storeys or windows are refused or the cap is passed |
| `FacadeReceivers.Unmasked` | backend/internal/geo/facade_receivers.go:288-297 | exactly the receivers whose probe lies strictly inside no footprint |
| `FacadeReceivers.Generate` | backend/internal/geo/facade_receivers.go:262-459 | an answer exactly when the set is valid, every footprint has a form, every named building can be placed on and all receivers fit under 100000; then a receiver is in it if and only if it stands on a selected building and its probe strictly inside no building's footprint, strictly ascending by key |
| `FacadeReceivers.OrderDoesNotShow` | backend/internal/geo/facade_receivers.go:254-261 | the same outcome, refusals included, for every order of the buildings and of the ids and, where each footprint has one form, for every rewriting of rings and order of holes and parts |
| `FacadeReceivers.ReadSameAnswers` | backend/internal/geo/facade_receivers.go:262-302 | the same outcome for every order of the buildings and of the ids, whatever their footprints |
| `RunDocument.SetRunSound` | frontend/src/api/browser-backend.ts:928-955 | storing a run whose bytes are there keeps the document at most 20 runs long, newest first, ids distinct, every named byte record stored, and gives up only bytes it stops naming |
| `RunDocument.EvictSound` | frontend/src/api/browser-backend.ts:756-775 | evicting keeps all of that, drops exactly one run, and never the one to keep |
| `RunDocument.SetRunExactly` | frontend/src/api/browser-backend.ts:924-955 | the new document and what it gives up are together exactly the other runs and this one, each once, newest first with runs of one time in their order and this one last; the document is the first 20 of them, or all, and its mark the larger of the old mark and the run's id |
| `RunDocument.KeptExactly` | frontend/src/api/browser-backend.ts:928-938 | each other run, and the run itself, is in the new document if and only if fewer than 20 runs come before it in that order |
| `RunDocument.EvictExactly` | frontend/src/api/browser-backend.ts:756-775 | a refusal exactly when every run is the one to keep; otherwise the victim is added to what was given up, is the last and oldest of the other runs, and all else stays in order |
| `RunDocument.DropRunExactly` | frontend/src/api/browser-backend.ts:2735-2746 | exactly that run is taken out and given up, the others stay in order, and the mark stays |
| `RunDocument.KeptExactlyWhenNewEnough` | frontend/src/api/browser-backend.ts:924-938 | the run just stored is kept if and only if fewer than 20 of the other runs are at least as new |
| `RunDocument.ObjectStore.SaveForgetting` | frontend/src/api/browser-storage.ts:306-321 | deletes and put together: both on success, neither on failure, the deletes alone when the put throws |
| `RunDocument.ObjectStore.SaveBytes` | frontend/src/api/browser-storage.ts:381-390 | one byte record more, or no change |
| `RunDocument.ObjectStore.DeleteBytes` | frontend/src/api/browser-storage.ts:431-442 | exactly these byte records fewer, or no change |
| `RunStore.CommitSound` | frontend/src/api/browser-backend.ts:616-622 | committing a sound change leaves the store sound, its document the one written, and no record unnamed that was named before |
| `RunStore.StepKeeps` | frontend/src/api/browser-backend.ts:513-733 | every step of every tab keeps the whole protocol invariant and never lowers the mark |
| `RunStore.AlwaysSound` | frontend/src/api/browser-backend.ts:513-803 | in every reachable state, however tabs interleave, die, are cancelled or run out of quota: the document is well formed and every byte record it names is stored |
| `RunStore.MarkNeverFalls` | frontend/src/api/browser-backend.ts:928-972 | no step lowers the high-water mark or forgets an id |
| `RunStore.MintedIsFresh` | frontend/src/api/browser-backend.ts:970-972 | a minted id differs from every id any committed document ever held, whatever was deleted or evicted since |
| `RunStore.WrittenBytesStay` | frontend/src/api/browser-backend.ts:1893-1918 | bytes written ahead of their document are still stored when it is written: no sweep or delete of another tab takes them |
| `RunStore.SweepLeavesTheNamed` | frontend/src/api/browser-backend.ts:571-604 | a sweep that succeeds leaves exactly the byte records the document names, and the document alone |
| `RunStore.OnlySavesOrphan` | frontend/src/api/browser-backend.ts:692-733 | apart from a put of bytes no step leaves a record unnamed that was not unnamed before |
| `RunEffects.RunIsStored` | frontend/src/api/browser-backend.ts:1893-1918 | a run nothing disturbs leaves the document with it set under the next id, and the bytes with its raster and without those of the runs that fall off; nothing else changes |
| `RunEffects.RunMakesRoom` | frontend/src/api/browser-backend.ts:692-733 | refused space for its bytes, the run first gives up the oldest run with its bytes, and is then stored as any other |
| `RunEffects.FailedRunLeavesNothing` | frontend/src/api/browser-backend.ts:634-668 | a run that cannot be written leaves the document as it was and, once forgotten, none of its bytes |
| `RunEffects.ExportIsStored` | frontend/src/api/browser-backend.ts:2586-2706 | an export sets the run it names with its files added, and nothing else changes |
| `RunEffects.ExportAdds` | frontend/src/api/browser-backend.ts:2680-2703 | the exported run is the old one with each file held in the document, as JSON or as text, under a name of its own |
| `RunEffects.DeleteIsDone` | frontend/src/api/browser-backend.ts:2708-2746 | a delete takes out the run it names and its bytes |
| `RunStore.NoLockBreaks` | frontend/src/api/browser-backend.ts:503-529 | without a lock: a run of two tabs after which the document names bytes that are gone |
| `RunStore.FailedReadBreaks` | frontend/src/api/browser-backend.ts:483-498 | with a writer's reload that falls back to the tab's copy: another such run |
| `RunStore.ThrownPutBreaks` | frontend/src/api/browser-storage.ts:306-321 | with a document put that throws after the deletes were requested: another such run |
| `RunStore.LateDeleteBreaks` | frontend/src/api/browser-backend.ts:797-803 | with an unawaited delete that is carried out late: another such run, through an id minted again |
| `RunStore.SafeExactlyWhenDependable` | frontend/src/api/browser-backend.ts:513-803 | every reachable state is sound if and only if the browser has locks, a writer's reload reaches the store, a put fails rather than throws, and transactions run in the order issued |
| `WorkerPool.ExactlyOnePlace` | backend/internal/engine/runner.go:351-477 | each chunk is in exactly one place: not yet sent, with a worker, in the result channel, or collected |
| `WorkerPool.RoomToDeliver` | backend/internal/engine/runner.go:351-419 | a worker with a result never finds the channel full |
| `WorkerPool.NeverStuck` | backend/internal/engine/runner.go:351-477 | until the call returns the pool always has a step of its own to take, cancelled or not |
| `WorkerPool.MeasureFalls` | backend/internal/engine/runner.go:351-477 | every step leaves strictly less to do |
| `WorkerPool.RunsEnd` | backend/internal/engine/runner.go:351-477 | no run of n chunks on m workers takes more than 5n + m + 4 steps |
| `WorkerPool.NoWorkerOutlives` | backend/internal/engine/runner.go:351-419 | when the call returns every worker is done and the channel is empty |
| `WorkerPool.SuccessIsComplete` | backend/internal/engine/runner.go:429-477 | a call that returns no error has collected every chunk, once, each with what the chunk gives |
| `WorkerPool.FailureIsTold` | backend/internal/engine/runner.go:429-477 | however the goroutines interleave, a call that has returned reports a failure if and only if some chunk failed |
| `ChunkCache.ChunkReceivers` | backend/internal/engine/runner.go:332-342 | the chunks are consecutive stretches of the chunk size, the last one possibly shorter, none empty |
| `ChunkCache.ReduceDeterministic` | backend/internal/engine/runner.go:604-623 | whatever order the map is walked in, the chunks come out concatenated in order of index |
| `ChunkCache.MergedIsSequential` | backend/internal/engine/runner.go:332-342 | the chunks' results, merged, are the results of one pass over the receivers |
| `ChunkCache.PoolEqualsSequential` | backend/internal/engine/runner.go:351-623 | a pool run without error reduces to the sequential map over all receivers, for any workers, chunk size and interleaving |
| `ChunkCache.ComputeChunkResults` | backend/internal/engine/runner.go:547-579 | one result per receiver in order, or none when the context is done before the last |
| `ChunkCache.LoadsOrComputes` | backend/internal/engine/runner.go:479-589 | a caching run whose file operations succeed loads its own entry; without one it loads the shared entry and keeps a copy; without either it computes the chunk and leaves both |
| `ChunkCache.AdvanceAgrees` | backend/internal/engine/runner.go:479-589 | each file read, computation or write of a chunk keeps both caches and the result in hand true |
| `ChunkCache.CachesAgree` | backend/internal/engine/runner.go:479-589 | in every interleaving of runs over one cache root every shared entry is what its key computes to and every run-local one what its chunk gives |
| `ChunkCache.SharedDirectoryLoads` | backend/internal/engine/runner.go:479-518 | two caching runs that share a run directory: the second loads what the first computed for that chunk index |
| `ChunkCache.AlwaysTrueExactlyWhenCompatible` | backend/internal/engine/runner.go:479-589 | no cache hit ever changes a result if and only if caching runs that share a run directory give the same for the same chunk index |
| `ChunkCache.CachedPoolEqualsSequential` | backend/internal/engine/runner.go:351-623 | a pool whose workers load or compute their chunks through compatible caches, interleaved with any other runs, gives the sequential map when it returns no error |
| `Partition.Size` | backend/internal/partition/partition.go:73-106 | a size of at least 1, and never more than there are receivers |
| `Partition.SizeExactly` | backend/internal/partition/partition.go:73-106 | the least size of at least 64 that makes at most 8 chunks a worker, unless a chunk for each worker calls for less, and then the largest that leaves one |
| `Partition.Over` | backend/internal/partition/partition.go:113-133 | the accumulating loop gives the chunks of this size |
| `Partition.ChunksCover` | backend/internal/partition/partition.go:113-133 | each receiver is in exactly one chunk, the one its index divided by the size names |
| `Partition.ChunksChain` | backend/internal/partition/partition.go:113-133 | chunks are numbered in order, none is empty or too long, each ends where the next starts, and the last ends at the total |
| `Partition.CountBounds` | backend/internal/partition/partition.go:73-106 | with at least as many receivers as workers, and two workers or more, between workers and 8 workers chunks |
| `Partition.ForShard` | backend/internal/partition/partition.go:150-169 | the loop deals the shard every chunk whose index is its own modulo the pool |
| `Partition.ShardsPartition` | backend/internal/partition/partition.go:150-169 | the shards between them are dealt every chunk, once |
| `Partition.ShardTotalsAdd` | backend/internal/partition/partition.go:173-180 | the shards' receiver counts add up to the run's |
| `Shards.NextChunkSize` | backend/internal/wasmkernel/compute.go:240-265 | between 1 and the cap, and at most the growth limit times the current size, whatever the clock read |
| `Shards.NextChunkIsPaced` | backend/internal/wasmkernel/compute.go:240-265 | the largest size, up to four times the last and 4096, that takes at most 0.1 s at the pace of the last chunk, or 1 when none does; the whole of that limit when the clock has not moved |
| `Shards.ProgressWalk.Over` | backend/internal/wasmkernel/compute.go:193-230 | each receiver of the slice computed once and in order, whatever the clock reads, and at least one report more for a slice that is not empty; reports strictly rise |
| `Shards.ComputeShard` | backend/internal/wasmkernel/shard.go:71-136 | the shard's chunks in order with what their receivers compute to; reports rise strictly and end exactly at the shard's own total |
| `Shards.MergeChunks` | frontend/src/wasm/kernel-pool.ts:109-142 | the outputs in chunk order exactly when the pieces can be put each in its place and the whole is as long as expected; otherwise a refusal |
| `Shards.ShardsReassemble` | frontend/src/wasm/kernel-pool.ts:109-142 | in whatever order the shards' pieces arrive, merging them succeeds and is one unsharded pass over the receivers, whatever any shard's clock read |
| `Makespan.Earliest` | backend/internal/runestimate/schedule.go:76-86 | the worker that is free first, the lowest index of equals |
| `Makespan.HandOut` | backend/internal/runestimate/schedule.go:30-72 | handing the least loaded worker the next chunk keeps every load within total/m + (1 - 1/m) times the largest chunk |
| `Makespan.Replay` | backend/internal/runestimate/schedule.go:30-72 | the replay's span within these bounds; dealt in turn, it is the longest of what each worker is dealt |
| `Makespan.SpanWithin` | backend/internal/runestimate/schedule.go:30-72 | the span is at least total/m and at least the largest chunk, and under pulling at most total/m + (1 - 1/m) largest |
| `Makespan.RunSpan` | backend/internal/runestimate/schedule.go:30-72 | the same bounds for a whole run chunked by Size; sharded, the longest of what each shard is dealt |
| `Makespan.ShardLoadIs` | backend/internal/runestimate/schedule.go:30-72 | what the replay deals a worker is what ForShard's chunks for that shard cost |
| `Makespan.ShardedSpan` | backend/internal/runestimate/schedule.go:30-72 | the sharded span is the largest load ForShard gives any shard |
| `Makespan.BandIsOrdered` | backend/internal/runestimate/extrapolate.go:283-287 | low, estimate and high in that order, and low positive with the estimate |
| `Makespan.BandSpreads` | backend/internal/runestimate/extrapolate.go:283-287 | the band reaches as many times over its point as under it: 1.15 and, for each unit of relative error, 2.3 times more |
| `Makespan.WallBandIsOrdered` | backend/internal/runestimate/extrapolate.go:292-310 | the wall band is in order, and its estimate less the preparation is at least the replayed span |
| `Makespan.WallBandSpreads` | backend/internal/runestimate/extrapolate.go:292-310 | beyond the preparation: the span's share of the low cost, the span at 0.8 of perfect scaling, and its share of the high cost at 0.55 |
| `Makespan.BusyBounds` | backend/internal/runestimate/schedule.go:30-72 | the chunks keep at least one worker busy and at most all of them |
| `Makespan.ParallelismBound` | backend/internal/runestimate/extrapolate.go:312-318 | the parallelism reported never exceeds the worker count |
| `Makespan.Extrapolate` | backend/internal/runestimate/extrapolate.go:128-151 | for given costs, workers and schedule: both bands in order, a wall estimate that allows for the preparation, an even share of the costs and the largest chunk, and a parallelism of at most the workers |
| `SampleOrders.RevTwice` | backend/internal/runestimate/sample.go:162-178 | reversing a number's bits twice gives it back |
| `SampleOrders.BlocksMetOnce` | backend/internal/runestimate/sample.go:135-178 | of the first 2^j positions exactly one falls in each aligned block of 2^(width - j), on its start |
| `SampleOrders.SkippedOnce` | backend/internal/runestimate/sample.go:162-178 | a position past the last unit is followed by one that is not |
| `SampleOrders.RoundIsPermutation` | backend/internal/runestimate/sample.go:143-178 | one round gives every unit from 0 to n - 1, once |
| `SampleOrders.SampleOrder.constructor` | backend/internal/runestimate/sample.go:150-159 | the least width whose power of two reaches n, at position 0 |
| `SampleOrders.SampleOrder.Reverse` | backend/internal/runestimate/sample.go:162-178 | the index built bit by bit is the bit reversal of the position |
| `SampleOrders.SampleOrder.Take` | backend/internal/runestimate/sample.go:162-178 | the retry loop ends after at most one skipped position and gives the next unit of the order |
| `SampleOrders.MeasureReceiver` | backend/internal/runestimate/probe.go:486-528 | growing batches from any offset time no unit twice, stay within the cap, and unless cut short time every unit or exactly the cap |
| `EventStream.SSEParser.Push` | frontend/src/api/event-stream.ts:61-117 | the loop over the buffer reads every whole line and keeps the rest, which FollowsTheStandard and SentIsHeard relate to the standard and to the server |
| `EventStream.TwoChunks` | frontend/src/api/event-stream.ts:61-117 | two pushes do what one push of both does, a CRLF split between them included |
| `EventStream.ChunkingDoesNotMatter` | frontend/src/api/event-stream.ts:61-117 | for every way of splitting a text, the same calls are made and the parser ends in the same state |
| `EventStream.FollowsTheStandard` | frontend/src/api/event-stream.ts:61-117 | after any text the parser stands where the character-level reader of sections 9.2.5 and 9.2.6 of the WHATWG HTML Living Standard does, which reads delays digit by digit from the left in base ten |
| `EventStream.CallsAreTheStandards` | frontend/src/api/event-stream.ts:61-117 | event names, data and retries are that standard's; after a lone final CR they lack only the line that CR ends |
| `EventStream.NumberAgrees` | frontend/src/api/event-stream.ts:97-97 | the test for digits and the number read are a left-to-right base-ten reading, character by character |
| `EventStream.ReadsTheDecimal` | frontend/src/api/event-stream.ts:97-97 | a number written in decimal reads as itself |
| `EventStream.SentIsHeard` | backend/internal/api/httpv1/events.go:34-160 | a stream of the server, cut into any chunks, is heard by the client as a delay of 3000 and then each event by name and JSON text, in order, with nothing left over |

## Left out

- Floating point: coordinates, costs and matrices are reals; rounding, NaN, infinities, fused multiply-adds and compensated sums are not modelled.
- Square roots and distances: `math.Hypot`, `math.Sqrt`, the tolerance test of a point against an edge and `FacadePoint` are parameters; `FacadeHomographies` uses only that a length is not negative and zero at the origin alone.
- Machine integers: indices and counts are unbounded; the grid's 32-bit item numbers never come near their width.
- The grid's `starts`, `items` and wide list are arrays while they are filled and sequences afterwards, since nothing writes them again; a nil grid or cursor is the absence of one.
- Library sorts (`slices.SortFunc`, `sort.Ints`, the stable sort past the insertion sort's cut, `Array.prototype.sort`) are taken at their contracts.
- GridCursors.BBoxGridCursor.QuerySegment: the set between what must and what may be returned is left open, because which near misses a row's cells add is no promise.
- GridCursors.BBoxGridCursor.QueryShadow: likewise between the boxes in the shadow and those meeting its box.
- LinearSolve.Solve8: a refusal is shown to mean a nearly dependent column, not that every nearly dependent system is refused, which partial pivoting does not promise.
- FacadeReceivers.Generate: canonicalFootprint, and buildingWindows with the windows' placement, are parameters; the first is required to be right where a result depends on it (`Canonicalises`), and what the second checks of a window is not modelled; receivers carry what places and orders them, not their provenance fields.
- `SegmentPolygonSpans`, `PartyWallSpans` and the cut parameters of geometry.go: they cover the segment only up to a tolerance.
- Run ids are numbers and start times instants; the artifacts of a run are told apart by suffix and kind, not content.
- A document of an older version or one that cannot be decoded: the store starts empty or as this protocol left it.
- Two jobs of one tab that overlap queue behind the lock like two tabs'; object URLs, their cache and reconnects are not modelled.
- Fetching the model, the computation of a run and its log are one step that succeeds or is abandoned.
- Kernels are pure functions of one receiver; a kernel that fails inside a shard is not modelled. A chunk's hash is injective.
- Run-state messages, progress sinks, cache pruning, temporary files, JSON and hashing of the engine.
- Clocks are arbitrary readings: nothing proved depends on what they say.
- Spatial strata of the probe, unit costs and error bars: only the visiting order, the schedule and the order of the bands.
- Reconnecting, abort signals and last-event ids of the event stream; `retry` values are unbounded integers.
- Coordinate systems, the acoustic standards, GeoJSON validation, HTTP, the interface and the OSM import.
