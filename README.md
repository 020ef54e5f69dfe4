# rimworld-base-gen in Dafny

A model of the layout core of *rimworld-base-gen*, a browser tool that plans
RimWorld colony bases. The user picks buildings, either rectangles or circles
with a size and a colour. The user then links pairs of buildings with a
strength from 1 to 10. A d3 force simulation pulls linked buildings together,
and a polygon-collision force pushes overlapping ones apart. The settled
positions are snapped to whole grid cells. Each building's inner polygon is
rasterised into the cells that are drawn.

The model covers these parts:

- **Geometry** (`geometry.dfy`). `rectPoly` and `circlePoly`, where the
  circle's trigonometry is a parameter. Also included are `tileToCoords`, the
  even-odd test `pointInPolygon` as a loop, the rasteriser
  `polygonToGridTiles` as two nested loops, and `createPolygons`.
  - The rasteriser returns exactly the window cells whose centre is inside,
    in row-major order and without repeats.
  - A rectangle of half-extents a and b rasterises to exactly (2a)(2b)
    cells.
- **Seeded generator** (`rng.dfy`). The Park–Miller generator is a class
  whose field is the state.
  - Every state reached from a seed >= 0 stays in 1 .. 2^31 - 2, and every
    draw lies in [0, 1).
  - One class of negative seeds falls into state 0 and is stuck there. The
    model keeps that behaviour as written.
- **Collision force** (`forces.dfy`). A class with the closure variable
  `nodes` as a field. Its `Force` method moves node objects in place through
  three nested loops.
  - It is proved to equal a pure fold of pair steps over the visiting
    schedule (`pairs.dfy`).
  - The fold keeps the sum of all positions.
- **Base generator** (`generator.dfy`), from the component
  `BaseGenerator.tsx`. It covers the seeded start positions, the resolution
  of id links to node links (dropping dangling ones), the empty-list
  short-circuit, the floor snap, and where the inner tiles are drawn.
- **Prototype** (`prototype.dfy`), from `App.tsx`. It covers the fixed
  rooms and links, the completion that links every two rooms not yet linked
  (proved complete, well formed and idempotent), the link mapping that drops
  nothing, and the `Math.round` snap.
- **Editors** (`link_editor.dfy`, `building_editor.dfy`). The list
  operations behind the link and building editors, the strength bands, and
  the dimension clamp.
- **Presets** (`presets.dfy`). The fifteen presets and four configurations.
  The facts the code takes for granted are proved as lemmas: every
  `find(...)!` succeeds, the links are sound, and the default is
  "Basic Colony".

`App.tsx` carries its own copies of `tileToCoords`, `polygonToGridTiles`,
`pointInPolygon`, `rectPoly` and `circlePoly` (lines 14-92), and of
`forcePolygonCollision` (lines 233-280). They match the ones under `src/utils`
line for line, so the `Geometry` and `Forces` members model both.

Values in the source become Dafny datatypes: points, polygons, templates and
links. Nodes whose coordinates the simulation changes are objects of the
class `Types.BuildingNode`.

Some inputs are not computed by the model and are taken as parameters:

- the separating-axis test (`Forces.Overlap`);
- `Math.cos`/`Math.sin` (`unit`);
- the d3 simulation (`settle`), a function from the nodes' ids and polygons, their start positions and the links by id to the final positions;
- `Math.random()` results (`u`, `v`);
- `Date.now()` ids (`id`);
- `parseInt` results (`Option<int>`).

JavaScript's `%`, `Math.round` and `Math.floor` are written out. They are
`Rng.JsRem` (remainder truncated toward zero), `Geometry.JsRound`
(round half up) and `.Floor`.

## Model

| member | source | states |
|---|---|---|
| Geometry.JsRound | src/utils/geometry.ts:6-7 | `Math.round` gives the integer r with r - 1/2 <= v < r + 1/2 |
| Geometry.JsRoundMonotone | src/utils/geometry.ts:6-7 | rounding is monotone |
| Geometry.HalfOfInteger | src/utils/geometry.ts:6-7 | round(w / 2) = floor((w + 1) / 2) for integral w |
| Geometry.RectPoly | src/utils/geometry.ts:5-14 | four corners (-a,-b), (a,-b), (a,b), (-a,b) with a = round(w/2), b = round(h/2) |
| Geometry.CirclePolygon | src/utils/geometry.ts:16-25 | 32 vertices, vertex i is the unit point for angle i/32 of a turn scaled by the radius |
| Geometry.CirclePoly | src/utils/geometry.ts:16-25 | the push loop builds exactly CirclePolygon |
| Geometry.CircleVerticesOnCircle | src/utils/geometry.ts:16-25 | with unit-length trigonometry every vertex is at distance diameter / 2 |
| Geometry.TileToCoords | src/utils/geometry.ts:27-29 | the offset is a multiple of the cell size 10, and dividing by 10 gives the tile back |
| Geometry.TileToCoordsTranslates | src/utils/geometry.ts:27-29 | offsets are multiples of the cell size 10, and shifting a tile shifts its offset by whole cells |
| Geometry.HorizontalEdge | src/utils/geometry.ts:55-56 | a horizontal edge never toggles `inside` (no division by zero) |
| Geometry.VerticalEdge | src/utils/geometry.ts:55-56 | a vertical edge is crossed iff p is left of it within its half-open y-span |
| Geometry.PointInPolygon | src/utils/geometry.ts:47-60 | the loop returns the even-odd parity of crossing edges, false for no vertices |
| Geometry.RectInside | src/utils/geometry.ts:47-60 | for rectPoly, inside iff -a <= x < a and -b <= y < b (left and bottom edges included) |
| Geometry.RectFourByFourExamples | src/utils/geometry.ts:47-60 | (0,0) is inside rectPoly(4,4) and (3,3) is not |
| Geometry.PolygonToGridTiles | src/utils/geometry.ts:31-45 | the nested loops return exactly Raster(polygon) |
| Geometry.RowTilesSpec | src/utils/geometry.ts:35-42 | one row holds exactly its inside cells, in increasing x |
| Geometry.GridTilesSpec | src/utils/geometry.ts:33-43 | the rows hold exactly the inside cells of the window, row-major |
| Geometry.RasterSpec | src/utils/geometry.ts:31-45 | cell in result iff -100 <= x,y < 200 and centre inside; row-major; no repeats |
| Geometry.RectCellBox | src/utils/geometry.ts:31-45 | a rectangle's inside cells are the box of its half-extents |
| Geometry.BoxRowCount | src/utils/geometry.ts:35-42 | a row of a box has as many cells as the overlap of the spans |
| Geometry.BoxGridCount | src/utils/geometry.ts:33-43 | the rows of a box have rows x columns cells |
| Geometry.RectRasterMembers | src/utils/geometry.ts:31-45 | rasterised rectangle cells are exactly the half-extent box |
| Geometry.WindowOverlap | src/utils/geometry.ts:33-35 | a centred span of half-width at most 100 lies inside the window |
| Geometry.RectRasterCount | src/utils/geometry.ts:31-45 | the rectangle rasterises to (2a)(2b) cells |
| Geometry.RectRaster | src/utils/geometry.ts:31-45 | membership and count together |
| Geometry.EvenHalf | src/utils/geometry.ts:6-7 | an even dimension has half-extent exactly half of it |
| Geometry.EvenRectRaster | src/utils/geometry.ts:5-45 | an even W x H rectangle (W, H <= 200) rasterises to exactly W * H cells |
| Geometry.CreatePolygons | src/utils/geometry.ts:62-76 | circles get 32 vertices, rectangles 4; the rectangle's outer corner is beyond the inner one |
| Geometry.CircleIgnoresHeight | src/utils/geometry.ts:67-73 | circle polygons do not depend on the height |
| Geometry.OuterHalfExtent | src/utils/geometry.ts:70-73 | with MARGIN 1 the outer half-extent gains one cell for even sizes and none for odd |
| Geometry.RectOuterEnclosesInner | src/utils/geometry.ts:62-76 | every point inside a rectangle's inner polygon is inside its outer polygon |
| Rng.JsRem | src/utils/seededRandom.ts:9 | `%` keeps the dividend's sign and has magnitude below the divisor |
| Rng.JsRemQuotient | src/utils/seededRandom.ts:9 | the dividend is the divisor times the truncated quotient plus the remainder, which with the sign and bound fixes the remainder |
| Rng.InitStateSpec | src/utils/seededRandom.ts:8-11 | the state lands in 0 .. M-1, in 1 .. M-1 for seeds >= 0, keeps valid seeds, and is 0 exactly for remainder -(M-1) |
| Rng.DegenerateSeed | src/utils/seededRandom.ts:8-11 | seed -2147483646 yields state 0 |
| Rng.ZeroStateIsStuck | src/utils/seededRandom.ts:16-19 | from state 0 `next` stays at 0 and returns a negative value |
| Rng.ProductIsExact | src/utils/seededRandom.ts:17 | state * 16807 stays below 2^53, so the double product is exact |
| Rng.MultipleFromProduct | src/utils/seededRandom.ts:17 | with an inverse of the multiplier, s * a a multiple of m forces s a multiple of m |
| Rng.MultipleOutside | src/utils/seededRandom.ts:17 | no multiple of m lies strictly between 0 and m |
| Rng.NoZeroProduct | src/utils/seededRandom.ts:17 | the product of a valid state and an invertible multiplier is never divisible by m |
| Rng.NextStateValid | src/utils/seededRandom.ts:16-19 | a valid state stays valid (16807 is invertible mod 2^31 - 1) |
| Rng.NormaliseRange | src/utils/seededRandom.ts:18 | from a valid state the value lies in [0, 1) |
| Rng.StateAfterValid | src/utils/seededRandom.ts:8-19 | unless the start state is 0, every reached state is valid |
| Rng.DrawInUnitInterval | src/utils/seededRandom.ts:16-19 | unless the start state is 0, every draw lies in [0, 1) |
| Rng.FractionBelow | src/utils/seededRandom.ts:25 | u * hi - u * lo < hi - lo for u in [0, 1) |
| Rng.ScaleIntoRange | src/utils/seededRandom.ts:24-26 | min + u * (max - min) lies in [min, max) |
| Rng.SeededRandom.constructor | src/utils/seededRandom.ts:8-11 | the stored state is InitState(seed), valid for seeds >= 0 |
| Rng.SeededRandom.Next | src/utils/seededRandom.ts:16-19 | advances the state by one multiplication and returns its normalisation, in [0, 1) from a valid state |
| Rng.SeededRandom.NextRange | src/utils/seededRandom.ts:24-26 | one `next`, scaled; in [min, max) from a valid state |
| Rng.SeededRandom.NextInt | src/utils/seededRandom.ts:31-33 | floor of nextRange(min, max + 1); in [min, max] from a valid state |
| Pairs.PairRow | src/utils/forces.ts:18 | the `j` loop of row i visits (i, lo) .. (i, hi - 1) in order |
| Pairs.PairRowsLength | src/utils/forces.ts:17-18 | the first i rows of n nodes hold i*n - i(i+1)/2 pairs |
| Pairs.RowsArithmetic | src/utils/forces.ts:17-18 | the closed form advances by one row of n - i pairs |
| Pairs.PairRowsShape | src/utils/forces.ts:17-18 | every visited pair is i < j < n, and the order is lexicographic |
| Pairs.PairRowsComplete | src/utils/forces.ts:17-18 | every pair a < b < n is visited |
| Pairs.PairOrderSpec | src/utils/forces.ts:17-41 | one pass visits each pair i < j < n exactly once, ascending: n(n-1)/2 pairs |
| Forces.Respond | src/utils/forces.ts:32-39 | one position per node; its meaning is stated by Forces.StepSpec |
| Forces.Step | src/utils/forces.ts:19-39 | one position per node; its meaning is stated by Forces.StepSpec and Forces.StepKeepsTotal |
| Forces.FoldPairs | src/utils/forces.ts:16-42 | one position per node after any sequence of pair tests |
| Forces.TotalUpdate | src/utils/forces.ts:35-38 | replacing one position changes the sum by the difference |
| Forces.StepSpec | src/utils/forces.ts:19-39 | only nodes i and j move; no overlap changes nothing; overlap v moves i by -damping*v and j by +damping*v |
| Forces.StepKeepsTotal | src/utils/forces.ts:33-38 | the two displacements cancel |
| Forces.FoldPairsSnoc | src/utils/forces.ts:16-42 | one more pair is one more step |
| Forces.FoldPairsAppend | src/utils/forces.ts:16-42 | folding a concatenation folds the parts in turn |
| Forces.FoldPairsKeepsTotal | src/utils/forces.ts:16-42 | any sequence of steps keeps the sum of the positions |
| Forces.ScheduleValid | src/utils/forces.ts:16-18 | every scheduled pair is i < j < n |
| Forces.ScheduleLength | src/utils/forces.ts:16-18 | `iterations` passes of n(n-1)/2 tests, none for iterations <= 0 |
| Forces.SchedulePass | src/utils/forces.ts:16-18 | pass k of the schedule is exactly one full pair order |
| Forces.ScheduleEmpty | src/utils/forces.ts:16-18 | no tests with no iterations or fewer than two nodes |
| Forces.RowSweep | src/utils/forces.ts:18-40 | one position per node; equal to the fold over the row (Forces.RowSweepIsFold) |
| Forces.PassSweep | src/utils/forces.ts:17-41 | one position per node; equal to the fold over the rows (Forces.PassSweepIsFold) |
| Forces.Sweep | src/utils/forces.ts:16-42 | one position per node; equal to the fold over the schedule (Forces.SweepIsFold) |
| Forces.RowSweepIsFold | src/utils/forces.ts:18-40 | the `j` loop applies exactly its row of pairs |
| Forces.PassSweepIsFold | src/utils/forces.ts:17-41 | the `i` loop applies exactly the rows before i |
| Forces.SweepIsFold | src/utils/forces.ts:16-42 | the three loops apply exactly the schedule |
| Forces.ForceKeepsTotal | src/utils/forces.ts:15-43 | a whole `force()` call keeps the sum of the considered positions |
| Forces.ConsideredSpec | src/utils/forces.ts:45-48 | a node is kept iff its id is not excluded; no longer than the input; distinct stays distinct |
| Forces.ConsideredAppend | src/utils/forces.ts:47 | the filter keeps relative order |
| Forces.Polygons | src/utils/forces.ts:24-28 | element k is node k's polygon |
| Forces.PolygonCollision.constructor | src/utils/forces.ts:4-13 | stores the options; no nodes yet |
| Forces.PolygonCollision.Default | src/utils/forces.ts:5-7 | the defaults are 10 iterations, damping 0.5 and no exclusions |
| Forces.PolygonCollision.Initialize | src/utils/forces.ts:45-48 | `nodes` becomes the non-excluded nodes in order |
| Forces.PolygonCollision.Force | src/utils/forces.ts:15-43 | the live positions become the fold of pair steps over the schedule |
| Forces.PolygonCollision.FoldPass | src/utils/forces.ts:17-41 | one pass of the `i` loop moves the nodes as PassSweep says |
| Forces.PolygonCollision.FoldRow | src/utils/forces.ts:18-40 | one run of the `j` loop moves the nodes as RowSweep says |
| Forces.PolygonCollision.PairStep | src/utils/forces.ts:19-39 | one loop body moves nodes i and j as Step says and no other node |
| Types.BuildingNode.constructor | src/types/index.ts:6-19 | a node holds exactly the given fields |
| Types.Positions | src/utils/forces.ts:23-27 | element k is node k's live position |
| Types.PlacedPositions | src/utils/forces.ts:23-27 | the field-wise placement equals the positions value |
| Types.FirstIndexOf | src/components/BaseGenerator.tsx:41-42 | `find` by id gives the first matching index, or undefined exactly when no id matches |
| Types.FindTemplate | src/data/presets.ts:138 | `find` by id gives the first template with the id, or undefined exactly when none has it |
| Links.JoinsSymmetric | src/components/LinkEditor.tsx:26-30 | the "either direction" test is symmetric |
| Links.AppendWellFormed | src/components/LinkEditor.tsx:21-46 | appending keeps no-self-links and no-duplicate-pairs iff the new link is no self-link and joins an unjoined pair |
| Generator.StartPositionNearCentre | src/components/BaseGenerator.tsx:29-36 | unless the seed state is 0, every start lies in [49, 51) x [49, 51) |
| Generator.NonNegativeSeedsNearCentre | src/components/BaseGenerator.tsx:23-36 | for seeds >= 0 (the default 12345 too) every start lies in [49, 51) x [49, 51) |
| Generator.SeedNode | src/components/BaseGenerator.tsx:31-35 | a fresh copy of building k placed at its start position, the generator advanced by two draws |
| Generator.SeedNodes | src/components/BaseGenerator.tsx:29-36 | fresh distinct copies in order; building k starts at draws 2k, 2k+1 of one shared generator |
| Generator.ResolveLinks | src/components/BaseGenerator.tsx:38-48 | never more links than given |
| Generator.ResolveLinkSpec | src/components/BaseGenerator.tsx:39-45 | a link survives iff both ids resolve; then it keeps its strength and points at the first node with each id |
| Generator.ResolveLinksAppend | src/components/BaseGenerator.tsx:39-45 | the map-then-filter works link by link, keeping order |
| Generator.AllResolveSnoc | src/components/BaseGenerator.tsx:45 | a list resolves iff its front and its last link do |
| Generator.ResolveLinksKeepsAll | src/components/BaseGenerator.tsx:39-45 | nothing is dropped iff every link resolves; then link k becomes element k |
| Generator.NodePolygons | src/components/BaseGenerator.tsx:58-69 | element k is node k's polygon, what the collision force reads |
| Generator.LinkIds | src/components/BaseGenerator.tsx:64-65 | element k is resolved link k seen through the ids of its ends, as `.id((d) => d.id)` identifies nodes |
| Generator.ResolvingLinks | src/components/BaseGenerator.tsx:39-45 | a link is kept iff it is in the list and both its ids occur; in order; never more links |
| Generator.ResolveLinksIds | src/components/BaseGenerator.tsx:38-48 | seen through ids, the resolved links are exactly the given links whose ends both name a node |
| Generator.StartPositions | src/components/BaseGenerator.tsx:29-36 | position k is building k's seeded start position |
| Generator.CopiesShareInputs | src/components/BaseGenerator.tsx:31-32 | copies carry their originals' ids and polygons |
| Generator.Snap | src/components/BaseGenerator.tsx:70-76 | every node gets roundX = floor(x), roundY = floor(y), so it lies within its cell |
| Generator.TileRects | src/components/BaseGenerator.tsx:171-175 | rectangle k is at (roundX + tile.x, roundY + tile.y) times the cell size |
| Generator.TileRectsApart | src/components/BaseGenerator.tsx:171-175 | distinct tiles give distinct rectangles on the canvas grid |
| Generator.DrawnTiles | src/components/BaseGenerator.tsx:145-182 | the rectangles drawn for a node's inner polygon are pairwise different cells |
| Generator.BaseGenerator.constructor | src/components/BaseGenerator.tsx:50 | the state starts as the seeded nodes |
| Generator.BaseGenerator.Layout | src/components/BaseGenerator.tsx:52-91 | empty input clears the state; otherwise the nodes move from their positions to what the simulation makes of those positions and the links, are floor-snapped and become the state |
| Generator.BaseGenerator.Generate | src/components/BaseGenerator.tsx:29-91 | fresh copies of the buildings, floor-snapped at what the simulation makes of their ids, polygons, seeded start positions and resolving links, so a function of buildings, links and seed; returns the resolved links |
| Prototype.RoomIds | src/App.tsx:94-158 | element k is room k's id |
| Prototype.DefaultsWellFormed | src/App.tsx:94-201 | the room ids are the eight listed, all different; the declared links join rooms and are well formed |
| Prototype.DefaultLinksWellFormed | src/App.tsx:160-201 | the eight declared links have no self-link and no pair twice |
| Prototype.RoomInnerWithinOuter | src/App.tsx:94-158 | a rectangle room's inner polygon (two cells smaller) lies inside its outer one |
| Prototype.CompleteLinks | src/App.tsx:215-231 | the nested `forEach` with the i >= j skip computes Completed(ids, links) |
| Prototype.LinkedKept | src/App.tsx:218-229 | appending never loses an existing link |
| Prototype.ExtendsTrans | src/App.tsx:215-231 | extending with fill links composes |
| Prototype.CompleteRowSpec | src/App.tsx:216-230 | row i keeps the list as a prefix, adds only strength-1 links from earlier to later rooms, and links room i to every later room |
| Prototype.CompleteRowsSpec | src/App.tsx:215-231 | the rows before i do the same for every room a < i |
| Prototype.RowsLinkedStep | src/App.tsx:215-231 | links made by earlier rows persist through a later row |
| Prototype.CompletedSpec | src/App.tsx:214-231 | afterwards every two rooms are linked; original links kept in front; added links have strength 1 |
| Prototype.CompleteRowWellFormed | src/App.tsx:216-230 | with different ids a row keeps the list well formed |
| Prototype.CompleteRowsWellFormed | src/App.tsx:215-231 | with different ids the completion keeps the list well formed |
| Prototype.CompleteRowNoop | src/App.tsx:218-223 | a row over already linked rooms adds nothing |
| Prototype.CompleteRowsNoop | src/App.tsx:215-231 | a fully linked list is left as it is |
| Prototype.CompletedIdempotent | src/App.tsx:214-231 | completing twice is completing once |
| Prototype.CompletedWellFormed | src/App.tsx:214-231 | with different ids, sound links complete to sound links joining every pair |
| Prototype.DefaultLinksComplete | src/App.tsx:160-231 | the completed default links are well formed, join rooms of the list and link every two rooms |
| Prototype.MapLinks | src/App.tsx:303-313 | nothing is dropped; each end is the first room with the id, undefined exactly when none has it |
| Prototype.MapLinksAt | src/App.tsx:307-311 | element k is link k mapped |
| Prototype.MapLinksAgreesWithResolve | src/App.tsx:303-313 | when every link resolves, the prototype's mapping and BaseGenerator's resolution agree link by link |
| Prototype.JitteredStartRange | src/App.tsx:287-294 | with `Math.random()` in [0, 1) every start lies in [50, 52) x [50, 52) |
| Prototype.SnapRound | src/App.tsx:333-339 | every node gets roundX = Math.round(x), roundY = Math.round(y) |
| Prototype.RoundVersusFloor | src/App.tsx:336-339 | the rounded cell is the floor cell, or the next one exactly when the fraction is at least 1/2 |
| Prototype.RoundDiffersFromFloor | src/App.tsx:336-339 | 0.5 goes to cell 1 here and to cell 0 in BaseGenerator |
| LinkEditor.AddLink | src/components/LinkEditor.tsx:21-46 | either nothing changes or the draft is appended and reset |
| LinkEditor.AddLinkSpec | src/components/LinkEditor.tsx:21-46 | an add succeeds iff both ends are chosen and different and no link joins them; then one link is appended and the draft reset, else nothing changes |
| LinkEditor.AddLinkKeepsPrefix | src/components/LinkEditor.tsx:40 | earlier links stay in place; at most one is added |
| LinkEditor.AddLinkWellFormed | src/components/LinkEditor.tsx:21-46 | `addLink` keeps the list free of self-links and duplicate pairs |
| LinkEditor.AddLinkTwice | src/components/LinkEditor.tsx:26-32 | adding the same link again, or its reverse, changes nothing |
| LinkEditor.RemoveLink | src/components/LinkEditor.tsx:48-50 | exactly the link at the index goes, the rest keep their order; an out-of-range index changes nothing |
| LinkEditor.KeepOthersSpec | src/components/LinkEditor.tsx:49 | the index filter from position k on is the rest without the index |
| LinkEditor.RemoveLinkWellFormed | src/components/LinkEditor.tsx:48-50 | removal keeps the list well formed |
| LinkEditor.UpdateLinkStrength | src/components/LinkEditor.tsx:52-57 | same length and endpoints; only the link at the index changes, and only its strength |
| LinkEditor.UpdateLinkStrengthKeepsPairs | src/components/LinkEditor.tsx:52-57 | which pairs are linked, and well-formedness, are unchanged |
| LinkEditor.BuildingName | src/components/LinkEditor.tsx:59-64 | the first matching building's name, or the id when none matches or the name is empty |
| LinkEditor.BuildingNameNonEmpty | src/components/LinkEditor.tsx:59-64 | the shown name is never empty for a non-empty id |
| LinkEditor.Band | src/components/LinkEditor.tsx:66-80 | the band counts the thresholds 2, 4, 6, 8 the strength reaches |
| LinkEditor.StrengthLabel | src/components/LinkEditor.tsx:66-72 | the label is the entry of the strength's band in Very Weak .. Very Strong |
| LinkEditor.StrengthColor | src/components/LinkEditor.tsx:74-80 | the colour is the entry of the strength's band |
| LinkEditor.LabelAndColorShareBands | src/components/LinkEditor.tsx:66-80 | label and colour are the band's entries, so they change together |
| LinkEditor.BandMonotone | src/components/LinkEditor.tsx:66-80 | a stronger link never gets a lower band |
| LinkEditor.SliderReachesEveryBand | src/components/LinkEditor.tsx:176-182 | every band is reachable with strengths 1 .. 10 |
| BuildingEditor.TrimStart | src/components/BuildingEditor.tsx:33 | removes exactly a leading run of ECMAScript white space |
| BuildingEditor.TrimEnd | src/components/BuildingEditor.tsx:33 | removes exactly a trailing run of ECMAScript white space |
| BuildingEditor.TrimBlank | src/components/BuildingEditor.tsx:33 | the trimmed name is empty iff the name is all white space |
| BuildingEditor.TrimEndNonEmpty | src/components/BuildingEditor.tsx:33 | text starting with non-space survives end trimming |
| BuildingEditor.TrimEnds | src/components/BuildingEditor.tsx:33 | trimmed text has no white space at either end |
| BuildingEditor.AddBuilding | src/components/BuildingEditor.tsx:32-48 | either nothing changes or the form becomes a building appended to the list and the form resets |
| BuildingEditor.AddBuildingSpec | src/components/BuildingEditor.tsx:32-48 | a blank name changes nothing; otherwise one building with the form fields and id is appended and the form resets to an 8 x 8 rectangle in #8B4513 |
| BuildingEditor.AppendKeepsDimensions | src/components/BuildingEditor.tsx:40 | appending a building of at least 3 x 3 keeps all at least 3 x 3 |
| BuildingEditor.AddBuildingKeepsDimensions | src/components/BuildingEditor.tsx:35-40 | adding a clamped form keeps every building at least 3 x 3 |
| BuildingEditor.RemoveBuilding | src/components/BuildingEditor.tsx:50-52 | a building is kept iff it is in the list and its id differs |
| BuildingEditor.RemoveBuildingAppend | src/components/BuildingEditor.tsx:50-52 | the filter keeps order |
| BuildingEditor.RemoveBuildingAbsent | src/components/BuildingEditor.tsx:50-52 | a list without the id is unchanged |
| BuildingEditor.RemoveBuildingIdempotent | src/components/BuildingEditor.tsx:50-52 | removing twice is removing once |
| BuildingEditor.ClampDimension | src/components/BuildingEditor.tsx:102 | the stored dimension is at least 3, equal to any parsed value of at least 3, else 3 |
| BuildingEditor.ClampIdempotent | src/components/BuildingEditor.tsx:102 | a stored dimension typed again is kept |
| BuildingEditor.EditWidth | src/components/BuildingEditor.tsx:97-104 | the width input changes only the width, to the clamped parse, at least 3 |
| BuildingEditor.EditHeight | src/components/BuildingEditor.tsx:113-120 | the height input changes only the height, to the clamped parse, at least 3 |
| BuildingEditor.EmptyFormDimensions | src/components/BuildingEditor.tsx:24-30 | the initial form is 8 x 8 in the first colour |
| Presets.Keys | src/data/presets.ts:215-218 | `Object.keys` lists the keys in insertion order |
| Presets.Lookup | src/data/presets.ts:217 | indexing by key gives the entry's value, undefined exactly for an absent key |
| Presets.DefaultIsBasicColony | src/data/presets.ts:215-218 | the first key is "Basic Colony" and the default is that configuration |
| Presets.Buildings | src/data/presets.ts:138-143 | element k is the `find` result for lookup k |
| Presets.PresetIdsSpec | src/data/presets.ts:3-133 | the preset ids are the fifteen listed, all different |
| Presets.PresetIdsMatch | src/data/presets.ts:3-133 | the preset ids in order |
| Presets.PresetIdsUnique | src/data/presets.ts:3-133 | the fifteen ids differ |
| Presets.PresetDimensions | src/data/presets.ts:5-132 | every preset is at least 3 x 3 |
| Presets.SoundConfigurationResolves | src/data/presets.ts:136-211 | in a sound configuration every `find(...)!` succeeds with a preset carrying the looked-up id |
| Presets.BasicColonySound | src/data/presets.ts:136-151 | Basic Colony is sound |
| Presets.BasicColonyIds | src/data/presets.ts:138-143 | its lookups are preset ids, none twice |
| Presets.BasicColonyUnique | src/data/presets.ts:138-143 | no id looked up twice |
| Presets.BasicColonyLinks | src/data/presets.ts:144-150 | links join its buildings, no self-link, strengths 1 .. 10 |
| Presets.BasicColonyPairs | src/data/presets.ts:144-150 | no pair linked twice |
| Presets.IndustrialBaseSound | src/data/presets.ts:153-171 | Industrial Base is sound |
| Presets.IndustrialBaseIds | src/data/presets.ts:155-162 | its lookups are preset ids, none twice |
| Presets.IndustrialBaseUnique | src/data/presets.ts:155-162 | no id looked up twice |
| Presets.IndustrialBaseLinks | src/data/presets.ts:163-170 | links join its buildings, no self-link, strengths 1 .. 10 |
| Presets.IndustrialBasePairs | src/data/presets.ts:163-170 | no pair linked twice |
| Presets.DefensiveOutpostSound | src/data/presets.ts:173-190 | Defensive Outpost is sound |
| Presets.DefensiveOutpostIds | src/data/presets.ts:175-181 | its lookups are preset ids, none twice |
| Presets.DefensiveOutpostUnique | src/data/presets.ts:175-181 | no id looked up twice |
| Presets.DefensiveOutpostLinks | src/data/presets.ts:182-189 | links join its buildings, no self-link, strengths 1 .. 10 |
| Presets.DefensiveOutpostPairs | src/data/presets.ts:182-189 | no pair linked twice |
| Presets.SelfSufficientFarmSound | src/data/presets.ts:192-211 | Self-Sufficient Farm is sound |
| Presets.SelfSufficientFarmIds | src/data/presets.ts:194-201 | its lookups are preset ids, none twice |
| Presets.SelfSufficientFarmUnique | src/data/presets.ts:194-201 | no id looked up twice |
| Presets.SelfSufficientFarmLinks | src/data/presets.ts:202-210 | links join its buildings, no self-link, strengths 1 .. 10 |
| Presets.SelfSufficientFarmPairs | src/data/presets.ts:202-210 | no pair linked twice |
| Presets.SoundFromParts | src/data/presets.ts:136-211 | the five parts make a configuration sound |
| Presets.ConfigurationsSound | src/data/presets.ts:135-212 | all four configurations are sound and their keys differ |

## Left out

- The d3 force simulation is not modelled: the link force, the centre force, alpha cooling and the tick loop. It is the parameter `settle` of type `Generator.Simulation`, and the collision force is modelled separately.
- Generator.BaseGenerator.Layout: requires that the simulation returns one position per node (`Generator.OnePerNode`), which d3 does by construction.
- The separating-axis test of the `sat` library is not modelled; it is the parameter `Forces.Overlap`.
- `Math.cos` and `Math.sin` are not modelled; the unit-circle points are the parameter `unit`.
- `Math.random` in the prototype is not modelled; its results are the parameters `u` and `v`.
- `Date.now()` building ids are not modelled; the id is a parameter.
- `parseInt` is not modelled; its result is an `Option<int>`, with None standing for NaN.
- Floating point is not modelled. Coordinates are exact reals, so double rounding in the quotient of `pointInPolygon`, the damping products and `(state - 1) / (M - 1)` is not captured.
- The generator's products are exact in doubles (`Rng.ProductIsExact`), so its integer part is faithful.
- Rendering, React state plumbing and `useMemo` caching are not modelled: SVG, grid lines, labels, the commented-out outer tiles and link lines.
- `ExportImport`, `PresetSelector` and `export.ts` are not part of this model.
- The non-fast mode, which snaps on every `tick`, is not modelled. `Generator.BaseGenerator.Layout` models fast generation, the default.
- Forces.PolygonCollision.Force: requires that no node object occurs twice in `nodes`. d3 always passes distinct node objects. With an aliased node, the in-place updates would differ from the fold.
- Forces.PolygonCollision.Force: the claim that only the `x` and `y` fields change is stated by its `modifies` frame, not by an ensures clause.
- Forces.Step: a pair outside i < j < n is a no-op. The loops never form such a pair (`Forces.ScheduleValid`).
- Non-integer or non-finite `iterations` and seeds are not modelled. Iterations are integers and seeds are integers.
- `polygonToGridTiles` collects cells in a `Set` of arrays, which compares by reference. The model uses a sequence; each cell is added once in either case.
- Prototype.DefaultLinksComplete: does not state the total of 28 links after completion. It proves the weaker fact that every one of the 28 room pairs is linked.
- The prototype's `RoomNode` defaults (position 0, cell 0) are not modelled separately, since the start positions overwrite them.
- The editors' select and colour inputs are plain field assignments and are not modelled.
- The link editor's draft strength passes unchecked, and the presets' strengths are proved to lie in the slider's range 1 .. 10.
- The degenerate seed state is kept as written. For seeds whose truncated remainder is -(2^31 - 2), for example -2147483646, the constructor yields state 0. From there every draw is -1 / (2^31 - 2), so every building starts at (49 - ε, 49 - ε).
