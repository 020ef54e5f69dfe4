/**
 * src/components/BaseGenerator.tsx without its rendering and without the d3
 * simulation: the seeded start positions of the nodes, the resolution of
 * id links to node links, the empty-list short-circuit, the floor snap that
 * finalises a layout and the placement of the drawn inner tiles.
 */
module Generator {
  import opened Wrappers
  import opened Types
  import opened Rng
  import opened Geometry

  const GridWidth: int := 100
  const GridHeight: int := 100
  /** The `seed` prop's default. */
  const DefaultSeed: int := 12345

  // ---------------------------------------------------------------------------
  // Seeding

  /** `nextRange(-1, 1)` as draw k of the generator built from seed. */
  function Jitter(seed: int, k: nat): real {
    -1.0 + Draw(seed, k) * (1.0 - -1.0)
  }

  /**
   * The start position of building k: both coordinates come from one
   * generator, x from draw 2k and y from draw 2k + 1, each added to the
   * centre of the 100 x 100 grid.
   */
  function StartPosition(seed: int, k: nat): Point {
    Point(GridWidth as real / 2.0 + Jitter(seed, 2 * k), GridHeight as real / 2.0 + Jitter(seed, 2 * k + 1))
  }

  /** Unless the seed hits the degenerate state 0, every start lies in [49, 51) x [49, 51). */
  lemma StartPositionNearCentre(seed: int, k: nat)
    requires InitState(seed) != 0
    ensures 49.0 <= StartPosition(seed, k).x < 51.0
    ensures 49.0 <= StartPosition(seed, k).y < 51.0
  {
    DrawInUnitInterval(seed, 2 * k);
    DrawInUnitInterval(seed, 2 * k + 1);
    ScaleIntoRange(Draw(seed, 2 * k), -1.0, 1.0);
    ScaleIntoRange(Draw(seed, 2 * k + 1), -1.0, 1.0);
  }

  /** Every seed >= 0, the default among them, avoids the degenerate state. */
  lemma NonNegativeSeedsNearCentre(seed: int, k: nat)
    requires seed >= 0
    ensures 49.0 <= StartPosition(seed, k).x < 51.0
    ensures 49.0 <= StartPosition(seed, k).y < 51.0
  {
    InitStateSpec(seed);
    StartPositionNearCentre(seed, k);
  }

  /** n carries b's descriptive fields (the spread `...building`). */
  predicate Copied(b: BuildingNode, n: BuildingNode) {
    && n.id == b.id && n.name == b.name && n.shape == b.shape
    && n.width == b.width && n.height == b.height && n.color == b.color
    && n.polygon == b.polygon && n.innerPolygon == b.innerPolygon
  }

  /** Copies carry the ids and polygons of their originals, so the simulation sees the same inputs. */
  lemma CopiesShareInputs(buildings: seq<BuildingNode>, nodes: seq<BuildingNode>)
    requires |nodes| == |buildings| && forall k :: 0 <= k < |nodes| ==> Copied(buildings[k], nodes[k])
    ensures Ids(nodes) == Ids(buildings) && NodePolygons(nodes) == NodePolygons(buildings)
  {
    assert forall k :: 0 <= k < |nodes| ==> Ids(nodes)[k] == Ids(buildings)[k];
  }

  /**
   * The `map` callback for building k: a fresh copy of b placed by the
   * generator's next two `nextRange(-1, 1)` draws, which are draws 2k and
   * 2k + 1 of the generator built from seed.
   */
  method SeedNode(b: BuildingNode, rng: SeededRandom, ghost seed: int, ghost k: nat) returns (node: BuildingNode)
    requires rng.seed == StateAfter(seed, 2 * k)
    modifies rng
    ensures rng.seed == StateAfter(seed, 2 * k + 2)
    ensures fresh(node) && Copied(b, node)
    ensures node.roundX == b.roundX && node.roundY == b.roundY
    ensures Point(node.x, node.y) == StartPosition(seed, k)
  {
    var dx := rng.NextRange(-1.0, 1.0);
    var dy := rng.NextRange(-1.0, 1.0);
    node := new BuildingNode(b.id, b.name, b.shape, b.width, b.height, b.polygon, b.innerPolygon,
                             b.color, GridWidth as real / 2.0 + dx, GridHeight as real / 2.0 + dy,
                             b.roundX, b.roundY);
  }

  /**
   * `newNodes`: a fresh copy of every building, in order, placed from one
   * `SeededRandom(seed)` that all buildings share.
   */
  method SeedNodes(buildings: seq<BuildingNode>, seed: int) returns (nodes: seq<BuildingNode>)
    ensures |nodes| == |buildings|
    ensures forall k :: 0 <= k < |nodes| ==> fresh(nodes[k])
    ensures Distinct(nodes)
    ensures forall k :: 0 <= k < |nodes| ==> Copied(buildings[k], nodes[k])
    ensures forall k :: 0 <= k < |nodes| ==> nodes[k].roundX == buildings[k].roundX && nodes[k].roundY == buildings[k].roundY
    ensures forall k :: 0 <= k < |nodes| ==> Point(nodes[k].x, nodes[k].y) == StartPosition(seed, k)
  {
    var rng := new SeededRandom(seed);
    nodes := [];
    var k := 0;
    while k < |buildings|
      invariant 0 <= k <= |buildings| && |nodes| == k
      invariant fresh(rng)
      invariant rng.seed == StateAfter(seed, 2 * k)
      invariant forall m :: 0 <= m < k ==> fresh(nodes[m])
      invariant Distinct(nodes)
      invariant forall m :: 0 <= m < k ==> Copied(buildings[m], nodes[m])
      invariant forall m :: 0 <= m < k ==> nodes[m].roundX == buildings[m].roundX && nodes[m].roundY == buildings[m].roundY
      invariant forall m :: 0 <= m < k ==> Point(nodes[m].x, nodes[m].y) == StartPosition(seed, m)
    {
      var node := SeedNode(buildings[k], rng, seed, k);
      nodes := nodes + [node];
      k := k + 1;
    }
  }

  // ---------------------------------------------------------------------------
  // Link resolution

  /** The link's two ids both name some node. */
  predicate Resolves(ns: seq<BuildingNode>, l: Link<string>) {
    l.source in Ids(ns) && l.target in Ids(ns)
  }

  /** n is the first node of ns whose id is id. */
  predicate FirstWithId(ns: seq<BuildingNode>, n: BuildingNode, id: string) {
    exists i :: 0 <= i < |ns| && ns[i] == n && n.id == id && forall m :: 0 <= m < i ==> ns[m].id != id
  }

  /** One link through `map` and `filter`: both ends looked up with `find`, dropped if either is missing. */
  function ResolveLink(ns: seq<BuildingNode>, l: Link<string>): seq<Link<BuildingNode>> {
    match (FirstIndexOf(Ids(ns), l.source), FirstIndexOf(Ids(ns), l.target))
    case (Some(i), Some(j)) => [Link(ns[i], ns[j], l.strength)]
    case _ => []
  }

  /** `mappedLinks`: the links whose ends both resolve, in their order, pointing at nodes. */
  function ResolveLinks(ns: seq<BuildingNode>, links: seq<Link<string>>): (r: seq<Link<BuildingNode>>)
    ensures |r| <= |links|
  {
    if |links| == 0 then []
    else ResolveLinks(ns, links[..|links| - 1]) + ResolveLink(ns, links[|links| - 1])
  }

  /**
   * A single link survives exactly when both its ids resolve, and then it
   * keeps its strength and points at the first node with each id.
   */
  lemma ResolveLinkSpec(ns: seq<BuildingNode>, l: Link<string>)
    ensures |ResolveLink(ns, l)| == if Resolves(ns, l) then 1 else 0
    ensures Resolves(ns, l) ==>
      && ResolveLink(ns, l)[0].strength == l.strength
      && FirstWithId(ns, ResolveLink(ns, l)[0].source, l.source)
      && FirstWithId(ns, ResolveLink(ns, l)[0].target, l.target)
  {
    var ids := Ids(ns);
    if Resolves(ns, l) {
      var i, j := FirstIndexOf(ids, l.source).value, FirstIndexOf(ids, l.target).value;
      assert forall m :: 0 <= m < i ==> ns[m].id != l.source by {
        forall m | 0 <= m < i ensures ns[m].id != l.source {
          assert ids[m] == ns[m].id;
        }
      }
      assert forall m :: 0 <= m < j ==> ns[m].id != l.target by {
        forall m | 0 <= m < j ensures ns[m].id != l.target {
          assert ids[m] == ns[m].id;
        }
      }
    }
  }

  /** Resolution works link by link: the survivors of a concatenation are the survivors of each part, in order. */
  lemma {:induction false} ResolveLinksAppend(ns: seq<BuildingNode>, a: seq<Link<string>>, b: seq<Link<string>>)
    ensures ResolveLinks(ns, a + b) == ResolveLinks(ns, a) + ResolveLinks(ns, b)
    decreases |b|
  {
    if |b| == 0 {
      assert a + b == a;
    } else {
      var last, init := b[|b| - 1], b[..|b| - 1];
      assert (a + b)[..|a + b| - 1] == a + init && (a + b)[|a + b| - 1] == last;
      var t := ResolveLink(ns, last);
      calc {
        ResolveLinks(ns, a + b);
        ResolveLinks(ns, a + init) + t;
        { ResolveLinksAppend(ns, a, init); }
        (ResolveLinks(ns, a) + ResolveLinks(ns, init)) + t;
        ResolveLinks(ns, a) + (ResolveLinks(ns, init) + t);
        ResolveLinks(ns, a) + ResolveLinks(ns, b);
      }
    }
  }

  /** Every link of the list resolves. */
  predicate AllResolve(ns: seq<BuildingNode>, links: seq<Link<string>>) {
    forall k :: 0 <= k < |links| ==> Resolves(ns, links[k])
  }

  /** A list resolves exactly when its front and its last link do. */
  lemma AllResolveSnoc(ns: seq<BuildingNode>, links: seq<Link<string>>)
    requires |links| > 0
    ensures AllResolve(ns, links) <==> AllResolve(ns, links[..|links| - 1]) && Resolves(ns, links[|links| - 1])
  {
    var init := links[..|links| - 1];
    assert forall k :: 0 <= k < |init| ==> init[k] == links[k];
  }

  /** No link is dropped exactly when every link resolves; then link k becomes element k. */
  lemma {:induction false} ResolveLinksKeepsAll(ns: seq<BuildingNode>, links: seq<Link<string>>)
    ensures |ResolveLinks(ns, links)| == |links| <==> AllResolve(ns, links)
    ensures AllResolve(ns, links) ==>
      forall k :: 0 <= k < |links| ==> ResolveLinks(ns, links)[k] == ResolveLink(ns, links[k])[0]
  {
    if |links| > 0 {
      var init, last := links[..|links| - 1], links[|links| - 1];
      var r, front, t := ResolveLinks(ns, links), ResolveLinks(ns, init), ResolveLink(ns, last);
      ResolveLinksKeepsAll(ns, init);
      ResolveLinkSpec(ns, last);
      AllResolveSnoc(ns, links);
      assert r == front + t;
      if AllResolve(ns, links) {
        forall k | 0 <= k < |links| ensures r[k] == ResolveLink(ns, links[k])[0] {
          if k < |init| {
            assert r[k] == front[k] && links[k] == init[k];
          } else {
            assert r[k] == t[0] && links[k] == last;
          }
        }
      }
    }
  }

  // ---------------------------------------------------------------------------
  // Finalisation and drawing

  /** Every node's cell is the floor of its position, so the position lies inside that cell. */
  predicate Snapped(ns: seq<BuildingNode>)
    reads ns
  {
    forall k :: 0 <= k < |ns| ==> ns[k].roundX == ns[k].x.Floor && ns[k].roundY == ns[k].y.Floor
  }

  /** The `end` handler: `roundX = Math.floor(x)` and `roundY = Math.floor(y)` for every node, in place. */
  method Snap(ns: seq<BuildingNode>)
    modifies ns`roundX, ns`roundY
    ensures Snapped(ns)
    ensures forall k :: 0 <= k < |ns| ==>
      ns[k].roundX as real <= ns[k].x < ns[k].roundX as real + 1.0 &&
      ns[k].roundY as real <= ns[k].y < ns[k].roundY as real + 1.0
  {
    var k := 0;
    while k < |ns|
      invariant 0 <= k <= |ns|
      invariant forall m :: 0 <= m < k ==> ns[m].roundX == ns[m].x.Floor && ns[m].roundY == ns[m].y.Floor
    {
      ns[k].roundX := ns[k].x.Floor;
      ns[k].roundY := ns[k].y.Floor;
      k := k + 1;
    }
  }

  /** The canvas positions of the inner-tile rectangles of a node snapped to (roundX, roundY). */
  function TileRects(roundX: int, roundY: int, tiles: seq<Tile>): (rects: seq<Tile>)
    ensures |rects| == |tiles|
    ensures forall k :: 0 <= k < |tiles| ==> rects[k] == TileToCoords(Tile(roundX + tiles[k].x, roundY + tiles[k].y))
  {
    if |tiles| == 0 then []
    else
      var t := TileToCoords(tiles[|tiles| - 1]);
      TileRects(roundX, roundY, tiles[..|tiles| - 1]) + [Tile(roundX * GridSize + t.x, roundY * GridSize + t.y)]
  }

  /** No tile occurs twice. */
  predicate NoRepeats(ts: seq<Tile>) {
    forall k, m :: 0 <= k < m < |ts| ==> ts[k] != ts[m]
  }

  /**
   * Moving the tiles to a snapped cell keeps them apart, and every rectangle
   * sits on the canvas grid.
   */
  lemma TileRectsApart(roundX: int, roundY: int, tiles: seq<Tile>)
    requires NoRepeats(tiles)
    ensures NoRepeats(TileRects(roundX, roundY, tiles))
    ensures forall k :: 0 <= k < |tiles| ==>
      TileRects(roundX, roundY, tiles)[k].x % GridSize == 0 && TileRects(roundX, roundY, tiles)[k].y % GridSize == 0
  {
    var rects := TileRects(roundX, roundY, tiles);
    forall k, m | 0 <= k < m < |rects| ensures rects[k] != rects[m] {
      assert tiles[k] != tiles[m];
    }
  }

  /** The rectangles drawn for a node's rasterised inner polygon are all different grid cells of the canvas. */
  lemma DrawnTiles(roundX: int, roundY: int, poly: Polygon)
    ensures NoRepeats(TileRects(roundX, roundY, Raster(poly)))
  {
    RasterSpec(poly);
    TileRectsApart(roundX, roundY, Raster(poly));
  }

  // ---------------------------------------------------------------------------
  // The component

  /** The polygons of a node list, in order. */
  function NodePolygons(ns: seq<BuildingNode>): (polys: seq<Polygon>)
    ensures |polys| == |ns|
    ensures forall k :: 0 <= k < |ns| ==> polys[k] == ns[k].polygon
  {
    seq(|ns|, k requires 0 <= k < |ns| => ns[k].polygon)
  }

  /** Resolved links seen through the ids of their ends, as `forceLink(...).id(d => d.id)` sees them. */
  function LinkIds(ls: seq<Link<BuildingNode>>): (r: seq<Link<string>>)
    ensures |r| == |ls|
    ensures forall k :: 0 <= k < |ls| ==> r[k] == Link(ls[k].source.id, ls[k].target.id, ls[k].strength)
  {
    seq(|ls|, k requires 0 <= k < |ls| => Link(ls[k].source.id, ls[k].target.id, ls[k].strength))
  }

  /** The links whose two ids both occur in ids, in their order. */
  function ResolvingLinks(ids: seq<string>, links: seq<Link<string>>): (r: seq<Link<string>>)
    ensures |r| <= |links|
    ensures forall l :: l in r <==> l in links && l.source in ids && l.target in ids
  {
    if |links| == 0 then []
    else
      var last := links[|links| - 1];
      assert links == links[..|links| - 1] + [last];
      ResolvingLinks(ids, links[..|links| - 1]) + (if last.source in ids && last.target in ids then [last] else [])
  }

  /**
   * Seen through ids, the resolved links are exactly the given links whose
   * ends both name a node: resolution drops the dangling ones and changes
   * nothing else.
   */
  lemma {:induction false} ResolveLinksIds(ns: seq<BuildingNode>, links: seq<Link<string>>)
    ensures LinkIds(ResolveLinks(ns, links)) == ResolvingLinks(Ids(ns), links)
  {
    if |links| > 0 {
      var init, last := links[..|links| - 1], links[|links| - 1];
      ResolveLinksIds(ns, init);
      ResolveLinkSpec(ns, last);
      var front, t := ResolveLinks(ns, init), ResolveLink(ns, last);
      assert LinkIds(front + t) == LinkIds(front) + LinkIds(t);
      if Resolves(ns, last) {
        assert LinkIds(t) == [last];
      }
    }
  }

  /**
   * The d3 simulation seen from outside (link force, centre force, collision
   * force and the tick loop of fast generation): from the ids and polygons of
   * the nodes, their start positions and the links between them, the
   * positions the nodes end at.
   */
  type Simulation = (seq<string>, seq<Polygon>, seq<Point>, seq<Link<string>>) -> seq<Point>

  /** The simulation leaves one position for every node it starts from. */
  ghost predicate OnePerNode(settle: Simulation) {
    forall ids, polys, ps, ls :: |settle(ids, polys, ps, ls)| == |ps|
  }

  /** The start positions of n buildings seeded from seed, in order. */
  function StartPositions(seed: int, n: nat): (ps: seq<Point>)
    ensures |ps| == n
    ensures forall k :: 0 <= k < n ==> ps[k] == StartPosition(seed, k)
  {
    seq(n, k requires 0 <= k < n => StartPosition(seed, k))
  }

  /** The component's `nodes` state and the layout effect that replaces it. */
  class BaseGenerator {
    var nodes: seq<BuildingNode>

    /** `useState(newNodes)`. */
    constructor (initial: seq<BuildingNode>)
      ensures nodes == initial
    {
      nodes := initial;
    }

    /**
     * The layout effect for fast generation: an empty node list clears the
     * state; otherwise the simulation moves the nodes from where they are to
     * where it settles them under the links, every node is snapped to the
     * floor cell of its position and the state becomes the simulated list.
     */
    method Layout(newNodes: seq<BuildingNode>, mapped: seq<Link<BuildingNode>>, settle: Simulation)
      requires Distinct(newNodes) && OnePerNode(settle)
      modifies this, newNodes`x, newNodes`y, newNodes`roundX, newNodes`roundY
      ensures |newNodes| == 0 ==> nodes == []
      ensures |newNodes| > 0 ==> nodes == newNodes
      ensures Positions(newNodes) == settle(Ids(newNodes), NodePolygons(newNodes), old(Positions(newNodes)), LinkIds(mapped))
      ensures Snapped(newNodes)
    {
      var ps := settle(Ids(newNodes), NodePolygons(newNodes), Positions(newNodes), LinkIds(mapped));
      if |newNodes| == 0 {
        nodes := [];
        return;
      }
      var k := 0;
      while k < |newNodes|
        invariant 0 <= k <= |newNodes|
        invariant forall m :: 0 <= m < k ==> newNodes[m].x == ps[m].x && newNodes[m].y == ps[m].y
      {
        newNodes[k].x, newNodes[k].y := ps[k].x, ps[k].y;
        k := k + 1;
      }
      Snap(newNodes);
      PlacedPositions(newNodes, ps);
      nodes := newNodes;
    }

    /**
     * One render with new props: seed the nodes, resolve the links against
     * them and run the layout. The final positions are what the simulation
     * makes of the buildings, their seeded start positions and the links
     * whose ends resolve, so they are a function of the buildings, the links
     * and the seed. Returns the resolved links handed to the simulation.
     */
    method Generate(buildings: seq<BuildingNode>, links: seq<Link<string>>, seed: int, settle: Simulation)
      returns (mapped: seq<Link<BuildingNode>>)
      requires OnePerNode(settle)
      modifies this
      ensures |nodes| == |buildings|
      ensures forall k :: 0 <= k < |nodes| ==> fresh(nodes[k]) && Copied(buildings[k], nodes[k])
      ensures mapped == ResolveLinks(nodes, links)
      ensures Positions(nodes) ==
        settle(Ids(buildings), NodePolygons(buildings), StartPositions(seed, |buildings|), ResolvingLinks(Ids(buildings), links))
      ensures Snapped(nodes)
    {
      var newNodes := SeedNodes(buildings, seed);
      mapped := ResolveLinks(newNodes, links);
      PlacedPositions(newNodes, StartPositions(seed, |buildings|));
      CopiesShareInputs(buildings, newNodes);
      ResolveLinksIds(newNodes, links);
      Layout(newNodes, mapped, settle);
    }
  }
}
