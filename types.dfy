/**
 * The records of src/types/index.ts: points and polygons, building templates,
 * links and the simulation node whose position the forces change in place.
 */
module Types {
  import opened Wrappers

  /** `Point = [number, number]`, in grid units. */
  datatype Point = Point(x: real, y: real)

  /** `Polygon = Point[]`, in local (body-centred) coordinates. */
  type Polygon = seq<Point>

  /** An integer grid cell, as produced by the rasteriser. */
  datatype Tile = Tile(x: int, y: int)

  datatype Shape = Circle | Rectangle

  /** `BuildingTemplate`: what the editors and presets produce. */
  datatype BuildingTemplate = BuildingTemplate(
    id: string, name: string, shape: Shape, width: int, height: int, color: string)

  /** `BuildingLink<T>`: endpoints are ids (`T = string`) or resolved nodes. */
  datatype Link<T> = Link(source: T, target: T, strength: int)

  /**
   * `BuildingNode`: a building taking part in one simulation run. Its
   * descriptive fields never change; the forces move `x`, `y` in place and the
   * finalisation writes `roundX`, `roundY`.
   */
  class BuildingNode {
    const id: string
    const name: string
    const shape: Shape
    const width: int
    const height: int
    const polygon: Polygon
    const innerPolygon: Polygon
    const color: string
    var x: real
    var y: real
    var roundX: int
    var roundY: int

    constructor (id: string, name: string, shape: Shape, width: int, height: int,
                 polygon: Polygon, innerPolygon: Polygon, color: string,
                 x: real, y: real, roundX: int, roundY: int)
      ensures this.id == id && this.name == name && this.shape == shape
      ensures this.width == width && this.height == height && this.color == color
      ensures this.polygon == polygon && this.innerPolygon == innerPolygon
      ensures this.x == x && this.y == y && this.roundX == roundX && this.roundY == roundY
    {
      this.id, this.name, this.shape := id, name, shape;
      this.width, this.height, this.color := width, height, color;
      this.polygon, this.innerPolygon := polygon, innerPolygon;
      this.x, this.y, this.roundX, this.roundY := x, y, roundX, roundY;
    }
  }

  /** No node object occurs twice in the list (d3 hands out distinct node objects). */
  predicate Distinct(ns: seq<BuildingNode>) {
    forall i, j :: 0 <= i < j < |ns| ==> ns[i] != ns[j]
  }

  /** The live positions of a node list, as a value. */
  function Positions(ns: seq<BuildingNode>): (ps: seq<Point>)
    reads ns
    ensures |ps| == |ns|
    ensures forall k {:trigger ps[k]} :: 0 <= k < |ns| ==> ps[k] == Point(ns[k].x, ns[k].y)
  {
    if |ns| == 0 then [] else Positions(ns[..|ns| - 1]) + [Point(ns[|ns| - 1].x, ns[|ns| - 1].y)]
  }

  /** The live positions of ns are ps, node by node. */
  predicate Placed(ns: seq<BuildingNode>, ps: seq<Point>)
    reads ns
  {
    |ps| == |ns| && forall k :: 0 <= k < |ns| ==> ns[k].x == ps[k].x && ns[k].y == ps[k].y
  }

  /** Positions is the one sequence the nodes are placed at. */
  lemma PlacedPositions(ns: seq<BuildingNode>, ps: seq<Point>)
    ensures Placed(ns, ps) <==> Positions(ns) == ps
  {
    if Placed(ns, ps) {
      assert forall k :: 0 <= k < |ns| ==> Positions(ns)[k] == ps[k];
    }
  }

  /** The ids of a node list, in order. */
  function Ids(ns: seq<BuildingNode>): (ids: seq<string>)
    ensures |ids| == |ns|
    ensures forall k :: 0 <= k < |ns| ==> ids[k] == ns[k].id
  {
    if |ns| == 0 then [] else Ids(ns[..|ns| - 1]) + [ns[|ns| - 1].id]
  }

  /** `find(x => x.id === id)`, as the index of the first match in a list of ids. */
  function FirstIndexOf(ids: seq<string>, id: string): (r: Option<nat>)
    ensures r.Some? ==> r.value < |ids| && ids[r.value] == id && forall m :: 0 <= m < r.value ==> ids[m] != id
    ensures r.None? <==> id !in ids
  {
    if |ids| == 0 then None
    else if ids[0] == id then Some(0)
    else match FirstIndexOf(ids[1..], id)
      case None => None
      case Some(k) => Some(k + 1)
  }

  /** The ids of a template list, in order. */
  function TemplateIds(ts: seq<BuildingTemplate>): (ids: seq<string>)
    ensures |ids| == |ts|
    ensures forall k :: 0 <= k < |ts| ==> ids[k] == ts[k].id
  {
    seq(|ts|, k requires 0 <= k < |ts| => ts[k].id)
  }

  /**
   * `templates.find(t => t.id === id)`: undefined (None) exactly when no
   * template has the id, and otherwise the first template that has it.
   */
  function FindTemplate(ts: seq<BuildingTemplate>, id: string): (r: Option<BuildingTemplate>)
    ensures r.None? <==> forall k :: 0 <= k < |ts| ==> ts[k].id != id
    ensures r.Some? ==> r.value in ts && r.value.id == id
    ensures forall k :: 0 <= k < |ts| && ts[k].id == id && (forall j :: 0 <= j < k ==> ts[j].id != id) ==>
      r == Some(ts[k])
  {
    match FirstIndexOf(TemplateIds(ts), id)
    case None => None
    case Some(i) => Some(ts[i])
  }
}
