/**
 * src/utils/forces.ts: the polygon collision force. `initialize` keeps the
 * nodes whose id is not excluded; `force` runs `iterations` passes over every
 * pair i < j of those nodes and, whenever the separating-axis test reports an
 * overlap vector v, moves the first node by -damping * v and the second by
 * +damping * v. The separating-axis test itself is a parameter (`Overlap`).
 *
 * The specification works on the positions as a value: `Step` is one pair
 * update, `FoldPairs` applies a list of pairs in order (each test sees the
 * positions left by the previous ones), and `Schedule` is the order in which
 * `force` visits the pairs.
 */
module Forces {
  import opened Wrappers
  import opened Types
  import opened Pairs

  /**
   * `SAT.testPolygonPolygon` on two polygons placed at two positions: the
   * overlap vector of the response when they overlap, None otherwise.
   */
  type Overlap = (Point, Polygon, Point, Polygon) -> Option<Point>

  /** Every pair of the list is i < j < n. */
  predicate ValidOrder(order: seq<Pair>, n: nat) {
    forall k :: 0 <= k < |order| ==> order[k].0 < order[k].1 < n
  }

  /** Componentwise sum of a list of positions. */
  function Total(ps: seq<Point>): Point {
    if |ps| == 0 then Point(0.0, 0.0)
    else
      var t := Total(ps[..|ps| - 1]);
      Point(t.x + ps[|ps| - 1].x, t.y + ps[|ps| - 1].y)
  }

  /** Replacing one position changes the sum by exactly the difference. */
  lemma {:induction false} TotalUpdate(ps: seq<Point>, k: nat, p: Point)
    requires k < |ps|
    ensures Total(ps[k := p]) == Point(Total(ps).x - ps[k].x + p.x, Total(ps).y - ps[k].y + p.y)
  {
    var qs := ps[k := p];
    if k == |ps| - 1 {
      assert qs[..|qs| - 1] == ps[..|ps| - 1];
    } else {
      assert qs[..|qs| - 1] == ps[..|ps| - 1][k := p];
      TotalUpdate(ps[..|ps| - 1], k, p);
    }
  }

  /**
   * One iteration of the innermost loop body, for the pair (i, j). The loops
   * only ever form pairs i < j < n (ScheduleValid); any other pair is left
   * as a no-op so that the specification needs no side condition.
   */
  function Step(ps: seq<Point>, polys: seq<Polygon>, damping: real, sat: Overlap, p: Pair): (qs: seq<Point>)
    requires |polys| == |ps|
    ensures |qs| == |ps|
  {
    if !(p.0 < p.1 < |ps|) then ps
    else Respond(ps, p, sat(ps[p.0], polys[p.0], ps[p.1], polys[p.1]), damping)
  }

  /** `response.overlapV.clone().scale(damping / 2)`. */
  function Offset(overlap: Point, damping: real): Point {
    Point(overlap.x * (damping / 2.0), overlap.y * (damping / 2.0))
  }

  /** The reaction to one test result: the offset subtracted twice from a and added twice to b. */
  function Respond(ps: seq<Point>, p: Pair, response: Option<Point>, damping: real): (qs: seq<Point>)
    requires p.0 < p.1 < |ps|
    ensures |qs| == |ps|
  {
    match response
    case None => ps
    case Some(v) =>
      ps[p.0 := Point(ps[p.0].x - Offset(v, damping).x * 2.0, ps[p.0].y - Offset(v, damping).y * 2.0)]
        [p.1 := Point(ps[p.1].x + Offset(v, damping).x * 2.0, ps[p.1].y + Offset(v, damping).y * 2.0)]
  }

  /**
   * A step touches only nodes i and j; with no overlap it changes nothing;
   * with overlap vector v it moves i by -damping * v and j by +damping * v.
   */
  lemma StepSpec(ps: seq<Point>, polys: seq<Polygon>, damping: real, sat: Overlap, p: Pair)
    requires |polys| == |ps| && p.0 < p.1 < |ps|
    ensures var qs := Step(ps, polys, damping, sat, p);
      && (forall k :: 0 <= k < |ps| && k != p.0 && k != p.1 ==> qs[k] == ps[k])
      && var r := sat(ps[p.0], polys[p.0], ps[p.1], polys[p.1]);
      && (r.None? ==> qs == ps)
      && (r.Some? ==>
            qs[p.0] == Point(ps[p.0].x - damping * r.value.x, ps[p.0].y - damping * r.value.y) &&
            qs[p.1] == Point(ps[p.1].x + damping * r.value.x, ps[p.1].y + damping * r.value.y))
  {
  }

  /** The two displacements of a pair cancel, so one step keeps the sum of all positions. */
  lemma StepKeepsTotal(ps: seq<Point>, polys: seq<Polygon>, damping: real, sat: Overlap, p: Pair)
    requires |polys| == |ps|
    ensures Total(Step(ps, polys, damping, sat, p)) == Total(ps)
  {
    if p.0 < p.1 < |ps| && sat(ps[p.0], polys[p.0], ps[p.1], polys[p.1]).Some? {
      var qs := Step(ps, polys, damping, sat, p);
      StepSpec(ps, polys, damping, sat, p);
      var mid := ps[p.0 := qs[p.0]];
      assert qs == mid[p.1 := qs[p.1]];
      TotalUpdate(ps, p.0, qs[p.0]);
      TotalUpdate(mid, p.1, qs[p.1]);
    }
  }

  /** The pairs of `order` applied one after the other, each test seeing the positions left by the previous ones. */
  function FoldPairs(ps: seq<Point>, polys: seq<Polygon>, damping: real, sat: Overlap, order: seq<Pair>): (qs: seq<Point>)
    requires |polys| == |ps|
    ensures |qs| == |ps|
  {
    if |order| == 0 then ps
    else Step(FoldPairs(ps, polys, damping, sat, order[..|order| - 1]), polys, damping, sat, order[|order| - 1])
  }

  /** Appending one pair to the order is one more step. */
  lemma FoldPairsSnoc(ps: seq<Point>, polys: seq<Polygon>, damping: real, sat: Overlap, order: seq<Pair>, p: Pair)
    requires |polys| == |ps|
    ensures FoldPairs(ps, polys, damping, sat, order + [p]) ==
      Step(FoldPairs(ps, polys, damping, sat, order), polys, damping, sat, p)
  {
    assert (order + [p])[..|order|] == order;
  }

  /** Applying a concatenation of pair lists is applying them one after the other. */
  lemma {:induction false} FoldPairsAppend(ps: seq<Point>, polys: seq<Polygon>, damping: real, sat: Overlap, s: seq<Pair>, t: seq<Pair>)
    requires |polys| == |ps|
    ensures FoldPairs(ps, polys, damping, sat, s + t) ==
      FoldPairs(FoldPairs(ps, polys, damping, sat, s), polys, damping, sat, t)
  {
    var st := s + t;
    if |t| > 0 {
      assert st[..|st| - 1] == s + t[..|t| - 1];
      FoldPairsAppend(ps, polys, damping, sat, s, t[..|t| - 1]);
    } else {
      assert st == s;
    }
  }

  /** Any sequence of pair steps keeps the sum of all positions. */
  lemma {:induction false} FoldPairsKeepsTotal(ps: seq<Point>, polys: seq<Polygon>, damping: real, sat: Overlap, order: seq<Pair>)
    requires |polys| == |ps|
    ensures Total(FoldPairs(ps, polys, damping, sat, order)) == Total(ps)
  {
    if |order| > 0 {
      FoldPairsKeepsTotal(ps, polys, damping, sat, order[..|order| - 1]);
      StepKeepsTotal(FoldPairs(ps, polys, damping, sat, order[..|order| - 1]), polys, damping, sat, order[|order| - 1]);
    }
  }

  /** The pairs `force` tests in `iterations` passes over n nodes: PairOrder(n), once per pass. */
  function Schedule(n: nat, iterations: int): seq<Pair> {
    if iterations <= 0 then [] else Schedule(n, iterations - 1) + PairOrder(n)
  }

  /** Every scheduled pair is some i < j < n. */
  lemma {:induction false} ScheduleValid(n: nat, iterations: int)
    ensures ValidOrder(Schedule(n, iterations), n)
  {
    if iterations > 0 {
      ScheduleValid(n, iterations - 1);
      PairOrderSpec(n);
    }
  }

  /** `iterations` passes of |PairOrder(n)| = n(n-1)/2 pair tests each. */
  lemma {:induction false} ScheduleLength(n: nat, iterations: int)
    ensures |Schedule(n, iterations)| == (if iterations <= 0 then 0 else iterations) * |PairOrder(n)|
  {
    if iterations > 0 {
      ScheduleLength(n, iterations - 1);
    }
  }

  /** Pass number k (from 0) of the schedule is exactly PairOrder(n). */
  lemma {:induction false} SchedulePass(n: nat, iterations: int, k: nat)
    requires k < iterations
    ensures (k + 1) * |PairOrder(n)| <= |Schedule(n, iterations)|
    ensures Schedule(n, iterations)[k * |PairOrder(n)| .. (k + 1) * |PairOrder(n)|] == PairOrder(n)
  {
    var m := |PairOrder(n)|;
    var prev := Schedule(n, iterations - 1);
    ScheduleLength(n, iterations - 1);
    assert |prev| == (iterations - 1) * m;
    if k < iterations - 1 {
      SchedulePass(n, iterations - 1, k);
      assert Schedule(n, iterations)[k * m .. (k + 1) * m] == prev[k * m .. (k + 1) * m];
    } else {
      assert k * m == |prev|;
    }
  }

  /** `force()` is a no-op with no iterations or fewer than two considered nodes. */
  lemma {:induction false} ScheduleEmpty(n: nat, iterations: int)
    requires iterations <= 0 || n < 2
    ensures Schedule(n, iterations) == []
  {
    if iterations > 0 {
      PairOrderSpec(n);
      ScheduleEmpty(n, iterations - 1);
    }
  }

  /** The `j` loop of row i stopped before j: the steps (i, i + 1) .. (i, j - 1) in order. */
  function RowSweep(ps: seq<Point>, polys: seq<Polygon>, damping: real, sat: Overlap, i: nat, j: nat): (qs: seq<Point>)
    requires |polys| == |ps|
    ensures |qs| == |ps|
  {
    if j <= i + 1 then ps else Step(RowSweep(ps, polys, damping, sat, i, j - 1), polys, damping, sat, (i, j - 1))
  }

  /** The `i` loop over n nodes stopped before i: the rows 0 .. i - 1 in order. */
  function PassSweep(ps: seq<Point>, polys: seq<Polygon>, damping: real, sat: Overlap, n: nat, i: nat): (qs: seq<Point>)
    requires |polys| == |ps|
    ensures |qs| == |ps|
  {
    if i == 0 then ps else RowSweep(PassSweep(ps, polys, damping, sat, n, i - 1), polys, damping, sat, i - 1, n)
  }

  /** The `k` loop stopped before k: k whole passes over n nodes. */
  function Sweep(ps: seq<Point>, polys: seq<Polygon>, damping: real, sat: Overlap, n: nat, k: int): (qs: seq<Point>)
    requires |polys| == |ps|
    ensures |qs| == |ps|
  {
    if k <= 0 then ps else PassSweep(Sweep(ps, polys, damping, sat, n, k - 1), polys, damping, sat, n, n)
  }

  /** The `j` loop of row i applies exactly the pairs of PairRow(i, i + 1, j). */
  lemma {:induction false} RowSweepIsFold(ps: seq<Point>, polys: seq<Polygon>, damping: real, sat: Overlap, i: nat, j: nat)
    requires |polys| == |ps|
    ensures RowSweep(ps, polys, damping, sat, i, j) == FoldPairs(ps, polys, damping, sat, PairRow(i, i + 1, j))
  {
    if j > i + 1 {
      RowSweepIsFold(ps, polys, damping, sat, i, j - 1);
      FoldPairsSnoc(ps, polys, damping, sat, PairRow(i, i + 1, j - 1), (i, j - 1));
    }
  }

  /** The `i` loop applies exactly the pairs of PairRows(n, i). */
  lemma {:induction false} PassSweepIsFold(ps: seq<Point>, polys: seq<Polygon>, damping: real, sat: Overlap, n: nat, i: nat)
    requires |polys| == |ps|
    ensures PassSweep(ps, polys, damping, sat, n, i) == FoldPairs(ps, polys, damping, sat, PairRows(n, i))
  {
    if i > 0 {
      var mid := PassSweep(ps, polys, damping, sat, n, i - 1);
      PassSweepIsFold(ps, polys, damping, sat, n, i - 1);
      RowSweepIsFold(mid, polys, damping, sat, i - 1, n);
      FoldPairsAppend(ps, polys, damping, sat, PairRows(n, i - 1), PairRow(i - 1, i, n));
    }
  }

  /** The three nested loops apply exactly the pairs of Schedule(n, k). */
  lemma {:induction false} SweepIsFold(ps: seq<Point>, polys: seq<Polygon>, damping: real, sat: Overlap, n: nat, k: int)
    requires |polys| == |ps|
    ensures Sweep(ps, polys, damping, sat, n, k) == FoldPairs(ps, polys, damping, sat, Schedule(n, k))
  {
    if k > 0 {
      var mid := Sweep(ps, polys, damping, sat, n, k - 1);
      SweepIsFold(ps, polys, damping, sat, n, k - 1);
      PassSweepIsFold(mid, polys, damping, sat, n, n);
      FoldPairsAppend(ps, polys, damping, sat, Schedule(n, k - 1), PairOrder(n));
    }
  }

  /** The whole of `force()` keeps the sum of the considered positions. */
  lemma ForceKeepsTotal(ps: seq<Point>, polys: seq<Polygon>, damping: real, sat: Overlap, iterations: int)
    requires |polys| == |ps|
    ensures Total(FoldPairs(ps, polys, damping, sat, Schedule(|ps|, iterations))) == Total(ps)
  {
    FoldPairsKeepsTotal(ps, polys, damping, sat, Schedule(|ps|, iterations));
  }

  /** `_nodes.filter(node => !excludeIds.includes(node.id))`. */
  function Considered(all: seq<BuildingNode>, excludeIds: seq<string>): seq<BuildingNode> {
    if |all| == 0 then []
    else
      var last := all[|all| - 1];
      Considered(all[..|all| - 1], excludeIds) + (if last.id in excludeIds then [] else [last])
  }

  /**
   * The filter keeps exactly the nodes whose id is not excluded, in their
   * original order, and no node object twice when the input has none twice.
   */
  lemma {:induction false} ConsideredSpec(all: seq<BuildingNode>, excludeIds: seq<string>)
    ensures forall n :: n in Considered(all, excludeIds) <==> n in all && n.id !in excludeIds
    ensures |Considered(all, excludeIds)| <= |all|
    ensures Distinct(all) ==> Distinct(Considered(all, excludeIds))
  {
    if |all| > 0 {
      var init := all[..|all| - 1];
      ConsideredSpec(init, excludeIds);
      assert all == init + [all[|all| - 1]];
    }
  }

  /** Filtering a concatenation filters each part: the relative order is kept. */
  lemma {:induction false} ConsideredAppend(a: seq<BuildingNode>, b: seq<BuildingNode>, excludeIds: seq<string>)
    ensures Considered(a + b, excludeIds) == Considered(a, excludeIds) + Considered(b, excludeIds)
  {
    var ab := a + b;
    if |b| == 0 {
      assert ab == a;
    } else {
      assert ab[..|ab| - 1] == a + b[..|b| - 1];
      ConsideredAppend(a, b[..|b| - 1], excludeIds);
    }
  }

  /** The polygons of a node list, in order (they never change). */
  function Polygons(ns: seq<BuildingNode>): (polys: seq<Polygon>)
    ensures |polys| == |ns|
    ensures forall k :: 0 <= k < |ns| ==> polys[k] == ns[k].polygon
  {
    if |ns| == 0 then [] else Polygons(ns[..|ns| - 1]) + [ns[|ns| - 1].polygon]
  }

  /** The force object returned by `forcePolygonCollision`, with its closure variable `nodes` as a field. */
  class PolygonCollision {
    const iterations: int
    const damping: real
    const excludeIds: seq<string>
    var nodes: seq<BuildingNode>

    constructor (iterations: int, damping: real, excludeIds: seq<string>)
      ensures this.iterations == iterations && this.damping == damping && this.excludeIds == excludeIds
      ensures nodes == []
    {
      this.iterations, this.damping, this.excludeIds := iterations, damping, excludeIds;
      nodes := [];
    }

    /** `forcePolygonCollision()` with its defaults: 10 iterations, damping 0.5, nothing excluded. */
    constructor Default()
      ensures iterations == 10 && damping == 0.5 && excludeIds == []
      ensures nodes == []
    {
      iterations, damping, excludeIds := 10, 0.5, [];
      nodes := [];
    }

    /** `force.initialize(_nodes)`: remember the nodes that are not excluded. */
    method Initialize(all: seq<BuildingNode>)
      modifies this
      ensures nodes == Considered(all, excludeIds)
    {
      nodes := Considered(all, excludeIds);
    }

    /**
     * `force()`: the positions of the considered nodes become the fold of the
     * pair steps over the schedule; only the x and y fields of the nodes change.
     */
    method Force(sat: Overlap)
      requires Distinct(nodes)
      modifies nodes`x, nodes`y
      ensures Positions(nodes) ==
        FoldPairs(old(Positions(nodes)), Polygons(nodes), damping, sat, Schedule(|nodes|, iterations))
    {
      ghost var start := Positions(nodes);
      ghost var polys := Polygons(nodes);
      PlacedPositions(nodes, start);
      var k := 0;
      while k < iterations
        invariant 0 <= k <= if iterations >= 0 then iterations else 0
        invariant Placed(nodes, Sweep(start, polys, damping, sat, |nodes|, k))
      {
        FoldPass(Sweep(start, polys, damping, sat, |nodes|, k), sat);
        k := k + 1;
      }
      SweepIsFold(start, polys, damping, sat, |nodes|, iterations);
      PlacedPositions(nodes, Sweep(start, polys, damping, sat, |nodes|, k));
    }

    /** One pass of the `i` loop: the rows 0 .. n - 1 in order. */
    method FoldPass(ghost ps: seq<Point>, sat: Overlap)
      requires Distinct(nodes) && Placed(nodes, ps)
      modifies nodes`x, nodes`y
      ensures Placed(nodes, PassSweep(ps, Polygons(nodes), damping, sat, |nodes|, |nodes|))
    {
      ghost var polys := Polygons(nodes);
      var n := |nodes|;
      var i := 0;
      while i < n
        invariant 0 <= i <= n
        invariant Placed(nodes, PassSweep(ps, polys, damping, sat, n, i))
      {
        FoldRow(PassSweep(ps, polys, damping, sat, n, i), i, sat);
        i := i + 1;
      }
    }

    /** One run of the `j` loop for a fixed i: the pairs (i, i + 1) .. (i, n - 1) in order. */
    method FoldRow(ghost ps: seq<Point>, i: nat, sat: Overlap)
      requires Distinct(nodes) && Placed(nodes, ps) && i < |nodes|
      modifies nodes`x, nodes`y
      ensures Placed(nodes, RowSweep(ps, Polygons(nodes), damping, sat, i, |nodes|))
    {
      ghost var polys := Polygons(nodes);
      var n := |nodes|;
      var j: nat := i + 1;
      while j < n
        invariant i + 1 <= j <= n
        invariant Placed(nodes, RowSweep(ps, polys, damping, sat, i, j))
      {
        PairStep(RowSweep(ps, polys, damping, sat, i, j), i, j, sat);
        j := j + 1;
      }
    }

    /** The body of the innermost loop: `Step` on the live positions of nodes i and j. */
    method PairStep(ghost ps: seq<Point>, i: nat, j: nat, sat: Overlap)
      requires Distinct(nodes) && Placed(nodes, ps) && i < j < |nodes|
      modifies nodes`x, nodes`y
      ensures Placed(nodes, Step(ps, Polygons(nodes), damping, sat, (i, j)))
    {
      ghost var polys := Polygons(nodes);
      var a := nodes[i];
      var b := nodes[j];
      var response := sat(Point(a.x, a.y), a.polygon, Point(b.x, b.y), b.polygon);
      assert response == sat(ps[i], polys[i], ps[j], polys[j]);
      if response.Some? {
        var offset := Offset(response.value, damping);
        a.x, a.y := a.x - offset.x * 2.0, a.y - offset.y * 2.0;
        b.x, b.y := b.x + offset.x * 2.0, b.y + offset.y * 2.0;
      }
      forall m | 0 <= m < |nodes| && m != i && m != j
        ensures nodes[m].x == old(nodes[m].x) && nodes[m].y == old(nodes[m].y)
      {
        assert nodes[m] != a && nodes[m] != b;
      }
    }
  }
}
