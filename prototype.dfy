/**
 * src/App.tsx: the first prototype of the generator. Its copies of the
 * geometry helpers and of the polygon collision force are modelled by the
 * Geometry and Forces modules. What is its own: a fixed list of rooms and
 * links, the completion that joins every two rooms not yet joined, the
 * mapping of links to room indices that drops nothing, and the snap with
 * Math.round.
 */
module Prototype {
  import opened Wrappers
  import opened Types
  import opened Links
  import opened Geometry
  import opened Generator

  /** `RoomNode` without its simulation fields: id, name and the two polygons. */
  datatype Room = Room(id: string, name: string, polygon: Polygon, innerPolygon: Polygon)

  /** `defaultRooms`, in order; `unit` stands for the trigonometry of `circlePoly`. */
  function DefaultRooms(unit: nat -> Point): seq<Room> {
    [ Room("storage", "Storage", CirclePolygon(10.0, unit), CirclePolygon(8.0, unit)),
      Room("kitchen", "Kitchen", CirclePolygon(8.0, unit), CirclePolygon(6.0, unit)),
      Room("bedroom", "Bedroom", RectPoly(9.0, 17.0), RectPoly(7.0, 15.0)),
      Room("fields", "Fields", RectPoly(5.0, 5.0), RectPoly(3.0, 3.0)),
      Room("fields2", "Fields2", RectPoly(10.0, 4.0), RectPoly(8.0, 2.0)),
      Room("fields3", "Fields3", RectPoly(6.0, 6.0), RectPoly(4.0, 4.0)),
      Room("fields4", "Fields4", RectPoly(4.0, 8.0), RectPoly(2.0, 6.0)),
      Room("fields5", "Fields5", RectPoly(4.0, 4.0), RectPoly(2.0, 2.0)) ]
  }

  /** The ids of a room list, in order. */
  function RoomIds(rooms: seq<Room>): (ids: seq<string>)
    ensures |ids| == |rooms|
    ensures forall k :: 0 <= k < |rooms| ==> ids[k] == rooms[k].id
  {
    seq(|rooms|, k requires 0 <= k < |rooms| => rooms[k].id)
  }

  /** The ids of `defaultRooms`. */
  const DefaultRoomIds: seq<string> :=
    ["storage", "kitchen", "bedroom", "fields", "fields2", "fields3", "fields4", "fields5"]

  /** `defaultRoomLinks` as declared, before the completion runs. */
  const DefaultRoomLinks: seq<Link<string>> := [
    Link("storage", "kitchen", 3), Link("fields", "kitchen", 10),
    Link("fields2", "fields", 2), Link("fields2", "kitchen", 2),
    Link("fields3", "kitchen", 10), Link("fields4", "kitchen", 10),
    Link("fields5", "kitchen", 2), Link("bedroom", "kitchen", 5)]

  /**
   * The eight rooms have eight different ids whatever the trigonometry; the
   * declared links join rooms of the list and form a well-formed list.
   */
  lemma DefaultsWellFormed(unit: nat -> Point)
    ensures RoomIds(DefaultRooms(unit)) == DefaultRoomIds
    ensures UniqueIds(DefaultRoomIds)
    ensures Among(DefaultRoomIds, DefaultRoomLinks)
    ensures WellFormed(DefaultRoomLinks)
  {
    var ids := RoomIds(DefaultRooms(unit));
    assert |ids| == |DefaultRoomIds|;
    forall k | 0 <= k < |ids| ensures ids[k] == DefaultRoomIds[k] {
    }
    DefaultLinksWellFormed();
  }

  /** The declared links: no self-link and no unordered pair declared twice. */
  lemma DefaultLinksWellFormed()
    ensures WellFormed(DefaultRoomLinks)
  {
  }

  /**
   * The rectangular rooms all have an outer polygon two cells larger than the
   * inner one in both dimensions, so the inner polygon lies inside the outer.
   */
  lemma RoomInnerWithinOuter(w: real, h: real, p: Point)
    requires w >= 0.0 && h >= 0.0
    ensures Inside(p, RectPoly(w, h)) ==> Inside(p, RectPoly(w + 2.0, h + 2.0))
  {
    RectInside(w, h, p);
    RectInside(w + 2.0, h + 2.0, p);
    JsRoundMonotone(w / 2.0, (w + 2.0) / 2.0);
    JsRoundMonotone(h / 2.0, (h + 2.0) / 2.0);
  }

  // ---------------------------------------------------------------------------
  // Link completion

  /** One visit of the inner `forEach`: a strength-1 link from a to b unless some link joins them. */
  function AddIfMissing(links: seq<Link<string>>, a: string, b: string): seq<Link<string>> {
    if Linked(links, a, b) then links else links + [Link(a, b, 1)]
  }

  /** The inner `forEach` for room i stopped before room j: the visits (i, i + 1) .. (i, j - 1). */
  function CompleteRow(ids: seq<string>, links: seq<Link<string>>, i: nat, j: nat): seq<Link<string>>
    requires i < |ids| && j <= |ids|
  {
    if j <= i + 1 then links else AddIfMissing(CompleteRow(ids, links, i, j - 1), ids[i], ids[j - 1])
  }

  /** The outer `forEach` stopped before room i: rows 0 .. i - 1. */
  function CompleteRows(ids: seq<string>, links: seq<Link<string>>, i: nat): seq<Link<string>>
    requires i <= |ids|
  {
    if i == 0 then links else CompleteRow(ids, CompleteRows(ids, links, i - 1), i - 1, |ids|)
  }

  /** The list after the completion over rooms with the given ids. */
  function Completed(ids: seq<string>, links: seq<Link<string>>): seq<Link<string>> {
    CompleteRows(ids, links, |ids|)
  }

  /**
   * The completion at src/App.tsx:215-231: `forEach` over i and over j,
   * returning early when i >= j, and pushing a strength-1 link when `some`
   * finds no link between the two rooms.
   */
  method CompleteLinks(ids: seq<string>, links: seq<Link<string>>) returns (out: seq<Link<string>>)
    ensures out == Completed(ids, links)
  {
    out := links;
    var n := |ids|;
    var i := 0;
    while i < n
      invariant 0 <= i <= n
      invariant out == CompleteRows(ids, links, i)
    {
      ghost var before := out;
      var j := 0;
      while j < n
        invariant 0 <= j <= n
        invariant out == CompleteRow(ids, before, i, j)
      {
        if i < j {
          if !Linked(out, ids[i], ids[j]) {
            out := out + [Link(ids[i], ids[j], 1)];
          }
        }
        j := j + 1;
      }
      i := i + 1;
    }
  }

  /** A link the completion may add: strength 1, from an earlier room to a later one. */
  predicate FillLink(ids: seq<string>, l: Link<string>) {
    l.strength == 1 && exists a, b :: 0 <= a < b < |ids| && l.source == ids[a] && l.target == ids[b]
  }

  /** r keeps links as its prefix and appends only fill links. */
  predicate Extends(ids: seq<string>, links: seq<Link<string>>, r: seq<Link<string>>) {
    |links| <= |r| && r[..|links|] == links && forall k :: |links| <= k < |r| ==> FillLink(ids, r[k])
  }

  /** A link found in a list is still found once the list is extended. */
  lemma LinkedKept(s: seq<Link<string>>, t: seq<Link<string>>, a: string, b: string)
    requires |s| <= |t| && t[..|s|] == s && Linked(s, a, b)
    ensures Linked(t, a, b)
  {
    var k :| 0 <= k < |s| && Joins(s[k], a, b);
    assert t[k] == s[k];
  }

  /** Extending is transitive. */
  lemma ExtendsTrans(ids: seq<string>, a: seq<Link<string>>, b: seq<Link<string>>, c: seq<Link<string>>)
    requires Extends(ids, a, b) && Extends(ids, b, c)
    ensures Extends(ids, a, c)
  {
    assert c[..|a|] == c[..|b|][..|a|];
    forall k | |a| <= k < |c| ensures FillLink(ids, c[k]) {
      if k < |b| {
        assert c[k] == b[k];
      }
    }
  }

  /** Row i extends its input and afterwards joins room i to every room of i + 1 .. j - 1. */
  lemma {:induction false} CompleteRowSpec(ids: seq<string>, links: seq<Link<string>>, i: nat, j: nat)
    requires i < |ids| && j <= |ids|
    ensures Extends(ids, links, CompleteRow(ids, links, i, j))
    ensures forall b :: i < b < j ==> Linked(CompleteRow(ids, links, i, j), ids[i], ids[b])
  {
    if j > i + 1 {
      var prev := CompleteRow(ids, links, i, j - 1);
      var r := CompleteRow(ids, links, i, j);
      CompleteRowSpec(ids, links, i, j - 1);
      assert r == AddIfMissing(prev, ids[i], ids[j - 1]);
      if !Linked(prev, ids[i], ids[j - 1]) {
        assert r[..|prev|] == prev;
        assert FillLink(ids, r[|prev|]);
        assert Extends(ids, prev, r);
        ExtendsTrans(ids, links, prev, r);
        assert Joins(r[|prev|], ids[i], ids[j - 1]);
      } else {
        assert r == prev;
      }
      forall b | i < b < j ensures Linked(r, ids[i], ids[b]) {
        if b < j - 1 {
          LinkedKept(prev, r, ids[i], ids[b]);
        }
      }
    } else {
      assert links[..|links|] == links;
    }
  }

  /** Rows 0 .. i - 1 extend the input and join every room a < i to every later room. */
  lemma {:induction false} CompleteRowsSpec(ids: seq<string>, links: seq<Link<string>>, i: nat)
    requires i <= |ids|
    ensures Extends(ids, links, CompleteRows(ids, links, i))
    ensures forall a, b :: 0 <= a < i && a < b < |ids| ==> Linked(CompleteRows(ids, links, i), ids[a], ids[b])
  {
    if i == 0 {
      assert links[..|links|] == links;
    } else {
      var prev := CompleteRows(ids, links, i - 1);
      var r := CompleteRows(ids, links, i);
      CompleteRowsSpec(ids, links, i - 1);
      CompleteRowSpec(ids, prev, i - 1, |ids|);
      ExtendsTrans(ids, links, prev, r);
      RowsLinkedStep(ids, prev, r, i);
    }
  }

  /** Pairs joined before row i - 1 stay joined, and row i - 1 joins its own pairs. */
  lemma RowsLinkedStep(ids: seq<string>, prev: seq<Link<string>>, r: seq<Link<string>>, i: nat)
    requires 0 < i <= |ids| && |prev| <= |r| && r[..|prev|] == prev
    requires forall a, b :: 0 <= a < i - 1 && a < b < |ids| ==> Linked(prev, ids[a], ids[b])
    requires forall b :: i - 1 < b < |ids| ==> Linked(r, ids[i - 1], ids[b])
    ensures forall a, b :: 0 <= a < i && a < b < |ids| ==> Linked(r, ids[a], ids[b])
  {
    forall a, b | 0 <= a < i && a < b < |ids| ensures Linked(r, ids[a], ids[b]) {
      if a < i - 1 {
        LinkedKept(prev, r, ids[a], ids[b]);
      }
    }
  }

  /**
   * After the completion every two rooms are joined; the original links are
   * kept in front, in order; every appended link has strength 1 and runs
   * from an earlier room to a later one.
   */
  lemma CompletedSpec(ids: seq<string>, links: seq<Link<string>>)
    ensures Extends(ids, links, Completed(ids, links))
    ensures forall a, b :: 0 <= a < b < |ids| ==> Linked(Completed(ids, links), ids[a], ids[b])
  {
    CompleteRowsSpec(ids, links, |ids|);
  }

  /** With different room ids, each row keeps a well-formed list well formed. */
  lemma {:induction false} CompleteRowWellFormed(ids: seq<string>, links: seq<Link<string>>, i: nat, j: nat)
    requires i < |ids| && j <= |ids| && UniqueIds(ids) && WellFormed(links)
    ensures WellFormed(CompleteRow(ids, links, i, j))
  {
    if j > i + 1 {
      var prev := CompleteRow(ids, links, i, j - 1);
      CompleteRowWellFormed(ids, links, i, j - 1);
      AppendWellFormed(prev, Link(ids[i], ids[j - 1], 1));
    }
  }

  /** With different room ids, the completion keeps a well-formed list well formed. */
  lemma {:induction false} CompleteRowsWellFormed(ids: seq<string>, links: seq<Link<string>>, i: nat)
    requires i <= |ids| && UniqueIds(ids) && WellFormed(links)
    ensures WellFormed(CompleteRows(ids, links, i))
  {
    if i > 0 {
      CompleteRowsWellFormed(ids, links, i - 1);
      CompleteRowWellFormed(ids, CompleteRows(ids, links, i - 1), i - 1, |ids|);
    }
  }

  /** A row over a list that already joins room i to all later rooms changes nothing. */
  lemma {:induction false} CompleteRowNoop(ids: seq<string>, links: seq<Link<string>>, i: nat, j: nat)
    requires i < |ids| && j <= |ids|
    requires forall b :: i < b < |ids| ==> Linked(links, ids[i], ids[b])
    ensures CompleteRow(ids, links, i, j) == links
  {
    if j > i + 1 {
      CompleteRowNoop(ids, links, i, j - 1);
    }
  }

  /** A list that joins every two rooms is left as it is by rows 0 .. i - 1. */
  lemma {:induction false} CompleteRowsNoop(ids: seq<string>, links: seq<Link<string>>, i: nat)
    requires i <= |ids|
    requires forall a, b :: 0 <= a < b < |ids| ==> Linked(links, ids[a], ids[b])
    ensures CompleteRows(ids, links, i) == links
  {
    if i > 0 {
      CompleteRowsNoop(ids, links, i - 1);
      CompleteRowNoop(ids, links, i - 1, |ids|);
    }
  }

  /** Completing twice is completing once. */
  lemma CompletedIdempotent(ids: seq<string>, links: seq<Link<string>>)
    ensures Completed(ids, Completed(ids, links)) == Completed(ids, links)
  {
    CompletedSpec(ids, links);
    CompleteRowsNoop(ids, Completed(ids, links), |ids|);
  }

  /**
   * With different ids, the completion of a well-formed list of links between
   * rooms of the list is a well-formed list of links between rooms of the
   * list that joins every two rooms.
   */
  lemma CompletedWellFormed(ids: seq<string>, links: seq<Link<string>>)
    requires UniqueIds(ids) && WellFormed(links) && Among(ids, links)
    ensures WellFormed(Completed(ids, links))
    ensures Among(ids, Completed(ids, links))
    ensures forall a, b :: 0 <= a < b < |ids| ==> Linked(Completed(ids, links), ids[a], ids[b])
  {
    CompletedSpec(ids, links);
    CompleteRowsWellFormed(ids, links, |ids|);
    var r := Completed(ids, links);
    forall k | 0 <= k < |r| ensures r[k].source in ids && r[k].target in ids {
      if k < |links| {
        assert r[k] == r[..|links|][k];
      } else {
        assert FillLink(ids, r[k]);
      }
    }
  }

  /** The completed default links join every two of the eight rooms and form a well-formed list. */
  lemma DefaultLinksComplete(unit: nat -> Point)
    ensures var ids := RoomIds(DefaultRooms(unit));
      && WellFormed(Completed(ids, DefaultRoomLinks))
      && Among(ids, Completed(ids, DefaultRoomLinks))
      && forall a, b :: 0 <= a < b < |ids| ==> Linked(Completed(ids, DefaultRoomLinks), ids[a], ids[b])
  {
    DefaultsWellFormed(unit);
    CompletedWellFormed(RoomIds(DefaultRooms(unit)), DefaultRoomLinks);
  }

  // ---------------------------------------------------------------------------
  // Link mapping

  /** One link of `mappedLinks`: each end looked up with `find`; None stands for `undefined`. */
  function MapLink(ids: seq<string>, l: Link<string>): Link<Option<nat>> {
    Link(FirstIndexOf(ids, l.source), FirstIndexOf(ids, l.target), l.strength)
  }

  /**
   * `mappedLinks` of the prototype: every link is kept, in order; an end is
   * the index of the first room with that id, and undefined exactly when no
   * room has it.
   */
  function MapLinks(ids: seq<string>, links: seq<Link<string>>): (r: seq<Link<Option<nat>>>)
    ensures |r| == |links|
    ensures forall k :: 0 <= k < |links| ==>
      && r[k].strength == links[k].strength
      && (r[k].source.Some? <==> links[k].source in ids)
      && (r[k].target.Some? <==> links[k].target in ids)
      && (r[k].source.Some? ==> r[k].source.value < |ids| && ids[r[k].source.value] == links[k].source)
      && (r[k].target.Some? ==> r[k].target.value < |ids| && ids[r[k].target.value] == links[k].target)
  {
    if |links| == 0 then [] else MapLinks(ids, links[..|links| - 1]) + [MapLink(ids, links[|links| - 1])]
  }

  /**
   * When every link resolves, the prototype's mapping and BaseGenerator's
   * filtering resolution agree link by link: nothing is dropped and both
   * point at the same nodes.
   */
  lemma MapLinksAgreesWithResolve(ns: seq<BuildingNode>, links: seq<Link<string>>)
    requires AllResolve(ns, links)
    ensures |ResolveLinks(ns, links)| == |MapLinks(Ids(ns), links)|
    ensures forall k :: 0 <= k < |links| ==>
      && MapLinks(Ids(ns), links)[k].source.Some? && MapLinks(Ids(ns), links)[k].target.Some?
      && ResolveLinks(ns, links)[k] ==
           Link(ns[MapLinks(Ids(ns), links)[k].source.value], ns[MapLinks(Ids(ns), links)[k].target.value], links[k].strength)
  {
    ResolveLinksKeepsAll(ns, links);
    var m := MapLinks(Ids(ns), links);
    forall k | 0 <= k < |links|
      ensures m[k].source.Some? && m[k].target.Some?
      ensures ResolveLinks(ns, links)[k] == Link(ns[m[k].source.value], ns[m[k].target.value], links[k].strength)
    {
      assert Resolves(ns, links[k]);
      assert m[k..k + 1] == MapLinks(Ids(ns), links)[k..k + 1];
      assert m[k].source == FirstIndexOf(Ids(ns), links[k].source) by {
        MapLinksAt(Ids(ns), links, k);
      }
      assert m[k].target == FirstIndexOf(Ids(ns), links[k].target) by {
        MapLinksAt(Ids(ns), links, k);
      }
    }
  }

  /** Element k of the mapping is link k mapped. */
  lemma {:induction false} MapLinksAt(ids: seq<string>, links: seq<Link<string>>, k: nat)
    requires k < |links|
    ensures MapLinks(ids, links)[k] == MapLink(ids, links[k])
  {
    if k < |links| - 1 {
      MapLinksAt(ids, links[..|links| - 1], k);
    }
  }

  // ---------------------------------------------------------------------------
  // Start positions and snap

  /**
   * `x: width / 2 + Math.random() * 2` and the same for y; u and v are the
   * two `Math.random()` results.
   */
  function JitteredStart(u: real, v: real): Point {
    Point(50.0 + u * 2.0, 50.0 + v * 2.0)
  }

  /** With `Math.random()` in [0, 1), each start lies in [50, 52) x [50, 52). */
  lemma JitteredStartRange(u: real, v: real)
    requires 0.0 <= u < 1.0 && 0.0 <= v < 1.0
    ensures 50.0 <= JitteredStart(u, v).x < 52.0 && 50.0 <= JitteredStart(u, v).y < 52.0
  {
  }

  /** The `end` handler of the prototype: `roundX = Math.round(x)`, `roundY = Math.round(y)`, in place. */
  method SnapRound(ns: seq<BuildingNode>)
    modifies ns`roundX, ns`roundY
    ensures forall k :: 0 <= k < |ns| ==> ns[k].roundX == JsRound(ns[k].x) && ns[k].roundY == JsRound(ns[k].y)
  {
    var k := 0;
    while k < |ns|
      invariant 0 <= k <= |ns|
      invariant forall m :: 0 <= m < k ==> ns[m].roundX == JsRound(ns[m].x) && ns[m].roundY == JsRound(ns[m].y)
    {
      ns[k].roundX := JsRound(ns[k].x);
      ns[k].roundY := JsRound(ns[k].y);
      k := k + 1;
    }
  }

  /**
   * The prototype's cell is the floor cell or the next one: the floor cell
   * exactly when the fractional part is below one half.
   */
  lemma RoundVersusFloor(v: real)
    ensures JsRound(v) == v.Floor || JsRound(v) == v.Floor + 1
    ensures JsRound(v) == v.Floor <==> v - v.Floor as real < 0.5
  {
  }

  /** So the two snaps disagree: 0.5 goes to cell 1 here and to cell 0 in BaseGenerator. */
  lemma RoundDiffersFromFloor()
    ensures JsRound(0.5) == 1 && (0.5).Floor == 0
  {
  }
}
