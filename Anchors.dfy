/** Anchor points of a vertex and the choice of the pair of anchors an edge
    is drawn between (`getEdgePositions`, `findClosestEdge` and
    `enforceConnection` in src/ob_hypergraph.js). */
module Anchors {
  import opened Common

  /** The four anchor names, in the order the anchor object lists them. */
  datatype Side = North | South | East | West

  /** The anchor object: one point per side. */
  datatype Anchors = Anchors(north: Vec3, south: Vec3, east: Vec3, west: Vec3)

  /** The order in which `for (const edge in pos)` visits the anchors. */
  const Sides: seq<Side> := [North, South, East, West]

  /** `pos[side]`. */
  function At(a: Anchors, s: Side): Vec3
  {
    match s
    case North => a.north
    case South => a.south
    case East => a.east
    case West => a.west
  }

  /** The side an anchor on `s` is connected to on the other vertex: the
      other side on the same axis. */
  function Opposite(s: Side): (o: Side)
    ensures o != s
    ensures (s.North? || s.South?) <==> (o.North? || o.South?)
  {
    match s
    case North => South
    case South => North
    case East => West
    case West => East
  }

  /** The pairing is symmetric: the opposite of the opposite side is the
      side itself, so north pairs with south and east with west in both
      directions. */
  lemma OppositeInvolution(s: Side)
    ensures Opposite(Opposite(s)) == s
  {
  }

  /** The position of a side in `Sides`. */
  function IndexOf(s: Side): (i: nat)
    ensures i < 4 && Sides[i] == s
  {
    match s
    case North => 0
    case South => 1
    case East => 2
    case West => 3
  }

  /** Shapes whose anchors sit half a size away from the centre; every other
      shape type has all four anchors at its centre. */
  predicate HasExtent(kind: string)
  {
    kind == "rectangle" || kind == "circle" || kind == "ring"
  }

  /** `getEdgePositions(mesh)`: north and south are the centre moved up and
      down by half the height, east and west the centre moved right and left
      by half the width, all at the centre's z. */
  function EdgePositions(m: Mesh): (a: Anchors)
    ensures a.north.z == m.position.z && a.south.z == m.position.z
    ensures a.east.z == m.position.z && a.west.z == m.position.z
    ensures a.north.x == m.position.x && a.south.x == m.position.x
    ensures a.east.y == m.position.y && a.west.y == m.position.y
    ensures a.north.y + a.south.y == 2.0 * m.position.y
    ensures a.east.x + a.west.x == 2.0 * m.position.x
    ensures a.north.y - a.south.y == if HasExtent(m.kind) then m.size.height else 0.0
    ensures a.east.x - a.west.x == if HasExtent(m.kind) then m.size.width else 0.0
  {
    var pos := m.position;
    var offsetX := if HasExtent(m.kind) then m.size.width / 2.0 else 0.0;
    var offsetY := if HasExtent(m.kind) then m.size.height / 2.0 else 0.0;
    Anchors(Vec3(pos.x, pos.y + offsetY, pos.z), Vec3(pos.x, pos.y - offsetY, pos.z),
            Vec3(pos.x + offsetX, pos.y, pos.z), Vec3(pos.x - offsetX, pos.y, pos.z))
  }

  /** The squared distances of the 16 anchor pairs in the order the nested
      search visits them: pair k joins anchor `Sides[k / 4]` of the first
      vertex to anchor `Sides[k % 4]` of the second. */
  function PairDists(p1: Anchors, p2: Anchors): (ds: seq<real>)
    ensures |ds| == 16
  {
    seq(16, k requires 0 <= k < 16 => Dist2(At(p1, Sides[k / 4]), At(p2, Sides[k % 4])))
  }

  /** The pair the search holds after visiting the first k distances: a pair
      replaces the one held only when it is strictly closer. */
  function BestUpTo(ds: seq<real>, k: nat): (b: Option<nat>)
    requires k <= |ds|
    ensures b.None? <==> k == 0
    ensures b.Some? ==> b.value < k
  {
    if k == 0 then None
    else
      var held := BestUpTo(ds, k - 1);
      if held.None? || ds[k - 1] < ds[held.value] then Some(k - 1) else held
  }

  /** Entry k is the first of the first n entries with the least value. */
  ghost predicate FirstMinAmong(ds: seq<real>, k: nat, n: nat)
    requires k < n <= |ds|
  {
    && (forall m :: 0 <= m < k ==> ds[m] > ds[k])
    && (forall m :: k < m < n ==> ds[m] >= ds[k])
  }

  /** The strict-`<` search ends on the first entry of least value. */
  lemma {:induction false} BestUpToIsFirstMin(ds: seq<real>, n: nat)
    requires 0 < n <= |ds|
    ensures FirstMinAmong(ds, BestUpTo(ds, n).value, n)
  {
    if n > 1 {
      BestUpToIsFirstMin(ds, n - 1);
    }
  }

  /** At most one entry is the first of least value. */
  lemma FirstMinUnique(ds: seq<real>, k1: nat, k2: nat, n: nat)
    requires k1 < n <= |ds| && k2 < n
    requires FirstMinAmong(ds, k1, n)
    ensures FirstMinAmong(ds, k2, n) ==> k1 == k2
  {
    if k2 < k1 {
      assert ds[k2] > ds[k1];
    } else if k1 < k2 {
      assert ds[k2] >= ds[k1];
    }
  }

  /** The pair `findClosestEdge` settles on. */
  function Closest(p1: Anchors, p2: Anchors): (k: nat)
    ensures k < 16
  {
    var ds := PairDists(p1, p2);
    BestUpTo(ds, |ds|).value
  }

  /** The pair `findClosestEdge` settles on is the first closest one. */
  lemma ClosestIsFirstMin(p1: Anchors, p2: Anchors)
    ensures FirstMinAmong(PairDists(p1, p2), Closest(p1, p2), 16)
  {
    BestUpToIsFirstMin(PairDists(p1, p2), 16);
  }

  /** The closest pair is at least as close as any pair of sides. */
  lemma ClosestIsNearest(p1: Anchors, p2: Anchors, s1: Side, s2: Side)
    ensures var k := Closest(p1, p2);
            Dist2(At(p1, Sides[k / 4]), At(p2, Sides[k % 4])) <= Dist2(At(p1, s1), At(p2, s2))
  {
    ClosestIsFirstMin(p1, p2);
    var m := 4 * IndexOf(s1) + IndexOf(s2);
    assert m / 4 == IndexOf(s1) && m % 4 == IndexOf(s2);
    assert PairDists(p1, p2)[m] == Dist2(At(p1, s1), At(p2, s2));
  }

  /** `enforceConnection(closestEdge, pos1, pos2)`: north is joined to the
      other vertex's south, south to north, east to west and west to east; an
      undefined side gives two undefined points. */
  function EnforceConnection(closest: Option<Side>, pos1: Anchors, pos2: Anchors): (r: (Option<Vec3>, Option<Vec3>))
    ensures closest.None? ==> r == (None, None)
    ensures closest.Some? ==> r == (Some(At(pos1, closest.value)), Some(At(pos2, Opposite(closest.value))))
  {
    match closest
    case Some(North) => (Some(pos1.north), Some(pos2.south))
    case Some(South) => (Some(pos1.south), Some(pos2.north))
    case Some(East) => (Some(pos1.east), Some(pos2.west))
    case Some(West) => (Some(pos1.west), Some(pos2.east))
    case None => (None, None)
  }

  /** Connecting from the other end swaps the two points. */
  lemma EnforceConnectionSwap(s: Side, pos1: Anchors, pos2: Anchors)
    ensures var (a, b) := EnforceConnection(Some(s), pos1, pos2);
            EnforceConnection(Some(Opposite(s)), pos2, pos1) == (b, a)
  {
    match s
    case North =>
    case South =>
    case East =>
    case West =>
  }

  /** The points `findClosestEdge` returns: the dragged vertex's side of the
      closest pair on the dragged vertex, first, then the opposite side on the
      other vertex. When the first vertex is dragged the first side of the
      pair is used, otherwise the second one. */
  function ClosestAnchors(pos1: Anchors, pos2: Anchors, draggedFirst: bool): (Vec3, Vec3)
  {
    var k := Closest(pos1, pos2);
    if draggedFirst then
      (At(pos1, Sides[k / 4]), At(pos2, Opposite(Sides[k / 4])))
    else
      (At(pos2, Sides[k % 4]), At(pos1, Opposite(Sides[k % 4])))
  }

  /** `findClosestEdge(pos1, pos2, draggedVertex)`: the 4x4 search over the
      anchor pairs, then `enforceConnection` from the dragged vertex's side. */
  method FindClosestEdge(pos1: Anchors, pos2: Anchors, draggedFirst: bool)
      returns (start: Option<Vec3>, end: Option<Vec3>)
    ensures start == Some(ClosestAnchors(pos1, pos2, draggedFirst).0)
    ensures end == Some(ClosestAnchors(pos1, pos2, draggedFirst).1)
  {
    var minDistance: Option<real> := None;
    var closest1: Option<Side> := None;
    var closest2: Option<Side> := None;
    ghost var ds := PairDists(pos1, pos2);
    for i := 0 to 4
      invariant Holds(ds, 4 * i, minDistance, closest1, closest2)
    {
      for j := 0 to 4
        invariant Holds(ds, 4 * i + j, minDistance, closest1, closest2)
      {
        var distance := Dist2(At(pos1, Sides[i]), At(pos2, Sides[j]));
        SearchStep(ds, pos1, pos2, i, j, distance, minDistance, closest1, closest2);
        if minDistance.None? || distance < minDistance.value {
          minDistance := Some(distance);
          closest1 := Some(Sides[i]);
          closest2 := Some(Sides[j]);
        }
      }
    }
    SearchResult(pos1, pos2, minDistance, closest1, closest2);
    if draggedFirst {
      start, end := EnforceConnection(closest1, pos1, pos2).0, EnforceConnection(closest1, pos1, pos2).1;
    } else {
      start, end := EnforceConnection(closest2, pos2, pos1).0, EnforceConnection(closest2, pos2, pos1).1;
    }
  }

  /** The search's trackers after k pairs agree with `BestUpTo`. */
  ghost predicate Holds(ds: seq<real>, k: nat, minDistance: Option<real>,
                        closest1: Option<Side>, closest2: Option<Side>)
  {
    |ds| == 16 && k <= |ds| &&
    var b := BestUpTo(ds, k);
    if b.None? then minDistance.None? && closest1.None? && closest2.None?
    else minDistance == Some(ds[b.value])
         && closest1 == Some(Sides[b.value / 4]) && closest2 == Some(Sides[b.value % 4])
  }

  /** Visiting pair (i, j) keeps the trackers in step with `BestUpTo`. */
  lemma SearchStep(ds: seq<real>, pos1: Anchors, pos2: Anchors, i: nat, j: nat, distance: real,
                   minDistance: Option<real>, closest1: Option<Side>, closest2: Option<Side>)
    requires i < 4 && j < 4 && ds == PairDists(pos1, pos2)
    requires distance == Dist2(At(pos1, Sides[i]), At(pos2, Sides[j]))
    requires Holds(ds, 4 * i + j, minDistance, closest1, closest2)
    ensures minDistance.None? || distance < minDistance.value ==>
              Holds(ds, 4 * i + j + 1, Some(distance), Some(Sides[i]), Some(Sides[j]))
    ensures minDistance.Some? && distance >= minDistance.value ==>
              Holds(ds, 4 * i + j + 1, minDistance, closest1, closest2)
  {
    var k := 4 * i + j;
    assert k / 4 == i && k % 4 == j;
  }

  /** After all 16 pairs the trackers hold the sides of `Closest`. */
  lemma SearchResult(pos1: Anchors, pos2: Anchors, minDistance: Option<real>,
                     closest1: Option<Side>, closest2: Option<Side>)
    requires Holds(PairDists(pos1, pos2), 16, minDistance, closest1, closest2)
    ensures closest1 == Some(Sides[Closest(pos1, pos2) / 4])
    ensures closest2 == Some(Sides[Closest(pos1, pos2) % 4])
  {
  }

  /** The two returned points lie on the two vertices: one is an anchor of
      the dragged vertex, the other the opposite anchor of the other one. */
  lemma ClosestAnchorsOpposite(pos1: Anchors, pos2: Anchors, draggedFirst: bool)
    ensures var (a, b) := ClosestAnchors(pos1, pos2, draggedFirst);
            var (dragged, other) := if draggedFirst then (pos1, pos2) else (pos2, pos1);
            exists s: Side :: a == At(dragged, s) && b == At(other, Opposite(s))
  {
    var k := Closest(pos1, pos2);
    var s := if draggedFirst then Sides[k / 4] else Sides[k % 4];
    assert ClosestAnchors(pos1, pos2, draggedFirst).0 == At(if draggedFirst then pos1 else pos2, s);
  }

  /** Two 2 by 2 rectangles, the second 5 above the first: the edge runs from
      the first one's north anchor to the second one's south anchor, and from
      the second one's south anchor when the second one is dragged. */
  lemma StackedRectangles()
    ensures var a := EdgePositions(Mesh("rectangle", Vec3(0.0, 0.0, 0.0), Size(2.0, 2.0), false));
            var b := EdgePositions(Mesh("rectangle", Vec3(0.0, 5.0, 0.0), Size(2.0, 2.0), false));
            && ClosestAnchors(a, b, true) == (Vec3(0.0, 1.0, 0.0), Vec3(0.0, 4.0, 0.0))
            && ClosestAnchors(a, b, false) == (Vec3(0.0, 4.0, 0.0), Vec3(0.0, 1.0, 0.0))
  {
    var a := EdgePositions(Mesh("rectangle", Vec3(0.0, 0.0, 0.0), Size(2.0, 2.0), false));
    var b := EdgePositions(Mesh("rectangle", Vec3(0.0, 5.0, 0.0), Size(2.0, 2.0), false));
    assert a == Anchors(Vec3(0.0, 1.0, 0.0), Vec3(0.0, -1.0, 0.0), Vec3(1.0, 0.0, 0.0), Vec3(-1.0, 0.0, 0.0));
    assert b == Anchors(Vec3(0.0, 6.0, 0.0), Vec3(0.0, 4.0, 0.0), Vec3(1.0, 5.0, 0.0), Vec3(-1.0, 5.0, 0.0));
    var ds := PairDists(a, b);
    assert ds[0] == 25.0 && ds[1] == 9.0;
    assert forall m :: 1 < m < 16 ==> ds[m] >= 9.0;
    assert FirstMinAmong(ds, 1, 16);
    ClosestIsFirstMin(a, b);
    FirstMinUnique(ds, 1, Closest(a, b), 16);
  }
}
