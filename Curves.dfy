/** The curve an edge is drawn along, and the endpoint update `handleDrag`
    applies to it (src/ob_hypergraph.js). */
module Curves {
  import opened Common

  /** The four three.js curve classes an edge can hold: a Catmull-Rom curve
      through a list of points, quadratic and cubic Bézier curves with their
      control points, and a straight line. */
  datatype Curve =
    | CatmullRom(points: seq<Vec3>)
    | Quadratic(v0: Vec3, v1: Vec3, v2: Vec3)
    | Cubic(v0: Vec3, v1: Vec3, v2: Vec3, v3: Vec3)
    | Line(v1: Vec3, v2: Vec3)

  /** An edge: its curve and the ids of the two vertices it joins. */
  datatype Edge = Edge(curve: Curve, first: string, second: string)

  /** The curve's interior control points: those the endpoint update must
      not touch. A Catmull-Rom curve has none, since its whole point list is
      replaced. */
  function Interior(c: Curve): seq<Vec3>
  {
    match c
    case CatmullRom(_) => []
    case Quadratic(_, v1, _) => [v1]
    case Cubic(_, v1, v2, _) => [v1, v2]
    case Line(_, _) => []
  }

  /** The first point of the curve, when it has one. */
  function Start(c: Curve): Option<Vec3>
  {
    match c
    case CatmullRom(points) => if |points| == 0 then None else Some(points[0])
    case Quadratic(v0, _, _) => Some(v0)
    case Cubic(v0, _, _, _) => Some(v0)
    case Line(v1, _) => Some(v1)
  }

  /** The last point of the curve, when it has one. */
  function End(c: Curve): Option<Vec3>
  {
    match c
    case CatmullRom(points) => if |points| == 0 then None else Some(points[|points| - 1])
    case Quadratic(_, _, v2) => Some(v2)
    case Cubic(_, _, _, v3) => Some(v3)
    case Line(_, v2) => Some(v2)
  }

  /** Same curve class. */
  predicate SameKind(a: Curve, b: Curve)
  {
    && (a.CatmullRom? <==> b.CatmullRom?)
    && (a.Quadratic? <==> b.Quadratic?)
    && (a.Cubic? <==> b.Cubic?)
    && (a.Line? <==> b.Line?)
  }

  /** The endpoint update of `handleDrag`: a Catmull-Rom curve gets the point
      list `[start, end]`; a quadratic curve gets new `v0` and `v2`, a cubic
      one new `v0` and `v3`, a line new `v1` and `v2`. */
  function WithEndpoints(c: Curve, start: Vec3, end: Vec3): (r: Curve)
    ensures SameKind(r, c)
    ensures Start(r) == Some(start) && End(r) == Some(end)
    ensures Interior(r) == Interior(c)
    ensures r.CatmullRom? ==> r.points == [start, end]
  {
    match c
    case CatmullRom(_) => CatmullRom([start, end])
    case Quadratic(_, v1, _) => Quadratic(start, v1, end)
    case Cubic(_, v1, v2, _) => Cubic(start, v1, v2, end)
    case Line(_, _) => Line(start, end)
  }

  /** A curve is determined by its class, its endpoints and its interior
      points, once a Catmull-Rom curve has exactly two points. */
  lemma {:induction false} SameShapeSameCurve(a: Curve, b: Curve)
    requires SameKind(a, b)
    requires a.CatmullRom? ==> |a.points| == 2 && |b.points| == 2
    requires Start(a) == Start(b) && End(a) == End(b) && Interior(a) == Interior(b)
    ensures a == b
  {
    match a
    case CatmullRom(p) =>
      assert p == [p[0], p[1]] && b.points == [b.points[0], b.points[1]];
    case Quadratic(_, _, _) =>
      assert Interior(a)[0] == Interior(b)[0];
    case Cubic(_, _, _, _) =>
      assert Interior(a)[0] == Interior(b)[0] && Interior(a)[1] == Interior(b)[1];
    case Line(_, _) =>
  }

  /** A second update overrides the first one completely. */
  lemma LastUpdateWins(c: Curve, s1: Vec3, e1: Vec3, s2: Vec3, e2: Vec3)
    ensures WithEndpoints(WithEndpoints(c, s1, e1), s2, e2) == WithEndpoints(c, s2, e2)
  {
    SameShapeSameCurve(WithEndpoints(WithEndpoints(c, s1, e1), s2, e2), WithEndpoints(c, s2, e2));
  }

  /** Writing back a curve's own endpoints changes nothing. */
  lemma UpdateWithOwnEnds(c: Curve)
    requires c.CatmullRom? ==> |c.points| == 2
    ensures WithEndpoints(c, Start(c).value, End(c).value) == c
  {
    SameShapeSameCurve(WithEndpoints(c, Start(c).value, End(c).value), c);
  }

  /** The endpoints `handleDrag` uses: the two anchors found, or the two
      vertex centres when either anchor is undefined. */
  function ResolveEndpoints(start: Option<Vec3>, end: Option<Vec3>, centre1: Vec3, centre2: Vec3): (r: (Vec3, Vec3))
    ensures start.Some? && end.Some? ==> r == (start.value, end.value)
    ensures start.None? || end.None? ==> r == (centre1, centre2)
  {
    if start.None? || end.None? then (centre1, centre2) else (start.value, end.value)
  }
}
