/** Where `updateEdgePositions` puts each edge's text label
    (src/ob_hypergraph.js): at the curve's midpoint, at height 2, raised
    above any vertex it comes within half a unit of. */
module Labels {
  import opened Common
  import opened Curves
  import opened Overlap

  /** How close, on every axis, a label may come to a vertex centre. */
  const LabelBuffer: real := 0.5
  /** The height a label starts at. */
  const LabelZ: real := 2.0

  /** The label at `t` is within the buffer of the centre `v` on all three
      axes. */
  predicate Near(t: Vec3, v: Vec3)
  {
    Abs(t.x - v.x) < LabelBuffer && Abs(t.y - v.y) < LabelBuffer && Abs(t.z - v.z) < LabelBuffer
  }

  /** Comparing with one vertex: a label near it is put back over the midpoint, half
      a unit above the vertex's top. */
  function Lift(mid: Vec3, t: Vec3, v: Mesh): Vec3
  {
    if Near(t, v.position) then Vec3(mid.x, mid.y, v.position.z + v.size.height + LabelBuffer) else t
  }

  /** The label of a curve with midpoint `mid` after comparing it with the first n
      vertices, in order, each against the label as it stands. */
  function LabelAfter(mid: Vec3, vs: seq<Mesh>, n: nat): (t: Vec3)
    requires n <= |vs|
    ensures t.x == mid.x && t.y == mid.y
  {
    if n == 0 then Vec3(mid.x, mid.y, LabelZ) else Lift(mid, LabelAfter(mid, vs, n - 1), vs[n - 1])
  }

  /** The label's height is the starting height, or half a unit above the
      top of a vertex the label was near when that vertex was compared. */
  lemma {:induction false} LabelHeight(mid: Vec3, vs: seq<Mesh>, n: nat)
    requires n <= |vs|
    ensures var z := LabelAfter(mid, vs, n).z;
            || z == LabelZ
            || exists k :: 0 <= k < n && Near(LabelAfter(mid, vs, k), vs[k].position)
                           && z == vs[k].position.z + vs[k].size.height + LabelBuffer
  {
    if n > 0 {
      LabelHeight(mid, vs, n - 1);
      if Near(LabelAfter(mid, vs, n - 1), vs[n - 1].position) {
        assert LabelAfter(mid, vs, n).z == vs[n - 1].position.z + vs[n - 1].size.height + LabelBuffer;
      }
    }
  }

  /** A label that starts clear of every vertex stays where it starts. */
  lemma {:induction false} NothingNear(mid: Vec3, vs: seq<Mesh>, n: nat)
    requires n <= |vs|
    requires forall k :: 0 <= k < n ==> !Near(Vec3(mid.x, mid.y, LabelZ), vs[k].position)
    ensures LabelAfter(mid, vs, n) == Vec3(mid.x, mid.y, LabelZ)
  {
    if n > 0 {
      NothingNear(mid, vs, n - 1);
    }
  }

  /** Raising a label above a vertex of non-negative height takes it clear of
      that vertex. */
  lemma LiftClears(mid: Vec3, t: Vec3, v: Mesh)
    requires v.size.height >= 0.0
    requires Near(t, v.position)
    ensures !Near(Lift(mid, t, v), v.position)
  {
  }

  /** `Object.values(vertices)`: the vertices in key order. */
  function Values(vertices: map<string, Mesh>, keys: seq<string>): (vs: seq<Mesh>)
    requires Covers(vertices, keys)
    ensures |vs| == |keys|
    ensures forall n :: 0 <= n < |keys| ==> vs[n] == vertices[keys[n]]
  {
    seq(|keys|, n requires 0 <= n < |keys| => vertices[keys[n]])
  }

  /** The label `updateEdgePositions` gives the curve `c`. */
  function LabelFor(c: Curve, vertices: map<string, Mesh>, keys: seq<string>, mid: Curve -> Vec3): Vec3
    requires Covers(vertices, keys)
  {
    LabelAfter(mid(c), Values(vertices, keys), |keys|)
  }

  /** `updateEdgePositions`: label i is recomputed from edge i's curve when
      both exist; labels past the last edge are left alone. */
  function Relabel(labels: seq<Vec3>, edges: seq<Edge>, vertices: map<string, Mesh>,
                   keys: seq<string>, mid: Curve -> Vec3): (r: seq<Vec3>)
    requires Covers(vertices, keys)
    ensures |r| == |labels|
    ensures forall i :: 0 <= i < |labels| && |edges| <= i ==> r[i] == labels[i]
  {
    seq(|labels|, i requires 0 <= i < |labels| =>
      if i < |edges| then LabelFor(edges[i].curve, vertices, keys, mid) else labels[i])
  }

  /** Recomputing the labels discards what an earlier recomputation put
      there: only the latest curves and vertex positions count. */
  lemma RelabelOverwrites(labels: seq<Vec3>, e1: seq<Edge>, e2: seq<Edge>, v1: map<string, Mesh>,
                          v2: map<string, Mesh>, keys: seq<string>, mid: Curve -> Vec3)
    requires Covers(v1, keys) && Covers(v2, keys) && |e1| == |e2|
    ensures Relabel(Relabel(labels, e1, v1, keys, mid), e2, v2, keys, mid)
            == Relabel(labels, e2, v2, keys, mid)
  {
  }

  /** Recomputing twice is recomputing once. */
  lemma RelabelIdempotent(labels: seq<Vec3>, edges: seq<Edge>, vertices: map<string, Mesh>,
                          keys: seq<string>, mid: Curve -> Vec3)
    requires Covers(vertices, keys)
    ensures Relabel(Relabel(labels, edges, vertices, keys, mid), edges, vertices, keys, mid)
            == Relabel(labels, edges, vertices, keys, mid)
  {
    RelabelOverwrites(labels, edges, edges, vertices, vertices, keys, mid);
  }
}
