/** The mutable state of the layout engine and the passes that update it in
    place (src/ob_hypergraph.js): the overlap passes, the label update and
    the drag handler that re-anchors every edge. */
module HyperGraph {
  import opened Common
  import opened Anchors
  import opened Curves
  import opened Overlap
  import opened Labels

  /** The key list is `Object.keys(vertices)`: each vertex exactly once. */
  ghost predicate Listed(vertices: map<string, Mesh>, keys: seq<string>)
  {
    && Distinct(keys)
    && Covers(vertices, keys)
    && (forall k :: k in vertices ==> k in keys)
  }

  /** Every edge joins two vertices of the table. */
  ghost predicate EdgesResolve(edges: seq<Edge>, vertices: map<string, Mesh>)
  {
    forall e :: 0 <= e < |edges| ==> edges[e].first in vertices && edges[e].second in vertices
  }

  /** A snapshot of the engine's state: vertex table, edges and labels. */
  datatype Scene = Scene(vertices: map<string, Mesh>, edges: seq<Edge>, labels: seq<Vec3>)

  ghost predicate SceneOk(s: Scene, keys: seq<string>)
  {
    Listed(s.vertices, keys) && EdgesResolve(s.edges, s.vertices)
  }

  /** Replacing the table by one with the same vertex ids keeps a scene
      well formed. */
  lemma SameKeysSceneOk(s: Scene, vertices: map<string, Mesh>, keys: seq<string>)
    requires SceneOk(s, keys) && vertices.Keys == s.vertices.Keys
    ensures SceneOk(Scene(vertices, s.edges, s.labels), keys)
  {
  }

  /** The table with the dragged vertex put back on the z = 0 plane.
      `dragged` is the id of the table mesh `handleDrag` was given, or None
      when it was given something that is not a table mesh (the JSON vertex
      records passed after loading and at the end of a drag): setting z on
      such a record leaves the table alone. */
  function Lowered(vertices: map<string, Mesh>, dragged: Option<string>): (r: map<string, Mesh>)
    requires dragged.Some? ==> dragged.value in vertices
    ensures r.Keys == vertices.Keys
    ensures dragged.None? ==> r == vertices
    ensures forall k :: k in vertices && dragged != Some(k) ==> r[k] == vertices[k]
    ensures dragged.Some? ==> r[dragged.value].position.z == 0.0
  {
    if dragged.None? then vertices
    else
      var v := vertices[dragged.value];
      vertices[dragged.value := v.(position := v.position.(z := 0.0))]
  }

  /** What `handleDrag` does for edge e: re-anchor its curve between the
      closest anchors, run `checkOverlap`, then `checkAndAdjustOverlap`
      (which recomputes the labels after every move), then recompute the
      labels once more. */
  function DragEdge(s: Scene, keys: seq<string>, e: nat, dragged: Option<string>,
                    nz: Vec3 -> Vec3, mid: Curve -> Vec3): (r: Scene)
    requires SceneOk(s, keys) && e < |s.edges|
    ensures SceneOk(r, keys)
    ensures r.vertices.Keys == s.vertices.Keys
    ensures |r.edges| == |s.edges| && |r.labels| == |s.labels|
  {
    var edge := s.edges[e];
    var ends := ClosestAnchors(EdgePositions(s.vertices[edge.first]),
                               EdgePositions(s.vertices[edge.second]), dragged.Some? && dragged.value == edge.first);
    var edges := s.edges[e := edge.(curve := WithEndpoints(edge.curve, ends.0, ends.1))];
    var checked := Relax(s.vertices, keys, CheckBuffer, nz).vertices;
    var adjusted := Relax(checked, keys, AdjustBuffer, nz);
    var labels := if adjusted.moved then Relabel(s.labels, edges, adjusted.vertices, keys, mid) else s.labels;
    Scene(adjusted.vertices, edges, Relabel(labels, edges, adjusted.vertices, keys, mid))
  }

  /** The edge `after` joins the same vertices as `before` along a curve of
      the same class with the same interior points; when re-anchored, both
      its endpoints are set, and otherwise it is unchanged. */
  predicate Reshaped(before: Edge, after: Edge, reanchored: bool)
  {
    && after.first == before.first && after.second == before.second
    && SameKind(after.curve, before.curve) && Interior(after.curve) == Interior(before.curve)
    && (reanchored ==> Start(after.curve).Some? && End(after.curve).Some?)
    && (!reanchored ==> after == before)
  }

  /** Reshaping twice is reshaping, re-anchored if either step was. */
  lemma ReshapedStep(a: seq<Edge>, b: seq<Edge>, c: seq<Edge>, n: nat)
    requires |a| == |b| == |c| && n < |a|
    requires forall i :: 0 <= i < |a| ==> Reshaped(a[i], b[i], i < n)
    requires forall i :: 0 <= i < |a| ==> Reshaped(b[i], c[i], i == n)
    ensures forall i :: 0 <= i < |a| ==> Reshaped(a[i], c[i], i <= n)
  {
  }

  /** One edge step reshapes edge e, re-anchoring it, and no other edge. */
  lemma DragEdgeReshapes(s: Scene, keys: seq<string>, e: nat, dragged: Option<string>,
                         nz: Vec3 -> Vec3, mid: Curve -> Vec3)
    requires SceneOk(s, keys) && e < |s.edges|
    ensures var r := DragEdge(s, keys, e, dragged, nz, mid);
            forall i :: 0 <= i < |s.edges| ==> Reshaped(s.edges[i], r.edges[i], i == e)
  {
  }

  /** One edge step changes no vertex's kind, size, nesting or height, and
      leaves nested vertices where they are. */
  lemma DragEdgeKeeps(s: Scene, keys: seq<string>, e: nat, dragged: Option<string>,
                      nz: Vec3 -> Vec3, mid: Curve -> Vec3)
    requires SceneOk(s, keys) && e < |s.edges|
    ensures Kept(s.vertices, DragEdge(s, keys, e, dragged, nz, mid).vertices)
  {
    var checked := Relax(s.vertices, keys, CheckBuffer, nz).vertices;
    RelaxKeeps(s.vertices, keys, CheckBuffer, nz);
    RelaxKeeps(checked, keys, AdjustBuffer, nz);
    KeptTrans(s.vertices, checked, Relax(checked, keys, AdjustBuffer, nz).vertices);
  }

  /** Edge step n - 1 carries over what the first n - 1 steps kept of the
      vertices and edges of s. */
  lemma DragEdgeExtends(s: Scene, prev: Scene, keys: seq<string>, n: nat, dragged: Option<string>,
                        nz: Vec3 -> Vec3, mid: Curve -> Vec3)
    requires SceneOk(prev, keys) && 0 < n <= |prev.edges| == |s.edges|
    requires Kept(s.vertices, prev.vertices)
    requires forall i :: 0 <= i < |s.edges| ==> Reshaped(s.edges[i], prev.edges[i], i < n - 1)
    ensures var r := DragEdge(prev, keys, n - 1, dragged, nz, mid);
            && Kept(s.vertices, r.vertices)
            && forall i :: 0 <= i < |s.edges| ==> Reshaped(s.edges[i], r.edges[i], i < n)
  {
    var r := DragEdge(prev, keys, n - 1, dragged, nz, mid);
    DragEdgeKeeps(prev, keys, n - 1, dragged, nz, mid);
    KeptTrans(s.vertices, prev.vertices, r.vertices);
    DragEdgeReshapes(prev, keys, n - 1, dragged, nz, mid);
    ReshapedStep(s.edges, prev.edges, r.edges, n - 1);
  }

  /** The state after the edge loop has handled edges 0 .. n-1: no vertex
      has changed kind, size, nesting or height, and nested vertices have
      not moved. */
  function DragUpTo(s: Scene, keys: seq<string>, n: nat, dragged: Option<string>,
                    nz: Vec3 -> Vec3, mid: Curve -> Vec3): (r: Scene)
    requires SceneOk(s, keys) && n <= |s.edges|
    ensures SceneOk(r, keys)
    ensures r.vertices.Keys == s.vertices.Keys
    ensures |r.edges| == |s.edges| && |r.labels| == |s.labels|
    ensures Kept(s.vertices, r.vertices)
    ensures forall i :: 0 <= i < |s.edges| ==> Reshaped(s.edges[i], r.edges[i], i < n)
  {
    if n == 0 then s
    else
      var prev := DragUpTo(s, keys, n - 1, dragged, nz, mid);
      DragEdgeExtends(s, prev, keys, n, dragged, nz, mid);
      DragEdge(prev, keys, n - 1, dragged, nz, mid)
  }

  /** `handleDrag(vertex)` as a whole; `dragged` as for `Lowered`. */
  function Drag(s: Scene, keys: seq<string>, dragged: Option<string>, nz: Vec3 -> Vec3, mid: Curve -> Vec3): (r: Scene)
    requires SceneOk(s, keys) && (dragged.Some? ==> dragged.value in s.vertices)
    ensures SceneOk(r, keys) && r.vertices.Keys == s.vertices.Keys
  {
    DragUpTo(Scene(Lowered(s.vertices, dragged), s.edges, s.labels), keys, |s.edges|, dragged, nz, mid)
  }

  /** After a drag the dragged vertex, if it is a table mesh, lies on
      z = 0; no vertex changes kind, size or nesting, no other vertex changes
      height, and nested vertices do not move. */
  lemma DragKeeps(s: Scene, keys: seq<string>, dragged: Option<string>, nz: Vec3 -> Vec3, mid: Curve -> Vec3, k: string)
    requires SceneOk(s, keys) && (dragged.Some? ==> dragged.value in s.vertices) && k in s.vertices
    ensures var after := Drag(s, keys, dragged, nz, mid).vertices[k];
            var before := s.vertices[k];
            && after.kind == before.kind && after.size == before.size && after.nested == before.nested
            && after.position.z == (if dragged == Some(k) then 0.0 else before.position.z)
            && (before.nested && dragged != Some(k) ==> after == before)
  {
    var lowered := Scene(Lowered(s.vertices, dragged), s.edges, s.labels);
    assert KeptEntry(lowered.vertices[k], Drag(s, keys, dragged, nz, mid).vertices[k]);
  }

  /** One edge step re-anchors edge e between the anchors `findClosestEdge`
      picks for its two vertices, keeping its class, interior points and
      vertex ids, and leaves every other edge alone. */
  lemma DragEdgeEdges(s: Scene, keys: seq<string>, e: nat, dragged: Option<string>,
                      nz: Vec3 -> Vec3, mid: Curve -> Vec3)
    requires SceneOk(s, keys) && e < |s.edges|
    ensures var r := DragEdge(s, keys, e, dragged, nz, mid);
            var edge := s.edges[e];
            var ends := ClosestAnchors(EdgePositions(s.vertices[edge.first]),
                                       EdgePositions(s.vertices[edge.second]), dragged.Some? && dragged.value == edge.first);
            && r.edges[e].first == edge.first && r.edges[e].second == edge.second
            && SameKind(r.edges[e].curve, edge.curve) && Interior(r.edges[e].curve) == Interior(edge.curve)
            && Start(r.edges[e].curve) == Some(ends.0) && End(r.edges[e].curve) == Some(ends.1)
            && (forall i :: 0 <= i < |s.edges| && i != e ==> r.edges[i] == s.edges[i])
  {
  }

  /** One edge step leaves the labels as `updateEdgePositions` computes them
      from the new curves and positions, whatever the step did before. */
  lemma DragEdgeLabels(s: Scene, keys: seq<string>, e: nat, dragged: Option<string>,
                       nz: Vec3 -> Vec3, mid: Curve -> Vec3)
    requires SceneOk(s, keys) && e < |s.edges|
    ensures var r := DragEdge(s, keys, e, dragged, nz, mid);
            r.labels == Relabel(s.labels, r.edges, r.vertices, keys, mid)
  {
    var r := DragEdge(s, keys, e, dragged, nz, mid);
    var checked := Relax(s.vertices, keys, CheckBuffer, nz).vertices;
    var adjusted := Relax(checked, keys, AdjustBuffer, nz);
    if adjusted.moved {
      RelabelOverwrites(s.labels, r.edges, r.edges, adjusted.vertices, r.vertices, keys, mid);
    }
  }

  /** After a drag over at least one edge, every label is the one
      `updateEdgePositions` computes from the final curves and positions. */
  lemma {:induction false} DragUpToLabels(s: Scene, keys: seq<string>, n: nat, dragged: Option<string>,
                                          nz: Vec3 -> Vec3, mid: Curve -> Vec3)
    requires SceneOk(s, keys) && 0 < n <= |s.edges|
    ensures var r := DragUpTo(s, keys, n, dragged, nz, mid);
            r.labels == Relabel(s.labels, r.edges, r.vertices, keys, mid)
  {
    var prev := DragUpTo(s, keys, n - 1, dragged, nz, mid);
    var r := DragEdge(prev, keys, n - 1, dragged, nz, mid);
    assert r == DragUpTo(s, keys, n, dragged, nz, mid);
    DragEdgeLabels(prev, keys, n - 1, dragged, nz, mid);
    if n > 1 {
      DragUpToLabels(s, keys, n - 1, dragged, nz, mid);
      LabelsChain(s.labels, prev, r, keys, mid);
    }
  }

  /** Labels recomputed from `prev` and then from `r` are those computed
      from `r` alone. */
  lemma LabelsChain(base: seq<Vec3>, prev: Scene, r: Scene, keys: seq<string>, mid: Curve -> Vec3)
    requires Covers(prev.vertices, keys) && Covers(r.vertices, keys) && |prev.edges| == |r.edges|
    requires prev.labels == Relabel(base, prev.edges, prev.vertices, keys, mid)
    requires r.labels == Relabel(prev.labels, r.edges, r.vertices, keys, mid)
    ensures r.labels == Relabel(base, r.edges, r.vertices, keys, mid)
  {
    RelabelOverwrites(base, prev.edges, r.edges, prev.vertices, r.vertices, keys, mid);
  }

  /** A drag re-anchors every edge, keeping its vertices, class and
      interior points; its labels depend only on the final curves and
      positions; with no edge, nothing but the dragged vertex's height
      changes. Where each edge ends is stated by `DragEdgeFinal`. */
  lemma DragResult(s: Scene, keys: seq<string>, dragged: Option<string>, nz: Vec3 -> Vec3, mid: Curve -> Vec3)
    requires SceneOk(s, keys) && (dragged.Some? ==> dragged.value in s.vertices)
    ensures var r := Drag(s, keys, dragged, nz, mid);
            && |r.edges| == |s.edges| && |r.labels| == |s.labels|
            && (forall i :: 0 <= i < |s.edges| ==> Reshaped(s.edges[i], r.edges[i], true))
            && (|s.edges| > 0 ==> r.labels == Relabel(s.labels, r.edges, r.vertices, keys, mid))
            && (|s.edges| == 0 ==> r == Scene(Lowered(s.vertices, dragged), s.edges, s.labels))
  {
    var lowered := Scene(Lowered(s.vertices, dragged), s.edges, s.labels);
    if |s.edges| > 0 {
      DragUpToLabels(lowered, keys, |s.edges|, dragged, nz, mid);
    }
  }

  /** Edge i keeps, to the end of the edge loop, what iteration i (the
      one that takes i iterations to j = i + 1) made of it. */
  lemma DragUpToEdge(s: Scene, keys: seq<string>, n: nat, dragged: Option<string>,
                      nz: Vec3 -> Vec3, mid: Curve -> Vec3, i: nat, j: nat)
    requires SceneOk(s, keys) && j == i + 1 && j <= n <= |s.edges|
    ensures DragUpTo(s, keys, n, dragged, nz, mid).edges[i] == DragUpTo(s, keys, j, dragged, nz, mid).edges[i]
  {
    if n != j {
      DragUpToEdge(s, keys, n - 1, dragged, nz, mid, i, j);
      DragUpToLater(s, keys, n, dragged, nz, mid, i);
    }
  }

  /** Iteration i re-anchors edge i between the anchors `findClosestEdge`
      picks for its two vertices as the first i iterations left them. */
  lemma DragUpToNext(s: Scene, keys: seq<string>, i: nat, dragged: Option<string>,
                     nz: Vec3 -> Vec3, mid: Curve -> Vec3)
    requires SceneOk(s, keys) && i < |s.edges|
    ensures var before := DragUpTo(s, keys, i, dragged, nz, mid);
            var edge := s.edges[i];
            var ends := ClosestAnchors(EdgePositions(before.vertices[edge.first]),
                                       EdgePositions(before.vertices[edge.second]), dragged.Some? && dragged.value == edge.first);
            var r := DragUpTo(s, keys, i + 1, dragged, nz, mid).edges[i];
            && r.first == edge.first && r.second == edge.second
            && SameKind(r.curve, edge.curve) && Interior(r.curve) == Interior(edge.curve)
            && Start(r.curve) == Some(ends.0) && End(r.curve) == Some(ends.1)
  {
    DragEdgeEdges(DragUpTo(s, keys, i, dragged, nz, mid), keys, i, dragged, nz, mid);
  }

  /** Iteration n - 1 leaves every earlier edge as it was. */
  lemma DragUpToLater(s: Scene, keys: seq<string>, n: nat, dragged: Option<string>,
                      nz: Vec3 -> Vec3, mid: Curve -> Vec3, i: nat)
    requires SceneOk(s, keys) && i + 1 < n <= |s.edges|
    ensures DragUpTo(s, keys, n, dragged, nz, mid).edges[i] == DragUpTo(s, keys, n - 1, dragged, nz, mid).edges[i]
  {
    var prev := DragUpTo(s, keys, n - 1, dragged, nz, mid);
    DragEdgeReshapes(prev, keys, n - 1, dragged, nz, mid);
  }

  /** After a drag, edge i runs between the anchors `findClosestEdge` picks
      for its two vertices as they stood when the loop reached it, the
      first vertex being the dragged one exactly when it is the table mesh
      `handleDrag` was given; its vertices, class and interior points are
      its own. */
  lemma DragEdgeFinal(s: Scene, keys: seq<string>, dragged: Option<string>,
                      nz: Vec3 -> Vec3, mid: Curve -> Vec3, i: nat)
    requires SceneOk(s, keys) && (dragged.Some? ==> dragged.value in s.vertices) && i < |s.edges|
    ensures var before := DragUpTo(Scene(Lowered(s.vertices, dragged), s.edges, s.labels), keys, i, dragged, nz, mid);
            var edge := s.edges[i];
            var ends := ClosestAnchors(EdgePositions(before.vertices[edge.first]),
                                       EdgePositions(before.vertices[edge.second]), dragged.Some? && dragged.value == edge.first);
            var r := Drag(s, keys, dragged, nz, mid).edges[i];
            && r.first == edge.first && r.second == edge.second
            && SameKind(r.curve, edge.curve) && Interior(r.curve) == Interior(edge.curve)
            && Start(r.curve) == Some(ends.0) && End(r.curve) == Some(ends.1)
  {
    var lowered := Scene(Lowered(s.vertices, dragged), s.edges, s.labels);
    DragUpToEdge(lowered, keys, |s.edges|, dragged, nz, mid, i, i + 1);
    DragUpToNext(lowered, keys, i, dragged, nz, mid);
  }

  /** `handleDrag` given a JSON vertex record rather than a table mesh, as
      after loading and at the end of a drag: no vertex changes height,
      kind, size or nesting, nested vertices stay put, and every edge is
      anchored from its second vertex. */
  lemma DragUnnamed(s: Scene, keys: seq<string>, nz: Vec3 -> Vec3, mid: Curve -> Vec3, i: nat)
    requires SceneOk(s, keys) && i < |s.edges|
    ensures Kept(s.vertices, Drag(s, keys, None, nz, mid).vertices)
    ensures var before := DragUpTo(s, keys, i, None, nz, mid);
            var edge := s.edges[i];
            var ends := ClosestAnchors(EdgePositions(before.vertices[edge.first]),
                                       EdgePositions(before.vertices[edge.second]), false);
            var r := Drag(s, keys, None, nz, mid).edges[i];
            Start(r.curve) == Some(ends.0) && End(r.curve) == Some(ends.1)
  {
    DragEdgeFinal(s, keys, None, nz, mid, i);
  }

  class Graph {
    /** `vertices`: the vertex meshes by id. */
    var vertices: map<string, Mesh>
    /** `Object.keys(vertices)`, in the order every pass visits them. */
    const keys: seq<string>
    /** `edges`: each edge's curve and the ids it joins. */
    var edges: seq<Edge>
    /** The positions of the `edgeTexts` meshes, by index. */
    var labels: seq<Vec3>

    ghost predicate Valid()
      reads this
    {
      SceneOk(Scene(vertices, edges, labels), keys)
    }

    constructor (vertices: map<string, Mesh>, keys: seq<string>, edges: seq<Edge>, labels: seq<Vec3>)
      requires SceneOk(Scene(vertices, edges, labels), keys)
      ensures Valid()
      ensures this.vertices == vertices && this.keys == keys
      ensures this.edges == edges && this.labels == labels
    {
      this.vertices := vertices;
      this.keys := keys;
      this.edges := edges;
      this.labels := labels;
    }

    /** The inner `forEach` of `updateEdgePositions`: the label of a curve
        with midpoint `midPoint`, compared with every vertex in key order. */
    static method PlaceLabel(midPoint: Vec3, vertices: map<string, Mesh>, keys: seq<string>)
        returns (textPosition: Vec3)
      requires Covers(vertices, keys)
      ensures textPosition == LabelAfter(midPoint, Values(vertices, keys), |keys|)
    {
      textPosition := Vec3(midPoint.x, midPoint.y, LabelZ);
      ghost var vs := Values(vertices, keys);
      for n := 0 to |keys|
        invariant textPosition == LabelAfter(midPoint, vs, n)
      {
        var vertex := vertices[keys[n]];
        assert vs[n] == vertex;
        var deltaX := Abs(textPosition.x - vertex.position.x);
        var deltaY := Abs(textPosition.y - vertex.position.y);
        var deltaZ := Abs(textPosition.z - vertex.position.z);
        if deltaX < LabelBuffer && deltaY < LabelBuffer && deltaZ < LabelBuffer {
          textPosition := Vec3(midPoint.x, midPoint.y, vertex.position.z + vertex.size.height + LabelBuffer);
        }
      }
    }

    /** `updateEdgePositions`: every label that has an edge is put over its
        curve's midpoint at height 2 and raised past the vertices it is
        near; labels without an edge stay where they are. */
    method UpdateEdgePositions(mid: Curve -> Vec3)
      requires Valid()
      modifies this
      ensures vertices == old(vertices) && edges == old(edges)
      ensures Valid()
      ensures labels == Relabel(old(labels), edges, vertices, keys, mid)
    {
      var texts := labels;
      ghost var target := Relabel(labels, edges, vertices, keys, mid);
      for index := 0 to |edges|
        modifies {}
        invariant |texts| == |target|
        invariant forall i :: 0 <= i < |texts| ==> texts[i] == if i < index then target[i] else labels[i]
      {
        if index < |texts| {
          var textPosition := PlaceLabel(mid(edges[index].curve), vertices, keys);
          texts := texts[index := textPosition];
        }
      }
      labels := texts;
    }

    /** The body of both overlap loops for the pair (k1, k2): skip it when
        either vertex is nested or they do not overlap, otherwise push the
        first vertex by `diff * move` and then, `diff` having been scaled in
        place, the second one back by `diff * move * move`. */
    static method VisitPair(table: map<string, Mesh>, k1: string, k2: string, buffer: real, nz: Vec3 -> Vec3)
        returns (after: map<string, Mesh>, pushed: bool)
      requires k1 in table && k2 in table && k1 != k2
      ensures Sweep(after, pushed) == PairStep(Sweep(table, false), k1, k2, buffer, nz)
      ensures !pushed ==> after == table
    {
      after, pushed := table, false;
      var obj1 := table[k1];
      var obj2 := table[k2];
      if obj1.nested || obj2.nested {
        return;
      }
      var minDistanceX := obj1.size.width + buffer;
      var minDistanceY := obj1.size.height + buffer;
      var deltaX := Abs(obj1.position.x - obj2.position.x);
      var deltaY := Abs(obj1.position.y - obj2.position.y);
      if deltaX < minDistanceX && deltaY < minDistanceY {
        var diff := nz(Minus(obj1.position, obj2.position));
        var moveAmount := Vec3((minDistanceX - deltaX) * 0.5, (minDistanceY - deltaY) * 0.5, 0.0);
        assert moveAmount == MoveAmount(obj1, obj2, buffer);
        diff := Times(diff, moveAmount);
        after := after[k1 := obj1.(position := Plus(obj1.position, diff))];
        diff := Times(diff, moveAmount);
        after := after[k2 := obj2.(position := Minus(obj2.position, diff))];
        pushed := true;
      }
    }

    /** The inner loop of `checkOverlap` for row i: the pairs (i, j), j > i. */
    static method RelaxRow(table: map<string, Mesh>, ids: seq<string>, i: nat, buffer: real, nz: Vec3 -> Vec3)
        returns (after: map<string, Mesh>, ghost moved: bool)
      requires i < |ids| && Distinct(ids) && Covers(table, ids)
      ensures after == Row(Sweep(table, false), ids, i, |ids|, buffer, nz).vertices
      ensures moved == Row(Sweep(table, false), ids, i, |ids|, buffer, nz).moved
    {
      after, moved := table, false;
      for j := i + 1 to |ids|
        invariant after.Keys == table.Keys
        invariant Sweep(after, moved) == Row(Sweep(table, false), ids, i, j, buffer, nz)
      {
        var next, pushed := VisitPair(after, ids[i], ids[j], buffer, nz);
        RowNext(Sweep(table, false), ids, i, j, buffer, nz, after, moved, next, pushed);
        after, moved := next, moved || pushed;
      }
    }

    /** The outer loop of `checkOverlap`: the rows i = 0, 1, ... in order. */
    static method RelaxAll(table: map<string, Mesh>, ids: seq<string>, buffer: real, nz: Vec3 -> Vec3)
        returns (after: map<string, Mesh>)
      requires Distinct(ids) && Covers(table, ids)
      ensures after == Relax(table, ids, buffer, nz).vertices
    {
      after := table;
      ghost var moved := false;
      ghost var start := Sweep(table, false);
      for i := 0 to |ids|
        invariant after.Keys == table.Keys
        invariant Sweep(after, moved) == Pass(start, ids, i, buffer, nz)
      {
        ghost var before := Sweep(after, moved);
        ghost var pushed;
        after, pushed := RelaxRow(after, ids, i, buffer, nz);
        RowFlag(before, ids, i, |ids|, buffer, nz);
        moved := moved || pushed;
      }
    }

    /** `checkOverlap`: one pass over the pairs i < j of the key list with
        buffer 1. */
    method CheckOverlap(nz: Vec3 -> Vec3)
      requires Valid()
      modifies this
      ensures edges == old(edges) && labels == old(labels)
      ensures vertices == Relax(old(vertices), keys, CheckBuffer, nz).vertices
      ensures Valid()
    {
      var table := RelaxAll(vertices, keys, CheckBuffer, nz);
      SameKeysSceneOk(Scene(vertices, edges, labels), table, keys);
      vertices := table;
    }

    /** The body of the inner loop of `checkAndAdjustOverlap` for the pair
        (i, j): visit it with buffer 0.05 and, when it moved, recompute the
        labels. `start` and `original` are the table and the labels the row
        started from. */
    method AdjustPair(i: nat, j: nat, nz: Vec3 -> Vec3, mid: Curve -> Vec3, ghost start: map<string, Mesh>,
                      ghost original: seq<Vec3>, ghost moved: bool) returns (ghost moved': bool)
      requires Valid() && i < j < |keys| && Covers(start, keys)
      requires Sweep(vertices, moved) == Row(Sweep(start, false), keys, i, j, AdjustBuffer, nz)
      requires labels == if moved then Relabel(original, edges, vertices, keys, mid) else original
      modifies this
      ensures edges == old(edges) && Valid()
      ensures Sweep(vertices, moved') == Row(Sweep(start, false), keys, i, j + 1, AdjustBuffer, nz)
      ensures labels == if moved' then Relabel(original, edges, vertices, keys, mid) else original
    {
      ghost var table := vertices;
      var after, pushed := VisitPair(vertices, keys[i], keys[j], AdjustBuffer, nz);
      RowNext(Sweep(start, false), keys, i, j, AdjustBuffer, nz, table, moved, after, pushed);
      if pushed {
        SameKeysSceneOk(Scene(vertices, edges, labels), after, keys);
        vertices := after;
        UpdateEdgePositions(mid);
        if moved {
          RelabelOverwrites(original, edges, edges, table, vertices, keys, mid);
        }
      }
      moved' := moved || pushed;
    }

    /** The inner loop of `checkAndAdjustOverlap` for row i: the pairs
        (i, j), j > i, with buffer 0.05, recomputing the labels after every
        move. */
    method AdjustRow(i: nat, nz: Vec3 -> Vec3, mid: Curve -> Vec3) returns (ghost moved: bool)
      requires Valid() && i < |keys|
      modifies this
      ensures edges == old(edges)
      ensures Valid()
      ensures Sweep(vertices, moved) == Row(Sweep(old(vertices), false), keys, i, |keys|, AdjustBuffer, nz)
      ensures labels == if moved then Relabel(old(labels), edges, vertices, keys, mid) else old(labels)
    {
      moved := false;
      for j := i + 1 to |keys|
        invariant edges == old(edges) && Valid()
        invariant Sweep(vertices, moved) == Row(Sweep(old(vertices), false), keys, i, j, AdjustBuffer, nz)
        invariant labels == if moved then Relabel(old(labels), edges, vertices, keys, mid) else old(labels)
      {
        moved := AdjustPair(i, j, nz, mid, old(vertices), old(labels), moved);
      }
    }

    /** `checkAndAdjustOverlap`: one pass over the pairs i < j of the key
        list with buffer 0.05; after it the labels are those
        `updateEdgePositions` gives for the new positions when some pair
        moved, and untouched otherwise. */
    method CheckAndAdjustOverlap(nz: Vec3 -> Vec3, mid: Curve -> Vec3)
      requires Valid()
      modifies this
      ensures edges == old(edges)
      ensures Valid()
      ensures vertices == Relax(old(vertices), keys, AdjustBuffer, nz).vertices
      ensures labels == if Relax(old(vertices), keys, AdjustBuffer, nz).moved
                        then Relabel(old(labels), edges, vertices, keys, mid) else old(labels)
    {
      ghost var moved := AdjustRows(nz, mid);
    }

    /** The outer loop of `checkAndAdjustOverlap`: the rows i = 0, 1, ... in
        order. */
    method AdjustRows(nz: Vec3 -> Vec3, mid: Curve -> Vec3) returns (ghost moved: bool)
      requires Valid()
      modifies this
      ensures edges == old(edges) && Valid()
      ensures Sweep(vertices, moved) == Pass(Sweep(old(vertices), false), keys, |keys|, AdjustBuffer, nz)
      ensures labels == if moved then Relabel(old(labels), edges, vertices, keys, mid) else old(labels)
    {
      moved := false;
      ghost var start := Sweep(vertices, false);
      for i := 0 to |keys|
        invariant edges == old(edges) && Valid()
        invariant Sweep(vertices, moved) == Pass(start, keys, i, AdjustBuffer, nz)
        invariant labels == if moved then Relabel(old(labels), edges, vertices, keys, mid) else old(labels)
      {
        moved := AdjustStep(i, nz, mid, start, old(labels), moved);
      }
    }

    /** The body of the outer loop of `checkAndAdjustOverlap` for row i:
        `start` is the table and `original` the labels the pass started
        from; the labels stay `original` until some pair has moved. */
    method AdjustStep(i: nat, nz: Vec3 -> Vec3, mid: Curve -> Vec3, ghost start: Sweep,
                      ghost original: seq<Vec3>, ghost moved: bool) returns (ghost moved': bool)
      requires Valid() && i < |keys| && Covers(start.vertices, keys)
      requires Sweep(vertices, moved) == Pass(start, keys, i, AdjustBuffer, nz)
      requires labels == if moved then Relabel(original, edges, vertices, keys, mid) else original
      modifies this
      ensures edges == old(edges) && Valid()
      ensures Sweep(vertices, moved') == Pass(start, keys, i + 1, AdjustBuffer, nz)
      ensures labels == if moved' then Relabel(original, edges, vertices, keys, mid) else original
    {
      ghost var before := Sweep(vertices, moved);
      ghost var pushed := AdjustRow(i, nz, mid);
      RowFlag(before, keys, i, |keys|, AdjustBuffer, nz);
      if moved && pushed {
        RelabelOverwrites(original, edges, edges, before.vertices, vertices, keys, mid);
      } else if !pushed {
        RowStill(Sweep(before.vertices, false), keys, i, |keys|, AdjustBuffer, nz);
      }
      moved' := moved || pushed;
    }
  
    /** The body of the edge loop of `handleDrag` for edge e: re-anchor its
        curve between the closest anchors of its two vertices (or between
        their centres when no anchor is found), run both overlap passes and
        recompute the labels. */
    method DragStep(e: nat, dragged: Option<string>, nz: Vec3 -> Vec3, mid: Curve -> Vec3)
      requires Valid() && e < |edges|
      modifies this
      ensures Valid()
      ensures Scene(vertices, edges, labels) == DragEdge(old(Scene(vertices, edges, labels)), keys, e, dragged, nz, mid)
    {
      var edge := edges[e];
      var obj1, obj2 := vertices[edge.first], vertices[edge.second];
      var pos1, pos2 := EdgePositions(obj1), EdgePositions(obj2);
      var first, last := FindClosestEdge(pos1, pos2, dragged.Some? && dragged.value == edge.first);
      var ends := ResolveEndpoints(first, last, obj1.position, obj2.position);
      edges := edges[e := edge.(curve := WithEndpoints(edge.curve, ends.0, ends.1))];
      CheckOverlap(nz);
      CheckAndAdjustOverlap(nz, mid);
      UpdateEdgePositions(mid);
    }

    /** `handleDrag(vertex)`: put the dragged vertex back on z = 0 when it
        is a table mesh, then handle every edge in order. */
    method HandleDrag(dragged: Option<string>, nz: Vec3 -> Vec3, mid: Curve -> Vec3)
      requires Valid() && (dragged.Some? ==> dragged.value in vertices)
      modifies this
      ensures Valid()
      ensures Scene(vertices, edges, labels) == Drag(old(Scene(vertices, edges, labels)), keys, dragged, nz, mid)
    {
      if dragged.Some? {
        var v := vertices[dragged.value];
        vertices := vertices[dragged.value := v.(position := v.position.(z := 0.0))];
      }
      ghost var start := Scene(vertices, edges, labels);
      assert vertices == Lowered(old(vertices), dragged);
      SameKeysSceneOk(old(Scene(vertices, edges, labels)), vertices, keys);
      var count := |edges|;
      for e := 0 to count
        invariant Valid() && |edges| == count
        invariant Scene(vertices, edges, labels) == DragUpTo(start, keys, e, dragged, nz, mid)
      {
        DragStep(e, dragged, nz, mid);
      }
    }
  }
}
