/** The edge records `saveHyperGraph` writes (src/ob_hypergraph.js): each
    edge's own description, with its colours defaulted and its control
    points always present. */
module SaveRecords {
  import opened Common

  /** The colour written when an edge has none. */
  const DefaultEdgeColor: string := "#050505"

  /** An edge's `rendering` block as loaded: either colour may be absent. */
  datatype EdgeRendering = EdgeRendering(color: Option<string>, textColor: Option<string>)

  /** The description an edge was created from: the ids of the vertices it
      joins, its text, its curve type name, the single `controlPoint` the
      loader reads for a quadratic curve, the `controlPoints` it reads for a
      cubic one, and its rendering block, each of which may be absent. */
  datatype EdgeSource = EdgeSource(ids: seq<string>, text: Option<string>, kind: Option<string>,
                                   controlPoint: Option<Vec3>, controlPoints: Option<seq<Vec3>>,
                                   rendering: Option<EdgeRendering>)

  /** The record written for an edge: control points and both colours are
      always present. */
  datatype EdgeRecord = EdgeRecord(ids: seq<string>, text: Option<string>, kind: Option<string>,
                                   controlPoints: seq<Vec3>, color: string, textColor: string)

  /** A colour JavaScript treats as true: present and not the empty string. */
  predicate Truthy(c: Option<string>)
  {
    c.Some? && c.value != ""
  }

  /** The colour written: the given one when it is truthy, the default
      otherwise. */
  function ColorOr(c: Option<string>): (r: string)
    ensures r != ""
    ensures Truthy(c) ==> r == c.value
    ensures !Truthy(c) ==> r == DefaultEdgeColor
  {
    if Truthy(c) then c.value else DefaultEdgeColor
  }

  /** The record `saveHyperGraph` builds for one edge. */
  function SaveEdge(e: EdgeSource): (r: EdgeRecord)
    ensures r.ids == e.ids && r.text == e.text && r.kind == e.kind
    ensures e.controlPoints.Some? ==> r.controlPoints == e.controlPoints.value
    ensures e.controlPoints.None? ==> r.controlPoints == []
    ensures r.color != "" && r.textColor != ""
    ensures e.rendering.Some? && Truthy(e.rendering.value.color) ==> r.color == e.rendering.value.color.value
    ensures e.rendering.Some? && Truthy(e.rendering.value.textColor) ==> r.textColor == e.rendering.value.textColor.value
    ensures e.rendering.None? ==> r.color == DefaultEdgeColor && r.textColor == DefaultEdgeColor
  {
    var color := if e.rendering.Some? then ColorOr(e.rendering.value.color) else DefaultEdgeColor;
    var textColor := if e.rendering.Some? then ColorOr(e.rendering.value.textColor) else DefaultEdgeColor;
    var points := if e.controlPoints.Some? then e.controlPoints.value else [];
    EdgeRecord(e.ids, e.text, e.kind, points, color, textColor)
  }

  /** The records of all edges, in order. */
  function SaveEdges(es: seq<EdgeSource>): (rs: seq<EdgeRecord>)
    ensures |rs| == |es|
    ensures forall i :: 0 <= i < |es| ==> rs[i] == SaveEdge(es[i])
  {
    seq(|es|, i requires 0 <= i < |es| => SaveEdge(es[i]))
  }

  /** A saved record read back as an edge description: every field the
      record holds is present, and `controlPoint`, which the record does not
      hold, is absent. */
  function Reload(r: EdgeRecord): (e: EdgeSource)
    ensures e.ids == r.ids && e.text == r.text && e.kind == r.kind
    ensures e.controlPoint.None?
    ensures e.controlPoints == Some(r.controlPoints)
    ensures e.rendering == Some(EdgeRendering(Some(r.color), Some(r.textColor)))
  {
    EdgeSource(r.ids, r.text, r.kind, None, Some(r.controlPoints), Some(EdgeRendering(Some(r.color), Some(r.textColor))))
  }

  /** What `createEdgesFromJSON` needs to build an edge's curve without
      throwing: the single control point of a quadratic curve, and the
      first two control points of a cubic one. */
  predicate Loadable(e: EdgeSource)
  {
    && (e.kind == Some("QuadraticBezierCurve") ==> e.controlPoint.Some?)
    && (e.kind == Some("CubicBezierCurve") ==> e.controlPoints.Some? && |e.controlPoints.value| >= 2)
  }

  /** A saved quadratic edge cannot be loaded again: the record drops its
      `controlPoint`, whatever the edge held. */
  lemma SavedQuadraticNotLoadable(e: EdgeSource)
    requires e.kind == Some("QuadraticBezierCurve")
    ensures !Loadable(Reload(SaveEdge(e)))
  {
  }

  /** A cubic edge with two control points, or any edge of another type,
      loads again after saving. */
  lemma SavedOthersLoadable(e: EdgeSource)
    requires e.kind != Some("QuadraticBezierCurve")
    requires e.kind == Some("CubicBezierCurve") ==> e.controlPoints.Some? && |e.controlPoints.value| >= 2
    ensures Loadable(Reload(SaveEdge(e)))
  {
  }

  /** A record with non-empty colours is saved again unchanged once read
      back. */
  lemma ReloadSave(r: EdgeRecord)
    requires r.color != "" && r.textColor != ""
    ensures SaveEdge(Reload(r)) == r
  {
    assert Truthy(Reload(r).rendering.value.color) && Truthy(Reload(r).rendering.value.textColor);
  }

  /** Saving, reading back and saving again writes the same records. */
  lemma {:induction false} SaveIsStable(es: seq<EdgeSource>)
    ensures SaveEdges(seq(|es|, i requires 0 <= i < |es| => Reload(SaveEdges(es)[i]))) == SaveEdges(es)
  {
    var saved := SaveEdges(es);
    var again := SaveEdges(seq(|es|, i requires 0 <= i < |es| => Reload(saved[i])));
    forall i | 0 <= i < |es|
      ensures again[i] == saved[i]
    {
      ReloadSave(saved[i]);
    }
  }
}
