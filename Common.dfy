/** Values shared by every part of the layout engine: optional values,
    three.js-style 3D vectors with exact real coordinates, sizes, and the
    entry the engine keeps for each vertex mesh. */
module Common {

  datatype Option<T> = None | Some(value: T)

  /** A point or vector (three.js `Vector3`). */
  datatype Vec3 = Vec3(x: real, y: real, z: real)

  /** A vertex's `size` record. */
  datatype Size = Size(width: real, height: real)

  /** What the engine reads and updates of one vertex mesh: its shape type,
      its position, the size of the vertex it renders, and whether the vertex
      was nested inside a parent (its `parent` back-reference is set). */
  datatype Mesh = Mesh(kind: string, position: Vec3, size: Size, nested: bool)

  function Abs(r: real): (a: real)
    ensures a >= 0.0
    ensures a == r || a == -r
  {
    if r < 0.0 then -r else r
  }

  /** `Vector3.add`. */
  function Plus(a: Vec3, b: Vec3): Vec3
  {
    Vec3(a.x + b.x, a.y + b.y, a.z + b.z)
  }

  /** `Vector3.sub` / `subVectors`. */
  function Minus(a: Vec3, b: Vec3): Vec3
  {
    Vec3(a.x - b.x, a.y - b.y, a.z - b.z)
  }

  /** `Vector3.multiply`: component-wise product. */
  function Times(a: Vec3, b: Vec3): Vec3
  {
    Vec3(a.x * b.x, a.y * b.y, a.z * b.z)
  }

  /** Squared Euclidean distance: it orders pairs of points exactly as
      `Vector3.distanceTo` does, without a square root. */
  function Dist2(a: Vec3, b: Vec3): (d: real)
    ensures d >= 0.0
    ensures a == b ==> d == 0.0
  {
    var dx, dy, dz := a.x - b.x, a.y - b.y, a.z - b.z;
    assert dx * dx >= 0.0 && dy * dy >= 0.0 && dz * dz >= 0.0;
    dx * dx + dy * dy + dz * dz
  }
}
