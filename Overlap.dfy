/** One overlap-relaxation pass over the vertex table, as `checkOverlap` and
    `checkAndAdjustOverlap` run it (src/ob_hypergraph.js), written as
    functions the imperative passes in `HyperGraph` are proved against. */
module Overlap {
  import opened Common

  /** The margin `checkOverlap` keeps between vertices. */
  const CheckBuffer: real := 1.0
  /** The margin `checkAndAdjustOverlap` keeps between vertices. */
  const AdjustBuffer: real := 0.05

  /** The overlap test: both centre distances are below the FIRST vertex's
      size plus the buffer. The second vertex's size plays no part. */
  predicate Overlapping(a: Mesh, b: Mesh, buffer: real)
  {
    && Abs(a.position.x - b.position.x) < a.size.width + buffer
    && Abs(a.position.y - b.position.y) < a.size.height + buffer
  }

  /** `moveAmount`: half of what is missing on each axis, nothing on z. */
  function MoveAmount(a: Mesh, b: Mesh, buffer: real): (m: Vec3)
    ensures m.z == 0.0
    ensures Overlapping(a, b, buffer) ==> m.x > 0.0 && m.y > 0.0
  {
    Vec3((a.size.width + buffer - Abs(a.position.x - b.position.x)) * 0.5,
         (a.size.height + buffer - Abs(a.position.y - b.position.y)) * 0.5,
         0.0)
  }

  /** The two new positions of an overlapping pair, given the normalised
      direction `dir` from the second centre to the first. `diff.multiply`
      scales `diff` in place, so the first vertex moves by `dir * move` and
      the second one, afterwards, by `dir * move * move` in the other
      direction. */
  function Separate(a: Mesh, b: Mesh, buffer: real, dir: Vec3): (r: (Vec3, Vec3))
    ensures r.0.z == a.position.z && r.1.z == b.position.z
  {
    var move := MoveAmount(a, b, buffer);
    var scaled := Times(dir, move);
    (Plus(a.position, scaled), Minus(b.position, Times(scaled, move)))
  }

  /** The state of a pass: the vertex table and whether some pair moved. */
  datatype Sweep = Sweep(vertices: map<string, Mesh>, moved: bool)

  /** Every key of the list is in the table. */
  ghost predicate Covers(vertices: map<string, Mesh>, keys: seq<string>)
  {
    forall n :: 0 <= n < |keys| ==> keys[n] in vertices
  }

  /** No key appears twice (`Object.keys`). */
  ghost predicate Distinct(keys: seq<string>)
  {
    forall m, n :: 0 <= m < n < |keys| ==> keys[m] != keys[n]
  }

  /** What a pass never changes about one vertex: its shape type, size,
      nesting and z, and nothing at all when it is nested. */
  predicate KeptEntry(before: Mesh, after: Mesh)
  {
    && after.kind == before.kind
    && after.size == before.size
    && after.nested == before.nested
    && after.position.z == before.position.z
    && (before.nested ==> after.position == before.position)
  }

  /** Keeping an entry twice keeps it. */
  lemma KeptEntryTrans(a: Mesh, b: Mesh, c: Mesh)
    requires KeptEntry(a, b) && KeptEntry(b, c)
    ensures KeptEntry(a, c)
  {
  }

  /** The same vertices, each kept as `KeptEntry` says. */
  ghost predicate Kept(before: map<string, Mesh>, after: map<string, Mesh>)
  {
    && after.Keys == before.Keys
    && (forall k :: k in before ==> KeptEntry(before[k], after[k]))
  }

  /** Keeping a table twice keeps it. */
  lemma KeptTrans(a: map<string, Mesh>, b: map<string, Mesh>, c: map<string, Mesh>)
    requires Kept(a, b) && Kept(b, c)
    ensures Kept(a, c)
  {
    forall k | k in a
      ensures KeptEntry(a[k], c[k])
    {
      KeptEntryTrans(a[k], b[k], c[k]);
    }
  }

  /** One visit of the pair (k1, k2): nested vertices and pairs that do not
      overlap are skipped; an overlapping pair is pushed apart. */
  function PairStep(s: Sweep, k1: string, k2: string, buffer: real, nz: Vec3 -> Vec3): (r: Sweep)
    requires k1 in s.vertices && k2 in s.vertices && k1 != k2
    ensures r.vertices.Keys == s.vertices.Keys
  {
    var a, b := s.vertices[k1], s.vertices[k2];
    if a.nested || b.nested || !Overlapping(a, b, buffer) then s
    else
      var ps := Separate(a, b, buffer, nz(Minus(a.position, b.position)));
      Sweep(s.vertices[k1 := a.(position := ps.0)][k2 := b.(position := ps.1)], true)
  }

  /** A visit changes only the positions of the two vertices visited, keeps
      every vertex as `KeptEntry` says, and reports a move exactly when the
      pair was pushed apart. */
  lemma PairStepKeeps(s: Sweep, k1: string, k2: string, buffer: real, nz: Vec3 -> Vec3, k: string)
    requires k1 in s.vertices && k2 in s.vertices && k1 != k2 && k in s.vertices
    ensures var r := PairStep(s, k1, k2, buffer, nz);
            && KeptEntry(s.vertices[k], r.vertices[k])
            && (k != k1 && k != k2 ==> r.vertices[k] == s.vertices[k])
            && (r.moved <==> s.moved || (!s.vertices[k1].nested && !s.vertices[k2].nested
                                         && Overlapping(s.vertices[k1], s.vertices[k2], buffer)))
  {
  }

  /** A visit that skips the pair changes nothing. Definitional: it restates
      the skipping branch of `PairStep`. */
  lemma PairStepSkips(s: Sweep, k1: string, k2: string, buffer: real, nz: Vec3 -> Vec3)
    requires k1 in s.vertices && k2 in s.vertices && k1 != k2
    requires s.vertices[k1].nested || s.vertices[k2].nested || !Overlapping(s.vertices[k1], s.vertices[k2], buffer)
    ensures PairStep(s, k1, k2, buffer, nz) == s
  {
  }

  /** A visit that pushes the pair apart writes the first vertex, then the
      second, and records the move. Definitional: it restates the moving
      branch of `PairStep`. */
  lemma PairStepMoves(s: Sweep, k1: string, k2: string, buffer: real, nz: Vec3 -> Vec3)
    requires k1 in s.vertices && k2 in s.vertices && k1 != k2
    requires !s.vertices[k1].nested && !s.vertices[k2].nested
    requires Overlapping(s.vertices[k1], s.vertices[k2], buffer)
    ensures var a, b := s.vertices[k1], s.vertices[k2];
            var move := MoveAmount(a, b, buffer);
            var scaled := Times(nz(Minus(a.position, b.position)), move);
            PairStep(s, k1, k2, buffer, nz)
            == Sweep(s.vertices[k1 := a.(position := Plus(a.position, scaled))]
                              [k2 := b.(position := Minus(b.position, Times(scaled, move)))], true)
  {
  }

  /** A visit moves the same way whatever the flag it starts with. */
  lemma PairStepFlag(s: Sweep, k1: string, k2: string, buffer: real, nz: Vec3 -> Vec3)
    requires k1 in s.vertices && k2 in s.vertices && k1 != k2
    ensures var clean := PairStep(Sweep(s.vertices, false), k1, k2, buffer, nz);
            PairStep(s, k1, k2, buffer, nz) == Sweep(clean.vertices, s.moved || clean.moved)
  {
  }

  /** The inner loop of row i after visiting the pairs (i, i+1) .. (i, j-1). */
  function Row(s: Sweep, keys: seq<string>, i: nat, j: nat, buffer: real, nz: Vec3 -> Vec3): (r: Sweep)
    requires i < j <= |keys| && Distinct(keys) && Covers(s.vertices, keys)
    ensures r.vertices.Keys == s.vertices.Keys
    decreases j
  {
    if j == i + 1 then s
    else PairStep(Row(s, keys, i, j - 1, buffer, nz), keys[i], keys[j - 1], buffer, nz)
  }

  /** The outer loop after rows 0 .. n-1. */
  function Pass(s: Sweep, keys: seq<string>, n: nat, buffer: real, nz: Vec3 -> Vec3): (r: Sweep)
    requires n <= |keys| && Distinct(keys) && Covers(s.vertices, keys)
    ensures r.vertices.Keys == s.vertices.Keys
  {
    if n == 0 then s
    else Row(Pass(s, keys, n - 1, buffer, nz), keys, n - 1, |keys|, buffer, nz)
  }

  /** A whole pass over the key list, starting with nothing moved. */
  function Relax(vertices: map<string, Mesh>, keys: seq<string>, buffer: real, nz: Vec3 -> Vec3): (r: Sweep)
    requires Distinct(keys) && Covers(vertices, keys)
    ensures r.vertices.Keys == vertices.Keys
  {
    Pass(Sweep(vertices, false), keys, |keys|, buffer, nz)
  }

  /** A row moves the same vertices whatever the flag it starts with, and
      reports a move when it started with one or made one. */
  lemma {:induction false} RowFlag(s: Sweep, keys: seq<string>, i: nat, j: nat, buffer: real, nz: Vec3 -> Vec3)
    requires i < j <= |keys| && Distinct(keys) && Covers(s.vertices, keys)
    ensures var clean := Row(Sweep(s.vertices, false), keys, i, j, buffer, nz);
            Row(s, keys, i, j, buffer, nz) == Sweep(clean.vertices, s.moved || clean.moved)
    decreases j
  {
    if j > i + 1 {
      RowFlag(s, keys, i, j - 1, buffer, nz);
      var q := Row(s, keys, i, j - 1, buffer, nz);
      var c := Row(Sweep(s.vertices, false), keys, i, j - 1, buffer, nz);
      PairStepFlag(q, keys[i], keys[j - 1], buffer, nz);
      PairStepFlag(c, keys[i], keys[j - 1], buffer, nz);
    }
  }

  /** One more visit extends a row: the loop step of the pair loops. */
  lemma RowNext(s: Sweep, keys: seq<string>, i: nat, j: nat, buffer: real, nz: Vec3 -> Vec3,
                table: map<string, Mesh>, moved: bool, after: map<string, Mesh>, pushed: bool)
    requires i < j < |keys| && Distinct(keys) && Covers(s.vertices, keys)
    requires Sweep(table, moved) == Row(s, keys, i, j, buffer, nz)
    requires Sweep(after, pushed) == PairStep(Sweep(table, false), keys[i], keys[j], buffer, nz)
    ensures Sweep(after, moved || pushed) == Row(s, keys, i, j + 1, buffer, nz)
  {
    PairStepFlag(Sweep(table, moved), keys[i], keys[j], buffer, nz);
  }

  /** A row that reports no move leaves the table as it was. */
  lemma {:induction false} RowStill(s: Sweep, keys: seq<string>, i: nat, j: nat, buffer: real, nz: Vec3 -> Vec3)
    requires i < j <= |keys| && Distinct(keys) && Covers(s.vertices, keys)
    requires !Row(s, keys, i, j, buffer, nz).moved
    ensures Row(s, keys, i, j, buffer, nz) == s
    decreases j
  {
    if j > i + 1 {
      var q := Row(s, keys, i, j - 1, buffer, nz);
      PairStepKeeps(q, keys[i], keys[j - 1], buffer, nz, keys[i]);
      RowStill(s, keys, i, j - 1, buffer, nz);
    }
  }

  lemma {:induction false} RowKeepsAt(s: Sweep, keys: seq<string>, i: nat, j: nat, buffer: real,
                                      nz: Vec3 -> Vec3, k: string)
    requires i < j <= |keys| && Distinct(keys) && Covers(s.vertices, keys) && k in s.vertices
    ensures KeptEntry(s.vertices[k], Row(s, keys, i, j, buffer, nz).vertices[k])
    decreases j
  {
    if j > i + 1 {
      var q := Row(s, keys, i, j - 1, buffer, nz);
      RowKeepsAt(s, keys, i, j - 1, buffer, nz, k);
      PairStepKeeps(q, keys[i], keys[j - 1], buffer, nz, k);
    }
  }

  lemma {:induction false} PassKeepsAt(s: Sweep, keys: seq<string>, n: nat, buffer: real,
                                       nz: Vec3 -> Vec3, k: string)
    requires n <= |keys| && Distinct(keys) && Covers(s.vertices, keys) && k in s.vertices
    ensures KeptEntry(s.vertices[k], Pass(s, keys, n, buffer, nz).vertices[k])
  {
    if n > 0 {
      PassKeepsAt(s, keys, n - 1, buffer, nz, k);
      RowKeepsAt(Pass(s, keys, n - 1, buffer, nz), keys, n - 1, |keys|, buffer, nz, k);
    }
  }

  /** A whole pass keeps every vertex's type, size, nesting and z, and leaves
      nested vertices where they are. */
  lemma RelaxKeeps(vertices: map<string, Mesh>, keys: seq<string>, buffer: real, nz: Vec3 -> Vec3)
    requires Distinct(keys) && Covers(vertices, keys)
    ensures Kept(vertices, Relax(vertices, keys, buffer, nz).vertices)
  {
    forall k | k in vertices
      ensures KeptEntry(vertices[k], Relax(vertices, keys, buffer, nz).vertices[k])
    {
      PassKeepsAt(Sweep(vertices, false), keys, |keys|, buffer, nz, k);
    }
  }

  /** No two non-nested vertices, in key order, overlap. */
  ghost predicate Separated(vertices: map<string, Mesh>, keys: seq<string>, buffer: real)
    requires Covers(vertices, keys)
  {
    forall m, n :: 0 <= m < n < |keys| && !vertices[keys[m]].nested && !vertices[keys[n]].nested
      ==> !Overlapping(vertices[keys[m]], vertices[keys[n]], buffer)
  }

  lemma {:induction false} RowIdle(s: Sweep, keys: seq<string>, i: nat, j: nat, buffer: real, nz: Vec3 -> Vec3)
    requires i < j <= |keys| && Distinct(keys) && Covers(s.vertices, keys)
    requires Separated(s.vertices, keys, buffer)
    ensures Row(s, keys, i, j, buffer, nz) == s
    decreases j
  {
    if j > i + 1 {
      RowIdle(s, keys, i, j - 1, buffer, nz);
      var q := Row(s, keys, i, j - 1, buffer, nz);
      assert q == s;
      assert !Overlapping(q.vertices[keys[i]], q.vertices[keys[j - 1]], buffer)
          || q.vertices[keys[i]].nested || q.vertices[keys[j - 1]].nested;
    }
  }

  lemma {:induction false} PassIdle(s: Sweep, keys: seq<string>, n: nat, buffer: real, nz: Vec3 -> Vec3)
    requires n <= |keys| && Distinct(keys) && Covers(s.vertices, keys)
    requires Separated(s.vertices, keys, buffer)
    ensures Pass(s, keys, n, buffer, nz) == s
  {
    if n > 0 {
      PassIdle(s, keys, n - 1, buffer, nz);
      var p := Pass(s, keys, n - 1, buffer, nz);
      assert p == s;
      RowIdle(p, keys, n - 1, |keys|, buffer, nz);
    }
  }

  /** A table with no overlapping pair is a fixed point of the pass, and the
      pass reports that nothing moved. */
  lemma SeparatedIsFixed(vertices: map<string, Mesh>, keys: seq<string>, buffer: real, nz: Vec3 -> Vec3)
    requires Distinct(keys) && Covers(vertices, keys)
    requires Separated(vertices, keys, buffer)
    ensures Relax(vertices, keys, buffer, nz) == Sweep(vertices, false)
  {
    PassIdle(Sweep(vertices, false), keys, |keys|, buffer, nz);
  }

  /** Two 2 by 2 vertices two apart on the x axis, with `checkOverlap`'s
      buffer: the first one moves 0.5 to the left, the second one only 0.25
      to the right, so the correction is not symmetric. */
  lemma AsymmetricCorrection(nz: Vec3 -> Vec3)
    requires nz(Vec3(-2.0, 0.0, 0.0)) == Vec3(-1.0, 0.0, 0.0)
    ensures var a := Mesh("rectangle", Vec3(0.0, 0.0, 0.0), Size(2.0, 2.0), false);
            var b := Mesh("rectangle", Vec3(2.0, 0.0, 0.0), Size(2.0, 2.0), false);
            && Overlapping(a, b, CheckBuffer)
            && Separate(a, b, CheckBuffer, nz(Minus(a.position, b.position)))
               == (Vec3(-0.5, 0.0, 0.0), Vec3(2.25, 0.0, 0.0))
  {
    var a := Mesh("rectangle", Vec3(0.0, 0.0, 0.0), Size(2.0, 2.0), false);
    var b := Mesh("rectangle", Vec3(2.0, 0.0, 0.0), Size(2.0, 2.0), false);
    var move := MoveAmount(a, b, CheckBuffer);
    assert move == Vec3(0.5, 1.5, 0.0);
    var dir := nz(Minus(a.position, b.position));
    assert dir == Vec3(-1.0, 0.0, 0.0);
    var scaled := Times(dir, move);
    assert scaled == Vec3(-0.5, 0.0, 0.0);
    assert Times(scaled, move) == Vec3(-0.25, 0.0, 0.0);
  }

  /** Only the first vertex's size counts: a wide vertex overlaps a small one
      that, taken the other way round, does not overlap it. */
  lemma FirstSizeDecides()
    ensures var a := Mesh("rectangle", Vec3(0.0, 0.0, 0.0), Size(4.0, 4.0), false);
            var b := Mesh("rectangle", Vec3(3.0, 0.0, 0.0), Size(1.0, 1.0), false);
            Overlapping(a, b, AdjustBuffer) && !Overlapping(b, a, AdjustBuffer)
  {
  }

  /** `a` and `b` have the same sign (either may be zero). */
  predicate Agrees(a: real, b: real)
  {
    (a >= 0.0 && b >= 0.0) || (a <= 0.0 && b <= 0.0)
  }

  /** A shift that agrees in sign with a gap does not narrow it. */
  lemma WidenAxis(gap: real, d: real, m: real)
    requires Agrees(d, gap) && m > 0.0
    ensures Abs(gap + d * m + d * m * m) >= Abs(gap)
  {
    if d >= 0.0 && gap >= 0.0 {
      assert d * m >= 0.0;
      assert d * m * m >= 0.0;
    } else {
      assert d * m <= 0.0;
      assert d * m * m <= 0.0;
    }
  }

  /** When the direction points from the second centre towards the first on
      each axis (as a normalised difference does), pushing an overlapping pair
      apart never brings the two centres closer on x or on y. */
  lemma SeparateWidens(a: Mesh, b: Mesh, buffer: real, dir: Vec3)
    requires Overlapping(a, b, buffer)
    requires Agrees(dir.x, a.position.x - b.position.x) && Agrees(dir.y, a.position.y - b.position.y)
    ensures var r := Separate(a, b, buffer, dir);
            && Abs(r.0.x - r.1.x) >= Abs(a.position.x - b.position.x)
            && Abs(r.0.y - r.1.y) >= Abs(a.position.y - b.position.y)
  {
    var m := MoveAmount(a, b, buffer);
    WidenAxis(a.position.x - b.position.x, dir.x, m.x);
    WidenAxis(a.position.y - b.position.y, dir.y, m.y);
    var r := Separate(a, b, buffer, dir);
    assert r.0.x - r.1.x == (a.position.x - b.position.x) + dir.x * m.x + dir.x * m.x * m.x;
    assert r.0.y - r.1.y == (a.position.y - b.position.y) + dir.y * m.y + dir.y * m.y * m.y;
  }
}
