/** Grid packing of a parent's children (`updateJSON` in src/ob_hypergraph.js).

    For every top-level vertex that has children, the children are given the
    average child size and placed row-major in a near-square grid, and the
    parent is given the size of the grid plus padding. The rows are offset so
    that every child ends below the parent's top edge, but tall children can
    reach below its bottom edge (`LowestRowMargin`, `OneTallChild`). A parent whose rendering
    names a texture gets an extra sentinel child with id "texture" in front.
    Only the top-level list is processed; grandchildren are not laid out. */
module GridLayout {
  import opened Common

  /** One entry of the document's vertex list as the layout sees it.
      `children` is the entry's own `vertices` list (an absent list is the
      empty one), `texture` is `rendering.texture`, `numChildren` the derived
      count the layout writes. */
  datatype Node = Node(id: string, name: string, kind: string, position: Vec3, size: Size,
                       color: string, texture: Option<string>, numChildren: Option<nat>,
                       children: seq<Node>)

  /** The reserved id of the slot that shows a parent's texture. */
  const TextureId: string := "texture"

  /** `parent.rendering && parent.rendering.texture` is truthy. */
  predicate HasTexture(p: Node)
  {
    p.texture.Some? && p.texture.value != ""
  }

  /** `Math.ceil(Math.sqrt(n))`: the least g with g*g >= n (see
      `CeilSqrtLeast`), found by counting squares upwards. */
  function CeilSqrt(n: nat): (g: nat)
    ensures n > 0 ==> g > 0
  {
    CeilSqrtFrom(n, 0, 0)
  }

  /** Continues the search at g, whose square is sq. */
  function CeilSqrtFrom(n: nat, g: nat, sq: nat): (r: nat)
    ensures r >= g
    ensures sq < n ==> r > g
    decreases n - sq
  {
    if sq >= n then g else CeilSqrtFrom(n, g + 1, sq + 2 * g + 1)
  }

  /** `Math.ceil(a / b)` for a positive b: the least q with q*b >= a (see
      `CeilDivLeast`), found by repeated subtraction. */
  function CeilDiv(a: int, b: nat): (q: nat)
    requires b > 0
    ensures a > 0 ==> q > 0
    decreases a
  {
    if a <= 0 then 0 else 1 + CeilDiv(a - b, b)
  }

  /** `CeilSqrt(n)` is the least g whose square reaches n. */
  lemma CeilSqrtLeast(n: nat)
    ensures CeilSqrt(n) * CeilSqrt(n) >= n
    ensures CeilSqrt(n) == 0 || (CeilSqrt(n) - 1) * (CeilSqrt(n) - 1) < n
  {
    CeilSqrtFromLeast(n, 0, 0);
  }

  lemma {:induction false} CeilSqrtFromLeast(n: nat, g: nat, sq: nat)
    requires sq == g * g
    requires g == 0 || (g - 1) * (g - 1) < n
    ensures var r := CeilSqrtFrom(n, g, sq);
            r * r >= n && (r == 0 || (r - 1) * (r - 1) < n)
    decreases n - sq
  {
    if sq < n {
      assert (g + 1) * (g + 1) == sq + 2 * g + 1;
      CeilSqrtFromLeast(n, g + 1, sq + 2 * g + 1);
    }
  }

  /** `CeilDiv(a, b)` is the least q with q*b >= a. */
  lemma {:induction false} CeilDivLeast(a: int, b: nat)
    requires b > 0
    ensures CeilDiv(a, b) * b >= a
    ensures CeilDiv(a, b) == 0 || (CeilDiv(a, b) - 1) * b < a
    decreases a
  {
    if a > 0 {
      CeilDivLeast(a - b, b);
      var q := CeilDiv(a - b, b);
      assert (q + 1) * b == q * b + b;
    }
  }

  /** The children's widths summed in list order. */
  function TotalWidth(s: seq<Node>): real
  {
    if s == [] then 0.0 else TotalWidth(s[..|s| - 1]) + s[|s| - 1].size.width
  }

  /** The children's heights summed in list order. */
  function TotalHeight(s: seq<Node>): real
  {
    if s == [] then 0.0 else TotalHeight(s[..|s| - 1]) + s[|s| - 1].size.height
  }

  /** The extent of n cells of the given size with a padding between
      neighbours. */
  function Span(n: nat, size: real, pad: real): real
  {
    n as real * size + (n - 1) as real * pad
  }

  /** The quantities `updateJSON` derives for one parent. */
  datatype Grid = Grid(gridSize: nat, numRows: nat, count: nat,
                       avgWidth: real, avgHeight: real,
                       gridWidth: real, gridHeight: real,
                       offsetX: real, offsetY: real)

  /** The grid of a parent with at least one child. The column count comes
      from the real child count; the slot count, and with it the averages
      and the row count, includes the texture slot. */
  function GridOf(p: Node, padW: real, padH: real): (g: Grid)
    requires |p.children| > 0
    ensures g.count == |p.children| + (if HasTexture(p) then 1 else 0)
    ensures g.gridSize > 0 && g.numRows > 0
  {
    var n := |p.children|;
    var gridSize := CeilSqrt(n);
    var count := if HasTexture(p) then n + 1 else n;
    var avgW := TotalWidth(p.children) / count as real;
    var avgH := TotalHeight(p.children) / count as real;
    var numRows := CeilDiv(count, gridSize);
    var gridW := Span(gridSize, avgW, padW);
    var gridH := Span(numRows, avgH, padH);
    var offsetY := -gridH / 2.0 + padH;
    Grid(gridSize, numRows, count, avgW, avgH, gridW, gridH,
         -gridW / 2.0 + avgW / 2.0,
         if HasTexture(p) then offsetY - (avgH / 2.0 + padH) else offsetY)
  }

  /** The column count is the least g with g*g >= n for the n real
      children (the texture slot is not counted), and the row count is the
      least r with r*gridSize >= the slot count, the texture slot included. */
  lemma GridCounts(p: Node, padW: real, padH: real)
    requires |p.children| > 0
    ensures var g := GridOf(p, padW, padH);
            && g.gridSize * g.gridSize >= |p.children|
            && (g.gridSize - 1) * (g.gridSize - 1) < |p.children|
            && g.count == |p.children| + (if HasTexture(p) then 1 else 0)
            && g.numRows * g.gridSize >= g.count
            && (g.numRows - 1) * g.gridSize < g.count
  {
    var g := GridOf(p, padW, padH);
    CeilSqrtLeast(|p.children|);
    CeilDivLeast(g.count, g.gridSize);
  }

  /** Every slot index lies in one of the grid's rows. */
  lemma RowsCoverSlots(p: Node, padW: real, padH: real, index: nat)
    requires |p.children| > 0 && index < GridOf(p, padW, padH).count
    ensures RowOf(index, GridOf(p, padW, padH).gridSize) < GridOf(p, padW, padH).numRows
  {
    var g := GridOf(p, padW, padH);
    GridCounts(p, padW, padH);
    RowInGrid(index, g.gridSize, g.numRows, g.count);
  }

  /** The averages spread the real children's total over every slot, the
      texture slot included. */
  lemma GridAverages(p: Node, padW: real, padH: real)
    requires |p.children| > 0
    ensures var g := GridOf(p, padW, padH);
            && g.count as real * g.avgWidth == TotalWidth(p.children)
            && g.count as real * g.avgHeight == TotalHeight(p.children)
  {
  }

  /** The parent's new size: the grid plus a padding on each side, and one
      more row of height `avgHeight + padH` when a texture is shown. */
  function ParentSize(p: Node, g: Grid, padW: real, padH: real): Size
  {
    Size(g.gridWidth + padW * 2.0,
         g.gridHeight + padH * 2.0 + (if HasTexture(p) then g.avgHeight + padH else 0.0))
  }

  /** The sentinel child that shows the parent's texture. */
  function TextureSlot(p: Node, g: Grid, parentHeight: real, padH: real): Node
  {
    Node(TextureId, "", "rectangle",
         Vec3(0.0, parentHeight / 2.0 - g.avgHeight + padH - padH / 2.0, 0.0),
         Size(g.avgWidth, g.avgHeight), "#FFFFFF", p.texture, None, [])
  }

  /** Centre x of grid column `col`. */
  function ColumnX(g: Grid, col: nat, padW: real): real
  {
    col as real * (g.avgWidth + padW) + g.offsetX
  }

  /** Centre y of grid row `row`. */
  function RowY(g: Grid, row: nat, padH: real): real
  {
    row as real * (g.avgHeight + padH) + g.offsetY
  }

  /** The grid row of slot `index`: `Math.floor(index / gridSize)`, by
      repeated subtraction (see `RowColOfDivMod`). */
  function RowOf(index: nat, gridSize: nat): nat
    requires gridSize > 0
    decreases index
  {
    if index < gridSize then 0 else 1 + RowOf(index - gridSize, gridSize)
  }

  /** The grid column of slot `index`: `index % gridSize`. */
  function ColOf(index: nat, gridSize: nat): (c: nat)
    requires gridSize > 0
    ensures c < gridSize
    decreases index
  {
    if index < gridSize then index else ColOf(index - gridSize, gridSize)
  }

  /** Row and column are the quotient and remainder of the slot index. */
  lemma RowColOfDivMod(index: nat, gridSize: nat)
    requires gridSize > 0
    ensures RowOf(index, gridSize) * gridSize + ColOf(index, gridSize) == index
    ensures RowOf(index, gridSize) == index / gridSize && ColOf(index, gridSize) == index % gridSize
  {
    RowColOfSplit(index, gridSize);
    DivModUnique(index, gridSize, RowOf(index, gridSize), ColOf(index, gridSize));
  }

  lemma {:induction false} RowColOfSplit(index: nat, gridSize: nat)
    requires gridSize > 0
    ensures RowOf(index, gridSize) * gridSize + ColOf(index, gridSize) == index
    decreases index
  {
    if index >= gridSize {
      RowColOfSplit(index - gridSize, gridSize);
      var r := RowOf(index - gridSize, gridSize);
      assert (r + 1) * gridSize == r * gridSize + gridSize;
    }
  }

  /** A quotient and remainder in range are the ones `/` and `%` give. */
  lemma DivModUnique(a: nat, b: nat, q: nat, r: nat)
    requires b > 0 && r < b && q * b + r == a
    ensures q == a / b && r == a % b
  {
    var q', r' := a / b, a % b;
    assert q' * b + r' == a;
    if q < q' {
      MultiplyMonotone(q + 1, q', b);
      assert false;
    } else if q' < q {
      MultiplyMonotone(q' + 1, q, b);
      assert false;
    }
  }

  /** What the placement loop does to the entry at `index`: an entry whose
      id is "texture" is left alone, every other one is moved to its cell
      and given the average size. */
  function Place(c: Node, index: nat, g: Grid, padW: real, padH: real): Node
    requires g.gridSize > 0
  {
    if c.id == TextureId then c
    else c.(position := c.position.(x := ColumnX(g, ColOf(index, g.gridSize), padW),
                                    y := RowY(g, RowOf(index, g.gridSize), padH)),
            size := Size(g.avgWidth, g.avgHeight))
  }

  /** Every slot placed by `Place` at its own index (see `PlaceAllAt`). */
  function PlaceAll(slots: seq<Node>, g: Grid, padW: real, padH: real): (r: seq<Node>)
    requires g.gridSize > 0
    ensures |r| == |slots|
  {
    if slots == [] then []
    else PlaceAll(slots[..|slots| - 1], g, padW, padH) + [Place(slots[|slots| - 1], |slots| - 1, g, padW, padH)]
  }

  /** Entry k of `PlaceAll` is slot k placed at index k. */
  lemma {:induction false} PlaceAllAt(slots: seq<Node>, g: Grid, padW: real, padH: real, k: nat)
    requires g.gridSize > 0 && k < |slots|
    ensures PlaceAll(slots, g, padW, padH)[k] == Place(slots[k], k, g, padW, padH)
  {
    var n := |slots| - 1;
    if k < n {
      PlaceAllAt(slots[..n], g, padW, padH, k);
    }
  }

  /** The children list before placement: the texture slot, when there is
      one, is put in front of the real children. */
  function Slots(p: Node, g: Grid, padW: real, padH: real): seq<Node>
  {
    if HasTexture(p) then [TextureSlot(p, g, ParentSize(p, g, padW, padH).height, padH)] + p.children
    else p.children
  }

  /** One parent after `updateJSON`. A parent without children is returned
      as it is; otherwise only its size, `numChildren` and children change. */
  function LaidOut(p: Node, padW: real, padH: real): (q: Node)
    ensures |p.children| == 0 ==> q == p
    ensures q.(size := p.size, numChildren := p.numChildren, children := p.children) == p
    ensures |p.children| > 0 ==> q.numChildren == Some(|p.children| + if HasTexture(p) then 1 else 0)
    ensures |q.children| == |p.children| + if |p.children| > 0 && HasTexture(p) then 1 else 0
  {
    if |p.children| == 0 then p
    else
      var g := GridOf(p, padW, padH);
      var slots := Slots(p, g, padW, padH);
      p.(numChildren := Some(g.count), size := ParentSize(p, g, padW, padH),
         children := PlaceAll(slots, g, padW, padH))
  }

  /** The per-parent body of `updateJSON`: sums the children's sizes, sizes
      the parent, inserts the texture slot and places the children. */
  method LayoutParent(p: Node, padW: real, padH: real) returns (q: Node)
    ensures q == LaidOut(p, padW, padH)
  {
    var numChildren := |p.children|;
    var gridSize := CeilSqrt(numChildren);
    if numChildren == 0 {
      return p;
    }
    var hasTexture := HasTexture(p);
    if hasTexture {
      numChildren := numChildren + 1;
    }
    var totalWidth, totalHeight := 0.0, 0.0;
    var k := 0;
    while k < |p.children|
      invariant 0 <= k <= |p.children|
      invariant totalWidth == TotalWidth(p.children[..k])
      invariant totalHeight == TotalHeight(p.children[..k])
    {
      assert p.children[..k + 1][..k] == p.children[..k];
      totalWidth := totalWidth + p.children[k].size.width;
      totalHeight := totalHeight + p.children[k].size.height;
      k := k + 1;
    }
    assert p.children[..k] == p.children;
    var avgWidth := totalWidth / numChildren as real;
    var avgHeight := totalHeight / numChildren as real;
    var numRows := CeilDiv(numChildren, gridSize);
    var totalGridWidth := Span(gridSize, avgWidth, padW);
    var totalGridHeight := Span(numRows, avgHeight, padH);
    var offsetX := -totalGridWidth / 2.0 + avgWidth / 2.0;
    var offsetY := -totalGridHeight / 2.0 + padH;
    var size := Size(totalGridWidth + padW * 2.0,
                     totalGridHeight + padH * 2.0 + (if hasTexture then avgHeight + padH else 0.0));
    var kids := p.children;
    if hasTexture {
      var textureSlot := Node(TextureId, "", "rectangle",
                              Vec3(0.0, size.height / 2.0 - avgHeight + padH - padH / 2.0, 0.0),
                              Size(avgWidth, avgHeight), "#FFFFFF", p.texture, None, []);
      kids := [textureSlot] + kids;
      offsetY := offsetY - (avgHeight / 2.0 + padH);
    }
    var g := Grid(gridSize, numRows, numChildren, avgWidth, avgHeight,
                  totalGridWidth, totalGridHeight, offsetX, offsetY);
    assert g == GridOf(p, padW, padH);
    assert kids == Slots(p, g, padW, padH);
    kids := PlaceChildren(kids, g, padW, padH);
    q := p.(numChildren := Some(numChildren), size := size, children := kids);
  }

  /** The placement loop of `updateJSON`: every entry whose id is not
      "texture" is moved to the cell of its index and resized. */
  method PlaceChildren(slots: seq<Node>, g: Grid, padW: real, padH: real) returns (kids: seq<Node>)
    requires g.gridSize > 0
    ensures kids == PlaceAll(slots, g, padW, padH)
  {
    kids := slots;
    var k := 0;
    while k < |kids|
      invariant 0 <= k <= |kids| == |slots|
      invariant kids[..k] == PlaceAll(slots[..k], g, padW, padH)
      invariant kids[k..] == slots[k..]
    {
      assert slots[..k + 1][..k] == slots[..k];
      assert kids[k] == slots[k];
      var child := kids[k];
      if child.id != TextureId {
        var row := k / g.gridSize;
        var col := k % g.gridSize;
        RowColOfDivMod(k, g.gridSize);
        child := child.(position := child.position.(x := ColumnX(g, col, padW), y := RowY(g, row, padH)),
                        size := Size(g.avgWidth, g.avgHeight));
        kids := kids[k := child];
      }
      assert kids[..k + 1] == kids[..k] + [kids[k]];
      k := k + 1;
    }
    assert kids == kids[..k] && slots == slots[..k];
  }

  /** `updateJSON(jsonObject, paddingW, paddingH)`: lays out every entry of
      the top-level list in place. (The page calls it with paddings 0.2 and
      0.6; the declared defaults are 0.6 and 0.2.) */
  method UpdateJSON(parents: array<Node>, padW: real, padH: real)
    modifies parents
    ensures forall i :: 0 <= i < parents.Length ==> parents[i] == LaidOut(old(parents[i]), padW, padH)
  {
    for i := 0 to parents.Length
      invariant forall j :: 0 <= j < i ==> parents[j] == LaidOut(old(parents[j]), padW, padH)
      invariant forall j :: i <= j < parents.Length ==> parents[j] == old(parents[j])
    {
      parents[i] := LayoutParent(parents[i], padW, padH);
    }
  }

  // ----- Properties of the layout -----

  /** Every child with a non-negative width gives a non-negative total. */
  lemma {:induction false} TotalWidthNonNegative(s: seq<Node>)
    requires forall i :: 0 <= i < |s| ==> s[i].size.width >= 0.0
    ensures TotalWidth(s) >= 0.0
  {
    if s != [] {
      TotalWidthNonNegative(s[..|s| - 1]);
    }
  }

  lemma {:induction false} TotalHeightNonNegative(s: seq<Node>)
    requires forall i :: 0 <= i < |s| ==> s[i].size.height >= 0.0
    ensures TotalHeight(s) >= 0.0
  {
    if s != [] {
      TotalHeightNonNegative(s[..|s| - 1]);
    }
  }

  /** Children that all have the same size add up to their count times it. */
  /** Every entry of s has size w by h. */
  ghost predicate Uniform(s: seq<Node>, w: real, h: real)
  {
    forall i :: 0 <= i < |s| ==> s[i].size == Size(w, h)
  }

  lemma {:induction false} TotalOfUniform(s: seq<Node>, n: nat, w: real, h: real)
    requires |s| == n
    requires Uniform(s, w, h)
    ensures TotalWidth(s) == n as real * w
    ensures TotalHeight(s) == n as real * h
  {
    if s != [] {
      TotalOfUniform(s[..|s| - 1], n - 1, w, h);
    }
  }

  /** Child number k of the input ends up at index k, or k + 1 behind the
      texture slot, placed by `Place` (see `PlaceMoves`) in column
      `index % gridSize` and row `index / gridSize`, which is a row of the
      grid. */
  lemma RealChildPlacement(p: Node, padW: real, padH: real, k: nat)
    requires k < |p.children|
    ensures var q, g := LaidOut(p, padW, padH), GridOf(p, padW, padH);
            var index := if HasTexture(p) then k + 1 else k;
            && index < |q.children|
            && q.children[index] == Place(p.children[k], index, g, padW, padH)
            && RowOf(index, g.gridSize) < g.numRows
  {
    var g := GridOf(p, padW, padH);
    var index := if HasTexture(p) then k + 1 else k;
    SlotAt(p, padW, padH, index);
    RowsCoverSlots(p, padW, padH, index);
  }

  /** Placing an entry changes only its x, y and size: a real child gets the
      centre of its cell and the average size, the texture slot nothing.
      Definitional: it spells out `Place` field by field. */
  lemma PlaceMoves(c: Node, index: nat, g: Grid, padW: real, padH: real)
    requires g.gridSize > 0
    ensures var c' := Place(c, index, g, padW, padH);
            && c'.(position := c.position, size := c.size) == c
            && c'.position.z == c.position.z
            && (c.id == TextureId ==> c' == c)
            && (c.id != TextureId ==>
                  && c'.position.x == ColumnX(g, ColOf(index, g.gridSize), padW)
                  && c'.position.y == RowY(g, RowOf(index, g.gridSize), padH)
                  && c'.size == Size(g.avgWidth, g.avgHeight))
  {
  }

  /** Entry `index` of a laid-out parent is the placement of slot `index`. */
  lemma SlotAt(p: Node, padW: real, padH: real, index: nat)
    requires |p.children| > 0
    requires index < |LaidOut(p, padW, padH).children|
    ensures var g := GridOf(p, padW, padH);
            var slots := Slots(p, g, padW, padH);
            && |slots| == g.count
            && index < g.count
            && LaidOut(p, padW, padH).children[index] == Place(slots[index], index, g, padW, padH)
            && (HasTexture(p) && index > 0 ==> slots[index] == p.children[index - 1])
            && (!HasTexture(p) ==> slots[index] == p.children[index])
  {
    var g := GridOf(p, padW, padH);
    PlaceAllAt(Slots(p, g, padW, padH), g, padW, padH, index);
  }

  /** An index below the slot count lies in one of the grid's rows. */
  lemma RowInGrid(index: nat, gridSize: nat, numRows: nat, count: nat)
    requires gridSize > 0 && index < count && numRows * gridSize >= count
    ensures RowOf(index, gridSize) < numRows
  {
    RowColOfDivMod(index, gridSize);
    var row := RowOf(index, gridSize);
    if row >= numRows {
      MultiplyMonotone(numRows, row, gridSize);
      assert false;
    }
  }

  lemma MultiplyMonotone(a: nat, b: nat, c: nat)
    requires a <= b
    ensures a * c <= b * c
  {
  }

  /** With a texture, exactly one slot is added, at the front: it has id
      "texture", the average size, sits at x = 0, z = 0 and
      y = parent height / 2 - avgHeight + padH / 2, and the placement loop
      leaves it where it was put. The grid's vertical offset moves down by
      avgHeight / 2 + padH. */
  lemma TexturedLayout(p: Node, padW: real, padH: real)
    requires |p.children| > 0 && HasTexture(p)
    ensures var q, g := LaidOut(p, padW, padH), GridOf(p, padW, padH);
            && |q.children| == |p.children| + 1
            && q.children[0].id == TextureId
            && q.children[0].size == Size(g.avgWidth, g.avgHeight)
            && q.children[0].position == Vec3(0.0, q.size.height / 2.0 - g.avgHeight + padH / 2.0, 0.0)
            && q.children[0].texture == p.texture
            && g.offsetY == -g.gridHeight / 2.0 + padH - (g.avgHeight / 2.0 + padH)
  {
    var g := GridOf(p, padW, padH);
    PlaceAllAt(Slots(p, g, padW, padH), g, padW, padH, 0);
  }

  /** The height added for the texture row is one average row plus one
      padding; without a texture the parent is exactly the padded grid.
      Definitional: it restates `ParentSize` in terms of the grid's counts. */
  lemma ParentSizeFormula(p: Node, padW: real, padH: real)
    requires |p.children| > 0
    ensures LaidOut(p, padW, padH).size.width
              == Span(GridOf(p, padW, padH).gridSize, GridOf(p, padW, padH).avgWidth, padW) + 2.0 * padW
    ensures LaidOut(p, padW, padH).size.height
              == Span(GridOf(p, padW, padH).numRows, GridOf(p, padW, padH).avgHeight, padH) + 2.0 * padH
                 + (if HasTexture(p) then GridOf(p, padW, padH).avgHeight + padH else 0.0)
  {
  }

  /** Column centres are symmetric about x = 0: column c and column
      gridSize - 1 - c are mirror images. */
  lemma ColumnsSymmetric(p: Node, padW: real, padH: real, col: nat)
    requires |p.children| > 0
    requires col < GridOf(p, padW, padH).gridSize
    ensures var g := GridOf(p, padW, padH);
            ColumnX(g, col, padW) + ColumnX(g, g.gridSize - 1 - col, padW) == 0.0
  {
    var g := GridOf(p, padW, padH);
    var a := g.avgWidth + padW;
    var mirror := g.gridSize - 1 - col;
    assert col as real * a + mirror as real * a == (g.gridSize - 1) as real * a;
  }

  /** A non-negative total over a positive count gives a non-negative average. */
  lemma AverageNonNegative(avg: real, count: nat, total: real)
    requires count > 0 && total >= 0.0 && count as real * avg == total
    ensures avg >= 0.0
  {
    if avg < 0.0 {
      NegativeTimesPositive(avg, count as real);
      assert false;
    }
  }

  lemma NegativeTimesPositive(a: real, b: real)
    requires a < 0.0 && b > 0.0
    ensures a * b < 0.0
  {
  }

  /** Cell i of n cells of size `size` with gaps `pad`, centred on 0, lies
      within the span of the n cells plus one padding on each side. */
  lemma CellWithinSpan(n: nat, i: nat, size: real, pad: real)
    requires i < n && size >= 0.0 && pad >= 0.0
    ensures var span := Span(n, size, pad);
            var centre := i as real * (size + pad) + (-span / 2.0 + size / 2.0);
            -(span + pad * 2.0) / 2.0 <= centre - size / 2.0
            && centre + size / 2.0 <= (span + pad * 2.0) / 2.0
  {
    var a := size + pad;
    var rest := (n - 1 - i) as real;
    assert i as real * a >= 0.0;
    assert rest * a >= 0.0;
    assert i as real * a + rest * a == (n - 1) as real * a;
    assert n as real * size + (n - 1) as real * pad == (n - 1) as real * a + size;
  }

  /** The relations between the horizontal quantities of a grid that the
      width bound rests on. */
  ghost predicate WidthConsistent(g: Grid, padW: real)
  {
    && g.gridSize > 0
    && g.avgWidth >= 0.0
    && g.gridWidth == Span(g.gridSize, g.avgWidth, padW)
    && g.offsetX == -g.gridWidth / 2.0 + g.avgWidth / 2.0
  }

  /** The relations between the quantities of a grid that the placement
      bounds rest on. */
  ghost predicate Consistent(g: Grid, padW: real, padH: real)
  {
    && g.gridSize > 0
    && g.avgWidth >= 0.0 && g.avgHeight >= 0.0
    && g.gridWidth == Span(g.gridSize, g.avgWidth, padW)
    && g.gridHeight == Span(g.numRows, g.avgHeight, padH)
    && g.offsetX == -g.gridWidth / 2.0 + g.avgWidth / 2.0
    && g.offsetY <= -g.gridHeight / 2.0 + padH
  }

  /** A row below `numRows` ends at or below the top of the grid's span
      plus one padding, for any vertical offset up to the untextured one. */
  lemma RowTopWithin(numRows: nat, row: nat, size: real, pad: real, offset: real)
    requires row < numRows && size >= 0.0 && pad >= 0.0
    requires offset <= -Span(numRows, size, pad) / 2.0 + pad
    ensures var span := Span(numRows, size, pad);
            row as real * (size + pad) + offset + size / 2.0 <= span / 2.0 + pad
  {
    var a := size + pad;
    var rest := (numRows - 1 - row) as real;
    assert rest * a >= 0.0;
    assert row as real * a + rest * a == (numRows - 1) as real * a;
    assert numRows as real * size + (numRows - 1) as real * pad == (numRows - 1) as real * a + size;
  }

  /** The grid's extents and horizontal offset follow from its averages.
      Definitional: it restates the formulas of `GridOf`, so that callers
      need not unfold it. */
  lemma GridExtents(p: Node, padW: real, padH: real)
    requires |p.children| > 0
    ensures var g := GridOf(p, padW, padH);
            && g.gridWidth == Span(g.gridSize, g.avgWidth, padW)
            && g.gridHeight == Span(g.numRows, g.avgHeight, padH)
            && g.offsetX == -g.gridWidth / 2.0 + g.avgWidth / 2.0
  {
  }

  /** The vertical offset is the untextured one, lowered by the texture row.
      Definitional: it restates the formula of `GridOf`. */
  lemma GridOffsetY(p: Node, padW: real, padH: real)
    requires |p.children| > 0
    ensures var g := GridOf(p, padW, padH);
            g.offsetY == -g.gridHeight / 2.0 + padH - (if HasTexture(p) then g.avgHeight / 2.0 + padH else 0.0)
  {
  }

  /** Children with non-negative sizes give non-negative averages. */
  lemma GridAveragesNonNegative(p: Node, padW: real, padH: real)
    requires |p.children| > 0
    requires forall i :: 0 <= i < |p.children| ==> p.children[i].size.width >= 0.0
    requires forall i :: 0 <= i < |p.children| ==> p.children[i].size.height >= 0.0
    ensures GridOf(p, padW, padH).avgWidth >= 0.0 && GridOf(p, padW, padH).avgHeight >= 0.0
  {
    AverageWidthNonNegative(p, padW, padH);
    AverageHeightNonNegative(p, padW, padH);
  }

  lemma AverageWidthNonNegative(p: Node, padW: real, padH: real)
    requires |p.children| > 0
    requires forall i :: 0 <= i < |p.children| ==> p.children[i].size.width >= 0.0
    ensures GridOf(p, padW, padH).avgWidth >= 0.0
  {
    var g := GridOf(p, padW, padH);
    TotalWidthNonNegative(p.children);
    GridAverages(p, padW, padH);
    AverageNonNegative(g.avgWidth, g.count, TotalWidth(p.children));
  }

  lemma AverageHeightNonNegative(p: Node, padW: real, padH: real)
    requires |p.children| > 0
    requires forall i :: 0 <= i < |p.children| ==> p.children[i].size.height >= 0.0
    ensures GridOf(p, padW, padH).avgHeight >= 0.0
  {
    var g := GridOf(p, padW, padH);
    TotalHeightNonNegative(p.children);
    GridAverages(p, padW, padH);
    AverageNonNegative(g.avgHeight, g.count, TotalHeight(p.children));
  }

  /** The grid of a parent whose children have non-negative sizes is consistent. */
  lemma GridConsistent(p: Node, padW: real, padH: real)
    requires |p.children| > 0 && padH >= 0.0
    requires forall i :: 0 <= i < |p.children| ==> p.children[i].size.width >= 0.0
    requires forall i :: 0 <= i < |p.children| ==> p.children[i].size.height >= 0.0
    ensures Consistent(GridOf(p, padW, padH), padW, padH)
  {
    GridAveragesNonNegative(p, padW, padH);
    GridExtents(p, padW, padH);
    GridOffsetY(p, padW, padH);
  }

  /** The horizontal quantities of the grid of a parent whose children have
      non-negative widths are consistent, whatever the heights and the
      vertical padding. */
  lemma GridWidthConsistent(p: Node, padW: real, padH: real)
    requires |p.children| > 0
    requires forall i :: 0 <= i < |p.children| ==> p.children[i].size.width >= 0.0
    ensures WidthConsistent(GridOf(p, padW, padH), padW)
  {
    AverageWidthNonNegative(p, padW, padH);
    GridExtents(p, padW, padH);
  }

  /** With non-negative child widths and horizontal padding, every placed
      child lies horizontally within its parent. */
  lemma ChildWithinParentWidth(p: Node, padW: real, padH: real, index: nat)
    requires |p.children| > 0 && padW >= 0.0
    requires forall i :: 0 <= i < |p.children| ==> p.children[i].size.width >= 0.0
    requires index < |LaidOut(p, padW, padH).children|
    requires LaidOut(p, padW, padH).children[index].id != TextureId
    ensures var q := LaidOut(p, padW, padH);
            var c := q.children[index];
            -q.size.width / 2.0 <= c.position.x - c.size.width / 2.0
            && c.position.x + c.size.width / 2.0 <= q.size.width / 2.0
  {
    var q, g := LaidOut(p, padW, padH), GridOf(p, padW, padH);
    SlotAt(p, padW, padH, index);
    GridWidthConsistent(p, padW, padH);
    var slot := Slots(p, g, padW, padH)[index];
    PlaceMoves(slot, index, g, padW, padH);
    PlacedWithinWidth(slot, index, g, padW, padH, q.size.width);
  }

  /** A placed entry lies horizontally within a parent as wide as the padded
      grid of a consistent grid. */
  lemma PlacedWithinWidth(c: Node, index: nat, g: Grid, padW: real, padH: real, width: real)
    requires WidthConsistent(g, padW) && padW >= 0.0 && c.id != TextureId
    requires width == g.gridWidth + padW * 2.0
    ensures var c' := Place(c, index, g, padW, padH);
            -width / 2.0 <= c'.position.x - c'.size.width / 2.0
            && c'.position.x + c'.size.width / 2.0 <= width / 2.0
  {
    CellWithinSpan(g.gridSize, ColOf(index, g.gridSize), g.avgWidth, padW);
  }

  /** With non-negative child sizes and vertical padding, the top edge of
      every placed child stays below the parent's top edge. */
  lemma ChildBelowParentTop(p: Node, padW: real, padH: real, index: nat)
    requires |p.children| > 0 && padW >= 0.0 && padH >= 0.0
    requires forall i :: 0 <= i < |p.children| ==> p.children[i].size.width >= 0.0
    requires forall i :: 0 <= i < |p.children| ==> p.children[i].size.height >= 0.0
    requires index < |LaidOut(p, padW, padH).children|
    requires LaidOut(p, padW, padH).children[index].id != TextureId
    ensures var q := LaidOut(p, padW, padH);
            var c := q.children[index];
            c.position.y + c.size.height / 2.0 <= q.size.height / 2.0
  {
    var q, g := LaidOut(p, padW, padH), GridOf(p, padW, padH);
    SlotAt(p, padW, padH, index);
    GridConsistent(p, padW, padH);
    RowsCoverSlots(p, padW, padH, index);
    var slot := Slots(p, g, padW, padH)[index];
    PlaceMoves(slot, index, g, padW, padH);
    PlacedBelowTop(slot, index, g, padW, padH, q.size.height);
  }

  /** How far the bottom of grid row 0, the lowest row, lies above the
      parent's bottom edge: two paddings less half an average height, or one
      and a half paddings less half an average height under a texture. The
      row reaches below the parent exactly when the average height exceeds
      four paddings (three with a texture). */
  lemma LowestRowMargin(p: Node, padW: real, padH: real)
    requires |p.children| > 0
    ensures var g, q := GridOf(p, padW, padH), LaidOut(p, padW, padH);
            (RowY(g, 0, padH) - g.avgHeight / 2.0) - (-q.size.height / 2.0)
              == (if HasTexture(p) then 1.5 * padH else 2.0 * padH) - g.avgHeight / 2.0
  {
    GridExtents(p, padW, padH);
    GridOffsetY(p, padW, padH);
    ParentSizeFormula(p, padW, padH);
  }

  /** One 1 by 3 child, no texture, paddings 0.2 across and 0.6 down: the
      parent becomes 1.4 by 4.2, so its bottom edge is at -2.1, while the
      child is centred at y = -0.9 and reaches down to -2.4. */
  lemma OneTallChild(p: Node)
    requires |p.children| == 1 && !HasTexture(p)
    requires p.children[0].size == Size(1.0, 3.0) && p.children[0].id != TextureId
    ensures var q := LaidOut(p, 0.2, 0.6);
            var c := q.children[0];
            && q.size == Size(1.4, 4.2)
            && c.position.y == -0.9 && c.size.height == 3.0
            && c.position.y - c.size.height / 2.0 == -2.4
            && c.position.y - c.size.height / 2.0 < -q.size.height / 2.0
  {
    var g := GridOf(p, 0.2, 0.6);
    assert CeilSqrt(1) == 1;
    assert CeilDiv(1, 1) == 1;
    assert Uniform(p.children, 1.0, 3.0);
    TotalOfUniform(p.children, 1, 1.0, 3.0);
    RealChildPlacement(p, 0.2, 0.6, 0);
    PlaceMoves(p.children[0], 0, g, 0.2, 0.6);
  }

  /** A placed entry in one of the grid's rows ends below the top of a parent
      at least as tall as the padded grid of a consistent grid. */
  lemma PlacedBelowTop(c: Node, index: nat, g: Grid, padW: real, padH: real, height: real)
    requires Consistent(g, padW, padH) && padH >= 0.0 && c.id != TextureId
    requires RowOf(index, g.gridSize) < g.numRows
    requires height >= g.gridHeight + padH * 2.0
    ensures var c' := Place(c, index, g, padW, padH);
            c'.position.y + c'.size.height / 2.0 <= height / 2.0
  {
    RowTopWithin(g.numRows, RowOf(index, g.gridSize), g.avgHeight, padH, g.offsetY);
  }

  /** Packing keeps the children's total size: the average size times the
      slot count (the texture slot included) is the old total, so when no
      real child is itself named "texture" the children's widths and heights
      add up to what they did before. */
  lemma LayoutKeepsTotals(p: Node, padW: real, padH: real)
    requires forall i :: 0 <= i < |p.children| ==> p.children[i].id != TextureId
    ensures var q := LaidOut(p, padW, padH);
            TotalWidth(q.children) == TotalWidth(p.children)
            && TotalHeight(q.children) == TotalHeight(p.children)
  {
    if |p.children| > 0 {
      var q, g := LaidOut(p, padW, padH), GridOf(p, padW, padH);
      UniformSizes(p, padW, padH);
      GridAverages(p, padW, padH);
      KeepTotals(p.children, q.children, g.count, g.avgWidth, g.avgHeight);
    }
  }

  /** Entries that all have the average size of `children`, as many as the
      slots the average was taken over, add up to the same totals. */
  lemma KeepTotals(children: seq<Node>, laid: seq<Node>, n: nat, avgW: real, avgH: real)
    requires |laid| == n && Uniform(laid, avgW, avgH)
    requires n as real * avgW == TotalWidth(children) && n as real * avgH == TotalHeight(children)
    ensures TotalWidth(laid) == TotalWidth(children) && TotalHeight(laid) == TotalHeight(children)
  {
    TotalOfUniform(laid, n, avgW, avgH);
  }

  /** When no real child is named "texture", every laid-out child has the
      average size. */
  lemma UniformSizes(p: Node, padW: real, padH: real)
    requires |p.children| > 0
    requires forall i :: 0 <= i < |p.children| ==> p.children[i].id != TextureId
    ensures |LaidOut(p, padW, padH).children| == GridOf(p, padW, padH).count
    ensures Uniform(LaidOut(p, padW, padH).children, GridOf(p, padW, padH).avgWidth, GridOf(p, padW, padH).avgHeight)
  {
    var q, g := LaidOut(p, padW, padH), GridOf(p, padW, padH);
    forall i | 0 <= i < |q.children|
      ensures q.children[i].size == Size(g.avgWidth, g.avgHeight)
    {
      SlotAt(p, padW, padH, i);
    }
  }

  /** Five unit children and no texture: a grid of 3 columns and 2 rows; with
      paddings 0.2 and 0.2 a parent of 3.8 by 2.6, with the paddings the
      loader passes (0.2 across, 0.6 down) one of 3.8 by 3.8. */
  lemma FiveUnitChildren(p: Node)
    requires |p.children| == 5 && !HasTexture(p)
    requires forall i :: 0 <= i < 5 ==> p.children[i].size == Size(1.0, 1.0)
    ensures GridOf(p, 0.2, 0.2).gridSize == 3 && GridOf(p, 0.2, 0.2).numRows == 2
    ensures LaidOut(p, 0.2, 0.2).size == Size(3.8, 2.6)
    ensures LaidOut(p, 0.2, 0.6).size == Size(3.8, 3.8)
  {
    assert CeilSqrt(5) == 3;
    assert CeilDiv(5, 3) == 2;
    assert Uniform(p.children, 1.0, 1.0);
    TotalOfUniform(p.children, 5, 1.0, 1.0);
  }
}
