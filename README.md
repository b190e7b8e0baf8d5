# openbexi_hypergraph layout engine in Dafny

This project models the layout and connection engine of openbexi_hypergraph. A hypergraph here is a diagram: its vertices can hold child vertices, and its edges are curves between two vertices. The model covers:

- **Grid packing** (`GridLayout`). `updateJSON` packs each top-level vertex's children into a near-square grid. Every child gets the average child size, and the parent gets the grid's size plus padding. The rows are offset so that no child reaches above the parent's top edge, but a tall child can reach below its bottom edge. When the parent has a texture, a sentinel "texture" child is added in front.
- **Anchors** (`Anchors`). `getEdgePositions` gives a vertex four anchor points: north, south, east and west. `findClosestEdge` and `enforceConnection` pick the closest pair of anchors for an edge. They then force north to pair with south and east with west, starting from the dragged vertex's side.
- **Curves** (`Curves`). The drag handler rewrites an edge's curve endpoints and leaves its interior control points alone.
- **Overlap passes** (`Overlap`, with the in-place loops in `HyperGraph.Graph`). `checkOverlap` and `checkAndAdjustOverlap` push apart overlapping top-level vertices, visiting the pairs i < j in key order.
- **Labels** (`Labels`). `updateEdgePositions` places each edge's text label at the curve's midpoint, raised above any vertex it comes close to.
- **Dragging** (`HyperGraph`). `handleDrag` sets the dragged vertex's z to 0. Then, for every edge, it re-anchors the curve and runs both overlap passes and the label update.
- **Edge records** (`SaveRecords`). `saveHyperGraph` writes one record per edge, with default colours and control points filled in.
- **Preferences** (`Preferences`). The `LocalStorage` preferences object holds a user name, an e-mail address, a hypergraph name and a file. Its `read` and `save` work against the browser's key-value store.

The engine's state is the class `HyperGraph.Graph`. It holds the vertex table (a map from id to `Mesh`), the key order of that table, the edges, and the label positions. The methods that change this state are each proved equal to a pure function of the old state: `Relax`, `Row`, `Relabel`, `DragEdge` and `Drag`. The properties are proved as lemmas about those functions.

Coordinates are real numbers. `Vector3.normalize` and the curve midpoint `getPoint(0.5)` are parameters of type `Vec3 -> Vec3` and `Curve -> Vec3`. `distanceTo` is replaced by the squared distance, which picks the same closest pair.

## Model

| member | source | states |
|---|---|---|
| GridLayout.CeilSqrtLeast | src/ob_hypergraph.js:346-348 | `CeilSqrt(n)` is the least g with g·g ≥ n, which is `Math.ceil(Math.sqrt(n))` |
| GridLayout.GridOf | src/ob_hypergraph.js:351-374 | the slot count is the real child count, plus one when the parent has a texture; the grid has at least one column and one row |
| GridLayout.GridCounts | src/ob_hypergraph.js:351-374 | the column count is the least g with g·g ≥ the REAL child count (taken before the texture slot is added); the row count is the least r with r·gridSize ≥ the slot count |
| GridLayout.RowsCoverSlots | src/ob_hypergraph.js:374-408 | every slot index falls in a row below `numRows` |
| GridLayout.GridAverages | src/ob_hypergraph.js:366-371 | the average width and height times the slot count (texture slot included) equal the sums of the real children's sizes |
| GridLayout.RowColOfDivMod | src/ob_hypergraph.js:407-408 | the row and column of a slot index are `floor(index / gridSize)` and `index % gridSize` |
| GridLayout.LaidOut | src/ob_hypergraph.js:350-418 | a parent with no children is unchanged; otherwise only its size, `numChildren` and children change, `numChildren` becomes the slot count, and the child list grows by one exactly when a texture slot is added |
| GridLayout.LayoutParent | src/ob_hypergraph.js:350-418 | the loops that sum sizes and place children compute exactly `LaidOut` |
| GridLayout.PlaceChildren | src/ob_hypergraph.js:404-417 | the placement loop computes `PlaceAll`: slot k goes to row-major position k |
| GridLayout.UpdateJSON | src/ob_hypergraph.js:344-422 | every entry of the top-level array is replaced by its own layout; grandchildren are not visited |
| GridLayout.PlaceMoves | src/ob_hypergraph.js:405-416 | placing a child changes only its position x, y and its size; a child with id "texture" is left untouched; any other child is sized avgW × avgH at its column's x and its row's y |
| GridLayout.RealChildPlacement | src/ob_hypergraph.js:398-416 | real child k is placed at slot k + 1 when a texture slot was inserted, and at slot k otherwise, in a row inside the grid |
| GridLayout.SlotAt | src/ob_hypergraph.js:398-416 | every laid-out child is the placement of its slot, and the slots are the texture sentinel followed by the real children |
| GridLayout.TexturedLayout | src/ob_hypergraph.js:389-400 | a textured parent gets exactly one extra child, at index 0, with id "texture", size avgW × avgH, y = height/2 − avgH + padH/2 and the parent's texture; the grid offset moves down by avgH/2 + padH |
| GridLayout.ParentSizeFormula | src/ob_hypergraph.js:377-386 | parent width = gridSize·avgW + (gridSize−1)·padW + 2·padW; height = numRows·avgH + (numRows−1)·padH + 2·padH, plus avgH + padH with a texture |
| GridLayout.GridExtents | src/ob_hypergraph.js:377-381 | the grid extents are the spans of columns and rows, and the x offset centres the columns |
| GridLayout.GridOffsetY | src/ob_hypergraph.js:382-400 | the y offset starts at −gridHeight/2 + padH and drops by avgH/2 + padH with a texture |
| GridLayout.ColumnsSymmetric | src/ob_hypergraph.js:377-410 | column centres are symmetric about the parent's centre: column c and column gridSize−1−c sum to 0 |
| GridLayout.GridAveragesNonNegative | src/ob_hypergraph.js:370-371 | children of non-negative size give non-negative averages |
| GridLayout.GridConsistent | src/ob_hypergraph.js:370-382 | with non-negative sizes and padding the grid quantities satisfy the invariant the containment proofs use |
| GridLayout.ChildWithinParentWidth | src/ob_hypergraph.js:377-415 | with non-negative child widths and horizontal padding, every placed non-texture child lies horizontally inside the resized parent, whatever the heights |
| GridLayout.GridWidthConsistent | src/ob_hypergraph.js:370-381 | non-negative child widths give a non-negative average width, and the grid's width and x offset are the column span and its centring |
| GridLayout.ChildBelowParentTop | src/ob_hypergraph.js:378-415 | no placed non-texture child reaches above the resized parent's top edge |
| GridLayout.LowestRowMargin | src/ob_hypergraph.js:377-386 | the margin between the first row's lower edge and the parent's lower edge is two vertical paddings (one and a half with a texture) minus half the average height, so it is negative for tall children |
| GridLayout.OneTallChild | src/ob_hypergraph.js:376-416 | one 1 × 3 child with paddings (0.2, 0.6) gives a 1.4 × 4.2 parent and a child at y = −0.9 whose lower edge, −2.4, is below the parent's lower edge, −2.1 |
| GridLayout.LayoutKeepsTotals | src/ob_hypergraph.js:366-415 | without a "texture" child, packing keeps the total width and total height of the children |
| GridLayout.UniformSizes | src/ob_hypergraph.js:414-415 | without a "texture" child, every laid-out child has the average size |
| GridLayout.FiveUnitChildren | src/ob_hypergraph.js:344-422 | five unit children give 3 columns and 2 rows, and a parent of 3.8 × 2.6 with paddings (0.2, 0.2) or 3.8 × 3.8 with the loader's paddings (0.2, 0.6) |
| Anchors.Opposite | src/ob_hypergraph.js:699-706 | the forced partner side differs from the side it is paired with and lies on the same axis (north/south or east/west) |
| Anchors.OppositeInvolution | src/ob_hypergraph.js:699-706 | the partner of the partner is the side itself |
| Anchors.EdgePositions | src/ob_hypergraph.js:643-668 | north/south are the centre ± half the height and east/west the centre ± half the width, all at the centre's z; for a type other than rectangle, circle or ring, all four anchors are the centre |
| Anchors.BestUpTo | src/ob_hypergraph.js:672-685 | the running best index exists exactly when some pair has been seen, and is among the pairs seen |
| Anchors.BestUpToIsFirstMin | src/ob_hypergraph.js:676-685 | the strict-`<` search keeps the FIRST pair of least distance |
| Anchors.FirstMinUnique | src/ob_hypergraph.js:676-685 | there is only one first minimum, so the search's answer is determined |
| Anchors.Closest | src/ob_hypergraph.js:676-685 | the chosen pair is one of the 16 anchor pairs |
| Anchors.ClosestIsFirstMin | src/ob_hypergraph.js:676-685 | the chosen pair is the first pair of least distance in the visiting order north, south, east, west |
| Anchors.ClosestIsNearest | src/ob_hypergraph.js:676-685 | no anchor pair is closer than the chosen one |
| Anchors.EnforceConnection | src/ob_hypergraph.js:697-712 | the anchor on the given side of the first vertex is paired with the opposite side of the second; an undefined side gives undefined anchors |
| Anchors.EnforceConnectionSwap | src/ob_hypergraph.js:697-712 | forcing from the other vertex's opposite side gives the same pair, swapped |
| Anchors.FindClosestEdge | src/ob_hypergraph.js:671-695 | the 4×4 search loop followed by `enforceConnection` returns the defined anchors `ClosestAnchors` names, from the dragged vertex's side |
| Anchors.SearchResult | src/ob_hypergraph.js:676-685 | after all 16 pairs the loop's trackers name the sides of `Closest` |
| Anchors.ClosestAnchorsOpposite | src/ob_hypergraph.js:687-694 | the returned start anchor is on some side of the dragged vertex, and the end anchor is on the opposite side of the other vertex |
| Anchors.StackedRectangles | src/ob_hypergraph.js:643-712 | two 2×2 rectangles one above the other connect the first one's north to the second one's south, whichever vertex is dragged |
| Curves.WithEndpoints | src/ob_hypergraph.js:864-876 | the update keeps the curve class and its interior control points, and makes the curve start at `start` and end at `end`; a Catmull-Rom curve becomes exactly `[start, end]` |
| Curves.SameShapeSameCurve | src/ob_hypergraph.js:864-876 | a curve is determined by its class, endpoints and interior points, so the update is characterised by `WithEndpoints`'s contract |
| Curves.LastUpdateWins | src/ob_hypergraph.js:864-876 | a second endpoint update completely overrides the first |
| Curves.UpdateWithOwnEnds | src/ob_hypergraph.js:864-876 | rewriting a curve's own endpoints leaves it unchanged |
| Curves.ResolveEndpoints | src/ob_hypergraph.js:859-862 | the anchors found are used when both are defined, and the two vertex centres otherwise |
| Overlap.MoveAmount | src/ob_hypergraph.js:785-793 | the correction is zero on z, and positive on x and y for an overlapping pair |
| Overlap.Separate | src/ob_hypergraph.js:792-796 | separating a pair never changes either vertex's z |
| Overlap.KeptEntryTrans | src/ob_hypergraph.js:771-800 | what a pass keeps about a vertex is kept across consecutive passes |
| Overlap.KeptTrans | src/ob_hypergraph.js:771-848 | the same for whole vertex tables, so sequences of passes keep it too |
| Overlap.PairStep | src/ob_hypergraph.js:777-797 | visiting a pair keeps the set of vertex ids |
| Overlap.PairStepKeeps | src/ob_hypergraph.js:777-797 | a visit changes no vertex other than the two visited; it keeps every vertex's type, size, nesting and z; it reports a move exactly when neither vertex is nested and the pair overlaps |
| Overlap.PairStepSkips | src/ob_hypergraph.js:781-791 | a pair with a nested vertex, or one that does not overlap, is left exactly as it was |
| Overlap.PairStepMoves | src/ob_hypergraph.js:791-796 | an overlapping top-level pair moves the first vertex by dir·move and the second by −dir·move·move, because `diff.multiply` scales `diff` in place |
| Overlap.PairStepFlag | src/ob_hypergraph.js:776-797 | the vertices a visit produces do not depend on whether earlier visits moved anything |
| Overlap.RowFlag | src/ob_hypergraph.js:776-798 | the same for a whole row of pairs |
| Overlap.RowNext | src/ob_hypergraph.js:776-798 | a row extended by one visit is the next row prefix, which is the loop step of the inner pair loops |
| Overlap.RowStill | src/ob_hypergraph.js:776-798 | a row that reports no move leaves the table unchanged |
| Overlap.RowKeepsAt | src/ob_hypergraph.js:776-798 | a row keeps every vertex's type, size, nesting and z, and leaves nested vertices where they are |
| Overlap.PassKeepsAt | src/ob_hypergraph.js:775-799 | the same for every prefix of a pass |
| Overlap.RelaxKeeps | src/ob_hypergraph.js:771-835 | a whole pass keeps the ids, and every vertex's type, size, nesting and z; nested vertices do not move |
| Overlap.RowIdle | src/ob_hypergraph.js:776-798 | on a table where no top-level pair overlaps, a row changes nothing |
| Overlap.PassIdle | src/ob_hypergraph.js:775-799 | the same for every prefix of a pass |
| Overlap.SeparatedIsFixed | src/ob_hypergraph.js:771-800 | a table with no overlapping top-level pair is a fixed point of a pass, which reports no move |
| Overlap.AsymmetricCorrection | src/ob_hypergraph.js:792-796 | two 2×2 squares 2 apart are moved to x = −0.5 and x = 2.25, which is not an equal and opposite correction |
| Overlap.FirstSizeDecides | src/ob_hypergraph.js:785-791 | the overlap test depends on the order of the pair: a large first vertex overlaps a small one that does not overlap it |
| Overlap.SeparateWidens | src/ob_hypergraph.js:792-796 | when the direction agrees in sign with the centre offset, separating never brings the pair closer on x or y |
| Labels.LabelAfter | src/ob_hypergraph.js:751-764 | the label stays over the midpoint's x and y whatever vertices it is compared with |
| Labels.LabelHeight | src/ob_hypergraph.js:751-764 | the label's final z is 2, or half a unit above the top of a vertex the label was near when that vertex was compared |
| Labels.NothingNear | src/ob_hypergraph.js:751-764 | a label starting clear of every vertex stays at (mid.x, mid.y, 2) |
| Labels.LiftClears | src/ob_hypergraph.js:760-763 | raising a label above a vertex of non-negative height takes it clear of that vertex |
| Labels.Values | src/ob_hypergraph.js:754 | `Object.values(vertices)` lists the vertices in key order |
| Labels.Relabel | src/ob_hypergraph.js:745-766 | the label list keeps its length, and labels with no edge at their index are left alone |
| Labels.RelabelOverwrites | src/ob_hypergraph.js:745-766 | recomputing the labels discards any earlier recomputation: only the latest curves and positions count |
| Labels.RelabelIdempotent | src/ob_hypergraph.js:745-766 | recomputing twice is recomputing once |
| HyperGraph.SameKeysSceneOk | src/ob_hypergraph.js:774-858 | replacing the vertex table by one with the same ids keeps the key list and the edge ends valid |
| HyperGraph.Lowered | src/ob_hypergraph.js:853 | lowering keeps the set of ids and every other vertex; a table mesh gets z = 0; a JSON vertex record (`None`) leaves the table exactly as it was |
| HyperGraph.DragEdge | src/ob_hypergraph.js:856-889 | one iteration of the edge loop keeps the ids, the key list, the number of edges and the number of labels |
| HyperGraph.ReshapedStep | src/ob_hypergraph.js:856-889 | re-anchoring edge n after edges 0..n−1 gives edges 0..n re-anchored |
| HyperGraph.DragEdgeReshapes | src/ob_hypergraph.js:859-876 | one iteration re-anchors its own edge, keeping the ends, curve class and interior points, and leaves every other edge as it was |
| HyperGraph.DragEdgeKeeps | src/ob_hypergraph.js:884-888 | one iteration keeps every vertex's type, size, nesting and z, and leaves nested vertices in place |
| HyperGraph.DragEdgeExtends | src/ob_hypergraph.js:856-889 | the step of the edge loop: what the first n−1 iterations keep, n iterations keep too |
| HyperGraph.DragUpTo | src/ob_hypergraph.js:856-889 | after the first n iterations, exactly edges 0..n−1 have been re-anchored; every vertex keeps its type, size, nesting and z; nested vertices do not move |
| HyperGraph.Drag | src/ob_hypergraph.js:851-891 | a drag keeps the ids, the key list and the validity of every edge |
| HyperGraph.DragKeeps | src/ob_hypergraph.js:851-891 | after a drag the dragged table mesh has z = 0; every other vertex (all of them when the handler was given a JSON record) keeps its z; all keep type, size and nesting; nested vertices other than the dragged one do not move |
| HyperGraph.DragEdgeEdges | src/ob_hypergraph.js:857-876 | an iteration gives its edge the endpoints `ClosestAnchors` picks from the two vertices' anchors, with the edge's first vertex as the dragged one exactly when it is the dragged vertex; no other edge changes |
| HyperGraph.DragEdgeLabels | src/ob_hypergraph.js:884-888 | after an iteration the labels are those the label update computes from the new edges and vertices |
| HyperGraph.DragUpToLabels | src/ob_hypergraph.js:856-889 | after one or more iterations the labels are those computed from the current edges and vertices |
| HyperGraph.DragResult | src/ob_hypergraph.js:851-891 | a drag re-anchors every edge, and leaves the labels matching the final edges and vertices when there is an edge; with no edges only the dragged table mesh's z changes |
| HyperGraph.DragUpToEdge | src/ob_hypergraph.js:856-889 | the later iterations of the edge loop leave edge i as iteration i made it |
| HyperGraph.DragUpToNext | src/ob_hypergraph.js:857-876 | iteration i gives edge i the anchors `ClosestAnchors` picks from its vertices as the first i iterations left them, keeping its ids, curve class and interior points |
| HyperGraph.DragUpToLater | src/ob_hypergraph.js:856-889 | an iteration leaves every earlier edge alone |
| HyperGraph.LabelsChain | src/ob_hypergraph.js:745-766 | labels recomputed twice in a row are those recomputed from the latest state |
| HyperGraph.DragEdgeFinal | src/ob_hypergraph.js:851-891 | after a drag, edge i runs between the anchors `findClosestEdge` picks for its two vertices as they stood when the loop reached edge i, from the first vertex's side exactly when it is the dragged table mesh; its ids, curve class and interior points are its own |
| HyperGraph.DragUnnamed | src/ob_hypergraph.js:928-938 | `handleDrag` given a JSON vertex record, as after loading and at the end of a drag, changes no vertex's z, type, size or nesting, moves no nested vertex, and anchors every edge from its second vertex's side |
| HyperGraph.Graph.PlaceLabel | src/ob_hypergraph.js:751-764 | the loop over the vertices computes the label `LabelAfter` describes |
| HyperGraph.Graph.UpdateEdgePositions | src/ob_hypergraph.js:744-767 | the labels become `Relabel` of the old labels, and nothing else changes |
| HyperGraph.Graph.VisitPair | src/ob_hypergraph.js:777-797 | visiting a pair computes `PairStep` and reports whether it moved; an unmoved table is returned unchanged |
| HyperGraph.Graph.RelaxRow | src/ob_hypergraph.js:776-798 | the inner loop computes the row `Row` for i |
| HyperGraph.Graph.RelaxAll | src/ob_hypergraph.js:775-799 | the outer loop computes the pass `Relax` |
| HyperGraph.Graph.CheckOverlap | src/ob_hypergraph.js:771-800 | the vertex table becomes the pass with buffer 1; keys, edges and labels are unchanged |
| HyperGraph.Graph.AdjustPair | src/ob_hypergraph.js:810-833 | one visit with buffer 0.05 extends the row, and the labels are recomputed once something has moved |
| HyperGraph.Graph.AdjustRow | src/ob_hypergraph.js:809-834 | the inner loop computes the row with buffer 0.05, and the labels are recomputed exactly when the row moved a pair |
| HyperGraph.Graph.AdjustStep | src/ob_hypergraph.js:808-834 | one row of `checkAndAdjustOverlap` extends the pass by that row, and the labels are recomputed once something has moved |
| HyperGraph.Graph.AdjustRows | src/ob_hypergraph.js:807-834 | the outer loop computes the pass with buffer 0.05, recomputing the labels exactly when some pair moved |
| HyperGraph.Graph.CheckAndAdjustOverlap | src/ob_hypergraph.js:804-848 | the vertex table becomes the pass with buffer 0.05; the labels are recomputed from the final table when some pair moved, and are otherwise unchanged |
| HyperGraph.Graph.DragStep | src/ob_hypergraph.js:857-888 | one iteration of the edge loop computes `DragEdge`, the edge's first vertex counting as dragged only when it is the table mesh given |
| HyperGraph.Graph.HandleDrag | src/ob_hypergraph.js:851-891 | the handler computes `Drag` of the old state, for a table mesh (`Some(id)`) or a JSON vertex record (`None`) |
| SaveRecords.ColorOr | src/ob_hypergraph.js:165-170 | a colour is written as given when it is a non-empty string, and as "#050505" otherwise; the result is never empty |
| SaveRecords.SaveEdge | src/ob_hypergraph.js:164-187 | a record keeps the ids, text and type; it has the control points when given and `[]` otherwise; it has the rendering colours when they are truthy and "#050505" otherwise |
| SaveRecords.SaveEdges | src/ob_hypergraph.js:164-187 | one record per edge, in order |
| SaveRecords.Reload | src/ob_hypergraph.js:175-187 | reading a record back gives every field the record holds, and no `controlPoint`, which the record lacks |
| SaveRecords.SavedQuadraticNotLoadable | src/ob_hypergraph.js:175-187 | a saved quadratic edge never has the `controlPoint` the loader reads at line 620, whatever it held before |
| SaveRecords.SavedOthersLoadable | src/ob_hypergraph.js:172-187 | an edge of any other type, with two control points when cubic, still has what the loader reads once saved and read back |
| SaveRecords.ReloadSave | src/ob_hypergraph.js:164-187 | a record with non-empty colours is written unchanged when read back and saved again |
| SaveRecords.SaveIsStable | src/ob_hypergraph.js:164-187 | saving, reading back and saving again writes the same records |
| Preferences.LowerChar | src/ob_local_storage.js:13-38 | a lowered character is never an upper-case ASCII letter, and other characters are kept |
| Preferences.Lower | src/ob_local_storage.js:13-38 | lowering keeps the length and lowers character by character |
| Preferences.LowerIdempotent | src/ob_local_storage.js:13-38 | lowering an already lowered text changes nothing, so the lowering on save and again on read agree |
| Preferences.StripSpaces | src/ob_local_storage.js:36 | removing the spaces leaves no space and is empty exactly when the text is all spaces |
| Preferences.Defaults | src/ob_local_storage.js:18-31 | the four keys get "guest", "", "test" and "models/hypergraph.json"; every other key is kept |
| Preferences.DefaultsIdempotent | src/ob_local_storage.js:18-31 | writing the defaults twice is writing them once |
| Preferences.Parse | src/ob_local_storage.js:13-16 | a missing key throws; otherwise the stored text is parsed, lowered first for the user name and the e-mail address |
| Preferences.ParseFields | src/ob_local_storage.js:12-25 | each field is either kept or the parse of its own key; a parse that throws leaves all fields from that one on unchanged; an unparsable user name leaves every field unchanged |
| Preferences.ReadWithoutUser | src/ob_local_storage.js:12-32 | a store without a user name keeps the fields and ends up holding exactly the defaults under the four keys |
| Preferences.ReadLeavesUser | src/ob_local_storage.js:12-32 | after `read` the store holds a user name; it holds the defaults when it had no user name, or when the user name read is the bare string "guest" |
| Preferences.ReadKeepsOthers | src/ob_local_storage.js:10-33 | `read` never touches a key other than the four preferences |
| Preferences.Saved | src/ob_local_storage.js:35-42 | a blank user name leaves the store unchanged; otherwise the store gets the lowered user name and e-mail address, and the hypergraph name under both the name key and the file key; other keys are kept |
| Preferences.SavedIdempotent | src/ob_local_storage.js:35-42 | saving the same preferences twice is saving them once |
| Preferences.SaveThenRead | src/ob_local_storage.js:10-42 | with a JSON codec that reads back what it writes, reading after a save gives the saved values; the file is the hypergraph name, and the store is not reset |
| Preferences.LocalStorage.constructor | src/ob_local_storage.js:3-8 | a new object holds guest, "", test and models/hypergraph.json |
| Preferences.LocalStorage.Read | src/ob_local_storage.js:10-33 | the fields become `ReadFields` of the old fields and store, and the store becomes `ReadStore` |
| Preferences.LocalStorage.Save | src/ob_local_storage.js:35-42 | the store becomes `Saved` of the old store, and the fields are not changed |

## Left out

- Rendering, scene, camera, controls, fonts, text meshes, materials, textures, the DOM menu, `fetch` loading and the Blob download in `saveHyperGraph` are left out. They are browser and three.js I/O.
- Floating point is left out. Coordinates are real numbers, so NaN, infinities and rounding are not modelled.
- `Vector3.normalize` is a parameter (`nz`), so the model says nothing about its length. `curve.getPoint(0.5)` is also a parameter (`mid`).
- `distanceTo` is replaced by the squared distance, which orders pairs the same way.
- Rebuilding the edge geometry from `getPoints(50)` is left out. It only feeds the renderer.
- Anchors.EnforceConnection: with real coordinates the search always finds a side, so the source's fallback for an unknown side name, `pos1[closestEdge]`, cannot be reached. The model represents it only as "no side gives no anchors", which leads `handleDrag` to use the centres.
- HyperGraph.Graph.CheckAndAdjustOverlap: the trailing loop over vertices and labels has an empty body, so it is not modelled.
- `checkOverlap` and `checkAndAdjustOverlap` work on `Object.keys(vertices)`. Here that list is the constant `keys` field, each id exactly once; no modelled operation adds or removes a vertex. Insertion order of the JavaScript object is not modelled beyond that.
- The inner loops of the overlap passes and of the drag handler are separate methods (`RelaxRow`, `RelaxAll`, `AdjustRow`, `AdjustPair`, `AdjustStep`, `AdjustRows`, `DragStep`), which the loops call. The order of the updates is the source's.
- A vertex table entry is reduced to what the engine reads: type, position, size, and whether it has a parent.
- Edges whose ids name a missing vertex make the source throw. The model requires every edge to join two vertices of the table (`EdgesResolve`).
- The drag handler compares vertex objects by identity. The model compares ids. After loading and at the end of a drag (src/ob_hypergraph.js:928-938) the handler is given JSON vertex records, which are not table meshes; these calls are `HandleDrag(None, …)` (`HyperGraph.DragUnnamed`). The sequences of calls there, including the `checkOverlap` before them, are not modelled as such.
- GridLayout.ChildBelowParentTop: only containment from above is stated. A child taller than four vertical paddings (three with a texture) reaches below the parent's lower edge (`GridLayout.LowestRowMargin`, `GridLayout.OneTallChild`), so the source does not keep children inside the parent at the bottom.
- `updateJSON` needs every parent with children to have a `size` object, because the source assigns into it. It also needs every child to have a `size` and a `position` (src/ob_hypergraph.js:367-368 read them, lines 410-415 assign into them). A parent or child without them makes the source throw; that case is not modelled.
- Every `Mesh` carries a `size`, but the source also reads `vertex.size` outside `updateJSON`. It is read in `getEdgePositions` for rectangles, circles and rings (src/ob_hypergraph.js:649-650 and 655-656), in `checkOverlap` (lines 785-786), in `checkAndAdjustOverlap` (lines 818-819) and in `updateEdgePositions` (line 762). A circle or ring given only a radius loads, but each of these reads then throws on the missing `size`, at the first overlap check or the first drag. That case is not modelled.
- The overlap correction is modelled as the source computes it. The second vertex moves by dir·move·move, so the correction is not equal and opposite (`Overlap.AsymmetricCorrection`).
- `updateJSON` takes the column count from the real child count, before the texture slot is added. The averages divide by the slot count, texture slot included.
- SaveRecords.SaveIsStable: `Reload` is the model's own reader of a saved record, not `createEdgesFromJSON`. The loader itself (src/ob_hypergraph.js:590-640) is not modelled beyond `Loadable`, what it needs to build a curve. A saved quadratic edge loses its `controlPoint` and cannot be loaded again (`SaveRecords.SavedQuadraticNotLoadable`).
- The vertex records of `saveHyperGraph` copy fields straight through, with colours from the material. They are not modelled.
- `toLowerCase` is modelled for ASCII letters only. Unicode case mapping is not modelled.
- `JSON.parse` and `JSON.stringify({value: ...})` are parameters (`decode`, `encode`). A parse that throws is `None`. `Value` distinguishes only a bare string, an object with a string `value`, and anything else.
- Preferences.SaveThenRead assumes that decoding the lowered encoding of an already lowered name gives that name back. The lemma takes this as hypotheses about the codec rather than proving it for a concrete JSON encoder.
- The `localStorage` global is an explicit `KeyValueStore` argument. Its persistence across sessions is not modelled.
