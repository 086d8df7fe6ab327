# Connectors: the graph state and interaction engine in Dafny

Connectors is a small macOS drawing program. The user places boxes on a
canvas, joins them with directed connectors, drags boxes around and
restacks them. This project models the part that decides what happens. It
has three modules:

- `GraphState` models the `State` class. It holds the boxes in stacking
  order (index 0 is the front: it is hit first and drawn last) and the set of
  connectors. It also holds the selection and the scratch fields of the drag
  and connect gestures. Its mutators are a Dafny class with `modifies`
  clauses. The two hit-test scans are `for`/`while` loops proved against
  recursive specification functions. The canvas size getters and the render
  list are functions.
- `Model` models the current `Box`/`Connector` revision
  (`Connectors/Model/Model.swift`). A box is a class whose position is moved
  in place, with a constant identity. A connector is never changed after it
  is made, so it is a value that holds its own identity and references to
  its two boxes.
- `EarlyModel` models the superseded revision (`Connectors/Model.swift`),
  which declares the same types again.

`Geometry` supplies points, sizes and half-open CGRect containment.
`Scenarios` proves properties of short gesture sequences.

The invariant `State.Valid` says four things:

- box identities are distinct;
- the connector set never holds two connectors that Swift's `==` equates
  (same ordered pair of box identities);
- connector identities are distinct;
- every identity in use was issued before the identity counter: those of
  the boxes, the connectors, the boxes the connectors join, and the
  selection and target.

Every mutator preserves it.

Where the code and its design description disagree, the model follows the
code:

- `clear` keeps the selection and the gesture flags.
- `isDragging` and `isConnecting` are independent, and both may be true.
- The connectors that `State` creates have width 3. The model's default of 2
  applies only to connectors made without a width.
- The selection may refer to a box that `clear` has removed. A drag then
  still moves that box.

## Model

| member | source | states |
|---|---|---|
| Geometry.Rect.Center | Connectors/Model/Model.swift:40-42 | The centre is equally far from the left and right edges and from the minimum and maximum y edges. It lies inside any rectangle of positive size. |
| Model.Box.constructor | Connectors/Model/Model.swift:44-46 | A new box has the identity it was given and sits at the given origin. |
| Model.Box.Rect | Connectors/Model/Model.swift:27-30 | The frame starts at the box's position and extends 100 along x and 66 along y. |
| Model.Box.Anchor | Connectors/Model/Model.swift:40-42 | The anchor lies inside the frame, halfway between its left and right edges and halfway between its minimum and maximum y edges. |
| Model.Box.Path | Connectors/Model/Model.swift:32-38 | The outline is a rounded rectangle over exactly the box's frame. |
| Model.Box.MoveTo | Connectors/Model/Model.swift:48-50 | The position becomes the given point. Identity and size are constants, so they cannot change. |
| Model.Box.Contains | Connectors/Model/Model.swift:52-54 | A point is on the box exactly when it lies in the half-open span of width 100 from the box's x position and of height 66 from its y position. |
| Model.Box.Equal | Connectors/Model/Model.swift:56-58 | A box is `==` to itself, and `==` boxes feed the hasher the same value. |
| Model.EqualBoxesHashAlike | Connectors/Model/Model.swift:56-62 | Two boxes are `==` exactly when they feed the hasher the same value, their identity. Box `==` is symmetric. |
| Model.Connector.Path | Connectors/Model/Model.swift:70-78 | The connector's outline is a line with the connector's width. It runs from the from-box's current anchor to the to-box's current anchor, so it starts inside the from-box's frame and ends inside the to-box's frame. |
| Model.Connector.Contains | Connectors/Model/Model.swift:91-95 | A point is on the connector exactly when the stroke hit test accepts it for the line from the from-box's anchor to the to-box's anchor, stroked with the connector's width. |
| Model.Connector.Equal | Connectors/Model/Model.swift:97-104 | A connector is `==` to itself, and `==` connectors hash alike: they combine the same ordered pair of box identities. |
| Model.ConnectorEqualityIsKeyEquality | Connectors/Model/Model.swift:97-104 | Two connectors are `==` exactly when their ordered pairs of box identities agree. Reversing a connector between two distinct boxes gives an unequal connector. |
| EarlyModel.Box.constructor | Connectors/Model.swift:42-44 | A new box has the given identity and origin. |
| EarlyModel.Box.Rect | Connectors/Model.swift:27-30 | The frame is the position plus a fixed 100 by 66 size. |
| EarlyModel.Box.ConnectPoint | Connectors/Model.swift:38-40 | The connect point lies inside the frame, at its centre. |
| EarlyModel.Box.MoveTo | Connectors/Model.swift:46-48 | Only the position changes, and it becomes the given point. |
| EarlyModel.Box.Contains | Connectors/Model.swift:50-52 | A point is on the box exactly when it lies in the half-open 100 by 66 span from the box's position. |
| EarlyModel.Box.Equal | Connectors/Model.swift:54-56 | A box is `==` to itself, and `==` boxes hash alike. |
| EarlyModel.EqualBoxesHashAlike | Connectors/Model.swift:54-60 | Box equality is equality of the private identity, which is also the hash. It is symmetric. |
| EarlyModel.Connector.Equal | Connectors/Model.swift:108-115 | A connector is `==` to itself, and `==` connectors hash alike. |
| EarlyModel.ConnectorEqualityIsDirected | Connectors/Model.swift:108-115 | Connector equality is equality of the (from, to) hash pair. Direction matters. |
| GraphState.FirstBoxAt | Connectors/State.swift:115-123 | The answer is the first index whose box contains the point: no box before it contains the point. The answer is none exactly when no box contains the point. |
| GraphState.IndexOf | Connectors/State.swift:97 | The answer is the first position holding that very object. It is none exactly when the object is absent. |
| GraphState.IndexOfIsFirst | Connectors/State.swift:97 | A position holding the object, with no earlier occurrence, is the answer. |
| GraphState.WithoutId | Connectors/State.swift:84 | Exactly the boxes with a different identity remain, every one of them taken from the input. Distinct identities stay distinct. |
| GraphState.WithoutIdRemovesOnePosition | Connectors/State.swift:84 | With distinct identities, removing a box's identity removes that one position and keeps the order of the rest. |
| GraphState.WithoutIdAbsent | Connectors/State.swift:84 | Removing an identity that no box has changes nothing. |
| GraphState.Reinsert | Connectors/State.swift:98 | Taking a box out and inserting it elsewhere keeps the length. |
| GraphState.ReinsertNextToIsSwap | Connectors/State.swift:97-108 | Taking a box out and inserting it one place away trades it with that neighbour. |
| GraphState.Swapped | Connectors/State.swift:98 | The two positions trade their boxes and every other position keeps its box, so the result is a permutation. |
| GraphState.SwappedKeepsDistinctIds | Connectors/State.swift:98 | Trading two positions keeps identities distinct. |
| GraphState.NudgeUp | Connectors/State.swift:94-102 | The selected box trades places with the box in front of it. Nothing changes when it is at the front or absent. The result is a permutation of the same length, and distinct identities stay distinct. |
| GraphState.NudgeDown | Connectors/State.swift:104-112 | The selected box trades places with the box behind it. Nothing changes when it is at the back or absent. The result is a permutation of the same length, and distinct identities stay distinct. |
| GraphState.NudgeDownUndoesNudgeUp | Connectors/State.swift:94-112 | Moving a box up and then down restores the order, unless the box was already at the front. |
| GraphState.Insert | Connectors/State.swift:77-79 | After a set insert, the endpoint pairs present are the old pairs plus the new one. The set grows by at most the new connector, and no two members become `==`. |
| GraphState.ConnectTwiceIsConnectOnce | Connectors/State.swift:77-79 | Connecting the same ordered pair twice leaves the set as connecting it once. |
| GraphState.OppositeDirectionsAreDistinct | Connectors/State.swift:77-79 | Connecting A to B and then B to A adds two distinct pairs. |
| GraphState.Detached | Connectors/State.swift:85 | After a box goes, no remaining connector touches it, every connector not touching it remains, and nothing is added. |
| GraphState.DetachedPreserves | Connectors/State.swift:85 | No two remaining connectors are `==`. When no connector touches the box, every connector remains. |
| GraphState.WithoutConnector | Connectors/State.swift:87 | A connector remains exactly when its identity differs from the removed one, and nothing is added. |
| GraphState.WithoutConnectorRemovesOne | Connectors/State.swift:87 | With distinct connector identities, filtering by a member's identity removes exactly that member. |
| GraphState.Max | Connectors/State.swift:22-23 | The answer is none exactly for an empty list. Otherwise it is an element of the list that no element exceeds. |
| GraphState.RightEdges | Connectors/State.swift:23 | The k-th entry is the k-th box's right edge. |
| GraphState.MaxYEdges | Connectors/State.swift:22 | The k-th entry is the k-th box's maxY edge. |
| GraphState.Extent | Connectors/State.swift:24-25 | The extent is never below the default. While the edge is below the default plus the margin, the extent is exactly the default. Once the edge reaches the default plus the margin, the extent is the edge plus the margin. |
| GraphState.ExtentCanClipBox | Connectors/State.swift:24-25 | A furthest edge of 505 gets the extent 500, so the box sticks out of the canvas. |
| GraphState.CoveringExtent | Connectors/State.swift:24-25 | The extent covers the furthest edge and is never below the default. The margin is added whenever the default is exceeded. |
| GraphState.BoxRender | Connectors/State.swift:46 | A box's entry is marked selected exactly when the box is the selection. Its kind is box and its outline is a rounded rectangle over the box's frame. |
| GraphState.ConnectorRender | Connectors/State.swift:47 | A connector's entry is marked selected exactly when the connector is the selection. Its kind is connector and its outline is the line between the two anchors with the connector's width. |
| GraphState.ConnectorRenders | Connectors/State.swift:47 | One entry per connector, in enumeration order. Each entry is that connector's render entry. |
| GraphState.BackToFront | Connectors/State.swift:46-48 | The boxes' render entries in reverse: the front box comes last. |
| GraphState.ShrunkStaysConsistent | Connectors/State.swift:81-92 | Dropping boxes and connectors keeps the invariant while the remaining box identities stay distinct. |
| GraphState.State.constructor | Connectors/State.swift:13-64 | A new state has no boxes, no connectors and no selection. Both flags are off, the points are at the origin, and the invariant holds. |
| GraphState.State.MaxY | Connectors/State.swift:22 | The result is the largest maxY edge of any box and is attained by a box. With no boxes it is 500. |
| GraphState.State.MaxX | Connectors/State.swift:23 | The result is the furthest right edge of any box and is attained by a box. With no boxes it is 500. |
| GraphState.State.Height | Connectors/State.swift:24 | The height is never below 500. It is exactly 500 while `maxY` is below 510, and `maxY` plus 10 once `maxY` reaches 510. |
| GraphState.State.Width | Connectors/State.swift:25 | The width is never below 500. It is exactly 500 while `maxX` is below 510, and `maxX` plus 10 once `maxX` reaches 510. |
| GraphState.State.CoveringHeight | Connectors/State.swift:24 | The corrected height is never below 500 and covers every box's maxY edge. |
| GraphState.State.CoveringWidth | Connectors/State.swift:25 | The corrected width is never below 500 and covers every box's right edge. |
| GraphState.State.Renders | Connectors/State.swift:44-50 | Every connector comes first, in set enumeration order, then every box from back to front. An entry is marked selected exactly when it is the selection. |
| GraphState.State.Clear | Connectors/State.swift:66-69 | Boxes and connectors become empty. The selection, the gesture fields and the counter are untouched. |
| GraphState.State.Add | Connectors/State.swift:71-75 | A fresh box at the origin goes to index 0. Its identity is the next one issued, so no other box has it and no connector touches it. The old boxes follow in their order. The new box becomes the selection, and nothing else changes. |
| GraphState.State.Connect | Connectors/State.swift:77-79 | The connector set becomes the set insert of a connector with a fresh identity and width 3. The pair is present afterwards, and nothing else changes. |
| GraphState.State.Remove | Connectors/State.swift:81-92 | A selected box goes together with exactly the connectors touching it. A selected connector goes alone. With no selection nothing goes. The selection is empty afterwards in every case. |
| GraphState.State.MoveBox | Connectors/State.swift:98 | Removing a box and inserting it next door trades the two boxes. |
| GraphState.State.MoveUp | Connectors/State.swift:94-102 | The boxes become NudgeUp of the old boxes when the selection is a box, and are unchanged otherwise. The length and the multiset of boxes are kept, and nothing else changes. |
| GraphState.State.MoveDown | Connectors/State.swift:104-112 | The boxes become NudgeDown of the old boxes when the selection is a box, and are unchanged otherwise. The length and the multiset of boxes are kept, and nothing else changes. |
| GraphState.State.FindBoxAt | Connectors/State.swift:115-123 | The scan answers the front-most box containing the point, as `FirstBoxAt` defines it. |
| GraphState.State.FindConnectorAt | Connectors/State.swift:125-130 | Any answer is a member containing the point. There is no answer exactly when no member contains it. |
| GraphState.State.Select | Connectors/State.swift:114-132 | The answer is true exactly when some box or connector contains the point. A box hit wins: the front-most such box is selected, a drag starts, and the offset is the point minus the box's origin. Otherwise a connector containing the point is selected. On false nothing changes. |
| GraphState.State.MoveSelectedObject | Connectors/State.swift:134-140 | The answer is true exactly when a drag is on and a box is selected. That box then moves to the point minus the offset. On false nothing changes, not even the selected box. |
| GraphState.State.StopMoving | Connectors/State.swift:142-144 | The drag flag clears, and nothing else changes. |
| GraphState.State.StartConnecting | Connectors/State.swift:146-159 | The answer is true exactly when a box contains the point. The front-most such box is selected, connecting starts at its anchor and ends at the point. On false nothing changes. |
| GraphState.State.StopConnecting | Connectors/State.swift:161-170 | Always true. Connecting stops and the target clears. A connector from the selection to the target is inserted only when both are boxes with different identities, so no self-loop is ever added. |
| GraphState.State.ExtendConnection | Connectors/State.swift:172-180 | The answer is whether connecting is on. When it is off nothing changes. Otherwise the end point becomes the point and the target becomes the front-most box containing it, or none. |
| Scenarios.GrabInPlace | Connectors/State.swift:114-140 | Selecting a box at a point and dragging to that same point leaves the box where it was. |
| Scenarios.AddThenRemove | Connectors/State.swift:71-92 | Adding a box and removing it at once restores the boxes and the connectors exactly, and clears the selection. |
| Scenarios.TallBoxIsClipped | Connectors/State.swift:22-24 | A canvas whose one box has its maxY edge at 505 gets a height below that edge. The corrected height covers the edge. |
| Scenarios.WideBoxIsClipped | Connectors/State.swift:23-25 | A canvas whose one box has its maxX edge at 505 gets a width below that edge. The corrected width covers the edge. |

## Left out

- AppKit views, controllers and event handling are not modelled. This
  covers the grid views, the canvas view, the control bars and the view
  controller. The `CGContext` and `NSEvent` extensions are not modelled
  either, because they only set colours and convert window coordinates.
- Box hit testing uses the box's frame (half-open CGRect containment) in
  place of the rounded-rectangle bezier path. The four 4-point corner arcs
  are therefore treated as inside.
- Connector hit testing (stroking a `CGPath` and testing containment) is a
  foreign library call. It is the parameter `strokeHit`, which says whether
  a stroked path contains a point.
- `NSBezierPath` values are reduced to the `Path` datatype: a rounded
  rectangle or a stroked line. `activeConnectionPath` is drawing output and
  is not modelled.
- Coordinates are real numbers. CGFloat rounding is not modelled, so
  `Scenarios.GrabInPlace` holds exactly only in this idealisation.
- `UUID().uuidString` is an identity counter `nextId` owned by the state,
  and boxes receive their identity at construction. The counter stands for
  the process-wide UUID generator, so `State.Connect` requires both boxes
  to carry identities it has already issued. Every caller passes boxes the
  state made, and a UUID can never be issued twice.
- The early connector outline (`Connectors/Model.swift:68-94`) is not
  modelled. It is a quadrilateral built with `sqrt`, and it divides by zero
  when the anchors coincide. The early Box `path` is not modelled either,
  because its frame stands in for it.
- Swift `Set` enumeration order is not modelled. `FindConnectorAt` picks
  members with `:|`, and `Renders` takes the order as a parameter.
- `defaultGridSize` is declared but unused by `State`.
- The `point` argument of `stopConnecting` is unused by the source, and it
  is ignored in the model too.
- The invariant does not say that connectors reference only live boxes.
  `connect` is public and accepts any two boxes, so the source does not
  keep such an invariant.

## Findings

| source | as written | input that shows it | evidently intended | confidence | as-written member | corrected member |
|---|---|---|---|---|---|---|
| Connectors/State.swift:24 | `height` gives the default 500 whenever `maxY < 510` | a single box at origin (0, 439) has `maxY` 505, so the height is 500 and the 5 points of the box beyond y = 500 fall outside the canvas | the canvas covers every box: the default up to 500, `maxY` plus the margin beyond it | medium, not executed | Scenarios.TallBoxIsClipped | GraphState.State.CoveringHeight |
| Connectors/State.swift:25 | `width` gives the default 500 whenever `maxX < 510` | a single box at origin (405, 0) has `maxX` 505, so the width is 500 and the 5 points of the box beyond x = 500 fall outside the canvas | the canvas covers every box: the default up to 500, `maxX` plus the margin beyond it | medium, not executed | Scenarios.WideBoxIsClipped | GraphState.State.CoveringWidth |
