/**
 * The graph state and interaction engine (Connectors/State.swift): the boxes
 * in z-order (index 0 is the front, hit first and drawn last), the set of
 * connectors, the selection, and the scratch fields of the drag and connect
 * gestures. The functions before the class specify its methods.
 */
module GraphState {
  import opened Geometry
  import opened Model

  const DefaultGridSize: int := 20
  const DefaultWidth: real := 500.0
  const DefaultHeight: real := 500.0
  const DefaultMargin: real := 10.0
  const DefaultConnectorWidth: real := 3.0

  datatype Option<T> = None | Some(value: T)

  /** What a selection or a connection target refers to. */
  datatype Node = BoxNode(box: Box) | ConnectorNode(connector: Connector)

  /** One entry of the render list. */
  datatype RenderNode = RenderNode(isSelected: bool, kind: Shape, path: Path)

  /** The selection and the gesture fields, grouped so that a contract can
      say in one line which of them an operation changes. */
  datatype Interaction = Interaction(
    selected: Option<Node>,
    isDragging: bool,
    offsetX: real,
    offsetY: real,
    isConnecting: bool,
    target: Option<Node>,
    connectStartPoint: Point,
    connectEndPoint: Point)

  // ---------------------------------------------------------------------
  // Boxes in z-order

  /** No two boxes of the sequence share an identity. */
  ghost predicate DistinctIds(bs: seq<Box>) {
    forall i, j :: 0 <= i < |bs| && 0 <= j < |bs| && i != j ==> bs[i].id != bs[j].id
  }

  /** The index of the front-most box containing `p`: `boxes.first` with
      the hit test, and what the `for` loops of `select` and
      `startConnecting` find. */
  function FirstBoxAt(bs: seq<Box>, p: Point): (r: Option<nat>)
    reads bs
    ensures r.Some? ==> r.value < |bs| && bs[r.value].Contains(p)
    ensures r.Some? ==> forall j :: 0 <= j < r.value ==> !bs[j].Contains(p)
    ensures r.None? ==> forall j :: 0 <= j < |bs| ==> !bs[j].Contains(p)
  {
    if bs == [] then None
    else if bs[0].Contains(p) then Some(0)
    else match FirstBoxAt(bs[1..], p)
      case None => None
      case Some(i) => Some(i + 1)
  }

  /** `firstIndex(where: { $0 === b })`: the first position holding the
      very object `b`. */
  function IndexOf(bs: seq<Box>, b: Box): (r: Option<nat>)
    ensures r.Some? ==> r.value < |bs| && bs[r.value] == b && b !in bs[..r.value]
    ensures r.None? <==> b !in bs
  {
    if bs == [] then None
    else if bs[0] == b then Some(0)
    else match IndexOf(bs[1..], b)
      case None => None
      case Some(i) => assert bs[1..][..i] == bs[1..i + 1]; Some(i + 1)
  }

  /** `removeAll { $0 == node }`: drops every box whose identity is `id`,
      keeping the others in order. */
  function WithoutId(bs: seq<Box>, id: nat): (r: seq<Box>)
    ensures forall k :: 0 <= k < |r| ==> r[k] in bs && r[k].id != id
    ensures forall k :: 0 <= k < |bs| && bs[k].id != id ==> bs[k] in r
    ensures DistinctIds(bs) ==> DistinctIds(r)
  {
    if bs == [] then []
    else if bs[0].id == id then WithoutId(bs[1..], id)
    else
      var rest := WithoutId(bs[1..], id);
      assert DistinctIds(bs) ==> forall k :: 0 <= k < |rest| ==> rest[k].id != bs[0].id by {
        if DistinctIds(bs) {
          forall k | 0 <= k < |rest| ensures rest[k].id != bs[0].id {
            var m :| 1 <= m < |bs| && bs[m] == rest[k];
          }
        }
      }
      [bs[0]] + rest
  }

  /** With distinct identities, removing the box at index `k` by its
      identity takes out that one position and nothing else. */
  lemma {:induction false} WithoutIdRemovesOnePosition(bs: seq<Box>, k: nat)
    requires DistinctIds(bs) && k < |bs|
    ensures WithoutId(bs, bs[k].id) == bs[..k] + bs[k + 1..]
  {
    if k == 0 {
      WithoutIdOfFront(bs);
      assert bs[..0] + bs[1..] == bs[1..];
    } else {
      DistinctTail(bs);
      var tail := bs[1..];
      var id := bs[k].id;
      assert tail[k - 1] == bs[k];
      WithoutIdRemovesOnePosition(tail, k - 1);
      assert bs[0].id != id;
      assert WithoutId(bs, id) == [bs[0]] + WithoutId(tail, id);
      assert bs[..k] + bs[k + 1..] == [bs[0]] + (tail[..k - 1] + tail[k..]);
    }
  }

  /** Removing the front box's identity leaves the boxes behind it. */
  lemma WithoutIdOfFront(bs: seq<Box>)
    requires DistinctIds(bs) && bs != []
    ensures WithoutId(bs, bs[0].id) == bs[1..]
  {
    DistinctTail(bs);
    WithoutIdAbsent(bs[1..], bs[0].id);
  }

  /** The boxes behind the front one have distinct identities, none of
      them the front one's. */
  lemma DistinctTail(bs: seq<Box>)
    requires DistinctIds(bs) && bs != []
    ensures DistinctIds(bs[1..])
    ensures forall b :: b in bs[1..] ==> b.id != bs[0].id
  {
    forall i, j | 0 <= i < |bs| - 1 && 0 <= j < |bs| - 1 && i != j
      ensures bs[1..][i].id != bs[1..][j].id
    {
      assert bs[1..][i] == bs[i + 1] && bs[1..][j] == bs[j + 1];
    }
    forall b | b in bs[1..]
      ensures b.id != bs[0].id
    {
      var m :| 0 <= m < |bs| - 1 && bs[1..][m] == b;
      assert bs[m + 1] == b;
    }
  }

  /** Removing an identity nobody has changes nothing. */
  lemma {:induction false} WithoutIdAbsent(bs: seq<Box>, id: nat)
    requires forall b :: b in bs ==> b.id != id
    ensures WithoutId(bs, id) == bs
  {
    if bs != [] {
      WithoutIdAbsent(bs[1..], id);
    }
  }

  /** The sequence with positions `i` and `j` traded. */
  function Swapped(bs: seq<Box>, i: nat, j: nat): (r: seq<Box>)
    requires i < |bs| && j < |bs|
    ensures |r| == |bs| && r[i] == bs[j] && r[j] == bs[i]
    ensures forall k :: 0 <= k < |bs| && k != i && k != j ==> r[k] == bs[k]
    ensures multiset(r) == multiset(bs)
  {
    bs[i := bs[j]][j := bs[i]]
  }

  /** Trading two positions keeps the identities distinct. */
  lemma SwappedKeepsDistinctIds(bs: seq<Box>, i: nat, j: nat)
    requires i < |bs| && j < |bs|
    ensures DistinctIds(bs) ==> DistinctIds(Swapped(bs, i, j))
  {
    var r := Swapped(bs, i, j);
    if DistinctIds(bs) {
      forall m, n | 0 <= m < |r| && 0 <= n < |r| && m != n
        ensures r[m].id != r[n].id
      {
        var m' := if m == i then j else if m == j then i else m;
        var n' := if n == i then j else if n == j then i else n;
        assert r[m] == bs[m'] && r[n] == bs[n'];
      }
    }
  }

  /** `boxes.insert(boxes.remove(at: from), at: to)`. */
  function Reinsert(bs: seq<Box>, from: nat, to: nat): (r: seq<Box>)
    requires from < |bs| && to < |bs|
    ensures |r| == |bs|
  {
    var rest := bs[..from] + bs[from + 1..];
    rest[..to] + [bs[from]] + rest[to..]
  }

  /** Taking a box out and putting it back one place further front or back
      trades it with that neighbour. */
  lemma ReinsertNextToIsSwap(bs: seq<Box>, from: nat, to: nat)
    requires from < |bs| && to < |bs| && (to + 1 == from || to == from + 1)
    ensures Reinsert(bs, from, to) == Swapped(bs, to, from)
  {
    var r := Reinsert(bs, from, to);
    var s := Swapped(bs, to, from);
    forall k | 0 <= k < |bs| ensures r[k] == s[k] {
      if k < to && k < from {
        assert r[k] == bs[k];
      } else if k > to && k > from {
        assert r[k] == bs[k];
      }
    }
  }

  /** What `moveUp` does to the boxes when `b` is selected: the first
      occurrence of `b` trades places with the box in front of it, unless it
      is at the front already or absent. */
  function NudgeUp(bs: seq<Box>, b: Box): (r: seq<Box>)
    ensures |r| == |bs| && multiset(r) == multiset(bs)
    ensures DistinctIds(bs) ==> DistinctIds(r)
    ensures IndexOf(bs, b).Some? && IndexOf(bs, b).value > 0 ==>
      r == Swapped(bs, IndexOf(bs, b).value - 1, IndexOf(bs, b).value)
    ensures IndexOf(bs, b).None? || IndexOf(bs, b).value == 0 ==> r == bs
  {
    match IndexOf(bs, b)
    case None => bs
    case Some(i) =>
      if i == 0 then bs
      else
        SwappedKeepsDistinctIds(bs, i - 1, i);
        Swapped(bs, i - 1, i)
  }

  /** What `moveDown` does to the boxes when `b` is selected: the first
      occurrence of `b` trades places with the box behind it, unless it is at
      the back already or absent. */
  function NudgeDown(bs: seq<Box>, b: Box): (r: seq<Box>)
    ensures |r| == |bs| && multiset(r) == multiset(bs)
    ensures DistinctIds(bs) ==> DistinctIds(r)
    ensures IndexOf(bs, b).Some? && IndexOf(bs, b).value + 1 < |bs| ==>
      r == Swapped(bs, IndexOf(bs, b).value + 1, IndexOf(bs, b).value)
    ensures IndexOf(bs, b).None? || IndexOf(bs, b).value + 1 == |bs| ==> r == bs
  {
    match IndexOf(bs, b)
    case None => bs
    case Some(i) =>
      if i + 1 == |bs| then bs
      else
        SwappedKeepsDistinctIds(bs, i + 1, i);
        Swapped(bs, i + 1, i)
  }

  /** The first position holding `b` is the one before which `b` does not
      occur. */
  lemma IndexOfIsFirst(bs: seq<Box>, b: Box, j: nat)
    requires j < |bs| && bs[j] == b && b !in bs[..j]
    ensures IndexOf(bs, b) == Some(j)
  {
  }

  /** Moving a box up and then down again restores the order, unless it was
      already at the front. */
  lemma NudgeDownUndoesNudgeUp(bs: seq<Box>, b: Box)
    requires IndexOf(bs, b).Some? && IndexOf(bs, b).value > 0
    ensures NudgeDown(NudgeUp(bs, b), b) == bs
  {
    var i := IndexOf(bs, b).value;
    var up := NudgeUp(bs, b);
    assert up == Swapped(bs, i - 1, i);
    assert b !in up[..i - 1] by {
      assert up[..i - 1] == bs[..i][..i - 1];
    }
    IndexOfIsFirst(up, b, i - 1);
    var down := NudgeDown(up, b);
    assert down == Swapped(up, i, i - 1);
    assert |down| == |bs|;
    forall k | 0 <= k < |bs|
      ensures down[k] == bs[k]
    {
      if k != i && k != i - 1 {
        assert down[k] == up[k];
      }
    }
  }

  // ---------------------------------------------------------------------
  // The connector set

  /** The endpoint pairs present in a set of connectors. */
  function Keys(s: set<Connector>): set<(nat, nat)> {
    set c | c in s :: c.Key()
  }

  /** A Swift `Set<Connector>` holds no two connectors that are `==`. */
  ghost predicate UniqueKeys(s: set<Connector>) {
    forall c, d :: c in s && d in s && c.Key() == d.Key() ==> c == d
  }

  /** No two connectors of the set are the same object (share an id). */
  ghost predicate DistinctConnectorIds(s: set<Connector>) {
    forall c, d :: c in s && d in s && c.id == d.id ==> c == d
  }

  /** Every identity in use was handed out before `next`: those of the
      boxes, of the connectors and of the boxes the connectors join. */
  ghost predicate IssuedBefore(bs: seq<Box>, s: set<Connector>, next: nat) {
    && (forall k :: 0 <= k < |bs| ==> bs[k].id < next)
    && (forall c :: c in s ==> c.id < next && c.fromBox.id < next && c.toBox.id < next)
  }

  /** The identities a selection or a target refers to were handed out
      before `next`. */
  ghost predicate NodeIssuedBefore(n: Option<Node>, next: nat) {
    match n
    case None => true
    case Some(BoxNode(b)) => b.id < next
    case Some(ConnectorNode(c)) => c.id < next && c.fromBox.id < next && c.toBox.id < next
  }

  /** `Set.insert`: a connector equal to one already present leaves the set
      as it is (the member already there stays); otherwise it is added. */
  function Insert(s: set<Connector>, c: Connector): (r: set<Connector>)
    ensures Keys(r) == Keys(s) + {c.Key()}
    ensures s <= r <= s + {c}
    ensures UniqueKeys(s) ==> UniqueKeys(r)
  {
    if exists d :: d in s && d.Equal(c) then s else s + {c}
  }

  /** Inserting a connector for a pair already present changes nothing: the
      same pair connected twice is connected once. */
  lemma ConnectTwiceIsConnectOnce(s: set<Connector>, c: Connector, c': Connector)
    requires c.Key() == c'.Key()
    ensures Insert(Insert(s, c), c') == Insert(s, c)
  {
    if !exists d :: d in s && d.Equal(c) {
      assert c in Insert(s, c) && c.Equal(c');
    }
  }

  /** An edge and its reverse are different members: after inserting both
      the set has two more pairs than before when neither was present. */
  lemma OppositeDirectionsAreDistinct(s: set<Connector>, c: Connector, c': Connector)
    requires c.fromBox.id != c.toBox.id
    requires c'.fromBox.id == c.toBox.id && c'.toBox.id == c.fromBox.id
    requires c.Key() !in Keys(s) && c'.Key() !in Keys(s)
    ensures Keys(Insert(Insert(s, c), c')) == Keys(s) + {c.Key(), c'.Key()}
    ensures |Keys(Insert(Insert(s, c), c'))| == |Keys(s)| + 2
  {
    assert c.Key() != c'.Key();
  }

  /** The connectors left when the box with identity `id` goes: no
      remaining connector touches it, and every connector not touching it
      remains. */
  function Detached(s: set<Connector>, id: nat): (r: set<Connector>)
    ensures r <= s
    ensures forall c :: c in r ==> c.fromBox.id != id && c.toBox.id != id
    ensures forall c :: c in s && c.fromBox.id != id && c.toBox.id != id ==> c in r
  {
    set c | c in s && c.fromBox.id != id && c.toBox.id != id
  }

  /** The connectors left when the connector with identity `id` goes:
      exactly the members with another identity. */
  function WithoutConnector(s: set<Connector>, id: nat): (r: set<Connector>)
    ensures r <= s
    ensures forall c :: c in s ==> (c in r <==> c.id != id)
  {
    set c | c in s && c.id != id
  }

  /** Detaching a box keeps the connectors pairwise unequal, and detaching
      an identity that no connector touches keeps every connector. */
  lemma DetachedPreserves(s: set<Connector>, id: nat)
    ensures UniqueKeys(s) ==> UniqueKeys(Detached(s, id))
    ensures (forall c :: c in s ==> c.fromBox.id != id && c.toBox.id != id) ==> Detached(s, id) == s
  {
  }

  /** When connector ids are distinct, removing by the id of a member takes
      out exactly that member. */
  lemma WithoutConnectorRemovesOne(s: set<Connector>, c: Connector)
    requires c in s
    requires forall d, e :: d in s && e in s && d.id == e.id ==> d == e
    ensures WithoutConnector(s, c.id) == s - {c}
  {
  }

  // ---------------------------------------------------------------------
  // Canvas size

  /** The largest of a list of numbers, or None for an empty list
      (`max()` on an array). */
  function Max(xs: seq<real>): (r: Option<real>)
    ensures r.None? <==> xs == []
    ensures r.Some? ==> r.value in xs && forall k :: 0 <= k < |xs| ==> xs[k] <= r.value
  {
    if xs == [] then None
    else match Max(xs[1..])
      case None => Some(xs[0])
      case Some(m) => Some(if xs[0] < m then m else xs[0])
  }

  /** `boxes.map { $0.rect.maxX }`. */
  function RightEdges(bs: seq<Box>): (r: seq<real>)
    reads bs
    ensures |r| == |bs| && forall k :: 0 <= k < |bs| ==> r[k] == bs[k].Rect().MaxX()
  {
    if bs == [] then [] else [bs[0].Rect().MaxX()] + RightEdges(bs[1..])
  }

  /** `boxes.map { $0.rect.maxY }`. */
  function MaxYEdges(bs: seq<Box>): (r: seq<real>)
    reads bs
    ensures |r| == |bs| && forall k :: 0 <= k < |bs| ==> r[k] == bs[k].Rect().MaxY()
  {
    if bs == [] then [] else [bs[0].Rect().MaxY()] + MaxYEdges(bs[1..])
  }

  /** The canvas extent along one axis as the source computes it from the
      furthest box edge: the default, unless the edge reaches the default
      plus the margin. */
  function Extent(maxEdge: real, default: real): (r: real)
    ensures r >= default
    ensures maxEdge < default + DefaultMargin ==> r == default
    ensures maxEdge >= default + DefaultMargin ==> r == maxEdge + DefaultMargin
  {
    if maxEdge < default + DefaultMargin then default else maxEdge + DefaultMargin
  }

  /** An edge between the default and the default plus the margin gets the
      default extent, which leaves the box partly outside the canvas. */
  lemma ExtentCanClipBox()
    ensures Extent(505.0, DefaultHeight) == DefaultHeight < 505.0
    ensures Extent(505.0, DefaultWidth) == DefaultWidth < 505.0
  {
  }

  /** The extent with the guard corrected: never below the default, never
      short of the furthest edge, and the margin added whenever the boxes
      need more than the default. */
  function CoveringExtent(maxEdge: real, default: real): (r: real)
    ensures r >= default && r >= maxEdge
    ensures maxEdge > default ==> r == maxEdge + DefaultMargin
    ensures maxEdge <= default ==> r == default
  {
    if maxEdge <= default then default else maxEdge + DefaultMargin
  }

  // ---------------------------------------------------------------------
  // Rendering order

  /** The render entry of a box: marked selected exactly when the box is the
      selection, of kind box, with the box's outline. */
  function BoxRender(b: Box, selected: Option<Node>): (r: RenderNode)
    reads b
    ensures r.isSelected <==> selected == Some(BoxNode(b))
    ensures r.kind == BoxShape && r.path.RoundedRect? && r.path.rect == b.Rect()
  {
    RenderNode(selected == Some(BoxNode(b)), BoxShape, b.Path())
  }

  /** The render entry of a connector: marked selected exactly when it is
      the selection, of kind connector, with the line between the anchors. */
  function ConnectorRender(c: Connector, selected: Option<Node>): (r: RenderNode)
    reads c.fromBox, c.toBox
    ensures r.isSelected <==> selected == Some(ConnectorNode(c))
    ensures r.kind == ConnectorShape
    ensures r.path == Line(c.fromBox.Anchor(), c.toBox.Anchor(), c.lineWidth)
  {
    RenderNode(selected == Some(ConnectorNode(c)), ConnectorShape, c.Path())
  }

  /** The boxes of `cs`'s connectors. */
  function Endpoints(cs: seq<Connector>): set<Box> {
    (set c | c in cs :: c.fromBox) + (set c | c in cs :: c.toBox)
  }

  /** `connectors.map { … }` in the order `cs` enumerates them. */
  function ConnectorRenders(cs: seq<Connector>, selected: Option<Node>): (r: seq<RenderNode>)
    reads Endpoints(cs)
    ensures |r| == |cs|
    ensures forall k :: 0 <= k < |cs| ==> r[k] == ConnectorRender(cs[k], selected)
  {
    if cs == [] then [] else [ConnectorRender(cs[0], selected)] + ConnectorRenders(cs[1..], selected)
  }

  /** `boxes.map { … }.reversed()`: the back box first, the front box
      last. */
  function BackToFront(bs: seq<Box>, selected: Option<Node>): (r: seq<RenderNode>)
    reads bs
    ensures |r| == |bs|
    ensures forall k :: 0 <= k < |bs| ==> r[|bs| - 1 - k] == BoxRender(bs[k], selected)
  {
    if bs == [] then [] else BackToFront(bs[1..], selected) + [BoxRender(bs[0], selected)]
  }

  // ---------------------------------------------------------------------
  // The state

  /** The graph invariant: boxes have distinct identities, the connector set
      holds no two equal connectors nor two with the same id, and every
      identity in use was handed out before `nextId`. */
  ghost predicate Consistent(boxes: seq<Box>, connectors: set<Connector>, nextId: nat) {
    && DistinctIds(boxes)
    && UniqueKeys(connectors)
    && DistinctConnectorIds(connectors)
    && IssuedBefore(boxes, connectors, nextId)
  }

  /** Dropping boxes and connectors keeps the invariant, provided the
      boxes left still have distinct identities. */
  lemma ShrunkStaysConsistent(bs: seq<Box>, s: set<Connector>, next: nat, bs': seq<Box>, s': set<Connector>)
    requires Consistent(bs, s, next)
    requires (forall k :: 0 <= k < |bs'| ==> bs'[k] in bs) && DistinctIds(bs') && s' <= s
    ensures Consistent(bs', s', next)
  {
    forall k | 0 <= k < |bs'|
      ensures bs'[k].id < next
    {
      var m :| 0 <= m < |bs| && bs[m] == bs'[k];
    }
  }

  class State {
    var boxes: seq<Box>
    var connectors: set<Connector>
    var selected: Option<Node>
    var isDragging: bool
    var offsetX: real
    var offsetY: real
    var isConnecting: bool
    var target: Option<Node>
    var connectEndPoint: Point
    var connectStartPoint: Point
    /** The identity generator: the next value handed out as a UUID. */
    var nextId: nat

    /** Boxes have distinct identities, the connector set holds no two equal
        connectors nor two with the same id, and every identity in use,
        including those the selection and the target refer to, was handed
        out before `nextId`. */
    ghost predicate Valid()
      reads this
    {
      && Consistent(boxes, connectors, nextId)
      && NodeIssuedBefore(selected, nextId)
      && NodeIssuedBefore(target, nextId)
    }

    function Gesture(): Interaction
      reads this
    {
      Interaction(selected, isDragging, offsetX, offsetY, isConnecting, target,
                  connectStartPoint, connectEndPoint)
    }

    /** The box objects a move may change: the selected box, if any. */
    function SelectedBox(): set<Box>
      reads this
    {
      if selected.Some? && selected.value.BoxNode? then {selected.value.box} else {}
    }

    constructor ()
      ensures Valid()
      ensures boxes == [] && connectors == {} && nextId == 0
      ensures Gesture() == Interaction(None, false, 0.0, 0.0, false, None, Point(0.0, 0.0), Point(0.0, 0.0))
    {
      boxes := [];
      connectors := {};
      selected := None;
      isDragging := false;
      offsetX, offsetY := 0.0, 0.0;
      isConnecting := false;
      target := None;
      connectEndPoint := Point(0.0, 0.0);
      connectStartPoint := Point(0.0, 0.0);
      nextId := 0;
    }

    /** `maxY`: the largest maxY edge, or the default height without boxes. */
    function MaxY(): (m: real)
      reads this, boxes
      ensures boxes == [] ==> m == DefaultHeight
      ensures forall b :: b in boxes ==> b.Rect().MaxY() <= m
      ensures boxes != [] ==> exists b :: b in boxes && b.Rect().MaxY() == m
    {
      var edges := MaxYEdges(boxes);
      match Max(edges)
      case None => DefaultHeight
      case Some(m) =>
        assert forall k :: 0 <= k < |boxes| ==> boxes[k].Rect().MaxY() == edges[k];
        var k :| 0 <= k < |edges| && edges[k] == m;
        assert boxes[k].Rect().MaxY() == m;
        m
    }

    /** `maxX`: the furthest right edge, or the default width without boxes. */
    function MaxX(): (m: real)
      reads this, boxes
      ensures boxes == [] ==> m == DefaultWidth
      ensures forall b :: b in boxes ==> b.Rect().MaxX() <= m
      ensures boxes != [] ==> exists b :: b in boxes && b.Rect().MaxX() == m
    {
      var edges := RightEdges(boxes);
      match Max(edges)
      case None => DefaultWidth
      case Some(m) =>
        assert forall k :: 0 <= k < |boxes| ==> boxes[k].Rect().MaxX() == edges[k];
        var k :| 0 <= k < |edges| && edges[k] == m;
        assert boxes[k].Rect().MaxX() == m;
        m
    }

    /** `height`, as the source computes it. */
    function Height(): (h: real)
      reads this, boxes
      ensures h >= DefaultHeight
      ensures MaxY() < DefaultHeight + DefaultMargin ==> h == DefaultHeight
      ensures MaxY() >= DefaultHeight + DefaultMargin ==> h == MaxY() + DefaultMargin
    {
      Extent(MaxY(), DefaultHeight)
    }

    /** `width`, as the source computes it. */
    function Width(): (w: real)
      reads this, boxes
      ensures w >= DefaultWidth
      ensures MaxX() < DefaultWidth + DefaultMargin ==> w == DefaultWidth
      ensures MaxX() >= DefaultWidth + DefaultMargin ==> w == MaxX() + DefaultMargin
    {
      Extent(MaxX(), DefaultWidth)
    }

    /** The height the canvas needs so that every box is on it. */
    function CoveringHeight(): (h: real)
      reads this, boxes
      ensures h >= DefaultHeight
      ensures forall b :: b in boxes ==> b.Rect().MaxY() <= h
    {
      CoveringExtent(MaxY(), DefaultHeight)
    }

    /** The width the canvas needs so that every box is on it. */
    function CoveringWidth(): (w: real)
      reads this, boxes
      ensures w >= DefaultWidth
      ensures forall b :: b in boxes ==> b.Rect().MaxX() <= w
    {
      CoveringExtent(MaxX(), DefaultWidth)
    }

    /** `renders`, with `order` the order in which the connector set is
        enumerated: every connector first, then every box from back to
        front, so that the front box is drawn last; an entry is marked
        selected exactly when it is the selection. */
    function Renders(order: seq<Connector>): (r: seq<RenderNode>)
      reads this, boxes, Endpoints(order)
      requires multiset(order) == multiset(connectors)
      ensures |r| == |order| + |boxes| && |order| == |connectors|
      ensures forall k :: 0 <= k < |order| ==> r[k] == ConnectorRender(order[k], selected)
      ensures forall k :: 0 <= k < |boxes| ==> r[|r| - 1 - k] == BoxRender(boxes[k], selected)
    {
      assert |multiset(order)| == |connectors|;
      var front := ConnectorRenders(order, selected);
      var back := BackToFront(boxes, selected);
      forall k | 0 <= k < |boxes|
        ensures (front + back)[|front| + |back| - 1 - k] == BoxRender(boxes[k], selected)
      {
        assert (front + back)[|front| + |back| - 1 - k] == back[|back| - 1 - k];
      }
      front + back
    }

    /** `clear`: empties the boxes and the connectors; the selection and the
        gesture fields are left as they were. */
    method Clear()
      requires Valid()
      modifies this
      ensures Valid()
      ensures boxes == [] && connectors == {}
      ensures nextId == old(nextId) && Gesture() == old(Gesture())
    {
      boxes := [];
      connectors := {};
    }

    /** `add`: a new box with a fresh identity goes to the front and becomes
        the selection. */
    method Add(origin: Point)
      requires Valid()
      modifies this
      ensures Valid()
      ensures |boxes| == |old(boxes)| + 1 && boxes[1..] == old(boxes)
      ensures fresh(boxes[0]) && boxes[0].position == origin
      ensures boxes[0].id == old(nextId) && nextId == old(nextId) + 1
      ensures forall b :: b in old(boxes) ==> b.id != boxes[0].id
      ensures forall c :: c in connectors ==> c.fromBox.id != boxes[0].id && c.toBox.id != boxes[0].id
      ensures connectors == old(connectors)
      ensures Gesture() == old(Gesture()).(selected := Some(BoxNode(boxes[0])))
    {
      var box := new Box(nextId, origin);
      nextId := nextId + 1;
      boxes := [box] + boxes;
      selected := Some(BoxNode(box));
      assert boxes[1..] == old(boxes);
    }

    /** `connect`: inserts a connector from `fromBox` to `toBox` into the
        set; a connector for that pair already present stays as it is. */
    method Connect(fromBox: Box, toBox: Box)
      requires Valid()
      requires fromBox.id < nextId && toBox.id < nextId
      modifies this
      ensures Valid()
      ensures connectors == Insert(old(connectors), Connector(old(nextId), fromBox, toBox, DefaultConnectorWidth))
      ensures Keys(connectors) == Keys(old(connectors)) + {(fromBox.id, toBox.id)}
      ensures nextId == old(nextId) + 1
      ensures boxes == old(boxes) && Gesture() == old(Gesture())
    {
      var c := Connector(nextId, fromBox, toBox, DefaultConnectorWidth);
      nextId := nextId + 1;
      connectors := Insert(connectors, c);
    }

    /** `remove`: deletes the selected box with every connector that starts
        or ends at it, or the selected connector; the selection is empty
        afterwards in every case. */
    method Remove()
      requires Valid()
      modifies this
      ensures unchanged(this`nextId)
      ensures Gesture() == old(Gesture()).(selected := None)
      ensures old(selected).Some? && old(selected).value.BoxNode? ==>
        var id := old(selected).value.box.id;
        boxes == WithoutId(old(boxes), id) && connectors == Detached(old(connectors), id)
      ensures old(selected).Some? && old(selected).value.ConnectorNode? ==>
        boxes == old(boxes) && connectors == WithoutConnector(old(connectors), old(selected).value.connector.id)
      ensures old(selected).Some? && old(selected).value.ConnectorNode? && old(selected).value.connector in old(connectors) ==>
        connectors == old(connectors) - {old(selected).value.connector}
      ensures old(selected).None? ==> unchanged(this`boxes, this`connectors)
      ensures Valid()
    {
      match selected {
        case Some(BoxNode(node)) =>
          var bs, cs := WithoutId(boxes, node.id), Detached(connectors, node.id);
          ShrunkStaysConsistent(boxes, connectors, nextId, bs, cs);
          boxes, connectors := bs, cs;
        case Some(ConnectorNode(node)) =>
          if node in connectors {
            WithoutConnectorRemovesOne(connectors, node);
          }
          var cs := WithoutConnector(connectors, node.id);
          ShrunkStaysConsistent(boxes, connectors, nextId, boxes, cs);
          connectors := cs;
        case None =>
      }
      selected := None;
    }

    /** `boxes.insert(boxes.remove(at: from), at: to)` with `to` next to
        `from`: the two boxes trade places. */
    method MoveBox(from: nat, to: nat)
      requires from < |boxes| && to < |boxes| && (to + 1 == from || to == from + 1)
      modifies this`boxes
      ensures boxes == Swapped(old(boxes), to, from)
    {
      var moved := boxes[from];
      boxes := boxes[..from] + boxes[from + 1..];
      boxes := boxes[..to] + [moved] + boxes[to..];
      assert boxes == Reinsert(old(boxes), from, to);
      ReinsertNextToIsSwap(old(boxes), from, to);
    }

    /** `moveUp`: the selected box trades places with the one in front of
        it; nothing happens at the front, or without a selected box. */
    method MoveUp()
      requires Valid()
      modifies this
      ensures unchanged(this`connectors, this`nextId) && Gesture() == old(Gesture())
      ensures boxes == (if old(selected).Some? && old(selected).value.BoxNode?
                        then NudgeUp(old(boxes), old(selected).value.box) else old(boxes))
      ensures |boxes| == |old(boxes)| && multiset(boxes) == multiset(old(boxes))
      ensures Valid()
    {
      match selected
      case Some(BoxNode(node)) =>
        var index := IndexOf(boxes, node);
        if index.Some? && index.value > 0 {
          var i := index.value;
          MoveBox(i, i - 1);
          assert boxes == NudgeUp(old(boxes), node);
        }
      case _ =>
    }

    /** `moveDown`: the selected box trades places with the one behind it;
        nothing happens at the back, or without a selected box. */
    method MoveDown()
      requires Valid()
      modifies this
      ensures unchanged(this`connectors, this`nextId) && Gesture() == old(Gesture())
      ensures boxes == (if old(selected).Some? && old(selected).value.BoxNode?
                        then NudgeDown(old(boxes), old(selected).value.box) else old(boxes))
      ensures |boxes| == |old(boxes)| && multiset(boxes) == multiset(old(boxes))
      ensures Valid()
    {
      match selected
      case Some(BoxNode(node)) =>
        var index := IndexOf(boxes, node);
        if index.Some? && index.value + 1 < |boxes| {
          var i := index.value;
          MoveBox(i, i + 1);
          assert boxes == NudgeDown(old(boxes), node);
        }
      case _ =>
    }

    /** The `for box in boxes` scan shared by `select` and
        `startConnecting`: the index of the front-most box containing `p`. */
    method FindBoxAt(p: Point) returns (r: Option<nat>)
      ensures r == FirstBoxAt(boxes, p)
    {
      for i := 0 to |boxes|
        invariant forall j :: 0 <= j < i ==> !boxes[j].Contains(p)
      {
        if boxes[i].Contains(p) {
          return Some(i);
        }
      }
      return None;
    }

    /** The `for conn in connectors` scan of `select`: the set is visited in
        an unspecified order and the first connector containing `p` is
        answered, so any connector under `p` may be the one. */
    method FindConnectorAt(p: Point, strokeHit: (Path, Point) -> bool) returns (r: Option<Connector>)
      ensures r.Some? ==> r.value in connectors && r.value.Contains(p, strokeHit)
      ensures r.None? <==> forall c :: c in connectors ==> !c.Contains(p, strokeHit)
    {
      var unvisited := connectors;
      while unvisited != {}
        invariant unvisited <= connectors
        invariant forall c :: c in connectors - unvisited ==> !c.Contains(p, strokeHit)
        decreases unvisited
      {
        var conn :| conn in unvisited;
        if conn.Contains(p, strokeHit) {
          return Some(conn);
        }
        unvisited := unvisited - {conn};
      }
      return None;
    }

    /** `select`: the front-most box under `p` becomes the selection and a
        drag begins, holding the grab offset from the box's origin;
        otherwise some connector under `p` becomes the selection; otherwise
        nothing changes and the answer is false. */
    method Select(p: Point, strokeHit: (Path, Point) -> bool) returns (found: bool)
      requires Valid()
      modifies this
      ensures unchanged(this`boxes, this`connectors, this`nextId)
      ensures Valid()
      ensures found <==> old(FirstBoxAt(boxes, p).Some? || exists c :: c in connectors && c.Contains(p, strokeHit))
      ensures
        if old(FirstBoxAt(boxes, p)).Some? then
          var b := old(boxes[FirstBoxAt(boxes, p).value]);
          Gesture() == old(Gesture()).(selected := Some(BoxNode(b)), isDragging := true,
                                       offsetX := p.x - old(b.Rect().MinX()), offsetY := p.y - old(b.Rect().MinY()))
        else if found then
          && selected.Some? && selected.value.ConnectorNode?
          && var c := selected.value.connector;
             c in connectors && old(c.Contains(p, strokeHit)) && Gesture() == old(Gesture()).(selected := selected)
        else
          Gesture() == old(Gesture())
    {
      var hit := FindBoxAt(p);
      if hit.Some? {
        var box := boxes[hit.value];
        selected, isDragging, offsetX, offsetY := Some(BoxNode(box)), true, p.x - box.Rect().MinX(), p.y - box.Rect().MinY();
        found := true;
      } else {
        var conn := FindConnectorAt(p, strokeHit);
        found := conn.Some?;
        if found {
          selected := Some(ConnectorNode(conn.value));
        }
      }
    }

    /** `moveSelectedObject`: while dragging a selected box, moves it so
        that the grab offset stays under `p`; otherwise changes nothing and
        answers false. */
    method MoveSelectedObject(p: Point) returns (moved: bool)
      requires Valid()
      modifies SelectedBox()
      ensures Valid()
      ensures moved <==> isDragging && selected.Some? && selected.value.BoxNode?
      ensures moved ==> selected.value.box.position == Point(p.x - offsetX, p.y - offsetY)
      ensures !moved ==> unchanged(SelectedBox())
    {
      if !isDragging {
        return false;
      }
      if !(selected.Some? && selected.value.BoxNode?) {
        return false;
      }
      var box := selected.value.box;
      box.MoveTo(Point(p.x - offsetX, p.y - offsetY));
      return true;
    }

    /** `stopMoving`: the drag ends. */
    method StopMoving()
      requires Valid()
      modifies this
      ensures unchanged(this`boxes, this`connectors, this`nextId)
      ensures Valid()
      ensures Gesture() == old(Gesture()).(isDragging := false)
    {
      isDragging := false;
    }

    /** `startConnecting`: the front-most box under `p` becomes the
        selection and a connection begins at its anchor, reaching to `p`;
        with no box under `p` nothing changes and the answer is false. */
    method StartConnecting(p: Point) returns (found: bool)
      requires Valid()
      modifies this
      ensures unchanged(this`boxes, this`connectors, this`nextId)
      ensures Valid()
      ensures found <==> old(FirstBoxAt(boxes, p)).Some?
      ensures found ==>
        var b := old(boxes[FirstBoxAt(boxes, p).value]);
        Gesture() == old(Gesture()).(selected := Some(BoxNode(b)), isConnecting := true,
                                     connectStartPoint := old(b.Anchor()), connectEndPoint := p)
      ensures !found ==> Gesture() == old(Gesture())
    {
      var hit := FindBoxAt(p);
      if hit.None? {
        return false;
      }
      var box := boxes[hit.value];
      var x := box.Rect().MaxX() - box.Rect().size.width / 2.0;
      var y := box.Rect().MaxY() - box.Rect().size.height / 2.0;
      assert Point(x, y) == box.Anchor();
      selected, isConnecting, connectStartPoint, connectEndPoint := Some(BoxNode(box)), true, Point(x, y), p;
      return true;
    }

    /** `stopConnecting`: the connection gesture ends and the target is
        cleared; a connector from the selected box to the target box is added
        when both are boxes with different identities. Always answers true. */
    method StopConnecting(p: Point) returns (redraw: bool)
      requires Valid()
      modifies this
      ensures Valid()
      ensures redraw
      ensures boxes == old(boxes)
      ensures Gesture() == old(Gesture()).(isConnecting := false, target := None)
      ensures
        if && old(target).Some? && old(target).value.BoxNode?
           && old(selected).Some? && old(selected).value.BoxNode?
           && old(target).value.box.id != old(selected).value.box.id
        then
          && connectors == Insert(old(connectors), Connector(old(nextId), old(selected).value.box,
                                                             old(target).value.box, DefaultConnectorWidth))
          && nextId == old(nextId) + 1
        else connectors == old(connectors) && nextId == old(nextId)
      ensures forall c :: c in connectors - old(connectors) ==> c.fromBox.id != c.toBox.id
    {
      isConnecting := false;
      if && target.Some? && target.value.BoxNode?
         && selected.Some? && selected.value.BoxNode?
         && target.value.box.id != selected.value.box.id
      {
        Connect(selected.value.box, target.value.box);
      }
      target := None;
      return true;
    }

    /** `extendConnection`: while connecting, the loose end follows `p` and
        the target becomes the front-most box under `p`, or none; otherwise
        changes nothing and answers false. */
    method ExtendConnection(p: Point) returns (connecting: bool)
      requires Valid()
      modifies this
      ensures unchanged(this`boxes, this`connectors, this`nextId)
      ensures Valid()
      ensures connecting == old(isConnecting)
      ensures !connecting ==> Gesture() == old(Gesture())
      ensures connecting ==>
        Gesture() == old(Gesture()).(connectEndPoint := p,
                                     target := match FirstBoxAt(boxes, p)
                                               case Some(i) => Some(BoxNode(boxes[i]))
                                               case None => None)
    {
      if !isConnecting {
        return false;
      }
      connectEndPoint := p;
      target := match FirstBoxAt(boxes, p)
        case Some(i) => Some(BoxNode(boxes[i]))
        case None => None;
      return true;
    }
  }
}
