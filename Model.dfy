/**
 * Boxes and connectors as the current revision defines them
 * (Connectors/Model/Model.swift). A box is an object whose position is moved
 * in place; its identity is a number handed out once, when it is created,
 * standing for the UUID the source generates. A connector never changes after
 * it is made, so it is a value: its own id (the UUID that makes it a distinct
 * object) and references to the two boxes it joins.
 */
module Model {
  import opened Geometry

  const BoxWidth: real := 100.0
  const BoxHeight: real := 66.0
  const CornerRadius: real := 4.0
  const BoxOutlineWidth: real := 1.0
  const DefaultLineWidth: real := 2.0

  /** The two kinds of node. */
  datatype Shape = BoxShape | ConnectorShape

  /** The drawable outline of a node: a rounded rectangle for a box, a
      straight stroked line for a connector. */
  datatype Path =
    | RoundedRect(rect: Rect, radius: real, lineWidth: real)
    | Line(start: Point, end: Point, lineWidth: real)

  class Box {
    const id: nat
    var position: Point
    const size: Size := Size(BoxWidth, BoxHeight)

    /** A box placed at `origin`; `id` is the fresh identity drawn for it. */
    constructor (id: nat, origin: Point)
      ensures this.id == id && position == origin
    {
      this.id := id;
      position := origin;
    }

    /** The frame of the box: its position as origin and its fixed size. */
    function Rect(): (r: Rect)
      reads this
      ensures r.MinX() == position.x && r.MinY() == position.y
      ensures r.MaxX() == position.x + BoxWidth && r.MaxY() == position.y + BoxHeight
    {
      Geometry.Rect(position, size)
    }

    /** Where connectors attach: the centre of the frame. */
    function Anchor(): (a: Point)
      reads this
      ensures Rect().Contains(a)
      ensures a.x - Rect().MinX() == Rect().MaxX() - a.x
      ensures a.y - Rect().MinY() == Rect().MaxY() - a.y
    {
      Rect().Center()
    }

    /** The outline drawn for the box. */
    function Path(): (p: Path)
      reads this
      ensures p.RoundedRect? && p.rect == Rect()
    {
      RoundedRect(Rect(), CornerRadius, BoxOutlineWidth)
    }

    /** Hit test; the rounded corners are approximated by the frame. A
        point is on the box when it lies in the half-open span of the box's
        width from its x position and of its height from its y position. */
    predicate Contains(p: Point)
      reads this
      ensures Contains(p) <==> && position.x <= p.x < position.x + BoxWidth
                               && position.y <= p.y < position.y + BoxHeight
    {
      Rect().Contains(p)
    }

    /** Swift `==` on boxes: equal identities. It holds of a box and itself,
        and equal boxes feed the hasher the same value. */
    predicate Equal(other: Box)
      ensures other == this ==> Equal(other)
      ensures Equal(other) ==> HashKey() == other.HashKey()
    {
      id == other.id
    }

    /** What `hash(into:)` feeds the hasher. */
    function HashKey(): nat {
      id
    }

    method MoveTo(p: Point)
      modifies this
      ensures position == p
    {
      position := p;
    }
  }

  /** Box equality is symmetric, and boxes are equal exactly when they
      hash alike, as Hashable demands. */
  lemma EqualBoxesHashAlike(a: Box, b: Box)
    ensures a.Equal(b) <==> a.HashKey() == b.HashKey()
    ensures a.Equal(b) <==> b.Equal(a)
  {
  }

  /** A directed edge between two boxes. */
  datatype Connector = Connector(id: nat, fromBox: Box, toBox: Box, lineWidth: real := DefaultLineWidth)
  {
    /** The ordered pair of endpoint identities, which is what `==` compares
        and what `hash(into:)` combines. */
    function Key(): (nat, nat) {
      (fromBox.HashKey(), toBox.HashKey())
    }

    /** Swift `==` on connectors: same source box and same target box. It
        holds of a connector and itself, and equal connectors hash alike. */
    predicate Equal(other: Connector)
      ensures other == this ==> Equal(other)
      ensures Equal(other) ==> Key() == other.Key()
    {
      fromBox.Equal(other.fromBox) && toBox.Equal(other.toBox)
    }

    /** The line joining the two anchors, computed afresh from where the
        boxes are now. */
    function Path(): (p: Path)
      reads fromBox, toBox
      ensures p.Line? && p.lineWidth == lineWidth
      ensures p.start == fromBox.Anchor() && p.end == toBox.Anchor()
      ensures fromBox.Rect().Contains(p.start) && toBox.Rect().Contains(p.end)
    {
      Line(fromBox.Anchor(), toBox.Anchor(), lineWidth)
    }

    /** Hit test: `strokeHit` says whether the outline obtained by stroking a
        path with its line width contains a point. The stroked path is the
        line from anchor to anchor with the connector's width. */
    predicate Contains(p: Point, strokeHit: (Path, Point) -> bool)
      reads fromBox, toBox
      ensures Contains(p, strokeHit) <==> strokeHit(Line(fromBox.Anchor(), toBox.Anchor(), lineWidth), p)
    {
      strokeHit(Path(), p)
    }
  }

  /** Connector equality is equality of the endpoint-identity pair, so equal
      connectors hash alike; the direction of the edge matters. */
  lemma ConnectorEqualityIsKeyEquality(a: Connector, b: Connector)
    ensures a.Equal(b) <==> a.Key() == b.Key()
    ensures a.fromBox.id != a.toBox.id && b.fromBox == a.toBox && b.toBox == a.fromBox ==> !a.Equal(b)
  {
  }
}
