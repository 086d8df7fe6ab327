/**
 * The earlier revision of boxes and connectors (Connectors/Model.swift). It
 * has the same identity rules as the current one: a box is known by a private
 * id fixed at creation, and a connector by its ordered pair of boxes. Here
 * connectors have no id of their own, and the connect point plays the
 * anchor's role.
 */
module EarlyModel {
  import opened Geometry

  class Box {
    const id: nat
    var position: Point
    const size: Size := Size(100.0, 66.0)

    constructor (id: nat, origin: Point)
      ensures this.id == id && position == origin
    {
      this.id := id;
      position := origin;
    }

    function Rect(): (r: Rect)
      reads this
      ensures r.MinX() == position.x && r.MinY() == position.y
      ensures r.MaxX() == position.x + 100.0 && r.MaxY() == position.y + 66.0
    {
      Geometry.Rect(position, size)
    }

    /** Where connectors attach: the centre of the frame. */
    function ConnectPoint(): (a: Point)
      reads this
      ensures Rect().Contains(a)
      ensures a.x - Rect().MinX() == Rect().MaxX() - a.x
      ensures a.y - Rect().MinY() == Rect().MaxY() - a.y
    {
      Rect().Center()
    }

    /** Hit test; the rounded corners are approximated by the frame. */
    predicate Contains(p: Point)
      reads this
      ensures Contains(p) <==> && position.x <= p.x < position.x + 100.0
                               && position.y <= p.y < position.y + 66.0
    {
      Rect().Contains(p)
    }

    /** Equality of the private identity: it holds of a box and itself,
        and equal boxes hash alike. */
    predicate Equal(other: Box)
      ensures other == this ==> Equal(other)
      ensures Equal(other) ==> HashKey() == other.HashKey()
    {
      id == other.id
    }

    function HashKey(): nat {
      id
    }

    method MoveTo(p: Point)
      modifies this
      ensures position == p
    {
      position := p;
    }
  }

  lemma EqualBoxesHashAlike(a: Box, b: Box)
    ensures a.Equal(b) <==> a.HashKey() == b.HashKey()
    ensures a.Equal(b) <==> b.Equal(a)
  {
  }

  /** A directed edge; equality and hashing look at both boxes, in order. */
  datatype Connector = Connector(fromBox: Box, toBox: Box)
  {
    predicate Equal(other: Connector)
      ensures other == this ==> Equal(other)
      ensures Equal(other) ==> HashKey() == other.HashKey()
    {
      fromBox.Equal(other.fromBox) && toBox.Equal(other.toBox)
    }

    function HashKey(): (nat, nat) {
      (fromBox.HashKey(), toBox.HashKey())
    }
  }

  /** Equal connectors hash alike, and reversing a connector between two
      distinct boxes gives an unequal one. */
  lemma ConnectorEqualityIsDirected(a: Connector, b: Connector)
    ensures a.Equal(b) <==> a.HashKey() == b.HashKey()
    ensures a.fromBox.id != a.toBox.id && b == Connector(a.toBox, a.fromBox) ==> !a.Equal(b)
  {
  }
}
