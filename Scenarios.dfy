/**
 * Sequences of operations a user of the canvas performs, with what the
 * model promises about their combined effect.
 */
module Scenarios {
  import opened Geometry
  import opened Model
  import opened GraphState

  /** Pressing on a box and dragging to the very point pressed leaves the
      box where it was: the grab offset is undone exactly. */
  method GrabInPlace(s: State, p: Point, strokeHit: (Path, Point) -> bool) returns (grabbed: bool)
    requires s.Valid()
    modifies s, s.boxes, s.SelectedBox()
    ensures s.Valid()
    ensures grabbed <==> old(FirstBoxAt(s.boxes, p)).Some?
    ensures grabbed ==>
      var b := old(s.boxes[FirstBoxAt(s.boxes, p).value]);
      b.position == old(b.position) && s.selected == Some(BoxNode(b))
  {
    var found := s.Select(p, strokeHit);
    grabbed := FirstBoxAt(s.boxes, p).Some?;
    var moved := s.MoveSelectedObject(p);
  }

  /** Adding a box and removing it straight away gives back the boxes and
      the connectors as they were, with nothing selected: the fresh identity
      is shared by no other box and touched by no connector. */
  method AddThenRemove(s: State, origin: Point)
    requires s.Valid()
    modifies s
    ensures s.Valid()
    ensures s.boxes == old(s.boxes) && s.selected == None
    ensures s.connectors == old(s.connectors)
  {
    s.Add(origin);
    ghost var added := s.boxes[0];
    ghost var connectors := s.connectors;
    s.Remove();
    WithoutIdAbsent(old(s.boxes), added.id);
    DetachedPreserves(connectors, added.id);
  }

  /** A canvas holding one box whose maxY edge is at 505: the height the
      source computes leaves the box's last 5 points of height off the
      canvas, and the corrected height covers it. */
  method TallBoxIsClipped() returns (s: State)
    ensures s.Valid() && |s.boxes| == 1
    ensures s.Height() < s.boxes[0].Rect().MaxY() <= s.CoveringHeight()
  {
    s := new State();
    s.Add(Point(0.0, 439.0));
    assert s.MaxY() == 505.0;
  }

  /** A canvas holding one box whose maxX edge is at 505: the width the
      source computes leaves the box's last 5 points of width off the
      canvas, and the corrected width covers it. */
  method WideBoxIsClipped() returns (s: State)
    ensures s.Valid() && |s.boxes| == 1
    ensures s.Width() < s.boxes[0].Rect().MaxX() <= s.CoveringWidth()
  {
    s := new State();
    s.Add(Point(405.0, 0.0));
    assert s.MaxX() == 505.0;
  }
}
