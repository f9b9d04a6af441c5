/** The ball token: where a dropped ball lands. */
module VolleyballIcon {

  import opened Geometry
  import opened Entities

  /** Ball diameter in pixels: 24 on a window narrower than 640 px, 30 otherwise. */
  function BallSize(isMobile: bool): (s: real)
    ensures s / 2.0 == if isMobile then 12.0 else 15.0
  {
    if isMobile then 24.0 else 30.0
  }

  /** The `onDragEnd` handler: the drop target is the ball's position plus
      the drag offset, clamped on each axis to [radius, dimension - radius] of
      the measured container, and handed to the board with the ball's id. */
  function OnDragEnd(element: Element, offset: Point, parentSize: Size, isMobile: bool): (m: Move)
    ensures m.id == element.id
    ensures var radius := BallSize(isMobile) / 2.0;
            && radius <= m.position.x && radius <= m.position.y
            && (BallSize(isMobile) <= parentSize.width ==> m.position.x <= parentSize.width - radius)
            && (BallSize(isMobile) <= parentSize.height ==> m.position.y <= parentSize.height - radius)
            && (parentSize.width < BallSize(isMobile) ==> m.position.x == radius)
            && (parentSize.height < BallSize(isMobile) ==> m.position.y == radius)
            && (InBounds(DropTarget(element.position, offset), parentSize, radius) ==>
                  m.position == DropTarget(element.position, offset))
    ensures m.position == BoundPoint(DropTarget(element.position, offset), parentSize, BallSize(isMobile) / 2.0)
  {
    Move(element.id, BoundPoint(DropTarget(element.position, offset), parentSize, BallSize(isMobile) / 2.0))
  }

  /** Dropping a ball again where it landed, without moving it, leaves it there. */
  lemma RedropIsStable(element: Element, offset: Point, parentSize: Size, isMobile: bool)
    ensures var m := OnDragEnd(element, offset, parentSize, isMobile);
            OnDragEnd(element.(position := m.position), Point(0.0, 0.0), parentSize, isMobile) == m
  {
  }

  /** A ball on a 400 x 300 desktop board dragged towards (1000, 1000)
      lands at (385, 285). */
  lemma DropPastCornerExample(id: Id)
    ensures OnDragEnd(Element(id, Volleyball, Point(200.0, 150.0)), Point(800.0, 850.0),
                      Size(400.0, 300.0), false).position == Point(385.0, 285.0)
  {
  }

  /** Before the container is measured its size is 0 x 0, and every drop
      lands at (radius, radius), wherever it was aimed. */
  lemma UnmeasuredContainerPinsToCorner(element: Element, offset: Point, isMobile: bool)
    ensures var r := BallSize(isMobile) / 2.0;
            OnDragEnd(element, offset, Size(0.0, 0.0), isMobile).position == Point(r, r)
  {
  }
}
