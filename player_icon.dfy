/** The player token: its size and where a dropped token lands. Its label
    and the label's width are `Labels.DisplayName` and `Labels.TagWidth`. */
module PlayerIcon {

  import opened Geometry
  import opened Entities

  /** Token diameter in pixels: 28 on a window narrower than 640 px, 36 otherwise. */
  function PlayerSize(isMobile: bool): (s: real)
    ensures s / 2.0 == if isMobile then 14.0 else 18.0
  {
    if isMobile then 28.0 else 36.0
  }

  /** The `onDragEnd` handler: the drop target is the player's position plus
      the drag offset, clamped on each axis to [radius, dimension - radius] of
      the measured container, and handed to the board with the player's id. */
  function OnDragEnd(player: Player, offset: Point, parentSize: Size, isMobile: bool): (m: Move)
    ensures m.id == player.id
    ensures var radius := PlayerSize(isMobile) / 2.0;
            && radius <= m.position.x && radius <= m.position.y
            && (PlayerSize(isMobile) <= parentSize.width ==> m.position.x <= parentSize.width - radius)
            && (PlayerSize(isMobile) <= parentSize.height ==> m.position.y <= parentSize.height - radius)
            && (parentSize.width < PlayerSize(isMobile) ==> m.position.x == radius)
            && (parentSize.height < PlayerSize(isMobile) ==> m.position.y == radius)
            && (InBounds(DropTarget(player.position, offset), parentSize, radius) ==>
                  m.position == DropTarget(player.position, offset))
    ensures m.position == BoundPoint(DropTarget(player.position, offset), parentSize, PlayerSize(isMobile) / 2.0)
  {
    Move(player.id, BoundPoint(DropTarget(player.position, offset), parentSize, PlayerSize(isMobile) / 2.0))
  }

  /** Dropping a token again where it landed, without moving it, leaves it there. */
  lemma RedropIsStable(player: Player, offset: Point, parentSize: Size, isMobile: bool)
    ensures var m := OnDragEnd(player, offset, parentSize, isMobile);
            OnDragEnd(player.(position := m.position), Point(0.0, 0.0), parentSize, isMobile) == m
  {
  }

  /** Before the container is measured its size is 0 x 0, and every drop
      lands at (radius, radius), wherever it was aimed. */
  lemma UnmeasuredContainerPinsToCorner(player: Player, offset: Point, isMobile: bool)
    ensures var r := PlayerSize(isMobile) / 2.0;
            OnDragEnd(player, offset, Size(0.0, 0.0), isMobile).position == Point(r, r)
  {
  }
}
