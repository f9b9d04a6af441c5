/** Board-local geometry and the clamp that keeps a dragged token inside its
    container (the `onDragEnd` handlers of the player and ball tokens). */
module Geometry {

  /** A point in board-local pixel space. */
  datatype Point = Point(x: real, y: real)

  /** The measured size of a token's container (`parentSize`); it starts as
      0 x 0 until the container has been measured. */
  datatype Size = Size(width: real, height: real)

  /** `Math.max` on two finite numbers. */
  function Max(a: real, b: real): (m: real)
    ensures m >= a && m >= b
    ensures m == a || m == b
  {
    if a >= b then a else b
  }

  /** `Math.min` on two finite numbers. */
  function Min(a: real, b: real): (m: real)
    ensures m <= a && m <= b
    ensures m == a || m == b
  {
    if a <= b then a else b
  }

  /** One axis of the drop clamp, `max(r, min(v, dim - r))`: the coordinate v
      of a token of radius r is kept inside [r, dim - r]. The `max` is taken
      last, so when the container is narrower than the token the result is r. */
  function BoundAxis(v: real, dim: real, r: real): (b: real)
    ensures r <= b
    ensures r <= dim - r ==> b <= dim - r
    ensures r <= v <= dim - r ==> b == v
    ensures v < r ==> b == r
    ensures r <= dim - r && dim - r < v ==> b == dim - r
    ensures dim - r < r ==> b == r
  {
    Max(r, Min(v, dim - r))
  }

  /** The clamp applied to both axes, each against its own dimension. */
  function BoundPoint(p: Point, container: Size, r: real): (q: Point)
    ensures r <= q.x && r <= q.y
    ensures 2.0 * r <= container.width ==> q.x <= container.width - r
    ensures 2.0 * r <= container.height ==> q.y <= container.height - r
    ensures InBounds(p, container, r) ==> q == p
    ensures q.x == BoundAxis(p.x, container.width, r) && q.y == BoundAxis(p.y, container.height, r)
  {
    Point(BoundAxis(p.x, container.width, r), BoundAxis(p.y, container.height, r))
  }

  /** p lies inside the container shrunk by r on every side. */
  predicate InBounds(p: Point, container: Size, r: real)
  {
    r <= p.x <= container.width - r && r <= p.y <= container.height - r
  }

  /** The drop target: where the token was plus how far it was dragged. */
  function DropTarget(position: Point, offset: Point): (t: Point)
    ensures t.x - position.x == offset.x && t.y - position.y == offset.y
  {
    Point(position.x + offset.x, position.y + offset.y)
  }

  /** Clamping twice is clamping once, on every input, degenerate containers included. */
  lemma BoundAxisIdempotent(v: real, dim: real, r: real)
    ensures BoundAxis(BoundAxis(v, dim, r), dim, r) == BoundAxis(v, dim, r)
  {
  }

  lemma BoundPointIdempotent(p: Point, container: Size, r: real)
    ensures BoundPoint(BoundPoint(p, container, r), container, r) == BoundPoint(p, container, r)
  {
  }

  /** Every result of a clamp with a non-degenerate container is in bounds, so
      the clamp is onto the bounded rectangle and fixes exactly its points. */
  lemma BoundPointFixesExactlyInBounds(p: Point, container: Size, r: real)
    requires 2.0 * r <= container.width && 2.0 * r <= container.height
    ensures InBounds(BoundPoint(p, container, r), container, r)
    ensures BoundPoint(p, container, r) == p <==> InBounds(p, container, r)
  {
  }

  /** The x result depends only on the target's x and the container's width,
      and the y result only on the target's y and the height. */
  lemma BoundPointAxesIndependent(p1: Point, c1: Size, p2: Point, c2: Size, r: real)
    ensures p1.x == p2.x && c1.width == c2.width ==> BoundPoint(p1, c1, r).x == BoundPoint(p2, c2, r).x
    ensures p1.y == p2.y && c1.height == c2.height ==> BoundPoint(p1, c1, r).y == BoundPoint(p2, c2, r).y
  {
  }

  /** The clamp never moves a coordinate further from the bounded interval:
      it is monotone in the target. */
  lemma BoundAxisMonotone(v1: real, v2: real, dim: real, r: real)
    requires v1 <= v2
    ensures BoundAxis(v1, dim, r) <= BoundAxis(v2, dim, r)
  {
  }
}
