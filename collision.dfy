/** Collision detection for a candidate head: a bounds part and a
    self-collision part, both against the body before the move. */
module Collision {
  import opened Options
  import opened Grid

  /** Coordinate `i` of a head `[x, y]`; any other index reads `undefined`. */
  function Coord(head: Point, i: int): (c: Option<int>)
    ensures c.Some? <==> 0 <= i < 2
  {
    if i == 0 then Some(head.x) else if i == 1 then Some(head.y) else None
  }

  /** The bounds test on coordinate `i`: negative, or at or past the canvas
      edge once scaled.  An undefined coordinate fails both comparisons. */
  predicate CoordOutOfBounds(head: Point, i: int) {
    match Coord(head, i)
    case None => false
    case Some(c) => c < 0 || c * Scale >= CanvasX
  }

  /** The bounds loop runs over the indices below the body's length. */
  predicate WallHit(head: Point, bodyLength: nat) {
    exists i :: 0 <= i < bodyLength && CoordOutOfBounds(head, i)
  }

  /** What the collision check decides for a candidate head. */
  predicate Collides(head: Point, snake: seq<Point>) {
    WallHit(head, |snake|) || head in snake
  }

  /** The collision check: first the bounds loop, then the self-collision
      loop, each returning as soon as it finds a hit. */
  method CheckCollision(head: Point, snake: seq<Point>) returns (collided: bool)
    ensures collided <==> Collides(head, snake)
  {
    var i := 0;
    while i < |snake|
      invariant 0 <= i <= |snake|
      invariant forall k :: 0 <= k < i ==> !CoordOutOfBounds(head, k)
    {
      if CoordOutOfBounds(head, i) {
        return true;
      }
      i := i + 1;
    }
    var j := 0;
    while j < |snake|
      invariant 0 <= j <= |snake|
      invariant forall k :: 0 <= k < j ==> snake[k] != head
    {
      var s := snake[j];
      if head.x == s.x && head.y == s.y {
        return true;
      }
      j := j + 1;
    }
    return false;
  }

  /** Once the body has at least two segments both coordinates are tested,
      and the scaled test `c * 50 >= 1000` is exactly `c >= 20`: a wall hit
      is precisely a head off the 20 x 20 board. */
  lemma WallHitIffOffGrid(head: Point, bodyLength: nat)
    requires bodyLength >= 2
    ensures WallHit(head, bodyLength) <==> !InGrid(head)
  {
    if !InGrid(head) {
      if head.x < 0 || head.x >= GridSize {
        assert CoordOutOfBounds(head, 0);
      } else {
        assert CoordOutOfBounds(head, 1);
      }
    } else {
      forall i | 0 <= i < bodyLength ensures !CoordOutOfBounds(head, i) {
        if i == 0 || i == 1 {
          assert Coord(head, i).value < GridSize;
        }
      }
    }
  }

  /** For a body of at least two segments, the check reports a collision
      exactly when the head leaves the board or lands on any pre-move
      segment, the tail that is about to move away included. */
  lemma CollidesIff(head: Point, snake: seq<Point>)
    requires |snake| >= 2
    ensures Collides(head, snake) <==> !InGrid(head) || (exists k :: 0 <= k < |snake| && snake[k] == head)
  {
    WallHitIffOffGrid(head, |snake|);
  }

  /** Moving onto the cell of the last segment is a collision, although
      that segment would leave the cell on this very tick. */
  lemma TailCellCollides(snake: seq<Point>)
    requires |snake| >= 2
    ensures Collides(snake[|snake| - 1], snake)
  {
    assert snake[|snake| - 1] in snake;
  }

  /** With a one-segment body the bounds loop would test only x: a head
      above the board would not be a wall hit.  The body never has fewer
      than two segments, so this case is never reached by the game. */
  lemma OneSegmentSkipsY()
    ensures !WallHit(Point(0, -1), 1) && !InGrid(Point(0, -1))
  {
    forall i | 0 <= i < 1 ensures !CoordOutOfBounds(Point(0, -1), i) {
      assert i == 0;
    }
  }
}
