/** Grid geometry of the snake board: the canvas constants, integer points,
    the four unit directions and the in-bounds test. */
module Grid {

  /** An integer pair: a cell (x, y) of the board, or a direction vector. */
  datatype Point = Point(x: int, y: int)

  /** Width (and height) of the canvas, in canvas units. */
  const CanvasX: int := 1000
  /** Canvas units per grid cell. */
  const Scale: int := 50
  /** Milliseconds between two ticks while the game runs. */
  const TimeDelay: nat := 100
  /** Score that wins the game when no winning score is configured. */
  const DefaultWinningScore: int := 50
  /** Number of cells along each axis: 1000 / 50 = 20. */
  const GridSize: int := CanvasX / Scale

  /** Body at mount and after every restart: two segments on the same cell. */
  const InitialSnake: seq<Point> := [Point(4, 10), Point(4, 10)]
  const InitialApple: Point := Point(14, 10)

  const Left: Point := Point(-1, 0)
  const Right: Point := Point(1, 0)
  const Up: Point := Point(0, -1)
  const Down: Point := Point(0, 1)

  predicate IsUnit(d: Point) {
    d == Left || d == Right || d == Up || d == Down
  }

  predicate InGrid(p: Point) {
    0 <= p.x < GridSize && 0 <= p.y < GridSize
  }

  predicate AllInGrid(s: seq<Point>) {
    forall i :: 0 <= i < |s| ==> InGrid(s[i])
  }

  /** The cell the head moves to: the old head plus the direction vector. */
  function NextHead(head: Point, dir: Point): Point {
    Point(head.x + dir.x, head.y + dir.y)
  }

  /** A unit step from a cell always lands on one of its four neighbours,
      never on the cell itself. */
  lemma NextHeadIsNeighbour(head: Point, dir: Point)
    requires IsUnit(dir)
    ensures NextHead(head, dir) != head
    ensures NextHead(head, dir).x == head.x || NextHead(head, dir).y == head.y
    ensures -1 <= NextHead(head, dir).x - head.x <= 1
    ensures -1 <= NextHead(head, dir).y - head.y <= 1
  {
  }
}
