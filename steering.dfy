/** Keyboard steering: the four arrow keys select a unit direction; every
    other key is ignored. */
module Steering {
  import opened Options
  import opened Grid

  predicate IsArrowKey(key: string) {
    key == "ArrowLeft" || key == "ArrowUp" || key == "ArrowRight" || key == "ArrowDown"
  }

  /** The direction an arrow key selects, or None for any other key. */
  function KeyDirection(key: string): (d: Option<Point>)
    ensures d.Some? <==> IsArrowKey(key)
    ensures d.Some? ==> IsUnit(d.value)
  {
    match key
    case "ArrowLeft" => Some(Left)
    case "ArrowUp" => Some(Up)
    case "ArrowRight" => Some(Right)
    case "ArrowDown" => Some(Down)
    case _ => None
  }

  /** The direction after a key press: the key's direction, or the old one
      when the key is not an arrow. */
  function Steer(dir: Point, key: string): (d: Point)
    ensures IsArrowKey(key) ==> IsUnit(d)
    ensures !IsArrowKey(key) ==> d == dir
    ensures IsUnit(dir) ==> IsUnit(d)
  {
    match KeyDirection(key)
    case Some(k) => k
    case None => dir
  }

  /** Different arrow keys select different directions. */
  lemma KeyDirectionInjective(k1: string, k2: string)
    requires KeyDirection(k1).Some? && KeyDirection(k1) == KeyDirection(k2)
    ensures k1 == k2
  {
  }

  /** Every unit direction is selected by some arrow key. */
  lemma EveryDirectionHasKey(d: Point)
    requires IsUnit(d)
    ensures exists key :: IsArrowKey(key) && KeyDirection(key) == Some(d)
  {
    if d == Left {
      assert KeyDirection("ArrowLeft") == Some(d);
    } else if d == Up {
      assert KeyDirection("ArrowUp") == Some(d);
    } else if d == Right {
      assert KeyDirection("ArrowRight") == Some(d);
    } else {
      assert KeyDirection("ArrowDown") == Some(d);
    }
  }

  /** Pressing the opposite arrow key selects the reversed vector. */
  lemma OppositeKeysReverse()
    ensures var l, r := KeyDirection("ArrowLeft").value, KeyDirection("ArrowRight").value;
            l.x == -r.x && l.y == -r.y
    ensures var u, d := KeyDirection("ArrowUp").value, KeyDirection("ArrowDown").value;
            u.x == -d.x && u.y == -d.y
  {
  }
}
