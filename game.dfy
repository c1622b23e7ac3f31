/** The game state machine: the state the component keeps between renders
    and the handlers that update it.  One tick is an atomic step over the
    state as it stood when the tick began. */
module SnakeGame {
  import opened Options
  import opened Grid
  import opened Body
  import opened Collision
  import opened Steering
  import opened HighScore

  class Game {
    var snake: seq<Point>
    var apple: Point
    var direction: Point
    var score: nat
    /** True while the tick interval is armed (its delay is not null). */
    var running: bool
    var gameOver: bool
    var wonGame: bool
    /** The player dialog, which is shown at mount and after a collision. */
    var choosePlayerOpen: bool
    /** The entry in the browser's store. */
    var highScore: StoredScore
    const winningScore: int

    ghost predicate Valid()
      reads this
    {
      winningScore > 0 &&
      |snake| >= 2 &&
      InGrid(apple) &&
      IsUnit(direction) &&
      (running ==>
        !gameOver && !wonGame &&
        score < winningScore &&
        AllInGrid(snake) &&
        (Distinct(snake) || (snake == InitialSnake && apple == InitialApple)))
    }

    /** The interval's delay: the tick period while the clock runs, null
        while it is stopped. */
    function Delay(): (d: Option<nat>)
      reads this
      ensures d.Some? <==> running
      ensures d.Some? ==> d.value == TimeDelay
    {
      if running then Some(TimeDelay) else None
    }

    /** The state at mount: the initial body and apple, heading up, the
        clock stopped and the player dialog open. */
    constructor (winningScore: int, stored: StoredScore)
      requires winningScore > 0
      ensures Valid()
      ensures snake == InitialSnake && apple == InitialApple && direction == Up
      ensures score == 0 && !running && !gameOver && !wonGame && choosePlayerOpen
      ensures highScore == stored && this.winningScore == winningScore
    {
      this.winningScore := winningScore;
      snake := InitialSnake;
      apple := InitialApple;
      direction := Up;
      running := false;
      gameOver := false;
      wonGame := false;
      score := 0;
      choosePlayerOpen := true;
      highScore := stored;
    }

    /** Restart: every piece of game state back to its initial value and the
        clock started, heading right.  The dialog and the store are untouched. */
    method Play()
      requires Valid()
      modifies this
      ensures Valid()
      ensures snake == InitialSnake && apple == InitialApple && direction == Right
      ensures score == 0 && running && Delay() == Some(TimeDelay) && !gameOver && !wonGame
      ensures choosePlayerOpen == old(choosePlayerOpen) && highScore == old(highScore)
    {
      snake := InitialSnake;
      apple := InitialApple;
      direction := Right;
      running := true;
      score := 0;
      gameOver := false;
      wonGame := false;
      // The score effect runs when the score changes, but 0 is below the
      // winning score, so it does nothing here.
    }

    /** Picking a player closes the dialog and starts a game. */
    method ChoosePlayer()
      requires Valid()
      modifies this
      ensures Valid()
      ensures snake == InitialSnake && apple == InitialApple && direction == Right
      ensures score == 0 && running && !gameOver && !wonGame
      ensures !choosePlayerOpen && highScore == old(highScore)
    {
      choosePlayerOpen := false;
      Play();
    }

    /** A key press: an arrow key sets the direction, any other key is
        ignored.  The last press before a tick is the one it uses. */
    method ChangeDirection(key: string)
      requires Valid()
      modifies this`direction
      ensures Valid()
      ensures direction == Steer(old(direction), key)
    {
      match KeyDirection(key)
      case Some(d) => direction := d;
      case None =>
    }

    /** Writes the current score to the store when it beats the stored value. */
    method SaveHighScore()
      modifies this`highScore
      ensures highScore == HighScore.SaveHighScore(old(highScore), score)
    {
      if Exceeds(score, highScore) {
        highScore := Numeric(score);
      }
    }

    /** The apple check on the new body: when its head is on the apple, the
        score goes up by one and the apple moves to `spawn`. */
    method AppleAte(newSnake: seq<Point>, spawn: Point) returns (ate: bool)
      requires |newSnake| >= 1
      modifies this`score, this`apple
      ensures ate <==> newSnake[0] == old(apple)
      ensures score == if ate then old(score) + 1 else old(score)
      ensures apple == if ate then spawn else old(apple)
    {
      var head := newSnake[0];
      if head.x == apple.x && head.y == apple.y {
        score := score + 1;
        apple := spawn;
        return true;
      }
      return false;
    }

    /** One tick of the interval.  The candidate head is the old head plus
        the direction.  A collision (off the board, or onto any pre-move
        segment) stops the clock, ends the game, opens the dialog and saves
        the pre-tick score; the tick then goes on regardless: the apple is
        checked and the new body is committed.  A score that reaches the
        winning score wins the game and stops the clock.  While the clock is
        stopped the interval does not fire and nothing changes. */
    method Tick(spawn: Point)
      requires Valid() && InGrid(spawn)
      modifies this
      ensures Valid()
      ensures !old(running) ==> unchanged(this)
      ensures old(running) ==>
        var head := NextHead(old(snake)[0], old(direction));
        var crashed := !InGrid(head) || head in old(snake);
        var ate := head == old(apple);
        && snake == (if ate then Grow(old(snake), head) else Move(old(snake), head))
        && apple == (if ate then spawn else old(apple))
        && score == (if ate then old(score) + 1 else old(score))
        && direction == old(direction)
        && gameOver == crashed
        && choosePlayerOpen == (old(choosePlayerOpen) || crashed)
        && highScore == (if crashed then HighScore.SaveHighScore(old(highScore), old(score)) else old(highScore))
        && wonGame == (score >= winningScore)
        && running == (!crashed && score < winningScore)
    {
      if !running {
        return;
      }
      var newSnake := snake;
      var newHead := NextHead(newSnake[0], direction);
      newSnake := [newHead] + newSnake;
      var crashed := CheckCollision(newHead, snake);
      CollidesIff(newHead, snake);
      var before := score;
      if crashed {
        running := false;
        gameOver := true;
        choosePlayerOpen := true;
        SaveHighScore();
      }
      var ate := AppleAte(newSnake, spawn);
      if !ate {
        newSnake := newSnake[..|newSnake| - 1];
      }
      ghost var prior := snake;
      snake := newSnake;
      // The score effect: it runs after the score has changed.
      if score != before && score >= winningScore {
        wonGame := true;
        running := false;
      }
      TickKeepsBody(prior, old(apple), direction, newHead, ate, running);
    }
  }

  /** The body part of `Valid` survives a tick that leaves the clock
      running: the body stays on the board and free of overlaps (the
      duplicated start cell is left behind by the first tick). */
  lemma TickKeepsBody(s: seq<Point>, a: Point, dir: Point, head: Point, ate: bool, stillRunning: bool)
    requires |s| >= 2 && AllInGrid(s) && IsUnit(dir)
    requires Distinct(s) || (s == InitialSnake && a == InitialApple)
    requires head == NextHead(s[0], dir) && ate == (head == a)
    requires stillRunning ==> InGrid(head) && head !in s
    ensures stillRunning ==>
      var s' := if ate then Grow(s, head) else Move(s, head);
      AllInGrid(s') && Distinct(s')
  {
    if stillRunning {
      StepKeepsInGrid(s, head, ate);
      if Distinct(s) {
        if ate { GrowKeepsDistinct(s, head); } else { MoveKeepsDistinct(s, head); }
      } else {
        FirstTickFromStart(dir);
      }
    }
  }

  /** The first tick after a restart, in any of the four directions, lands
      next to the start cell: on the board, off the body, not on the apple,
      and leaves two distinct segments. */
  lemma FirstTickFromStart(dir: Point)
    requires IsUnit(dir)
    ensures var head := NextHead(InitialSnake[0], dir);
      && InGrid(head) && head !in InitialSnake && head != InitialApple
      && Distinct(Move(InitialSnake, head))
  {
    var head := NextHead(InitialSnake[0], dir);
    var r := Move(InitialSnake, head);
    assert r == [head, Point(4, 10)];
  }
}
