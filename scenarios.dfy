/** Example runs of the game, each from a freshly mounted component. */
module Scenarios {
  import opened Grid
  import opened HighScore
  import opened SnakeGame

  /** Heading right from the start, the head reaches the apple at (14, 10)
      on the tenth tick: one point, a body of three segments, and the apple
      moved to the spawned cell. */
  method FirstAppleOnTenthTick(spawn: Point) returns (score: nat, length: nat, head: Point, apple: Point)
    requires InGrid(spawn)
    ensures score == 1 && length == 3 && head == Point(14, 10) && apple == spawn
  {
    var g := new Game(DefaultWinningScore, Missing);
    g.ChoosePlayer();
    g.Tick(spawn);
    var i := 1;
    while i < 9
      invariant 1 <= i <= 9
      invariant g.Valid() && g.running && g.direction == Right
      invariant g.snake == [Point(4 + i, 10), Point(3 + i, 10)]
      invariant g.apple == InitialApple && g.score == 0
    {
      g.Tick(spawn);
      i := i + 1;
    }
    g.Tick(spawn);
    score, length, head, apple := g.score, |g.snake|, g.snake[0], g.apple;
  }

  /** Turning left at the start, the fifth tick leaves the board: the game
      is lost, the clock stops, the dialog opens, and a score of 0 does not
      replace a stored value the game could have written (none, or a
      non-negative score).  The body committed by that tick still has
      its head off the board. */
  method WallOnFifthTickLeft(stored: StoredScore, spawn: Point)
    returns (gameOver: bool, running: bool, dialog: bool, saved: StoredScore, head: Point)
    requires InGrid(spawn) && (stored.Numeric? ==> stored.n >= 0)
    ensures gameOver && !running && dialog && saved == stored && head == Point(-1, 10)
  {
    var g := new Game(DefaultWinningScore, stored);
    g.ChoosePlayer();
    g.ChangeDirection("ArrowLeft");
    var i := 0;
    while i < 4
      invariant 0 <= i <= 4
      invariant g.Valid() && g.running && g.direction == Left && g.score == 0
      invariant g.apple == InitialApple && g.highScore == stored
      invariant i == 0 ==> g.snake == InitialSnake
      invariant i > 0 ==> g.snake == [Point(4 - i, 10), Point(5 - i, 10)]
    {
      g.Tick(spawn);
      i := i + 1;
    }
    g.Tick(spawn);
    gameOver, running, dialog, saved, head := g.gameOver, g.running, g.choosePlayerOpen, g.highScore, g.snake[0];
  }

  /** Reversing after one tick to the right sends the head back onto the
      second segment: the game is lost on the spot. */
  method ReversalIsFatal(spawn: Point) returns (gameOver: bool, running: bool, head: Point)
    requires InGrid(spawn)
    ensures gameOver && !running && head == Point(4, 10)
  {
    var g := new Game(DefaultWinningScore, Missing);
    g.ChoosePlayer();
    g.Tick(spawn);
    assert g.snake == [Point(5, 10), Point(4, 10)];
    g.ChangeDirection("ArrowLeft");
    g.Tick(spawn);
    gameOver, running, head := g.gameOver, g.running, g.snake[0];
  }

  /** With a winning score of 3 and apples spawned straight ahead, the third
      apple wins the game and stops the clock; a later tick changes nothing. */
  method WinAtThree(last: Point) returns (won: bool, running: bool, score: nat, scoreLater: nat)
    requires InGrid(last)
    ensures won && !running && score == 3 && scoreLater == 3
  {
    var g := new Game(3, Missing);
    g.ChoosePlayer();
    var i := 0;
    while i < 9
      invariant 0 <= i <= 9
      invariant g.Valid() && g.running && g.direction == Right
      invariant i == 0 ==> g.snake == InitialSnake
      invariant i > 0 ==> g.snake == [Point(4 + i, 10), Point(3 + i, 10)]
      invariant g.apple == InitialApple && g.score == 0
    {
      g.Tick(Point(15, 10));
      i := i + 1;
    }
    g.Tick(Point(15, 10));
    g.Tick(Point(16, 10));
    g.Tick(last);
    won, running, score := g.wonGame, g.running, g.score;
    g.Tick(last);
    scoreLater := g.score;
  }
}
