/** The snake's body: an ordered sequence of cells, head first.  A tick
    prepends the new head and either keeps the tail (growth) or drops it. */
module Body {
  import opened Grid

  /** No cell is occupied by two segments. */
  predicate Distinct(s: seq<Point>) {
    forall i, j :: 0 <= i < j < |s| ==> s[i] != s[j]
  }

  /** Non-eating tick: the head is put in front (`unshift`) and the last
      segment is popped, so every segment takes its predecessor's place. */
  function Move(snake: seq<Point>, head: Point): (r: seq<Point>)
    requires |snake| >= 1
    ensures |r| == |snake|
    ensures r[0] == head
    ensures forall i :: 1 <= i < |r| ==> r[i] == snake[i - 1]
  {
    ([head] + snake)[..|snake|]
  }

  /** Eating tick: the head is put in front and the tail is kept. */
  function Grow(snake: seq<Point>, head: Point): (r: seq<Point>)
    ensures |r| == |snake| + 1
    ensures r[0] == head && r[1..] == snake
  {
    [head] + snake
  }

  /** A move replaces exactly the last segment by the new head: as a
      multiset of cells, nothing else is gained or lost. */
  lemma MoveTradesTailForHead(snake: seq<Point>, head: Point)
    requires |snake| >= 1
    ensures multiset(Move(snake, head)) + multiset{snake[|snake| - 1]} == multiset(snake) + multiset{head}
  {
    var n := |snake|;
    assert snake == snake[..n - 1] + [snake[n - 1]];
    assert Move(snake, head) == [head] + snake[..n - 1];
    calc {
      multiset(Move(snake, head)) + multiset{snake[n - 1]};
      multiset{head} + multiset(snake[..n - 1]) + multiset{snake[n - 1]};
      multiset{head} + multiset(snake[..n - 1] + [snake[n - 1]]);
      multiset(snake) + multiset{head};
    }
  }

  /** A move onto a free cell keeps the body free of overlaps. */
  lemma MoveKeepsDistinct(snake: seq<Point>, head: Point)
    requires |snake| >= 1 && Distinct(snake) && head !in snake
    ensures Distinct(Move(snake, head))
  {
    var r := Move(snake, head);
    forall i, j | 0 <= i < j < |r| ensures r[i] != r[j] {
      if i == 0 {
        assert r[j] == snake[j - 1];
      } else {
        assert r[i] == snake[i - 1] && r[j] == snake[j - 1];
      }
    }
  }

  /** Growing onto a free cell keeps the body free of overlaps. */
  lemma GrowKeepsDistinct(snake: seq<Point>, head: Point)
    requires Distinct(snake) && head !in snake
    ensures Distinct(Grow(snake, head))
  {
    var r := Grow(snake, head);
    forall i, j | 0 <= i < j < |r| ensures r[i] != r[j] {
      assert r[j] == snake[j - 1];
      if i > 0 {
        assert r[i] == snake[i - 1];
      }
    }
  }

  /** Moving or growing onto a cell of the board keeps the whole body on the board. */
  lemma StepKeepsInGrid(snake: seq<Point>, head: Point, ate: bool)
    requires |snake| >= 1 && AllInGrid(snake) && InGrid(head)
    ensures AllInGrid(if ate then Grow(snake, head) else Move(snake, head))
  {
    var r := if ate then Grow(snake, head) else Move(snake, head);
    forall i | 0 <= i < |r| ensures InGrid(r[i]) {
      if i > 0 {
        assert r[i] == snake[i - 1];
      }
    }
  }
}
