/** The stored high score.  The browser store holds a string or nothing;
    the game reads it through `Number(...)`, where a missing entry reads 0
    and a string that is not a number reads NaN. */
module HighScore {

  /** The stored entry as `Number(...)` sees it: absent, a string that
      reads as an integer, or a string that reads as NaN. */
  datatype StoredScore = Missing | Numeric(n: int) | NotNumeric

  /** A JavaScript number as far as this model needs one. */
  datatype JsNumber = Num(v: int) | NaN

  /** `Number(localStorage.getItem(...))`: `Number(null)` is 0. */
  function AsNumber(stored: StoredScore): (r: JsNumber)
    ensures r.NaN? <==> stored.NotNumeric?
    ensures stored.Missing? ==> r == Num(0)
    ensures stored.Numeric? ==> r == Num(stored.n)
  {
    match stored
    case Missing => Num(0)
    case Numeric(n) => Num(n)
    case NotNumeric => NaN
  }

  /** `score > Number(...)`; every comparison with NaN is false. */
  predicate Exceeds(score: int, stored: StoredScore) {
    match AsNumber(stored)
    case Num(v) => score > v
    case NaN => false
  }

  /** Saving a score: the entry is overwritten with `score` only when
      `score` is strictly greater than what the entry reads as. */
  function SaveHighScore(stored: StoredScore, score: int): (r: StoredScore)
    ensures r == stored || r == Numeric(score)
    ensures AsNumber(stored).Num? ==> AsNumber(r).Num? && AsNumber(r).v >= AsNumber(stored).v
    ensures AsNumber(r).Num? ==> AsNumber(r).v >= score || r == stored
  {
    if Exceeds(score, stored) then Numeric(score) else stored
  }

  function Max(a: int, b: int): int {
    if a >= b then a else b
  }

  /** For a readable entry and a non-negative score, saving makes the entry
      read as the larger of the two; an entry that reads as NaN is never
      replaced. */
  lemma SaveKeepsMaximum(stored: StoredScore, score: nat)
    ensures stored.NotNumeric? ==> SaveHighScore(stored, score) == NotNumeric
    ensures !stored.NotNumeric? ==>
      AsNumber(SaveHighScore(stored, score)) == Num(Max(score, AsNumber(stored).v))
  {
    match stored
    case Missing =>
      if score == 0 {
        assert SaveHighScore(stored, score) == Missing;
      }
    case Numeric(n) =>
    case NotNumeric =>
  }

  /** With nothing stored, a positive score is written and a score of 0
      leaves the entry missing. */
  lemma SaveOverMissing(score: int)
    ensures SaveHighScore(Missing, score) == if score > 0 then Numeric(score) else Missing
  {
  }

  /** Saving twice with the same score changes nothing the second time. */
  lemma SaveIdempotent(stored: StoredScore, score: int)
    ensures SaveHighScore(SaveHighScore(stored, score), score) == SaveHighScore(stored, score)
  {
  }
}
