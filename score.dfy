/**
 * The `score` object of script.js: the current score and the high-score
 * mark, kept as integers rather than as text of page elements.
 */
module Scoring {

  function Max(a: int, b: int): int {
    if a < b then b else a
  }

  class Score {
    var current: int
    var high: int

    /** The page starts with both counters at 0. */
    constructor ()
      ensures current == 0 && high == 0
    {
      current := 0;
      high := 0;
    }

    /** `resetScore`: the current score goes back to 0; the high score is kept. */
    method ResetScore()
      modifies this`current
      ensures current == 0
    {
      current := 0;
    }

    /**
     * `changeScore(value)`: adds value to the current score and raises the
     * high score to it when it is passed. The high score never decreases and
     * never lies below the current score afterwards.
     */
    method ChangeScore(value: int)
      modifies this
      ensures current == old(current) + value
      ensures high == Max(old(high), current)
      ensures old(high) <= high && current <= high
    {
      var currentScoreValue := current + value;
      current := currentScoreValue;
      if high < currentScoreValue {
        high := currentScoreValue;
      }
    }
  }
}
