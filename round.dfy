/**
  One timed turn (Models/Round.cs). The clock is not read here: every query
  takes the seconds elapsed since the round started, as the game's
  `(DateTime.Now - StartTime).TotalSeconds` would give them.
*/
module Rounds {
  import opened Players

  /** The `(int)` cast of a double: truncation toward zero. */
  function Truncate(x: real): (r: int)
    ensures x >= 0.0 ==> r >= 0 && r as real <= x < r as real + 1.0
    ensures x < 0.0 ==> r <= 0 && r as real - 1.0 < x <= r as real
  {
    if x >= 0.0 then x.Floor else -((-x).Floor)
  }

  /** Truncation is monotone. */
  lemma TruncateMonotone(x: real, y: real)
    requires x <= y
    ensures Truncate(x) <= Truncate(y)
  {
  }

  datatype Round = Round(letterCombination: string, timeLimit: int, currentPlayer: Player)
  {
    /** Whole seconds left, never negative. */
    function RemainingTime(elapsed: real): (r: int)
      ensures r >= 0
      ensures r > 0 ==> r + Truncate(elapsed) == timeLimit
      ensures r == 0 <==> Truncate(elapsed) >= timeLimit
      ensures elapsed >= 0.0 && timeLimit >= 0 ==> r <= timeLimit
    {
      var left := timeLimit - Truncate(elapsed);
      if 0 > left then 0 else left
    }

    /** The round is over once no whole second is left. */
    predicate IsTimeUp(elapsed: real) {
      RemainingTime(elapsed) <= 0
    }

    /** Time is up exactly when the truncated elapsed time reaches the limit;
        for a clock that has not gone backwards, exactly when the elapsed time
        itself does. */
    lemma TimeUpIff(elapsed: real)
      ensures IsTimeUp(elapsed) <==> Truncate(elapsed) >= timeLimit
      ensures IsTimeUp(elapsed) <==> RemainingTime(elapsed) == 0
      ensures elapsed >= 0.0 ==> (IsTimeUp(elapsed) <==> elapsed >= timeLimit as real)
    {
    }

    /** The remaining time never goes up as the clock runs, and once the time
        is up it stays up. */
    lemma {:induction false} RemainingNonIncreasing(earlier: real, later: real)
      requires earlier <= later
      ensures RemainingTime(later) <= RemainingTime(earlier)
      ensures IsTimeUp(earlier) ==> IsTimeUp(later)
    {
      TruncateMonotone(earlier, later);
    }
  }
}
