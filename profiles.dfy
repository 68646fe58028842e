/**
  The records a player's profile file holds (the classes `MatchData`,
  `RoundPerformance` and `PlayerProfile` of Services/PlayerSaveManager.cs)
  and the bookkeeping `SaveMatch` does on them. Dates are time stamps and
  durations are differences of time stamps, as plain integers.
*/
module Profiles {
  import opened Wrappers

  /** How one round of a match went. */
  datatype RoundPerformance = RoundPerformance(letters: string, success: bool, wordUsed: Option<string>, timeRemaining: int)

  /** One finished match. */
  datatype MatchData = MatchData(
    matchDate: int,
    difficulty: string,
    score: int,
    roundsPlayed: int,
    livesRemaining: int,
    won: bool,
    wordsUsed: seq<string>,
    totalPlayTime: int,
    roundPerformances: seq<RoundPerformance>)

  datatype PlayerProfile = PlayerProfile(
    playerName: string,
    createdDate: int,
    lastPlayed: int,
    totalMatches: int,
    totalWins: int,
    totalScore: int,
    bestScore: int,
    matchHistory: seq<MatchData>)
  {
    /** The words used over all matches of the history. */
    function TotalWordsUsed(): (n: nat)
      ensures matchHistory == [] ==> n == 0
    {
      WordsIn(matchHistory)
    }

    /** The percentage of matches won, 0 before the first match. The double
        division is exact here. */
    function WinRate(): (r: real)
      ensures totalMatches <= 0 ==> r == 0.0
      ensures totalMatches > 0 ==> r * totalMatches as real == totalWins as real * 100.0
    {
      if totalMatches > 0 then totalWins as real / totalMatches as real * 100.0 else 0.0
    }

    /** The mean score per match, 0 before the first match. */
    function AverageScore(): (r: real)
      ensures totalMatches <= 0 ==> r == 0.0
      ensures totalMatches > 0 ==> r * totalMatches as real == totalScore as real
    {
      if totalMatches > 0 then totalScore as real / totalMatches as real else 0.0
    }
  }

  /** `MatchHistory.Sum(m => m.WordsUsed.Count)`. */
  function WordsIn(history: seq<MatchData>): nat {
    if history == [] then 0 else WordsIn(history[..|history| - 1]) + |history[|history| - 1].wordsUsed|
  }

  /** The profile `LoadOrCreateProfile` makes for a player with no file:
      named, dated now, no matches. */
  function NewProfile(playerName: string, now: int): (p: PlayerProfile)
    ensures p.playerName == playerName && p.createdDate == now && p.lastPlayed == now
    ensures p.totalMatches == 0 && p.totalWins == 0 && p.totalScore == 0 && p.bestScore == 0
    ensures p.matchHistory == []
  {
    PlayerProfile(playerName, now, now, 0, 0, 0, 0, [])
  }

  /** What `SaveMatch` does to the profile, at time `now`. */
  function RecordMatch(p: PlayerProfile, m: MatchData, now: int): (q: PlayerProfile)
    ensures q.matchHistory == p.matchHistory + [m]
    ensures q.totalMatches == p.totalMatches + 1
    ensures q.totalScore == p.totalScore + m.score
    ensures q.totalWins == if m.won then p.totalWins + 1 else p.totalWins
    ensures q.bestScore == if m.score > p.bestScore then m.score else p.bestScore
    ensures q.playerName == p.playerName && q.createdDate == p.createdDate && q.lastPlayed == now
  {
    var q := p.(matchHistory := p.matchHistory + [m], lastPlayed := now,
                totalMatches := p.totalMatches + 1, totalScore := p.totalScore + m.score);
    var q := if m.won then q.(totalWins := q.totalWins + 1) else q;
    if m.score > q.bestScore then q.(bestScore := m.score) else q
  }

  /** Two matches saved one after the other into a new profile: two matches
      in the history and in the counter, and the better score as the best. */
  lemma TwoMatchesRecorded(name: string, created: int, m1: MatchData, t1: int, m2: MatchData, t2: int)
    requires m1.score >= 0 && m2.score >= 0
    ensures var p := RecordMatch(RecordMatch(NewProfile(name, created), m1, t1), m2, t2);
      && p.totalMatches == 2 && p.matchHistory == [m1, m2]
      && p.bestScore == (if m1.score >= m2.score then m1.score else m2.score)
      && p.totalScore == m1.score + m2.score
  {
  }

  // ---------------------------------------------------------------------
  // Counters that agree with the history
  // ---------------------------------------------------------------------

  function WinsIn(history: seq<MatchData>): nat {
    if history == [] then 0
    else WinsIn(history[..|history| - 1]) + (if history[|history| - 1].won then 1 else 0)
  }

  function ScoreIn(history: seq<MatchData>): int {
    if history == [] then 0 else ScoreIn(history[..|history| - 1]) + history[|history| - 1].score
  }

  /** The best score of the history, and 0 when it has none above 0. */
  function BestIn(history: seq<MatchData>): int {
    if history == [] then 0
    else
      var best := BestIn(history[..|history| - 1]);
      var last := history[|history| - 1].score;
      if last > best then last else best
  }

  /** The counters of a profile are what its history adds up to. */
  ghost predicate Consistent(p: PlayerProfile) {
    && p.totalMatches == |p.matchHistory|
    && p.totalWins == WinsIn(p.matchHistory)
    && p.totalScore == ScoreIn(p.matchHistory)
    && p.bestScore == BestIn(p.matchHistory)
  }

  /** A new profile is consistent, and recording a match keeps it so. */
  lemma RecordMatchKeepsConsistent(p: PlayerProfile, m: MatchData, now: int, name: string)
    requires Consistent(p)
    ensures Consistent(NewProfile(name, now))
    ensures Consistent(RecordMatch(p, m, now))
  {
    var h := RecordMatch(p, m, now).matchHistory;
    assert h[..|h| - 1] == p.matchHistory;
  }

  /** Recording a match adds its words to the total. */
  lemma RecordMatchAddsWords(p: PlayerProfile, m: MatchData, now: int)
    ensures RecordMatch(p, m, now).TotalWordsUsed() == p.TotalWordsUsed() + |m.wordsUsed|
  {
    var h := RecordMatch(p, m, now).matchHistory;
    assert h[..|h| - 1] == p.matchHistory;
  }

  lemma {:induction false} WinsAtMostMatches(history: seq<MatchData>)
    ensures WinsIn(history) <= |history|
  {
    if history != [] {
      WinsAtMostMatches(history[..|history| - 1]);
    }
  }

  lemma {:induction false} ScoreAtMostBest(history: seq<MatchData>)
    ensures ScoreIn(history) <= |history| * BestIn(history)
  {
    if history != [] {
      var init := history[..|history| - 1];
      ScoreAtMostBest(init);
      assert |init| * BestIn(init) <= |init| * BestIn(history) by {
        MulMonotone(|init|, BestIn(init), BestIn(history));
      }
    }
  }

  lemma MulMonotone(n: nat, a: int, b: int)
    requires a <= b
    ensures n * a <= n * b
  {
  }

  lemma PositiveProduct(x: real, n: real)
    requires x > 0.0 && n > 0.0
    ensures x * n > 0.0
  {
  }

  /** Dividing by a positive `n` keeps `a <= n * b` as `a / n <= b`. */
  lemma DivideAtMost(a: real, n: real, b: real)
    requires n > 0.0 && a <= n * b
    ensures a / n <= b
  {
    var x := a / n;
    assert x * n == a;
    if x > b {
      PositiveProduct(x - b, n);
    }
  }

  lemma DivideNonNegative(a: real, n: real)
    requires n > 0.0 && a >= 0.0
    ensures a / n >= 0.0
  {
    var x := a / n;
    assert x * n == a;
    if x < 0.0 {
      PositiveProduct(-x, n);
    }
  }

  lemma ProductAsReal(n: int, b: int)
    ensures (n * b) as real == n as real * b as real
  {
  }

  /** For a consistent profile the win rate is a percentage, and the average
      score is at most the best score. */
  lemma ConsistentRates(p: PlayerProfile)
    requires Consistent(p)
    ensures 0.0 <= p.WinRate() <= 100.0
    ensures p.AverageScore() <= p.bestScore as real
  {
    if p.totalMatches > 0 {
      var n := p.totalMatches as real;
      WinsAtMostMatches(p.matchHistory);
      DivideAtMost(p.totalWins as real, n, 1.0);
      DivideNonNegative(p.totalWins as real, n);
      ScoreAtMostBest(p.matchHistory);
      ProductAsReal(p.totalMatches, p.bestScore);
      DivideAtMost(p.totalScore as real, n, p.bestScore as real);
    }
  }
}
