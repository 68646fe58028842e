/**
  The letter analysis of `ShowLetterAnalytics` (Services/PlayerSaveManager.cs):
  the rounds of every saved match are tallied per letter sequence, the
  sequences tried at least twice get a success rate and an average time
  left, and the five best and five worst are ranked. Only the report is
  modelled, not the way it is printed.

  The tally dictionary is a map together with its keys in the order they
  were first added, which is the order a .NET `Dictionary` that never
  loses a key enumerates them in.
*/
module Analytics {
  import opened Sorting
  import opened Profiles

  /** The rounds of all matches, match by match. */
  function Rounds(history: seq<MatchData>): seq<RoundPerformance> {
    if history == [] then []
    else Rounds(history[..|history| - 1]) + history[|history| - 1].roundPerformances
  }

  lemma RoundsStep(history: seq<MatchData>, m: nat)
    requires m < |history|
    ensures Rounds(history[..m + 1]) == Rounds(history[..m]) + history[m].roundPerformances
  {
    assert history[..m + 1][..m] == history[..m];
  }

  /** `(successes, failures, totalTime)` for one letter sequence. */
  datatype LetterStats = LetterStats(successes: nat, failures: nat, totalTime: int)

  const NoAttempts := LetterStats(0, 0, 0)

  /** The tuple after one more round: a success adds one success and the
      time left; a failure adds one failure. */
  function Counted(st: LetterStats, round: RoundPerformance): LetterStats {
    if round.success then LetterStats(st.successes + 1, st.failures, st.totalTime + round.timeRemaining)
    else LetterStats(st.successes, st.failures + 1, st.totalTime)
  }

  /** The tuple of `letters` after the given rounds. */
  function Tally(rounds: seq<RoundPerformance>, letters: string): LetterStats {
    if rounds == [] then NoAttempts
    else
      var prev := Tally(rounds[..|rounds| - 1], letters);
      var last := rounds[|rounds| - 1];
      if last.letters == letters then Counted(prev, last) else prev
  }

  /** The letter sequences of the rounds, each once, in order of first
      appearance. */
  function FirstSeen(rounds: seq<RoundPerformance>): seq<string> {
    if rounds == [] then []
    else
      var prev := FirstSeen(rounds[..|rounds| - 1]);
      var letters := rounds[|rounds| - 1].letters;
      if letters in prev then prev else prev + [letters]
  }

  /** The tally dictionary after the given rounds. */
  function StatsOf(rounds: seq<RoundPerformance>): map<string, LetterStats> {
    map k | k in FirstSeen(rounds) :: Tally(rounds, k)
  }

  /** The state of the tally loop once the rounds `done` are counted. */
  ghost predicate TallyState(keys: seq<string>, stats: map<string, LetterStats>, done: seq<RoundPerformance>) {
    keys == FirstSeen(done) && stats == StatsOf(done)
  }

  /** Counting one more round keeps the loop state. */
  lemma TallyStep(keys: seq<string>, stats: map<string, LetterStats>, done: seq<RoundPerformance>, round: RoundPerformance)
    requires TallyState(keys, stats, done)
    ensures var current := if round.letters in stats then stats[round.letters] else NoAttempts;
      TallyState(if round.letters in stats then keys else keys + [round.letters],
                 stats[round.letters := Counted(current, round)],
                 done + [round])
  {
    var d := done + [round];
    assert d[..|d| - 1] == done && d[|d| - 1] == round;
    var keys' := if round.letters in stats then keys else keys + [round.letters];
    assert FirstSeen(d) == keys';
    if round.letters !in stats {
      TallyUnseen(done, round.letters);
    }
    var current := if round.letters in stats then stats[round.letters] else NoAttempts;
    var stats' := stats[round.letters := Counted(current, round)];
    forall k | k in keys'
      ensures k in stats' && stats'[k] == Tally(d, k)
    {
    }
    assert stats' == StatsOf(d);
  }

  /** A letter sequence no round had has no attempts. */
  lemma {:induction false} TallyUnseen(rounds: seq<RoundPerformance>, letters: string)
    requires letters !in FirstSeen(rounds)
    ensures Tally(rounds, letters) == NoAttempts
  {
    if rounds != [] {
      TallyUnseen(rounds[..|rounds| - 1], letters);
    }
  }

  /** The tally dictionary after `before` and then `round`, as one step of
      the loop computes it: a new letter sequence is added as (0, 0, 0) at
      the end of the keys, and then its tuple is updated. */
  method CountRound(keys: seq<string>, stats: map<string, LetterStats>, round: RoundPerformance)
    returns (keys': seq<string>, stats': map<string, LetterStats>)
    ensures keys' == if round.letters in stats then keys else keys + [round.letters]
    ensures stats' == stats[round.letters := Counted(if round.letters in stats then stats[round.letters] else NoAttempts, round)]
  {
    keys', stats' := keys, stats;
    if round.letters !in stats' {
      stats' := stats'[round.letters := NoAttempts];
      keys' := keys' + [round.letters];
    }
    var current := stats'[round.letters];
    if round.success {
      stats' := stats'[round.letters := LetterStats(current.successes + 1, current.failures, current.totalTime + round.timeRemaining)];
    } else {
      stats' := stats'[round.letters := LetterStats(current.successes, current.failures + 1, current.totalTime)];
    }
  }

  /** The rounds of one match counted into the tally of the rounds `before`. */
  method CountMatch(keys: seq<string>, stats: map<string, LetterStats>, ghost before: seq<RoundPerformance>, rounds: seq<RoundPerformance>)
    returns (keys': seq<string>, stats': map<string, LetterStats>)
    requires TallyState(keys, stats, before)
    ensures TallyState(keys', stats', before + rounds)
  {
    keys', stats' := keys, stats;
    var r := 0;
    assert before + rounds[..r] == before;
    while r < |rounds|
      invariant 0 <= r <= |rounds|
      invariant TallyState(keys', stats', before + rounds[..r])
    {
      TallyStep(keys', stats', before + rounds[..r], rounds[r]);
      keys', stats' := CountRound(keys', stats', rounds[r]);
      SliceSnoc(before, rounds, r);
      r := r + 1;
    }
    assert rounds[..r] == rounds;
  }

  lemma SliceSnoc<T>(before: seq<T>, s: seq<T>, r: nat)
    requires r < |s|
    ensures before + s[..r + 1] == (before + s[..r]) + [s[r]]
  {
    assert s[..r + 1] == s[..r] + [s[r]];
  }

  /** The per-letter tally of `ShowLetterAnalytics`: every round of every
      match, in order, updates the tuple of its letter sequence, adding it
      as (0, 0, 0) first when it is new. */
  method CollectLetterStats(history: seq<MatchData>) returns (keys: seq<string>, stats: map<string, LetterStats>)
    ensures keys == FirstSeen(Rounds(history))
    ensures stats == StatsOf(Rounds(history))
  {
    keys := [];
    stats := map[];
    var m := 0;
    while m < |history|
      invariant 0 <= m <= |history|
      invariant TallyState(keys, stats, Rounds(history[..m]))
    {
      keys, stats := CountMatch(keys, stats, Rounds(history[..m]), history[m].roundPerformances);
      RoundsStep(history, m);
      m := m + 1;
    }
    assert history[..m] == history;
  }

  // ---------------------------------------------------------------------
  // What the tally counts
  // ---------------------------------------------------------------------

  /** The letter sequence of each round. */
  function LettersOf(rounds: seq<RoundPerformance>): (r: seq<string>)
    ensures |r| == |rounds|
  {
    if rounds == [] then [] else LettersOf(rounds[..|rounds| - 1]) + [rounds[|rounds| - 1].letters]
  }

  /** The letter sequence and outcome of each round. */
  function OutcomesOf(rounds: seq<RoundPerformance>): seq<(string, bool)> {
    if rounds == [] then []
    else OutcomesOf(rounds[..|rounds| - 1]) + [(rounds[|rounds| - 1].letters, rounds[|rounds| - 1].success)]
  }

  /** The tuple of a letter sequence counts exactly its rounds: its successes
      and its failures, which together are all its attempts. */
  lemma {:induction false} TallyCounts(rounds: seq<RoundPerformance>, letters: string)
    ensures Tally(rounds, letters).successes == multiset(OutcomesOf(rounds))[(letters, true)]
    ensures Tally(rounds, letters).failures == multiset(OutcomesOf(rounds))[(letters, false)]
    ensures Tally(rounds, letters).successes + Tally(rounds, letters).failures
         == multiset(LettersOf(rounds))[letters]
  {
    if rounds != [] {
      var init := rounds[..|rounds| - 1];
      TallyCounts(init, letters);
    }
  }

  /** The tally adds up over consecutive stretches of rounds. */
  lemma {:induction false} TallyAppend(a: seq<RoundPerformance>, b: seq<RoundPerformance>, letters: string)
    ensures var x, y := Tally(a, letters), Tally(b, letters);
      Tally(a + b, letters) == LetterStats(x.successes + y.successes, x.failures + y.failures, x.totalTime + y.totalTime)
    decreases |b|
  {
    if b == [] {
      assert a + b == a;
    } else {
      TallyAppend(a, b[..|b| - 1], letters);
      assert (a + b)[..|a + b| - 1] == a + b[..|b| - 1];
    }
  }

  /** The time of a round counts only when it was a success of that letter
      sequence. */
  lemma OneRoundTime(round: RoundPerformance, letters: string)
    ensures Tally([round], letters).totalTime
         == if round.letters == letters && round.success then round.timeRemaining else 0
  {
    assert [round][..0] == [];
  }

  /** The keys are the letter sequences of the rounds, without repeats. */
  lemma {:induction false} FirstSeenKeys(rounds: seq<RoundPerformance>)
    ensures forall k :: k in FirstSeen(rounds) <==> k in LettersOf(rounds)
    ensures forall i, j :: 0 <= i < j < |FirstSeen(rounds)| ==> FirstSeen(rounds)[i] != FirstSeen(rounds)[j]
  {
    if rounds != [] {
      var init := rounds[..|rounds| - 1];
      FirstSeenKeys(init);
    }
  }

  /** Every key has been tried at least once, so its success rate never
      divides by zero. */
  lemma KeysWereTried(rounds: seq<RoundPerformance>, letters: string)
    requires letters in FirstSeen(rounds)
    ensures Tally(rounds, letters).successes + Tally(rounds, letters).failures >= 1
  {
    FirstSeenKeys(rounds);
    TallyCounts(rounds, letters);
    assert letters in multiset(LettersOf(rounds));
  }

  // ---------------------------------------------------------------------
  // Rates and rankings
  // ---------------------------------------------------------------------

  /** One row of the analysis. Rates are exact rationals. */
  datatype LetterPerformance = LetterPerformance(
    letters: string, successes: nat, failures: nat, total: nat,
    successRate: real, avgTimeRemaining: real)

  /** The row of a letter sequence: the percentage of successes, and the
      time left averaged over the successes (0 when there are none). */
  function PerformanceOf(letters: string, st: LetterStats): (p: LetterPerformance)
    requires st.successes + st.failures > 0
    ensures p.letters == letters && p.successes == st.successes && p.failures == st.failures
    ensures p.total == st.successes + st.failures && p.total > 0
    ensures 0.0 <= p.successRate <= 100.0
    ensures p.successRate * p.total as real == st.successes as real * 100.0
    ensures st.successes == 0 ==> p.avgTimeRemaining == 0.0
    ensures st.successes > 0 ==> p.avgTimeRemaining * st.successes as real == st.totalTime as real
  {
    var total := st.successes + st.failures;
    RateBounds(st.successes, total);
    LetterPerformance(letters, st.successes, st.failures, total,
      st.successes as real / total as real * 100.0,
      if st.successes > 0 then st.totalTime as real / st.successes as real else 0.0)
  }

  lemma RateBounds(s: nat, total: nat)
    requires 0 < total && s <= total
    ensures 0.0 <= s as real / total as real * 100.0 <= 100.0
  {
    DivideAtMost(s as real, total as real, 1.0);
    DivideNonNegative(s as real, total as real);
  }

  /** Every key of `keys` has a tuple with at least one attempt. */
  ghost predicate Tried(keys: seq<string>, stats: map<string, LetterStats>) {
    forall i :: 0 <= i < |keys| ==> keys[i] in stats && stats[keys[i]].successes + stats[keys[i]].failures > 0
  }

  /** The rows of the keys, in key order, keeping those tried at least
      twice (the `Select` and `Where(x => x.Total >= 2)`). */
  function Performances(keys: seq<string>, stats: map<string, LetterStats>): (r: seq<LetterPerformance>)
    requires Tried(keys, stats)
    ensures |r| <= |keys|
    ensures forall i :: 0 <= i < |r| ==> r[i].total >= 2 && r[i].letters in keys
    ensures forall i :: 0 <= i < |r| ==> r[i] == PerformanceOf(r[i].letters, stats[r[i].letters])
  {
    if keys == [] then []
    else
      var init, k := keys[..|keys| - 1], keys[|keys| - 1];
      assert Tried(init, stats) by {
        forall i | 0 <= i < |init| ensures init[i] == keys[i] { }
      }
      var prev := Performances(init, stats);
      var p := PerformanceOf(k, stats[k]);
      if p.total >= 2 then prev + [p] else prev
  }

  /** The letter sequence of each row. */
  function RowLetters(rows: seq<LetterPerformance>): seq<string> {
    seq(|rows|, i requires 0 <= i < |rows| => rows[i].letters)
  }

  /** The keys tried at least twice, in key order. */
  function TriedTwice(keys: seq<string>, stats: map<string, LetterStats>): seq<string> {
    if keys == [] then []
    else
      var k := keys[|keys| - 1];
      TriedTwice(keys[..|keys| - 1], stats)
        + (if k in stats && stats[k].successes + stats[k].failures >= 2 then [k] else [])
  }

  /** The rows are one per key tried at least twice, in key order. */
  lemma {:induction false} PerformancesInKeyOrder(keys: seq<string>, stats: map<string, LetterStats>)
    requires Tried(keys, stats)
    ensures RowLetters(Performances(keys, stats)) == TriedTwice(keys, stats)
  {
    if keys != [] {
      var init := keys[..|keys| - 1];
      assert Tried(init, stats) by {
        forall i | 0 <= i < |init| ensures init[i] == keys[i] { }
      }
      PerformancesInKeyOrder(init, stats);
      var k := keys[|keys| - 1];
      var prev, p := Performances(init, stats), PerformanceOf(k, stats[k]);
      if p.total >= 2 {
        assert Performances(keys, stats) == prev + [p];
        assert RowLetters(prev + [p]) == RowLetters(prev) + [k];
        assert TriedTwice(keys, stats) == TriedTwice(init, stats) + [k];
      } else {
        assert Performances(keys, stats) == prev;
        assert TriedTwice(keys, stats) == TriedTwice(init, stats);
      }
    }
  }

  /** No element occurs twice. */
  ghost predicate Distinct<T>(s: seq<T>) {
    forall i, j :: 0 <= i < j < |s| ==> s[i] != s[j]
  }

  /** The keys tried twice are keys, and do not repeat when the keys do not. */
  lemma {:induction false} TriedTwiceDistinct(keys: seq<string>, stats: map<string, LetterStats>)
    ensures forall x :: x in TriedTwice(keys, stats) ==> x in keys
    ensures Distinct(keys) ==> Distinct(TriedTwice(keys, stats))
  {
    if keys != [] {
      var init, k := keys[..|keys| - 1], keys[|keys| - 1];
      TriedTwiceDistinct(init, stats);
      var prev := TriedTwice(init, stats);
      assert forall x :: x in init ==> x in keys;
      if Distinct(keys) {
        assert Distinct(init) by {
          forall i, j | 0 <= i < j < |init| ensures init[i] != init[j] {
            assert init[i] == keys[i] && init[j] == keys[j];
          }
        }
        assert k !in init by {
          forall i | 0 <= i < |init| ensures init[i] != k {
            assert init[i] == keys[i];
          }
        }
      }
    }
  }

  /** The rows of a history's tally have letter sequences that do not
      repeat, in order of their first round. */
  lemma RowsInKeyOrder(history: seq<MatchData>)
    ensures var rounds := Rounds(history);
      RowLetters(RowsOf(history)) == TriedTwice(FirstSeen(rounds), StatsOf(rounds))
    ensures Distinct(RowLetters(RowsOf(history)))
  {
    var rounds := Rounds(history);
    StatsTried(rounds);
    PerformancesInKeyOrder(FirstSeen(rounds), StatsOf(rounds));
    FirstSeenKeys(rounds);
    TriedTwiceDistinct(FirstSeen(rounds), StatsOf(rounds));
  }

  /** No letter sequence tried at least twice is left out. */
  lemma {:induction false} PerformancesComplete(keys: seq<string>, stats: map<string, LetterStats>, i: nat)
    requires Tried(keys, stats) && i < |keys|
    requires stats[keys[i]].successes + stats[keys[i]].failures >= 2
    ensures PerformanceOf(keys[i], stats[keys[i]]) in Performances(keys, stats)
  {
    var init := keys[..|keys| - 1];
    assert Tried(init, stats) by {
      forall j | 0 <= j < |init| ensures init[j] == keys[j] { }
    }
    if i < |keys| - 1 {
      assert keys[i] == init[i];
      PerformancesComplete(init, stats, i);
    }
  }

  /** `OrderByDescending(x => x.SuccessRate).ThenByDescending(x => x.AvgTimeRemaining)`. */
  predicate BestBefore(a: LetterPerformance, b: LetterPerformance) {
    a.successRate > b.successRate
    || (a.successRate == b.successRate && a.avgTimeRemaining > b.avgTimeRemaining)
  }

  /** `OrderBy(x => x.SuccessRate).ThenBy(x => x.AvgTimeRemaining)`. */
  predicate WorstBefore(a: LetterPerformance, b: LetterPerformance) {
    a.successRate < b.successRate
    || (a.successRate == b.successRate && a.avgTimeRemaining < b.avgTimeRemaining)
  }

  lemma RankingsOrder()
    ensures StrictWeakOrder(BestBefore)
    ensures StrictWeakOrder(WorstBefore)
  {
  }

  /** Three successes and one failure rate 75%, three failures 0%, so the
      first is ranked above the second whatever the times left. */
  lemma RankingExample(t1: int, t2: int)
    ensures PerformanceOf("at", LetterStats(3, 1, t1)).successRate == 75.0
    ensures PerformanceOf("qz", LetterStats(0, 3, t2)).successRate == 0.0
    ensures BestBefore(PerformanceOf("at", LetterStats(3, 1, t1)), PerformanceOf("qz", LetterStats(0, 3, t2)))
    ensures WorstBefore(PerformanceOf("qz", LetterStats(0, 3, t2)), PerformanceOf("at", LetterStats(3, 1, t1)))
  {
  }

  /** Each ranking shows five rows. */
  const TopCount := 5

  /** What the analysis shows: a notice that no round was recorded yet, a
      notice that no letter sequence was tried twice, or the rankings. */
  datatype AnalyticsReport =
    | NoRoundData
    | TooFewAttempts
    | Report(best: seq<LetterPerformance>, worst: seq<LetterPerformance>)

  /** `MatchHistory.Any(m => m.RoundPerformances.Count > 0)`. */
  predicate AnyRounds(history: seq<MatchData>) {
    exists i :: 0 <= i < |history| && |history[i].roundPerformances| > 0
  }

  /** Some match has rounds exactly when there are rounds at all. */
  lemma {:induction false} AnyRoundsIff(history: seq<MatchData>)
    ensures AnyRounds(history) <==> Rounds(history) != []
  {
    if history != [] {
      var init := history[..|history| - 1];
      AnyRoundsIff(init);
      if AnyRounds(init) {
        var i :| 0 <= i < |init| && |init[i].roundPerformances| > 0;
        assert history[i] == init[i];
      }
      if AnyRounds(history) {
        var i :| 0 <= i < |history| && |history[i].roundPerformances| > 0;
        if i < |init| {
          assert init[i] == history[i];
        }
      }
    }
  }

  /** Every key of the tally of some rounds has been tried. */
  lemma StatsTried(rounds: seq<RoundPerformance>)
    ensures Tried(FirstSeen(rounds), StatsOf(rounds))
  {
    var keys := FirstSeen(rounds);
    forall i | 0 <= i < |keys| ensures keys[i] in StatsOf(rounds) && Tally(rounds, keys[i]).successes + Tally(rounds, keys[i]).failures > 0 {
      KeysWereTried(rounds, keys[i]);
    }
  }

  /** The report for the rows of the letter sequences tried twice. */
  function Rankings(rows: seq<LetterPerformance>): (r: AnalyticsReport)
    ensures !r.NoRoundData?
    ensures r.TooFewAttempts? <==> rows == []
  {
    if rows == [] then TooFewAttempts
    else Report(Take(SortBy(rows, BestBefore), TopCount), Take(SortBy(rows, WorstBefore), TopCount))
  }

  /** The rows of the letter sequences of a history tried at least twice. */
  function RowsOf(history: seq<MatchData>): seq<LetterPerformance> {
    var rounds := Rounds(history);
    StatsTried(rounds);
    Performances(FirstSeen(rounds), StatsOf(rounds))
  }

  /** The analysis of a match history. */
  function Analyze(history: seq<MatchData>): (r: AnalyticsReport)
    ensures r.NoRoundData? <==> Rounds(history) == []
    ensures r.TooFewAttempts? <==> Rounds(history) != [] && RowsOf(history) == []
  {
    AnyRoundsIff(history);
    if |history| == 0 || !AnyRounds(history) then NoRoundData
    else Rankings(RowsOf(history))
  }

  /** Each ranking has at most five rows, all tried at least twice and taken
      from the rows; the best are in falling order of rate then time, the
      worst in rising order. */
  lemma RankingsShape(rows: seq<LetterPerformance>)
    ensures Rankings(rows).Report? <==> rows != []
    ensures Rankings(rows).Report? ==>
      var best, worst := Rankings(rows).best, Rankings(rows).worst;
      && |best| <= TopCount && |worst| <= TopCount
      && |best| == |worst| == (if |rows| < TopCount then |rows| else TopCount)
      && multiset(best) <= multiset(rows) && multiset(worst) <= multiset(rows)
      && (forall i, j :: 0 <= i < j < |best| ==> !BestBefore(best[j], best[i]))
      && (forall i, j :: 0 <= i < j < |worst| ==> !WorstBefore(worst[j], worst[i]))
  {
    if rows != [] {
      RankingsOrder();
      TopSorted(rows, BestBefore, TopCount);
      TopSorted(rows, WorstBefore, TopCount);
    }
  }

  /** Each row is a letter sequence of the history tried at least twice,
      and counts all its rounds. */
  lemma RowsCountRounds(history: seq<MatchData>)
    ensures forall i :: 0 <= i < |RowsOf(history)| ==>
      && RowsOf(history)[i].total >= 2
      && RowsOf(history)[i].letters in LettersOf(Rounds(history))
      && RowsOf(history)[i].total == multiset(LettersOf(Rounds(history)))[RowsOf(history)[i].letters]
  {
    var rounds := Rounds(history);
    StatsTried(rounds);
    var rows := RowsOf(history);
    FirstSeenKeys(rounds);
    forall i | 0 <= i < |rows| ensures rows[i].total == multiset(LettersOf(rounds))[rows[i].letters] {
      TallyCounts(rounds, rows[i].letters);
    }
  }

  /** No letter sequence of the history tried at least twice lacks a row. */
  lemma RowsComplete(history: seq<MatchData>, letters: string)
    requires multiset(LettersOf(Rounds(history)))[letters] >= 2
    ensures exists i :: 0 <= i < |RowsOf(history)| && RowsOf(history)[i].letters == letters
  {
    var rounds := Rounds(history);
    var keys := FirstSeen(rounds);
    StatsTried(rounds);
    FirstSeenKeys(rounds);
    assert letters in keys;
    var j :| 0 <= j < |keys| && keys[j] == letters;
    TallyCounts(rounds, letters);
    PerformancesComplete(keys, StatsOf(rounds), j);
    var rows := RowsOf(history);
    var i :| 0 <= i < |rows| && rows[i] == PerformanceOf(letters, StatsOf(rounds)[letters]);
    assert rows[i].letters == letters;
  }
}
