/**
  The high-score table (Services/LeaderboardManager.cs). Its JSON file is
  not modelled: the manager starts from the entries the file held (none
  when it is missing), and the clock is the time stamp given to `AddEntry`.
*/
module Leaderboard {
  import opened Sorting
  import opened Players

  /** The table keeps the ten best entries. */
  const MaxEntries := 10

  datatype LeaderboardEntry = LeaderboardEntry(playerName: string, score: int, difficulty: string, date: int)

  /** `OrderByDescending(e => e.Score)`: a higher score comes first. */
  predicate HigherScore(a: LeaderboardEntry, b: LeaderboardEntry) {
    a.score > b.score
  }

  lemma HigherScoreOrders()
    ensures StrictWeakOrder(HigherScore)
  {
  }

  /** The table after `entry` is added to `entries`: both, in stable order
      of falling score, cut to the first ten. */
  function Ranked(entries: seq<LeaderboardEntry>, entry: LeaderboardEntry): (r: seq<LeaderboardEntry>)
    ensures |r| == if |entries| < MaxEntries then |entries| + 1 else MaxEntries
  {
    Take(SortBy(entries + [entry], HigherScore), MaxEntries)
  }

  /** The new table holds at most ten entries, all from the old table or the
      new entry, with scores never rising from one entry to the next. */
  lemma RankedIsBoundedAndSorted(entries: seq<LeaderboardEntry>, entry: LeaderboardEntry)
    ensures |Ranked(entries, entry)| <= MaxEntries
    ensures multiset(Ranked(entries, entry)) <= multiset(entries) + multiset{entry}
    ensures forall i, j :: 0 <= i < j < |Ranked(entries, entry)| ==>
              Ranked(entries, entry)[i].score >= Ranked(entries, entry)[j].score
  {
    var all := entries + [entry];
    var sorted := SortBy(all, HigherScore);
    var r := Ranked(entries, entry);
    HigherScoreOrders();
    SortBySorted(all, HigherScore);
    TakeSubMultiset(sorted, MaxEntries);
    forall i, j | 0 <= i < j < |r| ensures r[i].score >= r[j].score {
      assert r[i] == sorted[i] && r[j] == sorted[j];
    }
  }

  /** While the table has room, nothing is dropped and the new entry is in. */
  lemma RankedKeepsAllWhenRoom(entries: seq<LeaderboardEntry>, entry: LeaderboardEntry)
    requires |entries| < MaxEntries
    ensures multiset(Ranked(entries, entry)) == multiset(entries) + multiset{entry}
    ensures entry in Ranked(entries, entry)
  {
    var r := Ranked(entries, entry);
    assert r == SortBy(entries + [entry], HigherScore);
    assert entry in multiset(r);
  }

  /** The elements that tie with `v` among the first `n` come first among
      all the elements that tie with `v`. */
  lemma {:induction false} TiedWithTake<T>(s: seq<T>, n: int, v: T, lt: (T, T) -> bool)
    ensures TiedWith(Take(s, n), v, lt) <= TiedWith(s, v, lt)
  {
    var t := Take(s, n);
    assert s == t + s[|t|..];
    TiedWithAppend(t, s[|t|..], v, lt);
  }

  /** Equal scores keep their order of arrival: the entries with the score of
      `v` are, in order, some first ones of those in the old table followed by
      the new entry when its score is that too. */
  lemma RankedIsStable(entries: seq<LeaderboardEntry>, entry: LeaderboardEntry, v: LeaderboardEntry)
    ensures TiedWith(Ranked(entries, entry), v, HigherScore)
         <= TiedWith(entries, v, HigherScore) + (if entry.score == v.score then [entry] else [])
  {
    var all := entries + [entry];
    HigherScoreOrders();
    SortByStable(all, v, HigherScore);
    TiedWithTake(SortBy(all, HigherScore), MaxEntries, v, HigherScore);
    TiedWithAppend(entries, [entry], v, HigherScore);
    assert [entry][..0] == [];
  }

  /** A full, sorted table does not take an entry that only ties with its
      last one: the newcomer goes behind it and is cut. */
  lemma TieWithLastIsCut(entries: seq<LeaderboardEntry>, entry: LeaderboardEntry)
    requires |entries| == MaxEntries
    requires forall i, j :: 0 <= i < j < |entries| ==> entries[i].score >= entries[j].score
    requires entry.score <= entries[MaxEntries - 1].score
    ensures Ranked(entries, entry) == entries
  {
    assert Sorted(entries, HigherScore);
    SortBySortedIsIdentity(entries, HigherScore);
    AppendWhenNotBefore(entry, entries, HigherScore);
    assert SortBy(entries + [entry], HigherScore) == InsertBy(entry, SortBy(entries, HigherScore), HigherScore) by {
      assert (entries + [entry])[..|entries|] == entries;
    }
    assert (entries + [entry])[..MaxEntries] == entries;
  }

  class LeaderboardManager {
    var entries: seq<LeaderboardEntry>

    /** Starts from the entries read from the leaderboard file. */
    constructor (saved: seq<LeaderboardEntry>)
      ensures entries == saved
    {
      entries := saved;
    }

    /** Records the player's score and keeps the ten best. */
    method AddEntry(player: Player, difficulty: string, date: int)
      modifies this`entries
      ensures entries == Ranked(old(entries), LeaderboardEntry(player.name, player.score, difficulty, date))
      ensures |entries| <= MaxEntries
      ensures forall i, j :: 0 <= i < j < |entries| ==> entries[i].score >= entries[j].score
    {
      var entry := LeaderboardEntry(player.name, player.score, difficulty, date);
      RankedIsBoundedAndSorted(entries, entry);
      entries := Ranked(entries, entry);
    }

    /** The first `count` entries, or all of them when there are fewer; none
        when `count` is not positive. */
    function GetTopScores(count: int := 10): (r: seq<LeaderboardEntry>)
      reads this
      ensures r <= entries
      ensures |r| == if count <= 0 then 0 else if count < |entries| then count else |entries|
    {
      Take(entries, count)
    }
  }
}
