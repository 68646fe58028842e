/** One game from player setup to a single survivor (Models/GameSession.cs). */
module Sessions {
  import opened Wrappers
  import opened Players

  // ---------------------------------------------------------------------
  // Turn order on a snapshot of who is alive
  // ---------------------------------------------------------------------

  /** Whether each player is alive, in seating order. */
  function AliveFlags(players: seq<Player>): (r: seq<bool>)
    reads players
    ensures |r| == |players|
    ensures forall i :: 0 <= i < |players| ==> r[i] == players[i].IsAlive()
  {
    seq(|players|, i reads players requires 0 <= i < |players| => players[i].IsAlive())
  }

  /** How many flags are set. */
  function CountTrue(flags: seq<bool>): nat {
    if flags == [] then 0 else CountTrue(flags[..|flags| - 1]) + (if flags[|flags| - 1] then 1 else 0)
  }

  /** With no flag set apart from (possibly) the one at `i`, at most one is set. */
  lemma {:induction false} CountAtMostOne(flags: seq<bool>, i: nat)
    requires forall j :: 0 <= j < |flags| && j != i ==> !flags[j]
    ensures CountTrue(flags) <= 1
    ensures i >= |flags| || !flags[i] ==> CountTrue(flags) == 0
  {
    if flags != [] {
      CountAtMostOne(flags[..|flags| - 1], i);
    }
  }

  /** A set flag is counted. */
  lemma {:induction false} CountPositive(flags: seq<bool>, j: nat)
    requires j < |flags| && flags[j]
    ensures CountTrue(flags) >= 1
  {
    if j < |flags| - 1 {
      CountPositive(flags[..|flags| - 1], j);
    }
  }

  /** The seat `k` places after seat `i` around a table of `n`, for a step
      of at most one lap: `(i + k) % n` written without the remainder. */
  function Seat(i: nat, k: nat, n: nat): (j: nat)
    requires i < n && k <= n
    ensures j < n
  {
    if i + k < n then i + k else i + k - n
  }

  /** `Seat` is the index arithmetic the game performs. */
  lemma SeatIsRemainder(i: nat, k: nat, n: nat)
    requires i < n && k <= n
    ensures Seat(i, k, n) == (i + k) % n
  {
    if i + k < n {
      RemainderUnique(i + k, n, 0, i + k);
    } else {
      RemainderUnique(i + k, n, 1, i + k - n);
    }
  }

  /** The remainder is the one `r` in `[0, n)` with `x == q * n + r`. */
  lemma RemainderUnique(x: int, n: int, q: int, r: int)
    requires n > 0 && 0 <= r < n && x == q * n + r
    ensures x % n == r
  {
    var q', r' := x / n, x % n;
    assert x == q' * n + r';
    MulSub(q, q', n);
    MulSub(q', q, n);
    if q > q' {
      MulAtLeast(q - q', n);
    } else if q < q' {
      MulAtLeast(q' - q, n);
    }
  }

  lemma MulAtLeast(t: int, n: int)
    requires t >= 1 && n > 0
    ensures t * n >= n
  {
  }

  lemma MulSub(a: int, b: int, n: int)
    ensures (a - b) * n == a * n - b * n
  {
  }

  /** One more step from the seat `k` places on is the seat `k + 1` places on. */
  lemma SeatStep(i: nat, k: nat, n: nat)
    requires i < n && k < n
    ensures Seat(Seat(i, k, n), 1, n) == Seat(i, k + 1, n)
  {
  }

  /** The game's step to the next seat, `(i + 1) % n`, which for a seat of
      the table is the seat after it or, from the last seat, seat 0. */
  function NextSeatIndex(i: nat, n: nat): (j: nat)
    requires i < n
    ensures j == (i + 1) % n
    ensures j == Seat(i, 1, n)
  {
    SeatIsRemainder(i, 1, n);
    if i + 1 < n then i + 1 else 0
  }

  /** Seats from `i` forward to `j` around a table of `n`: 1 to `n`, and `n`
      exactly when `j == i`. */
  function Offset(i: nat, j: nat, n: nat): (d: nat)
    requires i < n && j < n
    ensures 1 <= d <= n
    ensures Seat(i, d, n) == j
  {
    if j > i then j - i else j - i + n
  }

  /** The seat `k` places after `i` has offset `k`. */
  lemma OffsetOfStep(i: nat, k: nat, n: nat)
    requires i < n && 1 <= k <= n
    ensures Offset(i, Seat(i, k, n), n) == k
  {
  }

  /** Distinct seats have distinct offsets. */
  lemma OffsetInjective(i: nat, j: nat, j': nat, n: nat)
    requires i < n && j < n && j' < n
    requires Offset(i, j, n) == Offset(i, j', n)
    ensures j == j'
  {
  }

  /** Walking on from `i` past `a` to `j` splits the offset. */
  lemma OffsetSplit(i: nat, a: nat, j: nat, n: nat)
    requires i < n && a < n && j < n
    requires Offset(i, a, n) < Offset(i, j, n)
    ensures Offset(a, j, n) == Offset(i, j, n) - Offset(i, a, n)
  {
  }

  /** The seat the turn stops at when scanning from `k` places after `i`:
      the first living player, or the seat `n` places on if nobody lives. */
  function FirstAliveFrom(alive: seq<bool>, i: nat, k: nat): (r: nat)
    requires i < |alive| && 1 <= k <= |alive|
    ensures r < |alive|
    ensures k <= Offset(i, r, |alive|)
    ensures alive[r] || Offset(i, r, |alive|) == |alive|
    ensures forall j :: 0 <= j < |alive| && k <= Offset(i, j, |alive|) < Offset(i, r, |alive|) ==> !alive[j]
    decreases |alive| - k
  {
    var n := |alive|;
    var j := Seat(i, k, n);
    OffsetOfStep(i, k, n);
    if alive[j] || k == n then j
    else
      var r := FirstAliveFrom(alive, i, k + 1);
      assert forall j' :: 0 <= j' < n && Offset(i, j', n) == k ==> j' == j by {
        forall j' | 0 <= j' < n && Offset(i, j', n) == k ensures j' == j {
          OffsetInjective(i, j', j, n);
        }
      }
      r
  }

  /** Where `NextPlayer` moves the turn from seat `i`. While two or more
      players live, it is the first living player strictly after `i` around
      the table. Otherwise it is simply the next seat, dead or alive. */
  function NextIndex(alive: seq<bool>, i: nat): (r: nat)
    requires i < |alive|
    ensures r < |alive|
    ensures CountTrue(alive) <= 1 ==> r == (i + 1) % |alive|
    ensures CountTrue(alive) >= 2 ==> alive[r] && r != i
    ensures CountTrue(alive) >= 2 ==>
      forall j :: 0 <= j < |alive| && Offset(i, j, |alive|) < Offset(i, r, |alive|) ==> !alive[j]
  {
    if CountTrue(alive) <= 1 then SeatIsRemainder(i, 1, |alive|); Seat(i, 1, |alive|)
    else
      var r := FirstAliveFrom(alive, i, 1);
      assert alive[r] && r != i by {
        if !alive[r] || r == i {
          assert Offset(i, r, |alive|) == |alive|;
          OffsetInjective(i, r, i, |alive|);
          CountAtMostOne(alive, i);
          assert false;
        }
      }
      r
  }

  /** The seats 1 to `k - 1` places after `i` are all dead: how far the
      scan of `NextPlayer` has got. */
  ghost predicate DeadUpTo(alive: seq<bool>, i: nat, k: nat)
    requires i < |alive| && k <= |alive|
  {
    k <= 1 || (DeadUpTo(alive, i, k - 1) && !alive[Seat(i, k - 1, |alive|)])
  }

  /** A dead seat `k` places on extends the scan by one seat. */
  lemma DeadUpToStep(alive: seq<bool>, i: nat, k: nat)
    requires i < |alive| && 1 <= k < |alive|
    requires DeadUpTo(alive, i, k) && !alive[Seat(i, k, |alive|)]
    ensures DeadUpTo(alive, i, k + 1)
  {
  }

  /** One turn of the loop in `NextPlayer`: past a dead seat, with two or
      more players alive, the scan moves on by one seat. */
  lemma ScanStep(alive: seq<bool>, i: nat, k: nat)
    requires i < |alive| && 1 <= k <= |alive| && CountTrue(alive) >= 2
    requires DeadUpTo(alive, i, k) && !alive[Seat(i, k, |alive|)]
    ensures k < |alive|
    ensures DeadUpTo(alive, i, k + 1)
    ensures Seat(Seat(i, k, |alive|), 1, |alive|) == Seat(i, k + 1, |alive|)
  {
    ScanHasRoom(alive, i, k);
    DeadUpToStep(alive, i, k);
    SeatStep(i, k, |alive|);
  }

  /** `DeadUpTo` read off seat by seat. */
  lemma {:induction false} DeadUpToMeans(alive: seq<bool>, i: nat, k: nat, j: nat)
    requires i < |alive| && k <= |alive| && j < |alive|
    requires DeadUpTo(alive, i, k) && Offset(i, j, |alive|) < k
    ensures !alive[j]
  {
    var d := Offset(i, j, |alive|);
    if d < k - 1 {
      DeadUpToMeans(alive, i, k - 1, j);
    }
  }

  /** `NextIndex` is pinned down by its contract: while two or more
      players live, a living seat `k` places after `i`, with only dead seats
      between, is the next seat. */
  lemma NextIndexUnique(alive: seq<bool>, i: nat, k: nat)
    requires i < |alive| && 1 <= k < |alive| && CountTrue(alive) >= 2
    requires DeadUpTo(alive, i, k) && alive[Seat(i, k, |alive|)]
    ensures NextIndex(alive, i) == Seat(i, k, |alive|)
  {
    var n := |alive|;
    var q, r := NextIndex(alive, i), Seat(i, k, n);
    OffsetOfStep(i, k, n);
    if Offset(i, q, n) < k {
      DeadUpToMeans(alive, i, k, q);
    }
    OffsetInjective(i, q, r, n);
  }

  /** Where the loop of `NextPlayer` stops is `NextIndex`. */
  lemma ScanEnd(alive: seq<bool>, i: nat, k: nat)
    requires i < |alive| && 1 <= k <= |alive| && DeadUpTo(alive, i, k)
    requires CountTrue(alive) <= 1 ==> k == 1
    requires CountTrue(alive) >= 2 ==> alive[Seat(i, k, |alive|)]
    ensures NextIndex(alive, i) == Seat(i, k, |alive|)
  {
    if CountTrue(alive) >= 2 {
      ScanHasRoom(alive, i, k);
      NextIndexUnique(alive, i, k);
    }
  }

  /** While the seats up to `k - 1` places after `i` are all dead and two or
      more players live, the seat `k` places on is not `i` itself. */
  lemma ScanHasRoom(alive: seq<bool>, i: nat, k: nat)
    requires i < |alive| && 1 <= k <= |alive| && CountTrue(alive) >= 2
    requires DeadUpTo(alive, i, k)
    ensures k < |alive|
  {
    var n := |alive|;
    if k == n {
      forall j | 0 <= j < n && j != i ensures !alive[j] {
        if Offset(i, j, n) == n { OffsetInjective(i, j, i, n); }
        DeadUpToMeans(alive, i, k, j);
      }
      CountAtMostOne(alive, i);
    }
  }

  /** `m` successive calls of `NextPlayer` from seat `i`, nobody losing a
      life in between. */
  function Turns(alive: seq<bool>, i: nat, m: nat): (r: nat)
    requires i < |alive|
    ensures r < |alive|
    decreases m
  {
    if m == 0 then i else Turns(alive, NextIndex(alive, i), m - 1)
  }

  /** Nobody alive is skipped: a living player at seat `j` gets the turn
      within as many calls as there are seats from `i` to `j`, so within
      one lap of the table. */
  lemma {:induction false} EveryAlivePlayerGetsATurn(alive: seq<bool>, i: nat, j: nat)
    requires i < |alive| && j < |alive| && alive[j]
    ensures exists m :: 1 <= m <= Offset(i, j, |alive|) && Turns(alive, i, m) == j
    decreases Offset(i, j, |alive|)
  {
    var n := |alive|;
    var next := NextIndex(alive, i);
    assert Turns(alive, i, 1) == next;
    if next != j {
      CountPositive(alive, j);
      assert Offset(i, next, n) < Offset(i, j, n) by {
        if CountTrue(alive) <= 1 {
          OffsetOfStep(i, 1, n);
          if Offset(i, j, n) == 1 { OffsetInjective(i, j, next, n); }
        } else if Offset(i, j, n) <= Offset(i, next, n) {
          OffsetInjective(i, j, next, n);
        }
      }
      OffsetSplit(i, next, j, n);
      EveryAlivePlayerGetsATurn(alive, next, j);
      var m :| 1 <= m <= Offset(next, j, n) && Turns(alive, next, m) == j;
      assert Turns(alive, i, m + 1) == j;
    }
  }

  /** With one survivor the turn does not skip the dead: from seat 0 of
      three seats where only seat 0 lives, the turn passes to seat 1. */
  lemma SoleSurvivorTurnLandsOnDeadSeat()
    ensures NextIndex([true, false, false], 0) == 1
    ensures ![true, false, false][NextIndex([true, false, false], 0)]
  {
    assert CountTrue([true, false, false]) == 1 by {
      assert [true, false, false][..2] == [true, false];
      assert [true, false][..1] == [true];
      assert [true][..0] == [];
    }
  }

  // ---------------------------------------------------------------------
  // Players that are still in the game
  // ---------------------------------------------------------------------

  /** The living players in seating order (the LINQ `Where(p => p.IsAlive)`). */
  function AlivePlayersOf(players: seq<Player>): (r: seq<Player>)
    reads players
    ensures |r| == CountTrue(AliveFlags(players))
    ensures forall k :: 0 <= k < |r| ==> r[k] in players && r[k].IsAlive()
  {
    if players == [] then []
    else
      var init, last := players[..|players| - 1], players[|players| - 1];
      assert AliveFlags(players)[..|players| - 1] == AliveFlags(init);
      AlivePlayersOf(init) + (if last.IsAlive() then [last] else [])
  }

  /** The filter keeps the seating order: filtering two runs of seats one
      after the other gives the two filtered runs one after the other. */
  lemma {:induction false} AlivePlayersAppend(a: seq<Player>, b: seq<Player>)
    ensures AlivePlayersOf(a + b) == AlivePlayersOf(a) + AlivePlayersOf(b)
    decreases |b|
  {
    if b == [] {
      assert a + b == a;
    } else {
      var init, last := b[..|b| - 1], b[|b| - 1];
      var c := a + b;
      var pa, pi := AlivePlayersOf(a), AlivePlayersOf(init);
      var tail := if last.IsAlive() then [last] else [];
      assert AlivePlayersOf(c) == (pa + pi) + tail by {
        assert c[..|c| - 1] == a + init && c[|c| - 1] == last;
        AlivePlayersAppend(a, init);
        AlivePlayersSnoc(c);
      }
      assert AlivePlayersOf(b) == pi + tail by {
        AlivePlayersSnoc(b);
      }
      assert (pa + pi) + tail == pa + (pi + tail);
    }
  }

  lemma AlivePlayersSnoc(s: seq<Player>)
    requires s != []
    ensures AlivePlayersOf(s) == AlivePlayersOf(s[..|s| - 1]) + (if s[|s| - 1].IsAlive() then [s[|s| - 1]] else [])
  {
  }

  /** No living player is filtered out. */
  lemma {:induction false} AlivePlayerIsListed(players: seq<Player>, i: nat)
    requires i < |players| && players[i].IsAlive()
    ensures players[i] in AlivePlayersOf(players)
  {
    if i < |players| - 1 {
      AlivePlayerIsListed(players[..|players| - 1], i);
    }
  }

  /** When one player is listed as alive, every living player is that one. */
  lemma SoleSurvivor(players: seq<Player>)
    requires |AlivePlayersOf(players)| == 1
    ensures forall i :: 0 <= i < |players| && players[i].IsAlive() ==> players[i] == AlivePlayersOf(players)[0]
  {
    forall i | 0 <= i < |players| && players[i].IsAlive() ensures players[i] == AlivePlayersOf(players)[0] {
      AlivePlayerIsListed(players, i);
    }
  }

  class GameSession {
    var players: seq<Player>
    var currentPlayerIndex: int
    var roundNumber: int
    var difficulty: string

    /** A new session starts with the first player, in round 1. */
    constructor (players: seq<Player>, difficulty: string)
      ensures this.players == players && this.difficulty == difficulty
      ensures currentPlayerIndex == 0 && roundNumber == 1
    {
      this.players := players;
      this.difficulty := difficulty;
      currentPlayerIndex := 0;
      roundNumber := 1;
    }

    /** The player whose turn it is; the list indexer throws for an index
        outside the list. */
    function CurrentPlayer(): (p: Player)
      reads this
      requires 0 <= currentPlayerIndex < |players|
      ensures p in players
    {
      players[currentPlayerIndex]
    }

    function GetAlivePlayers(): (r: seq<Player>)
      reads this, players
      ensures |r| == CountTrue(AliveFlags(players))
      ensures forall k :: 0 <= k < |r| ==> r[k] in players && r[k].IsAlive()
    {
      AlivePlayersOf(players)
    }

    /** The sole survivor when exactly one player is alive, otherwise none. */
    function GetWinner(): (w: Option<Player>)
      reads this, players
      ensures w.Some? <==> CountTrue(AliveFlags(players)) == 1
      ensures w.Some? ==> w.value in players && w.value.IsAlive()
      ensures w.Some? ==> forall i :: 0 <= i < |players| && players[i].IsAlive() ==> players[i] == w.value
    {
      var alive := GetAlivePlayers();
      if |alive| == 1 then
        SoleSurvivor(players);
        Some(alive[0])
      else None
    }

    /** Moves the turn on by one seat, and keeps moving while the seat is
        dead and more than one player is alive. Only the index changes; it
        ends at `NextIndex`, after at most one lap of the table. */
    method NextPlayer()
      requires 0 <= currentPlayerIndex < |players|
      modifies this`currentPlayerIndex
      ensures currentPlayerIndex == NextIndex(old(AliveFlags(players)), old(currentPlayerIndex))
      ensures 0 <= currentPlayerIndex < |players|
      ensures players == old(players) && roundNumber == old(roundNumber)
    {
      ghost var alive := AliveFlags(players);
      ghost var start: nat := currentPlayerIndex;
      ghost var k: nat := 1;
      var n := |players|;
      // the index is stepped in a local and stored once the scan stops
      var index := NextSeatIndex(currentPlayerIndex, n);
      while !players[index].IsAlive() && |GetAlivePlayers()| > 1
        invariant 1 <= k <= n
        invariant index == Seat(start, k, n)
        invariant CountTrue(alive) <= 1 ==> k == 1
        invariant DeadUpTo(alive, start, k)
        decreases n - k
      {
        ScanStep(alive, start, k);
        index := NextSeatIndex(index, n);
        k := k + 1;
      }
      ScanEnd(alive, start, k);
      currentPlayerIndex := index;
    }
  }
}
