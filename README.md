# WordTrainer game logic in Dafny

WordTrainer is a terminal word party game. Players take turns typing a
dictionary word that contains a given letter sequence before a round's time
runs out. A failed turn costs a life, and the game ends when one player is
left. Finished matches are saved to per-player profiles, and the profiles feed a
high-score table and an analysis of which letter sequences a player is good or
bad at.

This project models the game's core and proves properties of it:

- the player, round, session and difficulty models;
- the dictionary and answer check;
- letter generation and scoring;
- the bounded leaderboard;
- the profile store and its bookkeeping;
- the letter analytics.

Objects whose fields the game updates are classes whose methods change those
fields. These are the player, the session, the validator, the engine, the
leaderboard and the save manager. Records the game only builds are datatypes:
settings, rounds, profiles, matches and analytics rows. The loops of the game
are methods with loop invariants. Each is proved equal to a function, and the
properties are lemmas about that function: the turn scan, dictionary loading,
random letters, safe file names and the letter tally.

Where the game talks to the outside world, the model takes a parameter:

- the clock is the elapsed seconds (a `real`) or an integer time stamp;
- `System.Random` is a function from the draw number to a value;
- a missing file is `None`;
- the saved profiles are a map from file name to profile;
- the platform's invalid file-name characters are a parameter of the save
  manager. Both the Windows and the Unix sets are given as constants.

Modules:

| file | module | models |
|---|---|---|
| wrappers.dfy | Wrappers | `Option` |
| text.dfy | Text | the .NET `Trim`, `ToLower`, `ToUpper`, `IsNullOrWhiteSpace` and `Contains` the game relies on |
| sorting.dfy | Sorting | the stable sort behind LINQ `OrderBy`/`ThenBy`, and `Take` |
| game_settings.dfy | Settings | Models/GameSettings.cs |
| player.dfy | Players | Models/Player.cs |
| round.dfy | Rounds | Models/Round.cs |
| game_session.dfy | Sessions | Models/GameSession.cs |
| word_validator.dfy | Validation | Services/WordValidator.cs |
| game_engine.dfy | Engine | Services/GameEngine.cs |
| leaderboard.dfy | Leaderboard | Services/LeaderboardManager.cs |
| profiles.dfy | Profiles | the profile records and the `SaveMatch` counter updates of Services/PlayerSaveManager.cs |
| letter_analytics.dfy | Analytics | the tally and rankings of `ShowLetterAnalytics` |
| player_save_manager.dfy | PlayerSaves | the class `PlayerSaveManager` over an in-memory store |

Case mapping covers A to Z and the Latin-1 letters whose case partner is also
in Latin-1, so the Swedish letters Å, Ä and Ö fold like A to Z. Every other
character maps to itself. White space is the full set `char.IsWhiteSpace` accepts.

Where the game's described behaviour and its code differ, the model follows the code:

- The used-word check lower-cases the answer but does not trim it, while the
  dictionary check trims it. After "cat", the answer " cat" is accepted again
  (`Engine.PaddedRepeatIsAccepted`). In general, a space in front of any
  answer slips past the used-word check (`Engine.PaddedAnswerSkipsUsedCheck`).
- A blank line of the word file enters the dictionary as "" and counts toward
  `GetWordCount`, rather than being skipped. It can never make an answer valid
  (`Validation.BlankLineIsHarmless`).
- There are two letter strategies, not three: a slice of a letter-pool word,
  or random letters. The random letters strictly alternate, consonant first.
  There is no dictionary sampling.
- With one player or none alive, `NextPlayer` steps exactly one seat, even
  onto a dead player (`Sessions.SoleSurvivorTurnLandsOnDeadSeat`).

## Model

| member | source | states |
|---|---|---|
| Players.Player.constructor | Models/Player.cs:11-16 | a new player has the given name and lives (3 by default), score 0 and no used words |
| Players.Player.IsAlive | Models/Player.cs:8 | alive iff some life is left |
| Players.Player.LoseLife | Models/Player.cs:18-21 | lives drop by exactly one when positive and stay put at 0, so they never become negative; afterwards the player is alive iff more than one life was left |
| Players.Player.AddScore | Models/Player.cs:23-26 | the score grows by exactly the points, never falls for a non-negative award, and lives and used words do not change |
| Players.Player.HasUsedWord | Models/Player.cs:28-31 | true iff the lower-cased word, untrimmed, is at some index of the used-word list |
| Players.Player.AddUsedWord | Models/Player.cs:33-36 | the lower-cased word is appended; the old list is a prefix one shorter, every spelling that lower-cases alike is now used, and nothing stops being used |
| Settings.GameSettings.GetTimeLimit | Models/GameSettings.cs:13-22 | "Easy" and "Hard" get their own limit; every other name, "Normal" included, gets the normal limit |
| Settings.GameSettings.GetLetterCount | Models/GameSettings.cs:24-33 | the same selection for the letter count |
| Settings.UnknownDifficultyIsNormal | Models/GameSettings.cs:13-33 | for any settings, an unknown difficulty gives the same time limit and letter count as "Normal" |
| Settings.DefaultPresets | Models/GameSettings.cs:5-11 | the defaults give 20/15/10 seconds, strictly decreasing from Easy to Hard; 2 letters for Easy and 3 otherwise, never fewer than 2; 3 starting lives |
| Rounds.Truncate | Models/Round.cs:21 | the `(int)` cast rounds toward zero: within one below a non-negative value and within one above a negative one |
| Rounds.Round.RemainingTime | Models/Round.cs:18-22 | never negative; when positive it is the limit minus the truncated elapsed time; zero iff the truncated elapsed time reaches the limit; at most the limit for a non-negative clock and limit |
| Rounds.Round.IsTimeUp | Models/Round.cs:24-27 | time is up iff nothing remains (see `TimeUpIff`) |
| Rounds.Round.TimeUpIff | Models/Round.cs:24-27 | time is up iff the remaining time is 0, iff the truncated elapsed time reaches the limit, and for a non-negative clock iff the elapsed time itself does |
| Rounds.Round.RemainingNonIncreasing | Models/Round.cs:20-27 | as the clock advances the remaining time never rises, and once time is up it stays up |
| Sessions.GameSession.constructor | Models/GameSession.cs:5-16 | a new session holds the players and difficulty, with index 0 and round 1 |
| Sessions.GameSession.CurrentPlayer | Models/GameSession.cs:10 | the player at the turn's seat, one of the session's players |
| Sessions.NextSeatIndex | Models/GameSession.cs:22 | the game's `(i + 1) % n` step is the next seat, or seat 0 after the last |
| Sessions.SeatIsRemainder | Models/GameSession.cs:22 | walking k <= n seats from seat i lands on `(i + k) % n` |
| Sessions.NextIndex | Models/GameSession.cs:18-24 | with at most one player alive the turn moves to `(i + 1) % n`; with two or more it moves to a living player other than the current one, and every seat passed over is dead |
| Sessions.GameSession.NextPlayer | Models/GameSession.cs:18-24 | the do-while scan ends, within one lap, at `NextIndex` of who was alive; the index stays in range, and the players and round number do not change |
| Sessions.EveryAlivePlayerGetsATurn | Models/GameSession.cs:18-24 | repeated `NextPlayer` calls give every living player the turn within as many calls as there are seats to that player |
| Sessions.SoleSurvivorTurnLandsOnDeadSeat | Models/GameSession.cs:22-23 | with seats [alive, dead, dead] and the turn at seat 0, the turn moves to dead seat 1 |
| Sessions.AlivePlayersOf | Models/GameSession.cs:26-29 | the filter keeps as many players as are alive, and each is a living player of the session |
| Sessions.AlivePlayersAppend | Models/GameSession.cs:28 | the filter keeps seating order: filtering two runs of seats gives the two filtered runs in turn |
| Sessions.AlivePlayerIsListed | Models/GameSession.cs:28 | no living player is filtered out |
| Sessions.GameSession.GetAlivePlayers | Models/GameSession.cs:26-29 | the living players: as many as are alive, each alive and in the session |
| Sessions.SoleSurvivor | Models/GameSession.cs:31-35 | when one player is listed alive, every living player is that one |
| Sessions.GameSession.GetWinner | Models/GameSession.cs:31-35 | a winner exists iff exactly one player is alive, and it is that player |
| Text.IsWhiteSpace | Services/WordValidator.cs:21 | the characters `char.IsWhiteSpace` accepts, which `Trim` removes |
| Text.IsBlank | Services/WordValidator.cs:28 | `string.IsNullOrWhiteSpace` on a non-null string: every character is white space |
| Text.Trim | Services/WordValidator.cs:21 | a slice of the input with only white space before and after it; empty iff the input is blank; a non-empty result has no white space at either end |
| Text.TrimDropsLeadingWhiteSpace | Services/WordValidator.cs:30 | a white-space character in front of any string is removed by trimming |
| Text.TrimIdempotent | Services/WordValidator.cs:30 | trimming twice is trimming once |
| Text.ToLowerChar | Models/Player.cs:30 | an upper-case letter goes to its lower-case partner, 32 code points up; every other character is kept |
| Text.ToUpperChar | Services/GameEngine.cs:77 | a lower-case letter goes to its upper-case partner, 32 code points down; every other character is kept |
| Text.ToUpper | Services/GameEngine.cs:77 | same length, each character upper-cased as by `ToUpperChar` |
| Text.ToLower | Models/Player.cs:30 | same length, each character case-mapped |
| Text.ToLowerFacts | Services/WordValidator.cs:31 | lower-casing is idempotent, forgets an earlier upper-casing and commutes with slicing |
| Text.TrimToLower | Services/PlayerSaveManager.cs:83 | trimming and lower-casing commute |
| Text.Contains | Services/WordValidator.cs:37 | true iff the letters occur at some position of the word |
| Validation.Normalize | Services/WordValidator.cs:21 | trimmed then lower-cased; empty iff the input is blank |
| Validation.NormalizeIgnoresCase | Services/WordValidator.cs:30 | strings that lower-case alike normalise alike |
| Validation.NormalizeIdempotent | Services/WordValidator.cs:30 | normalising twice changes nothing more |
| Validation.Normalized | Services/WordValidator.cs:15-24 | every line, normalised, is in the dictionary, which has at most as many words as lines |
| Validation.NormalizedOnlyLines | Services/WordValidator.cs:19-22 | every word of the dictionary is a line of the file, normalised |
| Validation.WordValidator.constructor | Services/WordValidator.cs:10-13 | the dictionary is the normalised words of the file, empty when there is no file |
| Validation.WordValidator.LoadDictionary | Services/WordValidator.cs:15-24 | the loop adds exactly the normalised lines of the file to the dictionary, and nothing without a file |
| Validation.Accepts | Services/WordValidator.cs:26-38 | a blank answer is refused; otherwise accepted iff the normalised answer is in the dictionary and contains the lower-cased letters |
| Validation.AcceptsWhenFound | Services/WordValidator.cs:34-37 | a non-blank dictionary word containing the letters at some position is accepted |
| Validation.AcceptsIgnoresCase | Services/WordValidator.cs:30-31 | the verdict is the same for any spelling of the answer and of the letters that lower-cases alike |
| Validation.AcceptsUpperCase | Services/WordValidator.cs:30-31 | upper-casing the answer or the letters does not change the verdict |
| Validation.MissingFileAcceptsNothing | Services/WordValidator.cs:17 | with no word file the dictionary has no word and accepts no answer |
| Validation.BlankLineIsHarmless | Services/WordValidator.cs:21-28 | a blank line puts "" into the dictionary, but removing "" changes no verdict |
| Validation.AcceptedAnswersAreFileLines | Services/WordValidator.cs:15-38 | an answer is accepted iff it is not blank, contains the letters, and normalises like some line of the file |
| Validation.WordsOf | Services/WordValidator.cs:15-24 | no word without a file; with one, every line normalised is a word |
| Validation.WordValidator.IsValidWord | Services/WordValidator.cs:26-38 | a blank answer is refused; an accepted answer is, normalised, a word of the dictionary containing the lower-cased letters |
| Validation.WordValidator.GetWordCount | Services/WordValidator.cs:40-43 | the number of distinct words of the dictionary |
| Validation.WordValidator.WordCountAtMostLines | Services/WordValidator.cs:40-43 | after loading, the word count is at most the number of lines |
| Engine.VowelsAre | Services/GameEngine.cs:85 | a character is in "AEIOUY" iff it is a vowel |
| Engine.RandomLetters | Services/GameEngine.cs:83-98 | `count` letters, the one at each position drawn from that position's pool (see `RandomLetterAt`) |
| Engine.RandomLettersAlternate | Services/GameEngine.cs:90-95 | random letters start with a consonant and alternate between consonant and vowel |
| Engine.RandomLettersFromPools | Services/GameEngine.cs:85-95 | each random letter comes from one of the two pools and is an upper-case ASCII letter, so upper-casing keeps them |
| Engine.Letters | Services/GameEngine.cs:59-81 | the letters have the difficulty's count, and the draws only move forward |
| Engine.PoolLetters | Services/GameEngine.cs:70-78 | from a pool word long enough, the letters are its upper-cased slice of `count` letters at the drawn start, within the word, using two draws |
| Engine.PoolWordAnswersItsLetters | Services/GameEngine.cs:70-78 | letters sliced from an unpadded pool word that is in the dictionary can be answered with that word |
| Engine.FallbackLettersAlternate | Services/GameEngine.cs:61-80 | with no pool, an empty pool or a word that is too short, the letters alternate consonant and vowel |
| Engine.GameEngine.constructor | Services/GameEngine.cs:13-17 | the engine's validator is loaded from the word file, and no draw has been taken |
| Engine.GameEngine.NextRandom | Services/GameEngine.cs:70 | a draw is below its bound, is the next value of the random source, and advances the draw count by one |
| Engine.GameEngine.LetterCount | Services/GameEngine.cs:71 | the letter count of the difficulty under the default settings, at least 2 |
| Engine.GameEngine.GenerateRandomLetters | Services/GameEngine.cs:83-98 | the loop builds exactly `RandomLetters` of the difficulty's count, one draw per letter |
| Engine.GameEngine.GenerateLetters | Services/GameEngine.cs:59-81 | the letters and the draws used are those `Letters` gives, for every shape of the pool |
| Engine.GameEngine.StartNewRound | Services/GameEngine.cs:19-25 | the round has the generated letters, the time limit of the difficulty and the session's current player; the draws advance exactly as `Letters` says |
| Engine.GameEngine.ValidateAnswer | Services/GameEngine.cs:27-48 | time up iff the round timed out; already used iff in time and the lower-cased word was used; invalid iff in time, unused and not accepted; correct iff all three checks pass |
| Engine.GameEngine.CalculateScore | Services/GameEngine.cs:50-57 | the score is at least 10 plus the length, at most 10 plus the limit plus the length, equal to the floor iff time is up, and otherwise 10 plus the limit plus the length minus the truncated elapsed time |
| Engine.CorrectAnswerEarnsTimeBonus | Services/GameEngine.cs:27-57 | a correct answer scored when it was checked earns at least one time point |
| Engine.ScoreNonIncreasing | Services/GameEngine.cs:50-57 | answering later never scores more |
| Engine.UsedWordIsNeverCorrect | Services/GameEngine.cs:36-39 | after a word is used, no spelling that lower-cases alike is accepted from that player |
| Engine.PaddedAnswerSkipsUsedCheck | Services/GameEngine.cs:27-48 | for every answer, in time and with no used word starting with a space, the answer with a space in front is never counted as used and is judged by the dictionary exactly as the bare answer is |
| Engine.PaddedRepeatIsAccepted | Services/GameEngine.cs:36-45 | after "cat", "cat" is already used but " cat" is correct, because the used-word check does not trim |
| Engine.ScoreExample | Services/GameEngine.cs:50-57 | "cat" with 5 of 15 seconds gone scores 23 |
| Engine.TimeUpExample | Services/GameEngine.cs:30-33 | 11 seconds into a 10-second round every answer is too late |
| Engine.NotInDictionaryIsInvalid | Services/GameEngine.cs:41-45 | "bat", not in {"cat", "dog"}, is invalid for the letters "at" |
| Sorting.SortBy | Services/LeaderboardManager.cs:34 | the sort is a permutation of its input |
| Sorting.SortBySorted | Services/LeaderboardManager.cs:34 | for a strict weak order, the sort's result is sorted |
| Sorting.SortByStable | Services/LeaderboardManager.cs:34 | for every key, the elements with that key come out in input order |
| Sorting.Take | Services/LeaderboardManager.cs:40 | a prefix of `min(n, length)` elements, none for `n <= 0` |
| Sorting.TopSorted | Services/PlayerSaveManager.cs:317-328 | the first n of the sort are sorted and are elements of the input |
| Leaderboard.HigherScore | Services/LeaderboardManager.cs:34 | `OrderByDescending(e => e.Score)`: an entry goes first when its score is higher |
| Leaderboard.HigherScoreOrders | Services/LeaderboardManager.cs:34 | ordering by descending score is a strict weak order |
| Leaderboard.Ranked | Services/LeaderboardManager.cs:26-34 | the new table holds one more entry, up to ten |
| Leaderboard.RankedIsBoundedAndSorted | Services/LeaderboardManager.cs:34 | at most ten entries, all from the old table plus the new entry, with scores never rising |
| Leaderboard.RankedKeepsAllWhenRoom | Services/LeaderboardManager.cs:26-34 | while there is room nothing is dropped and the new entry is in |
| Leaderboard.RankedIsStable | Services/LeaderboardManager.cs:26-34 | entries with an equal score are some first old ones, in their old order, then possibly the new entry |
| Leaderboard.TieWithLastIsCut | Services/LeaderboardManager.cs:34 | a full sorted table does not take an entry that only ties with its last one |
| Leaderboard.LeaderboardManager.constructor | Services/LeaderboardManager.cs:19-22 | the table starts from the saved entries |
| Leaderboard.LeaderboardManager.AddEntry | Services/LeaderboardManager.cs:24-36 | the table becomes `Ranked` of the old table and an entry with the player's name and score, the difficulty and the date: at most ten, sorted by score |
| Leaderboard.LeaderboardManager.GetTopScores | Services/LeaderboardManager.cs:38-41 | a prefix of the table, of `min(count, length)` entries and none for a non-positive count |
| Profiles.PlayerProfile.TotalWordsUsed | Services/PlayerSaveManager.cs:48 | a profile with no history has used no words |
| Profiles.PlayerProfile.WinRate | Services/PlayerSaveManager.cs:49 | 0 before the first match, otherwise the rate whose product with the matches is 100 times the wins |
| Profiles.PlayerProfile.AverageScore | Services/PlayerSaveManager.cs:50 | 0 before the first match, otherwise the rate whose product with the matches is the total score |
| Profiles.NewProfile | Services/PlayerSaveManager.cs:124-129 | named, dated now, with zero counters and no history |
| Profiles.RecordMatch | Services/PlayerSaveManager.cs:153-167 | the match is appended; matches +1, score + the match score, wins +1 iff won, best the larger; the name and creation date are kept and last played is now |
| Profiles.RecordMatchKeepsConsistent | Services/PlayerSaveManager.cs:153-167 | a new profile's counters agree with its history, and recording a match keeps them agreeing |
| Profiles.WordsIn | Services/PlayerSaveManager.cs:48 | `MatchHistory.Sum(m => m.WordsUsed.Count)` (see `RecordMatchAddsWords`) |
| Profiles.RecordMatchAddsWords | Services/PlayerSaveManager.cs:48 | recording a match adds its words to the word total |
| Profiles.WinsAtMostMatches | Services/PlayerSaveManager.cs:159-162 | the wins of a history are at most its matches |
| Profiles.ScoreAtMostBest | Services/PlayerSaveManager.cs:157-167 | the total score is at most the matches times the best score |
| Profiles.ConsistentRates | Services/PlayerSaveManager.cs:49-50 | for consistent counters the win rate is between 0 and 100, and the average is at most the best score |
| Profiles.TwoMatchesRecorded | Services/PlayerSaveManager.cs:153-167 | two matches saved into a new profile give two matches, both in the history, the better score as best and the sum as total |
| PlayerSaves.PlatformsHaveNoLetters | Services/PlayerSaveManager.cs:79 | neither platform's invalid characters include a letter |
| PlayerSaves.ReplaceChar | Services/PlayerSaveManager.cs:81 | `Replace(c, '_')`: every occurrence of `c` becomes '_', the rest is kept (see `Sanitized`) |
| PlayerSaves.Sanitized | Services/PlayerSaveManager.cs:79-82 | same length; every invalid character becomes '_', every valid one stays, and no invalid character is left except '_' |
| PlayerSaves.IsJsonFile | Services/PlayerSaveManager.cs:237 | the `"*.json"` filter: the name ends with ".json" |
| PlayerSaves.Stem | Services/PlayerSaveManager.cs:238 | the stem with the extension is the file name |
| PlayerSaves.SafeFileName | Services/PlayerSaveManager.cs:76-84 | the sanitised name, lower-cased, trimmed, with ".json" (see `SafeFileNameIsJson`) |
| PlayerSaves.SafeFileNameIsJson | Services/PlayerSaveManager.cs:83 | a safe file name is a ".json" file whose stem is the sanitised name lower-cased and trimmed, with no white space at either end |
| PlayerSaves.SafeFileNameShape | Services/PlayerSaveManager.cs:76-84 | when no letter is invalid, the stem holds no invalid character except '_' |
| PlayerSaves.SafeFileNameIgnoresCase | Services/PlayerSaveManager.cs:76-84 | names that lower-case alike get the same file |
| PlayerSaves.DistinctNamesCanShareAFile | Services/PlayerSaveManager.cs:76-84 | on Unix "a/b" and "a_b" both get "a_b.json" |
| PlayerSaves.Load | Services/PlayerSaveManager.cs:97-130 | when the player's file exists its profile is returned as stored; otherwise exactly `NewProfile` of the name and now |
| PlayerSaves.LoadAfterSave | Services/PlayerSaveManager.cs:182-187 | after a save, every name sharing the file loads the saved profile and every other name loads as before |
| PlayerSaves.SaveKeepsValid | Services/PlayerSaveManager.cs:182-187 | saving keeps every file holding the profile of a player whose file it is |
| PlayerSaves.LoadedSavesToSameFile | Services/PlayerSaveManager.cs:135-137 | in a valid store a loaded profile is saved back to the file it came from |
| PlayerSaves.LoadAfterDelete | Services/PlayerSaveManager.cs:245-257 | once the file is deleted the player loads as a new profile |
| PlayerSaves.DeleteUnlists | Services/PlayerSaveManager.cs:232-257 | deleting a profile file removes exactly its stem from the listed players |
| PlayerSaves.Listed | Services/PlayerSaveManager.cs:237-239 | the stems of the ".json" files (see `SaveLists` and `DeleteUnlists`) |
| PlayerSaves.SaveLists | Services/PlayerSaveManager.cs:232-240 | saving a profile file lists its stem and no other new name |
| PlayerSaves.MatchOf | Services/PlayerSaveManager.cs:140-151 | the match is won iff the player is in the session, alive and the only one alive; the score, lives and words are the player's; rounds played are the round number minus one; the difficulty is the session's; the date is the match start, the play time is now minus the start, and the rounds are the given ones |
| PlayerSaves.PlayerSaveManager.constructor | Services/PlayerSaveManager.cs:60-71 | the manager holds the platform's invalid characters and the saved files |
| PlayerSaves.PlayerSaveManager.LoadOrCreateProfile | Services/PlayerSaveManager.cs:97-130 | the stored profile of the player's file when it exists, otherwise exactly `NewProfile` of the name and now |
| PlayerSaves.PlayerSaveManager.GetAllPlayers | Services/PlayerSaveManager.cs:232-240 | the stems of the saved ".json" files |
| PlayerSaves.PlayerSaveManager.GetSafeFileName | Services/PlayerSaveManager.cs:76-84 | the replace loop, lower-casing, trimming and extension give exactly `SafeFileName` |
| PlayerSaves.PlayerSaveManager.SaveProfile | Services/PlayerSaveManager.cs:182-187 | the store maps the profile's file to the profile and is otherwise unchanged; a valid store stays valid |
| PlayerSaves.PlayerSaveManager.SaveMatch | Services/PlayerSaveManager.cs:135-177 | the loaded profile with the match recorded is written to its file and nothing else changes; in a valid store that is the player's own file, its history gains exactly the match, and the store stays valid |
| PlayerSaves.PlayerSaveManager.DeletePlayer | Services/PlayerSaveManager.cs:245-257 | returns true iff the file existed; afterwards the file is gone, the player is not listed, and a valid store stays valid |
| PlayerSaves.PlayerSaveManager.ShowLetterAnalytics | Services/PlayerSaveManager.cs:262-328 | the report is `Analyze` of the player's history |
| Analytics.Counted | Services/PlayerSaveManager.cs:284-292 | one round's update of the tuple: a success adds a success and its time, a failure a failure (see `CountRound` and `TallyCounts`) |
| Analytics.TallyStep | Services/PlayerSaveManager.cs:277-293 | counting one more round keeps the keys as first appearances and the map as the per-letter tally |
| Analytics.CountRound | Services/PlayerSaveManager.cs:279-292 | a new sequence is added at the end of the keys at (0, 0, 0), then a success adds one success and its time and a failure one failure |
| Analytics.CountMatch | Services/PlayerSaveManager.cs:277-293 | the inner loop extends the tally by the rounds of one match |
| Analytics.CollectLetterStats | Services/PlayerSaveManager.cs:273-294 | the nested loops give the keys in order of first appearance and, for each, the tally of all rounds of the history |
| Analytics.TallyCounts | Services/PlayerSaveManager.cs:279-292 | a sequence's successes and failures count exactly its successful and failed rounds, and together all its rounds |
| Analytics.TallyAppend | Services/PlayerSaveManager.cs:275-293 | the tally of consecutive stretches of rounds is the sum of their tallies |
| Analytics.OneRoundTime | Services/PlayerSaveManager.cs:285-291 | a round adds its time only when it is a success of that sequence |
| Analytics.FirstSeenKeys | Services/PlayerSaveManager.cs:279-282 | the keys are exactly the sequences of the rounds, without repeats |
| Analytics.KeysWereTried | Services/PlayerSaveManager.cs:304 | every key was tried at least once, so the success rate never divides by zero |
| Analytics.PerformanceOf | Services/PlayerSaveManager.cs:298-306 | the row has the sequence and its successes and failures; total is successes plus failures; the rate is the percentage of successes, between 0 and 100; the average time is the time over the successes, 0 without any |
| Analytics.Performances | Services/PlayerSaveManager.cs:297-308 | every row is of a key tried at least twice, computed from its tally, and there are no more rows than keys |
| Analytics.PerformancesInKeyOrder | Services/PlayerSaveManager.cs:297-308 | the rows' sequences are exactly the keys tried at least twice, one row each, in key order |
| Analytics.TriedTwiceDistinct | Services/PlayerSaveManager.cs:307 | the keys kept are keys, and do not repeat when the keys do not |
| Analytics.RowsInKeyOrder | Services/PlayerSaveManager.cs:273-308 | a history's rows follow the order in which the sequences first appear, tried at least twice, and no sequence has two rows |
| Analytics.PerformancesComplete | Services/PlayerSaveManager.cs:307 | no sequence tried at least twice is left out |
| Analytics.BestBefore | Services/PlayerSaveManager.cs:317-319 | a row ranks better when its rate is higher, or equal with more time left |
| Analytics.WorstBefore | Services/PlayerSaveManager.cs:324-326 | a row ranks worse when its rate is lower, or equal with less time left |
| Analytics.RankingsOrder | Services/PlayerSaveManager.cs:317-328 | both orderings (rate then time, descending and ascending) are strict weak orders |
| Analytics.RankingExample | Services/PlayerSaveManager.cs:317-328 | 3 of 4 rates 75% and 0 of 3 rates 0%, so the first ranks best and the second worst |
| Analytics.AnyRounds | Services/PlayerSaveManager.cs:266 | `MatchHistory.Any(m => m.RoundPerformances.Count > 0)` (see `AnyRoundsIff`) |
| Analytics.AnyRoundsIff | Services/PlayerSaveManager.cs:266 | some match has rounds iff the history has a round at all |
| Analytics.Rankings | Services/PlayerSaveManager.cs:310-328 | never "no round data"; "too few attempts" iff there is no row |
| Analytics.RowsOf | Services/PlayerSaveManager.cs:273-308 | the rows of the history's tally (see `RowsCountRounds`, `RowsComplete` and `RowsInKeyOrder`) |
| Analytics.Analyze | Services/PlayerSaveManager.cs:262-328 | "no round data" iff the history has no round; "too few attempts" iff it has rounds but no sequence tried twice; otherwise the rankings of the rows |
| Analytics.RankingsShape | Services/PlayerSaveManager.cs:310-328 | a report exists iff some row does; each ranking has `min(5, rows)` rows, all rows of the input, best in falling and worst in rising order of rate then time |
| Analytics.RowsCountRounds | Services/PlayerSaveManager.cs:297-308 | each row is a sequence of the history, tried at least twice, whose total is its number of rounds |
| Analytics.RowsComplete | Services/PlayerSaveManager.cs:297-308 | every sequence of the history with at least two rounds has a row |

## Left out

- File and directory I/O and JSON are not modelled. The word file and the letter-pool file are given as their lines, or `None` when missing. The leaderboard starts from the saved entries, and `SaveLeaderboard` is not modelled. The save directory is a map from file name to profile, and writing a profile is an update of that map.
- A profile file that cannot be parsed is a name the store lacks. So `GetAllPlayers` does not list it, while the real directory listing would. And `DeletePlayer` returns false for it, while the game deletes the file and returns true. The branch where the save directory does not exist is not modelled, because the constructor creates it.
- `GetAllPlayers` is a set of names and loses the directory's order.
- All `Console.WriteLine` output is left out: the welcome and save messages, the validation message texts, and the formatting of `ShowPlayerStats` and `ShowLetterAnalytics` (bars, padding, recommendations). `ShowPlayerStats` only prints, so it is not modelled. Its ordering of recent matches by date is left out too.
- The overall average success rate (Services/PlayerSaveManager.cs:377) and the bar width (:341) are display-only.
- Rates are exact rationals rather than doubles, so rankings compare exactly, with no rounding.
- `DateTime.Now` (the clock) becomes parameters. A round's clock is the seconds elapsed since it started, given to each query. `SaveMatch` and `LoadOrCreateProfile` take one time stamp `now` for their separate clock reads. `ValidateAnswer` and `CalculateScore` read the clock separately in the game and take separate elapsed values here.
- `System.Random` is an arbitrary function from draw number to value; its distribution is not modelled.
- Case mapping covers A to Z and the Latin-1 letters whose case partner is in Latin-1. The culture-specific mappings of `ToLower` and `ToUpper` are left out.
- Text.ToUpperChar: maps µ and ÿ to themselves, where .NET maps them to U+039C and U+0178, outside Latin-1.
- Text.ToLowerFacts: "lower-casing forgets an earlier upper-casing" holds for the modelled case map only. In .NET, µ, ı, ſ and ς upper-case to letters (U+039C, I, S, U+03A3) that lower-case to a different letter, so `ToLower(ToUpper(s)) != ToLower(s)` for them.
- Validation.AcceptsUpperCase: holds for the modelled case map only; in the game an answer holding µ, ı, ſ or ς can change verdict once upper-cased.
- Engine.PoolWordAnswersItsLetters: holds for the modelled case map only; in the game a pool word holding µ, ı, ſ or ς is sliced into letters, upper-cased, that its own word does not contain once both are lower-cased.
- Strings are sequences of Unicode scalar values, not of UTF-16 code units. `Length` and `Substring` in the game count code units, so a character outside the Basic Multilingual Plane counts twice there and once here. This affects `CalculateScore` (one point per character) and the pool slice of `Letters`.
- Players.Player.AddScore: the score is an unbounded integer; the game's 32-bit `int` wraps around past 2147483647.
- Engine.GameEngine.CalculateScore: the score is an unbounded integer, with no 32-bit wrap-around.
- Profiles.RecordMatch: `TotalScore`, `TotalMatches` and `TotalWins` are unbounded integers, with no 32-bit wrap-around.
- Dafny strings are never null. In the game `IsValidWord(null, …)` returns false, while `HasUsedWord(null)` (called first by `ValidateAnswer`) and `GetSafeFileName(null)` throw. None of these cases is modelled.
- `Path.GetInvalidFileNameChars()` is a parameter of the manager. The Windows and Unix sets are given as constants.
- Sessions.GameSession.NextPlayer: requires a non-empty player list with the index in range. The game divides by zero on an empty list. An index of at least -1 that is out of range is stepped back into range by `(i + 1) % Count`. A lower one throws unless i + 1 is a multiple of `Count`, when it lands on seat 0. No caller stores an out-of-range index, so neither case is modelled.
- Sessions.GameSession.NextPlayer: steps the index in a local and stores it when the scan stops. The game updates its field on every step; the final value is the same.
- `GameSession.CurrentPlayer` requires an index in range, where the game's list indexer throws.
- `Round.StartTime` is not stored, because the clock is an argument of each query.
- Program.cs and the UI classes are not part of this model.
