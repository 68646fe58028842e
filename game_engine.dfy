/**
  Rounds, answers and scores (Services/GameEngine.cs).

  `System.Random` is the function `random`: its `k`-th draw `Next(bound)`
  returns `random(k) % bound`. The letter-pool file is given as its lines,
  or `None` when it does not exist; the clock is the seconds elapsed since
  the round started.
*/
module Engine {
  import opened Wrappers
  import opened Text
  import opened Settings
  import opened Players
  import opened Rounds
  import opened Sessions
  import opened Validation

  const Vowels: string := "AEIOUY"
  const Consonants: string := "BCDFGHJKLMNPQRSTVWXZ"

  /** The letters of `Vowels`. */
  predicate IsVowel(c: char) {
    c == 'A' || c == 'E' || c == 'I' || c == 'O' || c == 'U' || c == 'Y'
  }

  /** The letters of `Consonants`: the other upper-case ASCII letters. */
  predicate IsConsonant(c: char) {
    'A' <= c <= 'Z' && !IsVowel(c)
  }

  /** `IsVowel` is membership in `Vowels`. */
  lemma VowelsAre(c: char)
    ensures c in Vowels <==> IsVowel(c)
  {
    if IsVowel(c) {
      if c == 'A' { assert Vowels[0] == c; }
      else if c == 'E' { assert Vowels[1] == c; }
      else if c == 'I' { assert Vowels[2] == c; }
      else if c == 'O' { assert Vowels[3] == c; }
      else if c == 'U' { assert Vowels[4] == c; }
      else { assert Vowels[5] == c; }
    }
  }

  /** Every letter of `Consonants` is a consonant. */
  lemma ConsonantAt(k: nat)
    requires k < |Consonants|
    ensures IsConsonant(Consonants[k])
  {
  }

  /** The pool the letter at position `i` of a random sequence comes from:
      consonants at even positions, vowels at odd ones. */
  function PoolAt(i: nat): (pool: string)
    ensures |pool| > 0
  {
    if i % 2 == 0 then Consonants else Vowels
  }

  /** The `count` letters `GenerateRandomLetters` builds from the draws
      starting at draw `d`. */
  function RandomLetters(random: nat -> nat, d: nat, count: nat): (r: string)
    ensures |r| == count
  {
    seq(count, i requires 0 <= i < count => PoolAt(i)[random(d + i) % |PoolAt(i)|])
  }

  /** The letter at position `i` is a consonant when `i` is even and a vowel
      when it is odd. */
  lemma RandomLetterAt(random: nat -> nat, d: nat, count: nat, i: nat)
    requires i < count
    ensures var c := RandomLetters(random, d, count)[i];
      && (IsVowel(c) <==> i % 2 == 1)
      && (i % 2 == 0 ==> IsConsonant(c))
  {
    var k := random(d + i) % |PoolAt(i)|;
    assert RandomLetters(random, d, count)[i] == PoolAt(i)[k];
    if i % 2 == 0 {
      ConsonantAt(k);
    } else {
      assert IsVowel(Vowels[k]);
    }
  }

  /** Random letters alternate consonant, vowel, consonant, ..., starting
      with a consonant. */
  lemma RandomLettersAlternate(random: nat -> nat, d: nat, count: nat)
    ensures var r := RandomLetters(random, d, count);
      && (count > 0 ==> IsConsonant(r[0]))
      && (forall i :: 0 <= i < count - 1 ==> (IsVowel(r[i]) <==> !IsVowel(r[i + 1])))
  {
    var r := RandomLetters(random, d, count);
    if count > 0 {
      RandomLetterAt(random, d, count, 0);
    }
    forall i | 0 <= i < count - 1 ensures IsVowel(r[i]) <==> !IsVowel(r[i + 1]) {
      RandomLetterAt(random, d, count, i);
      RandomLetterAt(random, d, count, i + 1);
      assert (i % 2 == 1) <==> ((i + 1) % 2 == 0);
    }
  }

  /** Random letters are taken from the two pools, and are upper-case ASCII
      letters, so upper-casing keeps them. */
  lemma RandomLettersFromPools(random: nat -> nat, d: nat, count: nat)
    ensures var r := RandomLetters(random, d, count);
      && (forall i :: 0 <= i < count ==> r[i] in Consonants || r[i] in Vowels)
      && (forall i :: 0 <= i < count ==> 'A' <= r[i] <= 'Z')
      && ToUpper(r) == r
  {
    var r := RandomLetters(random, d, count);
    forall i | 0 <= i < count ensures (r[i] in Consonants || r[i] in Vowels) && 'A' <= r[i] <= 'Z' && ToUpper(r)[i] == r[i] {
      RandomLetterAt(random, d, count, i);
      assert r[i] in PoolAt(i);
    }
  }

  /** What `GenerateLetters` returns for `count` letters, with draws starting at
      `d`, together with the number of the next draw. With no pool, or an empty
      one, the letters are random. Otherwise one draw picks a pool word; when
      it is long enough a second draw picks where its upper-cased slice of
      `count` letters starts, and when it is too short the letters are random. */
  function Letters(random: nat -> nat, d: nat, count: nat, pool: Option<seq<string>>): (r: (string, nat))
    ensures |r.0| == count
    ensures d <= r.1
  {
    if pool.None? || |pool.value| == 0 then (RandomLetters(random, d, count), d + count)
    else
      var word := pool.value[random(d) % |pool.value|];
      if |word| >= count then
        var start := random(d + 1) % (|word| - count + 1);
        (ToUpper(word[start..start + count]), d + 2)
      else (RandomLetters(random, d + 1, count), d + 1 + count)
  }

  /** The pool word `Letters` draws first. */
  function ChosenWord(random: nat -> nat, d: nat, pool: seq<string>): string
    requires |pool| > 0
  {
    pool[random(d) % |pool|]
  }

  /** Where the slice of a long enough pool word starts. */
  function SliceStart(random: nat -> nat, d: nat, count: nat, word: string): (start: nat)
    requires |word| >= count
    ensures start + count <= |word|
  {
    random(d + 1) % (|word| - count + 1)
  }

  /** From a long enough pool word, `Letters` takes the upper-cased slice at
      `SliceStart` and uses two draws. */
  lemma PoolLetters(random: nat -> nat, d: nat, count: nat, pool: seq<string>, w: string, start: nat)
    requires |pool| > 0 && w == ChosenWord(random, d, pool) && |w| >= count
    requires start == SliceStart(random, d, count, w)
    ensures Letters(random, d, count, Some(pool)).0 == ToUpper(w[start..start + count])
    ensures Letters(random, d, count, Some(pool)).1 == d + 2
  {
  }

  /** An upper-cased slice of a word occurs, case-insensitively, where it
      was taken. */
  lemma SliceOccurs(w: string, start: nat, count: nat)
    requires start + count <= |w|
    ensures OccursAt(ToLower(w), ToLower(ToUpper(w[start..start + count])), start)
  {
    var sub := w[start..start + count];
    ToLowerFacts(sub);
    assert ToLower(sub) == ToLower(w)[start..start + count];
  }

  /** Letters taken from a pool word always have an answer: if the word,
      unpadded, is in the dictionary, answering it is accepted. */
  lemma PoolWordAnswersItsLetters(dictionary: set<string>, random: nat -> nat, d: nat, count: nat, pool: seq<string>)
    requires |pool| > 0
    requires var w := ChosenWord(random, d, pool); |w| >= count && Trim(w) == w && Normalize(w) in dictionary && w != []
    ensures Accepts(dictionary, ChosenWord(random, d, pool), Letters(random, d, count, Some(pool)).0)
  {
    var w := ChosenWord(random, d, pool);
    var start := SliceStart(random, d, count, w);
    var letters := Letters(random, d, count, Some(pool)).0;
    PoolLetters(random, d, count, pool, w, start);
    assert letters == ToUpper(w[start..start + count]);
    SliceOccurs(w, start, count);
    NormalizeUnpadded(w);
    assert OccursAt(Normalize(w), ToLower(letters), start);
    AcceptsWhenFound(dictionary, w, letters, start);
  }

  /** Letters not taken from a pool word are random and alternate. */
  lemma FallbackLettersAlternate(random: nat -> nat, d: nat, count: nat, pool: Option<seq<string>>)
    requires pool.None? || |pool.value| == 0 || |ChosenWord(random, d, pool.value)| < count
    ensures var r := Letters(random, d, count, pool).0;
      forall i :: 0 <= i < count - 1 ==> (IsVowel(r[i]) <==> !IsVowel(r[i + 1]))
  {
    if pool.None? || |pool.value| == 0 {
      RandomLettersAlternate(random, d, count);
    } else {
      RandomLettersAlternate(random, d + 1, count);
    }
  }

  /** The outcomes of `ValidateAnswer`; only `Correct` is a success. The
      message text shown with each is not modelled. */
  datatype Verdict = TimeUp | AlreadyUsed | InvalidWord | Correct

  class GameEngine {
    const validator: WordValidator
    /** The engine always uses freshly constructed settings. */
    const settings: GameSettings := Defaults
    /** `_random`: the value of each of its draws. */
    const random: nat -> nat
    /** How many draws have been taken so far. */
    var draws: nat

    /** An engine with its own validator, loaded from the word file. */
    constructor (wordsFile: Option<seq<string>>, random: nat -> nat)
      ensures fresh(validator) && validator.dictionary == WordsOf(wordsFile)
      ensures this.random == random && draws == 0
    {
      validator := new WordValidator(wordsFile);
      this.random := random;
      draws := 0;
    }

    /** `_random.Next(bound)`: takes the next draw. */
    method NextRandom(bound: nat) returns (r: nat)
      requires bound > 0
      modifies this`draws
      ensures r == random(old(draws)) % bound && r < bound
      ensures draws == old(draws) + 1
    {
      r := random(draws) % bound;
      draws := draws + 1;
    }

    /** The letter count of the difficulty, never negative with these
        settings. */
    function LetterCount(difficulty: string): (n: nat)
      ensures n == settings.GetLetterCount(difficulty) && n >= 2
    {
      DefaultPresets(difficulty);
      settings.GetLetterCount(difficulty)
    }

    /** Builds the letters one draw at a time, alternating pools. */
    method GenerateRandomLetters(difficulty: string) returns (result: string)
      modifies this`draws
      ensures result == RandomLetters(random, old(draws), LetterCount(difficulty))
      ensures draws == old(draws) + LetterCount(difficulty)
    {
      var count := settings.GetLetterCount(difficulty);
      DefaultPresets(difficulty);
      result := "";
      var i := 0;
      while i < count
        invariant 0 <= i <= count
        invariant draws == old(draws) + i
        invariant result == RandomLetters(random, old(draws), i)
      {
        var pool := if i % 2 == 0 then Consonants else Vowels;
        var k := NextRandom(|pool|);
        result := result + [pool[k]];
        i := i + 1;
        assert result == RandomLetters(random, old(draws), i) by {
          forall j | 0 <= j < i ensures result[j] == RandomLetters(random, old(draws), i)[j] {
          }
        }
      }
    }

    /** A slice of a pool word when one is long enough, otherwise random
        letters; `Letters` says which. */
    method GenerateLetters(difficulty: string, pool: Option<seq<string>>) returns (result: string)
      modifies this`draws
      ensures (result, draws) == Letters(random, old(draws), LetterCount(difficulty), pool)
    {
      if pool.None? {
        result := GenerateRandomLetters(difficulty);
        return;
      }
      var words := pool.value;
      if |words| == 0 {
        result := GenerateRandomLetters(difficulty);
        return;
      }
      var k := NextRandom(|words|);
      var selectedWord := words[k];
      var letterCount := settings.GetLetterCount(difficulty);
      if |selectedWord| >= letterCount {
        var startIndex := NextRandom(|selectedWord| - letterCount + 1);
        result := ToUpper(selectedWord[startIndex..startIndex + letterCount]);
        return;
      }
      result := GenerateRandomLetters(difficulty);
    }

    /** A round for the session's current player, with letters and time limit
        for the session's difficulty. */
    method StartNewRound(session: GameSession, pool: Option<seq<string>>) returns (round: Round)
      requires 0 <= session.currentPlayerIndex < |session.players|
      modifies this`draws
      ensures round.letterCombination == Letters(random, old(draws), LetterCount(session.difficulty), pool).0
      ensures draws == Letters(random, old(draws), LetterCount(session.difficulty), pool).1
      ensures round.timeLimit == settings.GetTimeLimit(session.difficulty)
      ensures round.currentPlayer == session.CurrentPlayer()
    {
      var letters := GenerateLetters(session.difficulty, pool);
      var timeLimit := settings.GetTimeLimit(session.difficulty);
      round := Round(letters, timeLimit, session.CurrentPlayer());
    }

    /** The checks in order: the clock first, then the player's used words,
        then the dictionary; the first that fails decides. */
    function ValidateAnswer(word: string, round: Round, elapsed: real): (v: Verdict)
      reads validator, round.currentPlayer
      ensures v == TimeUp <==> Truncate(elapsed) >= round.timeLimit
      ensures v == AlreadyUsed <==> !round.IsTimeUp(elapsed) && ToLower(word) in round.currentPlayer.usedWords
      ensures v == InvalidWord <==>
        (!round.IsTimeUp(elapsed) && !round.currentPlayer.HasUsedWord(word)
         && !Accepts(validator.dictionary, word, round.letterCombination))
      ensures v == Correct <==>
        (!round.IsTimeUp(elapsed) && !round.currentPlayer.HasUsedWord(word)
         && Accepts(validator.dictionary, word, round.letterCombination))
    {
      round.TimeUpIff(elapsed);
      if round.IsTimeUp(elapsed) then TimeUp
      else if round.currentPlayer.HasUsedWord(word) then AlreadyUsed
      else if !validator.IsValidWord(word, round.letterCombination) then InvalidWord
      else Correct
    }

    /** Ten points, plus a point per second left, plus a point per character
        of the answer as typed. */
    function CalculateScore(round: Round, word: string, elapsed: real): (score: int)
      ensures score >= 10 + |word|
      ensures elapsed >= 0.0 && round.timeLimit >= 0 ==> score <= 10 + round.timeLimit + |word|
      ensures score == 10 + |word| <==> round.IsTimeUp(elapsed)
      ensures !round.IsTimeUp(elapsed) ==> score + Truncate(elapsed) == 10 + round.timeLimit + |word|
    {
      10 + round.RemainingTime(elapsed) + |word|
    }
  }

  /** A correct answer is never scored at the floor: it earns at least one
      time point, when scored at the moment it was checked. */
  lemma CorrectAnswerEarnsTimeBonus(engine: GameEngine, word: string, round: Round, elapsed: real)
    requires engine.ValidateAnswer(word, round, elapsed) == Correct
    ensures engine.CalculateScore(round, word, elapsed) >= 11 + |word|
  {
  }

  /** Answering later never scores more. */
  lemma {:induction false} ScoreNonIncreasing(engine: GameEngine, round: Round, word: string, earlier: real, later: real)
    requires earlier <= later
    ensures engine.CalculateScore(round, word, later) <= engine.CalculateScore(round, word, earlier)
  {
    round.RemainingNonIncreasing(earlier, later);
  }

  /** Once a word is used, no spelling of it that lower-cases the same way
      is accepted again from that player. */
  lemma UsedWordIsNeverCorrect(engine: GameEngine, word: string, again: string, round: Round, elapsed: real)
    requires round.currentPlayer.HasUsedWord(word) && ToLower(again) == ToLower(word)
    ensures engine.ValidateAnswer(again, round, elapsed) in {TimeUp, AlreadyUsed}
  {
  }

  /** The used-word check lower-cases the answer but does not trim it, while
      the dictionary check trims it: after "cat", the answer " cat" passes
      both and is scored again. */
  lemma PaddedRepeatIsAccepted(engine: GameEngine, round: Round, elapsed: real)
    requires round.currentPlayer.usedWords == ["cat"]
    requires engine.validator.dictionary == {"cat"}
    requires round.letterCombination == "CA"
    requires !round.IsTimeUp(elapsed)
    ensures engine.ValidateAnswer("cat", round, elapsed) == AlreadyUsed
    ensures engine.ValidateAnswer(" cat", round, elapsed) == Correct
  {
    assert ToLower("cat") == "cat";
    assert ToLower(" cat") == " cat";
    NormalizePaddedCat();
    assert ToLower("CA") == "ca";
    assert OccursAt("cat", "ca", 0);
    AcceptsWhenFound({"cat"}, " cat", "CA", 0);
  }

  /** For every answer, a space in front slips past the used-word check as
      long as no used word starts with a space, and the dictionary check,
      which trims, judges it as the bare answer: a used word is accepted
      again with a space in front whenever it was accepted the first time. */
  lemma PaddedAnswerSkipsUsedCheck(engine: GameEngine, word: string, round: Round, elapsed: real)
    requires forall i :: 0 <= i < |round.currentPlayer.usedWords| ==>
      |round.currentPlayer.usedWords[i]| == 0 || round.currentPlayer.usedWords[i][0] != ' '
    requires !round.IsTimeUp(elapsed)
    ensures !round.currentPlayer.HasUsedWord(" " + word)
    ensures engine.ValidateAnswer(" " + word, round, elapsed)
      == if Accepts(engine.validator.dictionary, word, round.letterCombination) then Correct else InvalidWord
  {
    var padded := " " + word;
    assert ToLower(padded)[0] == ' ';
    assert padded[1..] == word;
    TrimDropsLeadingWhiteSpace(padded);
  }

  /** Answering "cat" with 5 of 15 seconds gone scores 10 + 10 + 3. */
  lemma ScoreExample(engine: GameEngine, player: Player)
    ensures engine.CalculateScore(Round("AT", 15, player), "cat", 5.0) == 23
  {
    assert Truncate(5.0) == 5;
  }

  /** After 11 seconds of a 10-second round every answer is too late. */
  lemma TimeUpExample(engine: GameEngine, player: Player, word: string)
    ensures engine.ValidateAnswer(word, Round("AT", 10, player), 11.0) == TimeUp
  {
    assert Truncate(11.0) == 11;
  }

  /** "bat" contains "at" but is not in the dictionary {"cat", "dog"}, so
      in time and unused it is an invalid word. */
  lemma NotInDictionaryIsInvalid(engine: GameEngine, round: Round, elapsed: real)
    requires engine.validator.dictionary == {"cat", "dog"}
    requires round.letterCombination == "at" && round.currentPlayer.usedWords == []
    requires !round.IsTimeUp(elapsed)
    ensures engine.ValidateAnswer("bat", round, elapsed) == InvalidWord
  {
    assert FirstNonWhite("bat", 0) == 0;
    assert EndNonWhite("bat", 3) == 3;
    assert Trim("bat") == "bat"[0..3] == "bat";
    assert ToLower("bat") == "bat";
    assert Normalize("bat") !in {"cat", "dog"};
  }

  lemma NormalizePaddedCat()
    ensures Normalize(" cat") == "cat"
  {
    assert FirstNonWhite(" cat", 1) == 1;
    assert FirstNonWhite(" cat", 0) == 1;
    assert EndNonWhite(" cat", 4) == 4;
    assert Trim(" cat") == "cat";
    assert ToLower("cat") == "cat";
  }
}
