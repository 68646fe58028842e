/**
  The dictionary of accepted words (Services/WordValidator.cs). The word
  file is given as its lines, or `None` when the file does not exist.
*/
module Validation {
  import opened Wrappers
  import opened Text

  /** How dictionary lines and answers are compared: trimmed, then
      lower-cased. Only a blank string normalises to the empty one. */
  function Normalize(s: string): (r: string)
    ensures |r| <= |s|
    ensures r == [] <==> IsBlank(s)
  {
    ToLower(Trim(s))
  }

  /** Two strings that lower-case alike normalise alike. */
  lemma NormalizeIgnoresCase(a: string, b: string)
    requires ToLower(a) == ToLower(b)
    ensures Normalize(a) == Normalize(b)
  {
    TrimToLower(a);
    TrimToLower(b);
  }

  /** An unpadded string only needs lower-casing. */
  lemma NormalizeUnpadded(s: string)
    requires Trim(s) == s
    ensures Normalize(s) == ToLower(s)
  {
  }

  /** Normalising twice changes nothing more. */
  lemma NormalizeIdempotent(s: string)
    ensures Normalize(Normalize(s)) == Normalize(s)
  {
    TrimToLower(Trim(s));
    TrimIdempotent(s);
    ToLowerFacts(Trim(s));
  }

  /** The set `LoadDictionary` builds from the lines of the word file: every
      line, normalised, duplicates collapsing; blank lines give "". */
  function Normalized(lines: seq<string>): (r: set<string>)
    ensures |r| <= |lines|
    ensures forall i :: 0 <= i < |lines| ==> Normalize(lines[i]) in r
  {
    if lines == [] then {}
    else
      var prev := Normalized(lines[..|lines| - 1]);
      var w := Normalize(lines[|lines| - 1]);
      assert |prev + {w}| <= |prev| + 1 by {
        if w in prev {
          assert prev + {w} == prev;
        }
      }
      assert forall i :: 0 <= i < |lines| - 1 ==> lines[i] == lines[..|lines| - 1][i];
      prev + {w}
  }

  /** One more line adds its normalised form. */
  lemma NormalizedStep(lines: seq<string>, i: nat)
    requires i < |lines|
    ensures Normalized(lines[..i + 1]) == Normalized(lines[..i]) + {Normalize(lines[i])}
  {
    assert lines[..i + 1][..i] == lines[..i];
  }

  /** Nothing else enters the dictionary: each word is some line, normalised. */
  lemma {:induction false} NormalizedOnlyLines(lines: seq<string>, w: string)
    requires w in Normalized(lines)
    ensures exists i :: 0 <= i < |lines| && Normalize(lines[i]) == w
  {
    var init := lines[..|lines| - 1];
    if w != Normalize(lines[|lines| - 1]) {
      NormalizedOnlyLines(init, w);
      var i :| 0 <= i < |init| && Normalize(init[i]) == w;
      assert lines[i] == init[i];
    }
  }

  /** The dictionary a word file gives: empty when the file is missing. */
  function WordsOf(wordsFile: Option<seq<string>>): (r: set<string>)
    ensures wordsFile.None? ==> r == {}
    ensures wordsFile.Some? ==> forall i :: 0 <= i < |wordsFile.value| ==> Normalize(wordsFile.value[i]) in r
  {
    if wordsFile.None? then {} else Normalized(wordsFile.value)
  }

  /** `IsValidWord` against a dictionary: a blank answer is refused; otherwise
      the normalised answer must be in the dictionary and contain the
      lower-cased required letters, searched ordinally. */
  function Accepts(dictionary: set<string>, word: string, requiredLetters: string): (r: bool)
    ensures IsBlank(word) ==> !r
    ensures r <==> Normalize(word) != [] && Normalize(word) in dictionary
                   && exists i :: OccursAt(Normalize(word), ToLower(requiredLetters), i)
  {
    if IsBlank(word) then false
    else
      var w := Normalize(word);
      w in dictionary && Contains(w, ToLower(requiredLetters))
  }

  /** A non-blank answer in the dictionary is accepted once the letters are
      found at some position of its normalised form. */
  lemma AcceptsWhenFound(dictionary: set<string>, word: string, requiredLetters: string, i: int)
    requires !IsBlank(word) && Normalize(word) in dictionary
    requires OccursAt(Normalize(word), ToLower(requiredLetters), i)
    ensures Accepts(dictionary, word, requiredLetters)
  {
  }

  /** The check ignores case in both the answer and the required letters. */
  lemma AcceptsIgnoresCase(dictionary: set<string>, a: string, b: string, ra: string, rb: string)
    requires ToLower(a) == ToLower(b) && ToLower(ra) == ToLower(rb)
    ensures Accepts(dictionary, a, ra) == Accepts(dictionary, b, rb)
  {
    NormalizeIgnoresCase(a, b);
  }

  /** In particular, upper-casing either argument changes nothing. */
  lemma AcceptsUpperCase(dictionary: set<string>, word: string, requiredLetters: string)
    ensures Accepts(dictionary, ToUpper(word), ToUpper(requiredLetters)) == Accepts(dictionary, word, requiredLetters)
  {
    ToLowerFacts(word);
    ToLowerFacts(requiredLetters);
    AcceptsIgnoresCase(dictionary, ToUpper(word), word, ToUpper(requiredLetters), requiredLetters);
  }

  /** A missing word file gives an empty dictionary, which accepts nothing. */
  lemma MissingFileAcceptsNothing(word: string, requiredLetters: string)
    ensures |WordsOf(None)| == 0
    ensures !Accepts(WordsOf(None), word, requiredLetters)
  {
  }

  /** A blank line puts "" into the dictionary and into the word count, but
      "" can never be the normalised form of an accepted answer. */
  lemma BlankLineIsHarmless(lines: seq<string>, i: nat, word: string, requiredLetters: string)
    requires i < |lines| && IsBlank(lines[i])
    ensures "" in Normalized(lines)
    ensures Accepts(Normalized(lines), word, requiredLetters)
         == Accepts(Normalized(lines) - {""}, word, requiredLetters)
  {
    assert Normalize(lines[i]) == "";
  }

  /** The answers a loaded dictionary accepts are exactly the non-blank
      lines of the file, in any case and padding, that contain the required
      letters. */
  lemma AcceptedAnswersAreFileLines(lines: seq<string>, word: string, requiredLetters: string)
    ensures Accepts(Normalized(lines), word, requiredLetters) <==>
      (!IsBlank(word) && Contains(Normalize(word), ToLower(requiredLetters))
       && exists i :: 0 <= i < |lines| && Normalize(lines[i]) == Normalize(word))
  {
    if Normalize(word) in Normalized(lines) {
      NormalizedOnlyLines(lines, Normalize(word));
    }
  }

  class WordValidator {
    var dictionary: set<string>

    /** Loads the word file, if there is one, into an empty dictionary. */
    constructor (wordsFile: Option<seq<string>>)
      ensures dictionary == WordsOf(wordsFile)
    {
      dictionary := {};
      new;
      LoadDictionary(wordsFile);
    }

    /** Adds every line, trimmed and lower-cased, to the dictionary; with no
        file it does nothing. */
    method LoadDictionary(wordsFile: Option<seq<string>>)
      modifies this`dictionary
      ensures dictionary == old(dictionary) + WordsOf(wordsFile)
    {
      if wordsFile.Some? {
        var lines := wordsFile.value;
        var i := 0;
        while i < |lines|
          invariant 0 <= i <= |lines|
          invariant dictionary == old(dictionary) + Normalized(lines[..i])
        {
          NormalizedStep(lines, i);
          dictionary := dictionary + {Normalize(lines[i])};
          i := i + 1;
        }
        assert lines[..|lines|] == lines;
      }
    }

    /** Whether the answer is accepted for the required letters (`Accepts`). */
    function IsValidWord(word: string, requiredLetters: string): (r: bool)
      reads this
      ensures IsBlank(word) ==> !r
      ensures r ==> Normalize(word) in dictionary && Contains(Normalize(word), ToLower(requiredLetters))
    {
      Accepts(dictionary, word, requiredLetters)
    }

    function GetWordCount(): nat
      reads this
    {
      |dictionary|
    }

    /** After loading a file, the word count is at most its number of lines. */
    lemma WordCountAtMostLines(lines: seq<string>)
      requires dictionary == WordsOf(Some(lines))
      ensures GetWordCount() <= |lines|
    {
    }
  }
}
