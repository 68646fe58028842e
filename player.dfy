/** A player of one session (Models/Player.cs). */
module Players {
  import opened Text

  /** The lives a player starts with when the caller gives none. */
  const DefaultLives := 3

  class Player {
    var name: string
    var lives: int
    var score: int
    /** Every word the player has used this session, lower-cased, in order. */
    var usedWords: seq<string>

    /** A new player: the given lives, no points, no words. */
    constructor (name: string, lives: int := DefaultLives)
      ensures this.name == name && this.lives == lives
      ensures score == 0 && usedWords == []
    {
      this.name := name;
      this.lives := lives;
      score := 0;
      usedWords := [];
    }

    /** A player is in the game while at least one life is left. */
    predicate IsAlive()
      reads this
    {
      lives > 0
    }

    /** Takes one life if there is one; lives never drop below zero. */
    method LoseLife()
      modifies this`lives
      ensures lives == if old(lives) > 0 then old(lives) - 1 else old(lives)
      ensures old(lives) >= 0 ==> lives >= 0
      ensures IsAlive() <==> old(lives) > 1
    {
      if lives > 0 {
        lives := lives - 1;
      }
    }

    /** Adds the points to the score; a non-negative award never lowers it. */
    method AddScore(points: int)
      modifies this`score
      ensures score == old(score) + points
      ensures points >= 0 ==> score >= old(score)
      ensures lives == old(lives) && usedWords == old(usedWords)
    {
      score := score + points;
    }

    /** Whether the lower-cased word is already in the list. The word is not
        trimmed. */
    function HasUsedWord(word: string): (r: bool)
      reads this
      ensures r <==> exists i :: 0 <= i < |usedWords| && usedWords[i] == ToLower(word)
    {
      ToLower(word) in usedWords
    }

    /** Appends the lower-cased word. Afterwards every spelling of the word
        that lower-cases the same way counts as used, and nothing that was used
        before stops being used. */
    method AddUsedWord(word: string)
      modifies this`usedWords
      ensures usedWords == old(usedWords) + [ToLower(word)]
      ensures old(usedWords) <= usedWords && |usedWords| == |old(usedWords)| + 1
      ensures forall w :: ToLower(w) == ToLower(word) ==> HasUsedWord(w)
      ensures forall w :: old(HasUsedWord(w)) ==> HasUsedWord(w)
    {
      usedWords := usedWords + [ToLower(word)];
    }
  }
}
