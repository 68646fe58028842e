/** The difficulty presets (Models/GameSettings.cs). */
module Settings {

  /** The seven tunable values; every field is a settable property in the
      game, so a settings value may hold any integers. */
  datatype GameSettings = GameSettings(
    easyTimeLimit: int,
    normalTimeLimit: int,
    hardTimeLimit: int,
    startingLives: int,
    letterCountEasy: int,
    letterCountNormal: int,
    letterCountHard: int)
  {
    /** Seconds per round. "Easy" and "Hard" have their own value; every
        other name, "Normal" included, gets the normal one. */
    function GetTimeLimit(difficulty: string): (r: int)
      ensures difficulty == "Easy" ==> r == easyTimeLimit
      ensures difficulty == "Hard" ==> r == hardTimeLimit
      ensures difficulty != "Easy" && difficulty != "Hard" ==> r == normalTimeLimit
    {
      match difficulty
      case "Easy" => easyTimeLimit
      case "Normal" => normalTimeLimit
      case "Hard" => hardTimeLimit
      case _ => normalTimeLimit
    }

    /** Length of the letter sequence per round, chosen like the time limit. */
    function GetLetterCount(difficulty: string): (r: int)
      ensures difficulty == "Easy" ==> r == letterCountEasy
      ensures difficulty == "Hard" ==> r == letterCountHard
      ensures difficulty != "Easy" && difficulty != "Hard" ==> r == letterCountNormal
    {
      match difficulty
      case "Easy" => letterCountEasy
      case "Normal" => letterCountNormal
      case "Hard" => letterCountHard
      case _ => letterCountNormal
    }
  }

  /** The property initialisers of a freshly constructed settings object. */
  const Defaults := GameSettings(20, 15, 10, 3, 2, 3, 3)

  /** An unknown difficulty name behaves exactly like "Normal", for every
      choice of settings. */
  lemma UnknownDifficultyIsNormal(settings: GameSettings, difficulty: string)
    requires difficulty !in {"Easy", "Normal", "Hard"}
    ensures settings.GetTimeLimit(difficulty) == settings.GetTimeLimit("Normal")
    ensures settings.GetLetterCount(difficulty) == settings.GetLetterCount("Normal")
  {
  }

  /** With the defaults, harder means less time (20 > 15 > 10 seconds), every
      difficulty asks for at least two letters, and only "Easy" asks for two. */
  lemma DefaultPresets(difficulty: string)
    ensures Defaults.GetTimeLimit("Easy") == 20
    ensures Defaults.GetTimeLimit("Normal") == 15
    ensures Defaults.GetTimeLimit("Hard") == 10
    ensures Defaults.GetTimeLimit("Easy") > Defaults.GetTimeLimit("Normal") > Defaults.GetTimeLimit("Hard")
    ensures Defaults.GetTimeLimit(difficulty) in {10, 15, 20}
    ensures Defaults.GetLetterCount(difficulty) == if difficulty == "Easy" then 2 else 3
    ensures Defaults.GetLetterCount(difficulty) >= 2
    ensures Defaults.startingLives == 3
  {
  }
}
