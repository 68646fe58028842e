/**
  The player files (the class `PlayerSaveManager` of
  Services/PlayerSaveManager.cs). The save directory is modelled as the map
  from file name to the profile the file holds; a file that is missing or
  cannot be read as a profile is a name the map lacks. The clock is the time
  stamp `now` given to each operation, and the platform's invalid file-name
  characters are a parameter of the manager.
*/
module PlayerSaves {
  import opened Wrappers
  import opened Text
  import opened Players
  import opened Sessions
  import opened Profiles
  import opened Analytics

  /** The extension of every profile file. */
  const Extension := ".json"

  /** `Path.GetInvalidFileNameChars()` on Windows: '"', '<', '>', '|', the
      control characters U+0000 to U+001F, ':', '*', '?', '\' and '/'. */
  const WindowsInvalidFileNameChars: seq<char> :=
    ['"', '<', '>', '|'] + seq(32, i requires 0 <= i < 32 => i as char) + [':', '*', '?', '\\', '/']

  /** `Path.GetInvalidFileNameChars()` on Unix: U+0000 and '/'. */
  const UnixInvalidFileNameChars: seq<char> := ['\0', '/']

  /** Whether no character of `chars` is a letter, as on both platforms. */
  predicate NoLetters(chars: seq<char>) {
    forall i :: 0 <= i < |chars| ==> !IsUpperLetter(chars[i]) && !IsLowerLetter(chars[i])
  }

  lemma PlatformsHaveNoLetters()
    ensures NoLetters(WindowsInvalidFileNameChars)
    ensures NoLetters(UnixInvalidFileNameChars)
  {
  }

  // ---------------------------------------------------------------------
  // File names
  // ---------------------------------------------------------------------

  /** `string.Replace(c, '_')`. */
  function ReplaceChar(s: string, c: char): string {
    seq(|s|, j requires 0 <= j < |s| => if s[j] == c then '_' else s[j])
  }

  /** The name with every invalid character replaced by '_': no invalid
      character other than '_' is left, and every other character stays. */
  function Sanitized(name: string, invalid: seq<char>): (r: string)
    ensures |r| == |name|
    ensures forall j :: 0 <= j < |r| ==> r[j] !in invalid || r[j] == '_'
    ensures forall j :: 0 <= j < |r| && name[j] !in invalid ==> r[j] == name[j]
    ensures forall j :: 0 <= j < |r| && name[j] in invalid ==> r[j] == '_'
  {
    seq(|name|, j requires 0 <= j < |name| => if name[j] in invalid then '_' else name[j])
  }

  /** The file a player's profile is kept in: the sanitised name,
      lower-cased and trimmed, with the extension. */
  function SafeFileName(name: string, invalid: seq<char>): string {
    Trim(ToLower(Sanitized(name, invalid))) + Extension
  }

  /** A file that `Directory.GetFiles(dir, "*.json")` lists. */
  predicate IsJsonFile(fileName: string) {
    |fileName| >= |Extension| && fileName[|fileName| - |Extension|..] == Extension
  }

  /** `Path.GetFileNameWithoutExtension` of such a file. */
  function Stem(fileName: string): (r: string)
    requires IsJsonFile(fileName)
    ensures r + Extension == fileName
  {
    var r := fileName[..|fileName| - |Extension|];
    assert r + Extension == fileName;
    r
  }

  /** A safe file name is a profile file whose stem is the trimmed,
      lower-cased, sanitised name, which does not start or end with white
      space. */
  lemma SafeFileNameIsJson(name: string, invalid: seq<char>)
    ensures IsJsonFile(SafeFileName(name, invalid))
    ensures Stem(SafeFileName(name, invalid)) == Trim(ToLower(Sanitized(name, invalid)))
    ensures var stem := Stem(SafeFileName(name, invalid));
      stem != [] ==> !IsWhiteSpace(stem[0]) && !IsWhiteSpace(stem[|stem| - 1])
  {
    var stem := Trim(ToLower(Sanitized(name, invalid)));
    assert (stem + Extension)[|stem|..] == Extension;
    assert Stem(SafeFileName(name, invalid)) == stem;
  }

  /** The stem holds no invalid character but '_' when no letter is
      invalid. */
  lemma SafeFileNameShape(name: string, invalid: seq<char>)
    requires NoLetters(invalid)
    ensures IsJsonFile(SafeFileName(name, invalid))
    ensures var stem := Stem(SafeFileName(name, invalid));
      forall k :: 0 <= k < |stem| ==> stem[k] !in invalid || stem[k] == '_'
  {
    var lowered := ToLower(Sanitized(name, invalid));
    var stem := Trim(lowered);
    SafeFileNameIsJson(name, invalid);
    assert Stem(SafeFileName(name, invalid)) == stem;
    TrimWithin(lowered);
    forall k | 0 <= k < |stem| ensures stem[k] !in invalid || stem[k] == '_' {
      var j :| 0 <= j < |lowered| && lowered[j] == stem[k];
      LowerKeepsValid(Sanitized(name, invalid)[j], invalid);
    }
  }

  /** Lower-casing a character that is not invalid, or is '_', gives such a
      character again when no letter is invalid. */
  lemma LowerKeepsValid(c: char, invalid: seq<char>)
    requires NoLetters(invalid)
    requires c !in invalid || c == '_'
    ensures ToLowerChar(c) !in invalid || ToLowerChar(c) == '_'
  {
    if IsUpperLetter(c) {
      assert IsLowerLetter(ToLowerChar(c));
    }
  }

  /** Names that differ only in case get the same file when no letter is an
      invalid character. */
  lemma SafeFileNameIgnoresCase(a: string, b: string, invalid: seq<char>)
    requires NoLetters(invalid)
    requires ToLower(a) == ToLower(b)
    ensures SafeFileName(a, invalid) == SafeFileName(b, invalid)
  {
    var sa, sb := Sanitized(a, invalid), Sanitized(b, invalid);
    forall j | 0 <= j < |a| ensures ToLower(sa)[j] == ToLower(sb)[j] {
      assert ToLowerChar(a[j]) == ToLowerChar(b[j]);
      SameLowerSameClass(a[j], b[j], invalid);
    }
    assert ToLower(sa) == ToLower(sb);
  }

  /** Two characters that lower-case alike are both invalid or both valid,
      when no letter is invalid. */
  lemma SameLowerSameClass(x: char, y: char, invalid: seq<char>)
    requires NoLetters(invalid)
    requires ToLowerChar(x) == ToLowerChar(y)
    ensures x in invalid <==> y in invalid
  {
    assert IsUpperLetter(x) ==> IsLowerLetter(ToLowerChar(x));
    assert IsUpperLetter(y) ==> IsLowerLetter(ToLowerChar(y));
    if x in invalid {
      var i :| 0 <= i < |invalid| && invalid[i] == x;
    }
    if y in invalid {
      var i :| 0 <= i < |invalid| && invalid[i] == y;
    }
  }

  /** Different names can share a file: padding and an invalid character
      are lost. On Unix "a/b" and "a_b" share "a_b.json". */
  lemma DistinctNamesCanShareAFile()
    ensures SafeFileName("a/b", UnixInvalidFileNameChars) == "a_b.json"
    ensures SafeFileName("a_b", UnixInvalidFileNameChars) == "a_b.json"
  {
    var u := UnixInvalidFileNameChars;
    assert Sanitized("a/b", u) == "a_b" && Sanitized("a_b", u) == "a_b";
    assert ToLower("a_b") == "a_b";
    assert FirstNonWhite("a_b", 0) == 0 && EndNonWhite("a_b", 3) == 3;
    assert Trim("a_b") == "a_b"[0..3] == "a_b";
  }

  // ---------------------------------------------------------------------
  // The store
  // ---------------------------------------------------------------------

  /** `LoadOrCreateProfile`: the profile in the player's file, or a new one
      for the player dated `now` when there is no readable file. */
  function Load(files: map<string, PlayerProfile>, invalid: seq<char>, playerName: string, now: int): (p: PlayerProfile)
    ensures SafeFileName(playerName, invalid) in files ==> p == files[SafeFileName(playerName, invalid)]
    ensures SafeFileName(playerName, invalid) !in files ==> p == NewProfile(playerName, now)
  {
    var key := SafeFileName(playerName, invalid);
    if key in files then files[key] else NewProfile(playerName, now)
  }

  /** The player names `GetAllPlayers` lists: the stems of the profile files. */
  function Listed(files: map<string, PlayerProfile>): set<string> {
    set k | k in files && IsJsonFile(k) :: Stem(k)
  }

  /** Every file holds the profile of a player whose safe file name it is. */
  ghost predicate Valid(files: map<string, PlayerProfile>, invalid: seq<char>) {
    forall k :: k in files ==> SafeFileName(files[k].playerName, invalid) == k
  }

  /** A saved profile loads again, under any name that shares its file, and
      nothing else loads differently. */
  lemma LoadAfterSave(files: map<string, PlayerProfile>, invalid: seq<char>, profile: PlayerProfile, name: string, now: int)
    ensures var saved := files[SafeFileName(profile.playerName, invalid) := profile];
      Load(saved, invalid, name, now)
        == if SafeFileName(name, invalid) == SafeFileName(profile.playerName, invalid) then profile
           else Load(files, invalid, name, now)
  {
  }

  /** Saving keeps every file holding its own player's profile. */
  lemma SaveKeepsValid(files: map<string, PlayerProfile>, invalid: seq<char>, profile: PlayerProfile)
    requires Valid(files, invalid)
    ensures Valid(files[SafeFileName(profile.playerName, invalid) := profile], invalid)
  {
  }

  /** In a valid store a loaded profile is saved back to the file it came
      from. */
  lemma LoadedSavesToSameFile(files: map<string, PlayerProfile>, invalid: seq<char>, name: string, now: int)
    requires Valid(files, invalid)
    ensures SafeFileName(Load(files, invalid, name, now).playerName, invalid) == SafeFileName(name, invalid)
  {
  }

  /** Once a player's file is deleted, loading the player makes a new
      profile. */
  lemma LoadAfterDelete(files: map<string, PlayerProfile>, invalid: seq<char>, name: string, now: int)
    ensures Load(files - {SafeFileName(name, invalid)}, invalid, name, now) == NewProfile(name, now)
  {
  }

  /** Deleting a profile file removes exactly its stem from the list. */
  lemma DeleteUnlists(files: map<string, PlayerProfile>, key: string)
    requires IsJsonFile(key)
    ensures Listed(files - {key}) == Listed(files) - {Stem(key)}
  {
    forall k | k in files && IsJsonFile(k) && k != key ensures Stem(k) != Stem(key) {
      assert Stem(k) + Extension == k;
    }
  }

  /** Saving a profile lists its file's stem and no other new name. */
  lemma SaveLists(files: map<string, PlayerProfile>, key: string, profile: PlayerProfile)
    requires IsJsonFile(key)
    ensures Listed(files[key := profile]) == Listed(files) + {Stem(key)}
  {
  }

  /** The match record `SaveMatch` builds. The match is won when the player
      is still alive and is the session's winner, that is, exactly when the
      player is the only one of the session left alive. */
  function MatchOf(player: Player, session: GameSession, matchStart: int, now: int, roundPerformances: seq<RoundPerformance>): (m: MatchData)
    reads player, session, session.players
    ensures m.won <==> player in session.players && player.IsAlive() && CountTrue(AliveFlags(session.players)) == 1
    ensures m.score == player.score && m.livesRemaining == player.lives && m.wordsUsed == player.usedWords
    ensures m.roundsPlayed == session.roundNumber - 1 && m.difficulty == session.difficulty
    ensures m.matchDate == matchStart && m.totalPlayTime == now - matchStart && m.roundPerformances == roundPerformances
  {
    MatchData(matchStart, session.difficulty, player.score, session.roundNumber - 1, player.lives,
              player.IsAlive() && session.GetWinner() == Some(player),
              player.usedWords, now - matchStart, roundPerformances)
  }

  class PlayerSaveManager {
    /** The platform's invalid file-name characters. */
    const invalidChars: seq<char>
    /** The readable profile files of the save directory, by file name. */
    var files: map<string, PlayerProfile>

    /** A manager over a save directory holding `files`. */
    constructor (invalidChars: seq<char>, files: map<string, PlayerProfile>)
      ensures this.invalidChars == invalidChars && this.files == files
    {
      this.invalidChars := invalidChars;
      this.files := files;
    }

    /** Replaces each invalid character in turn, then lower-cases, trims
        and adds the extension. */
    method GetSafeFileName(playerName: string) returns (fileName: string)
      ensures fileName == SafeFileName(playerName, invalidChars)
    {
      var name := playerName;
      var i := 0;
      while i < |invalidChars|
        invariant 0 <= i <= |invalidChars|
        invariant |name| == |playerName|
        invariant forall j :: 0 <= j < |name| ==>
          name[j] == if playerName[j] in invalidChars[..i] then '_' else playerName[j]
      {
        assert invalidChars[..i + 1] == invalidChars[..i] + [invalidChars[i]];
        name := ReplaceChar(name, invalidChars[i]);
        i := i + 1;
      }
      assert invalidChars[..i] == invalidChars;
      assert name == Sanitized(playerName, invalidChars);
      fileName := Trim(ToLower(name)) + Extension;
    }

    function LoadOrCreateProfile(playerName: string, now: int): (p: PlayerProfile)
      reads this
      ensures SafeFileName(playerName, invalidChars) in files ==> p == files[SafeFileName(playerName, invalidChars)]
      ensures SafeFileName(playerName, invalidChars) !in files ==> p == NewProfile(playerName, now)
    {
      Load(files, invalidChars, playerName, now)
    }

    /** Writes the profile to the file of its own player name. */
    method SaveProfile(profile: PlayerProfile)
      modifies this`files
      ensures files == old(files)[SafeFileName(profile.playerName, invalidChars) := profile]
      ensures Valid(old(files), invalidChars) ==> Valid(files, invalidChars)
    {
      var fileName := GetSafeFileName(profile.playerName);
      if Valid(files, invalidChars) {
        SaveKeepsValid(files, invalidChars, profile);
      }
      files := files[fileName := profile];
    }

    /** Records the match in the player's profile and saves it. In a valid
        store the profile goes back to the player's own file, with the match
        appended to its history. */
    method SaveMatch(player: Player, session: GameSession, matchStart: int, now: int, roundPerformances: seq<RoundPerformance>)
      modifies this`files
      ensures var p, m := old(LoadOrCreateProfile(player.name, now)), old(MatchOf(player, session, matchStart, now, roundPerformances));
        files == old(files)[SafeFileName(p.playerName, invalidChars) := RecordMatch(p, m, now)]
      ensures Valid(old(files), invalidChars) ==> Valid(files, invalidChars)
      ensures Valid(old(files), invalidChars) ==>
        var key, p, m := SafeFileName(old(player.name), invalidChars), old(LoadOrCreateProfile(player.name, now)),
                         old(MatchOf(player, session, matchStart, now, roundPerformances));
        key in files && files[key].matchHistory == p.matchHistory + [m]
    {
      var profile := LoadOrCreateProfile(player.name, now);
      if Valid(files, invalidChars) {
        LoadedSavesToSameFile(files, invalidChars, player.name, now);
      }
      var matchData := MatchOf(player, session, matchStart, now, roundPerformances);
      profile := RecordMatch(profile, matchData, now);
      SaveProfile(profile);
    }

    /** The names of all saved players. */
    function GetAllPlayers(): set<string>
      reads this
    {
      Listed(files)
    }

    /** Deletes the player's file if there is one, and says whether there
        was; afterwards the player is no longer listed. */
    method DeletePlayer(playerName: string) returns (existed: bool)
      modifies this`files
      ensures existed <==> SafeFileName(playerName, invalidChars) in old(files)
      ensures files == old(files) - {SafeFileName(playerName, invalidChars)}
      ensures Stem(SafeFileName(playerName, invalidChars)) !in GetAllPlayers()
      ensures Valid(old(files), invalidChars) ==> Valid(files, invalidChars)
    {
      var fileName := GetSafeFileName(playerName);
      SafeFileNameIsJson(playerName, invalidChars);
      DeleteUnlists(files, fileName);
      existed := fileName in files;
      if existed {
        files := files - {fileName};
      }
    }

    /** The report `ShowLetterAnalytics` prints for the player. */
    method ShowLetterAnalytics(playerName: string, now: int) returns (report: AnalyticsReport)
      ensures report == Analyze(LoadOrCreateProfile(playerName, now).matchHistory)
    {
      var history := LoadOrCreateProfile(playerName, now).matchHistory;
      if |history| == 0 || !AnyRounds(history) {
        return NoRoundData;
      }
      var keys, stats := CollectLetterStats(history);
      StatsTried(Rounds(history));
      var rows := Performances(keys, stats);
      report := Rankings(rows);
    }
  }
}
