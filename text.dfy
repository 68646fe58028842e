/**
  The string operations of the .NET runtime that the game relies on:
  `char.IsWhiteSpace`, `string.IsNullOrWhiteSpace`, `Trim`, `ToLower`,
  `ToUpper` and ordinal `Contains`.

  Case mapping covers A to Z and the Latin-1 letters whose case partner is
  also in Latin-1 (so the Swedish letters Å, Ä and Ö fold like A to Z);
  every other character is left unchanged, µ and ÿ included.
*/
module Text {

  // ---------------------------------------------------------------------
  // White space and trimming
  // ---------------------------------------------------------------------

  /** The characters `char.IsWhiteSpace` accepts: the control characters
      U+0009 to U+000D, U+0085, and the Unicode space, line and paragraph
      separators. */
  predicate IsWhiteSpace(c: char) {
    ('\t' <= c <= '\r') || c == ' ' || c == '\U{0085}' || c == '\U{00A0}' ||
    c == '\U{1680}' || ('\U{2000}' <= c <= '\U{200A}') || c == '\U{2028}' ||
    c == '\U{2029}' || c == '\U{202F}' || c == '\U{205F}' || c == '\U{3000}'
  }

  /** `string.IsNullOrWhiteSpace` on a non-null string. */
  predicate IsBlank(s: string) {
    forall i :: 0 <= i < |s| ==> IsWhiteSpace(s[i])
  }

  /** The index of the first character at or after `i` that is not white
      space, or `|s|` if there is none. */
  function FirstNonWhite(s: string, i: nat): (r: nat)
    requires i <= |s|
    ensures i <= r <= |s|
    ensures forall k :: i <= k < r ==> IsWhiteSpace(s[k])
    ensures r < |s| ==> !IsWhiteSpace(s[r])
    decreases |s| - i
  {
    if i < |s| && IsWhiteSpace(s[i]) then FirstNonWhite(s, i + 1) else i
  }

  /** The index just past the last character before `j` that is not white
      space, or 0 if there is none. */
  function EndNonWhite(s: string, j: nat): (r: nat)
    requires j <= |s|
    ensures r <= j
    ensures forall k :: r <= k < j ==> IsWhiteSpace(s[k])
    ensures r > 0 ==> !IsWhiteSpace(s[r - 1])
  {
    if j > 0 && IsWhiteSpace(s[j - 1]) then EndNonWhite(s, j - 1) else j
  }

  /** `string.Trim()`: white space removed from both ends. The result is a
      slice of `s` with only white space before and after it; only a blank
      string trims to the empty one, and a non-empty result starts and ends
      with a character that is not white space. */
  function Trim(s: string): (r: string)
    ensures |r| <= |s|
    ensures r == [] <==> IsBlank(s)
    ensures r != [] ==> !IsWhiteSpace(r[0]) && !IsWhiteSpace(r[|r| - 1])
    ensures exists a, b ::
      && 0 <= a <= b <= |s| && r == s[a..b]
      && (forall k :: 0 <= k < a ==> IsWhiteSpace(s[k]))
      && (forall k :: b <= k < |s| ==> IsWhiteSpace(s[k]))
  {
    var a := FirstNonWhite(s, 0);
    if a == |s| then
      assert s[a..a] == [];
      []
    else
      var b := EndNonWhite(s, |s|);
      assert !IsBlank(s) by { assert !IsWhiteSpace(s[a]); }
      assert a < b by { assert !IsWhiteSpace(s[a]); }
      s[a..b]
  }

  /** Trimming a string that is already trimmed changes nothing. */
  lemma TrimIdempotent(s: string)
    ensures Trim(Trim(s)) == Trim(s)
  {
    var t := Trim(s);
    if t != [] {
      assert FirstNonWhite(t, 0) == 0;
      assert EndNonWhite(t, |t|) == |t|;
      assert t[0..|t|] == t;
    }
  }

  /** A white-space character in front changes nothing once trimmed. */
  lemma TrimDropsLeadingWhiteSpace(t: string)
    requires |t| > 0 && IsWhiteSpace(t[0])
    ensures Trim(t) == Trim(t[1..])
  {
    var s := t[1..];
    FirstNonWhiteShift(t, 0);
    EndNonWhiteShift(t, |s|);
    var a, b := FirstNonWhite(s, 0), EndNonWhite(s, |s|);
    if a < |s| {
      TrimBetween(s);
      TrimBetween(t);
      ShiftSlice(t, a, b);
      calc {
        Trim(t);
        t[a + 1..b + 1];
        s[a..b];
        Trim(s);
      }
    } else {
      TrimAllWhite(s);
      TrimAllWhite(t);
    }
  }

  lemma TrimAllWhite(s: string)
    requires FirstNonWhite(s, 0) == |s|
    ensures Trim(s) == []
  {
  }

  /** Past the first character, the scans of `t` are those of its tail,
      one position later. */
  lemma {:induction false} FirstNonWhiteShift(t: string, i: nat)
    requires i < |t| && IsWhiteSpace(t[0])
    ensures FirstNonWhite(t, i + 1) == FirstNonWhite(t[1..], i) + 1
    ensures i == 0 ==> FirstNonWhite(t, 0) == FirstNonWhite(t[1..], 0) + 1
    decreases |t| - i
  {
    if i + 1 < |t| {
      assert t[1..][i] == t[i + 1];
      if IsWhiteSpace(t[i + 1]) {
        FirstNonWhiteShift(t, i + 1);
      }
    }
  }

  lemma {:induction false} EndNonWhiteShift(t: string, j: nat)
    requires j < |t| && IsWhiteSpace(t[0])
    ensures EndNonWhite(t, j + 1) == if EndNonWhite(t[1..], j) == 0 then 0 else EndNonWhite(t[1..], j) + 1
  {
    if j > 0 {
      assert t[1..][j - 1] == t[j];
      if IsWhiteSpace(t[j]) {
        EndNonWhiteShift(t, j - 1);
      }
    }
  }

  /** A string with a character that is not white space is trimmed to the
      slice between its scans. */
  lemma TrimBetween(s: string)
    requires FirstNonWhite(s, 0) < |s|
    ensures FirstNonWhite(s, 0) < EndNonWhite(s, |s|)
    ensures Trim(s) == s[FirstNonWhite(s, 0)..EndNonWhite(s, |s|)]
  {
    assert !IsWhiteSpace(s[FirstNonWhite(s, 0)]);
  }

  lemma ShiftSlice(t: string, a: nat, b: nat)
    requires a <= b < |t|
    ensures t[a + 1..b + 1] == t[1..][a..b]
  {
    forall k | 0 <= k < b - a ensures t[a + 1..b + 1][k] == t[1..][a..b][k] {
      assert t[1..][a..b][k] == t[1..][a + k] == t[a + 1 + k];
    }
  }

  /** Trimming only removes characters: what is left was in the string. */
  lemma TrimWithin(s: string)
    ensures forall k :: 0 <= k < |Trim(s)| ==> Trim(s)[k] in s
  {
    var t := Trim(s);
    var a, b :| 0 <= a <= b <= |s| && t == s[a..b];
    forall k | 0 <= k < |t| ensures t[k] in s {
      assert t[k] == s[a + k];
    }
  }

  // ---------------------------------------------------------------------
  // Case mapping
  // ---------------------------------------------------------------------

  /** Upper-case letters of Basic Latin and Latin-1 (U+00D7 is the
      multiplication sign, not a letter). */
  predicate IsUpperLetter(c: char) {
    ('A' <= c <= 'Z') || ('\U{00C0}' <= c <= '\U{00DE}' && c != '\U{00D7}')
  }

  /** Lower-case letters with an upper-case partner (U+00F7 is the division
      sign). */
  predicate IsLowerLetter(c: char) {
    ('a' <= c <= 'z') || ('\U{00E0}' <= c <= '\U{00FE}' && c != '\U{00F7}')
  }

  /** `char.ToLower` on the modelled range. */
  function ToLowerChar(c: char): (r: char)
    ensures IsUpperLetter(c) ==> IsLowerLetter(r) && r as int == c as int + 32
    ensures !IsUpperLetter(c) ==> r == c
  {
    if IsUpperLetter(c) then (c as int + 32) as char else c
  }

  /** `char.ToUpper` on the modelled range. */
  function ToUpperChar(c: char): (r: char)
    ensures IsLowerLetter(c) ==> IsUpperLetter(r) && r as int == c as int - 32
    ensures !IsLowerLetter(c) ==> r == c
  {
    if IsLowerLetter(c) then (c as int - 32) as char else c
  }

  /** Lower-casing is idempotent and forgets a previous upper-casing. */
  lemma CaseFacts(c: char)
    ensures ToLowerChar(ToLowerChar(c)) == ToLowerChar(c)
    ensures ToLowerChar(ToUpperChar(c)) == ToLowerChar(c)
  {
  }

  /** Lower-casing never creates or removes white space. */
  lemma WhiteSpaceCaseless(c: char)
    ensures IsWhiteSpace(ToLowerChar(c)) <==> IsWhiteSpace(c)
  {
  }

  /** `string.ToLower()`: character by character. */
  function ToLower(s: string): (r: string)
    ensures |r| == |s|
    ensures forall i :: 0 <= i < |s| ==> r[i] == ToLowerChar(s[i])
  {
    seq(|s|, i requires 0 <= i < |s| => ToLowerChar(s[i]))
  }

  /** `string.ToUpper()`: character by character. */
  function ToUpper(s: string): (r: string)
    ensures |r| == |s|
    ensures forall i :: 0 <= i < |s| ==> r[i] == ToUpperChar(s[i])
  {
    seq(|s|, i requires 0 <= i < |s| => ToUpperChar(s[i]))
  }

  /** Lower-casing a string twice, or after upper-casing it, is the same as
      lower-casing it once; and it commutes with slicing. */
  lemma ToLowerFacts(s: string)
    ensures ToLower(ToLower(s)) == ToLower(s)
    ensures ToLower(ToUpper(s)) == ToLower(s)
    ensures forall i, j :: 0 <= i <= j <= |s| ==> ToLower(s[i..j]) == ToLower(s)[i..j]
  {
    forall k | 0 <= k < |s| ensures ToLower(ToLower(s))[k] == ToLower(s)[k] {
      CaseFacts(s[k]);
    }
    forall k | 0 <= k < |s| ensures ToLower(ToUpper(s))[k] == ToLower(s)[k] {
      CaseFacts(s[k]);
    }
  }

  /** Trimming and lower-casing commute, because case mapping never creates
      or removes white space. */
  lemma TrimToLower(s: string)
    ensures Trim(ToLower(s)) == ToLower(Trim(s))
  {
    FirstNonWhiteToLower(s, 0);
    EndNonWhiteToLower(s, |s|);
    ToLowerFacts(s);
  }

  lemma {:induction false} FirstNonWhiteToLower(s: string, i: nat)
    requires i <= |s|
    ensures FirstNonWhite(ToLower(s), i) == FirstNonWhite(s, i)
    decreases |s| - i
  {
    if i < |s| {
      WhiteSpaceCaseless(s[i]);
      if IsWhiteSpace(s[i]) {
        FirstNonWhiteToLower(s, i + 1);
      }
    }
  }

  lemma {:induction false} EndNonWhiteToLower(s: string, j: nat)
    requires j <= |s|
    ensures EndNonWhite(ToLower(s), j) == EndNonWhite(s, j)
  {
    if j > 0 {
      WhiteSpaceCaseless(s[j - 1]);
      if IsWhiteSpace(s[j - 1]) {
        EndNonWhiteToLower(s, j - 1);
      }
    }
  }

  // ---------------------------------------------------------------------
  // Ordinal substring search
  // ---------------------------------------------------------------------

  /** `sub` occurs in `s` starting at index `i`. */
  predicate OccursAt(s: string, sub: string, i: int) {
    0 <= i && i + |sub| <= |s| && s[i..i + |sub|] == sub
  }

  /** `string.Contains(string)`: ordinal search by scanning start positions
      from the left; the empty string occurs everywhere. */
  function Contains(s: string, sub: string): (r: bool)
    ensures r <==> exists i :: OccursAt(s, sub, i)
    decreases |s|
  {
    if |sub| > |s| then false
    else if s[..|sub|] == sub then
      assert OccursAt(s, sub, 0);
      true
    else
      var r := Contains(s[1..], sub);
      assert r ==> exists i :: OccursAt(s, sub, i) by {
        if r {
          var i :| OccursAt(s[1..], sub, i);
          assert s[1..][i..i + |sub|] == s[i + 1..i + 1 + |sub|];
          assert OccursAt(s, sub, i + 1);
        }
      }
      assert (exists i :: OccursAt(s, sub, i)) ==> r by {
        if i :| OccursAt(s, sub, i) {
          assert i != 0;
          assert s[1..][i - 1..i - 1 + |sub|] == s[i..i + |sub|];
          assert OccursAt(s[1..], sub, i - 1);
        }
      }
      r
  }
}
