/** The title-casing of material names used in every message
    (utils/Formatting.java). Case mapping covers the ASCII letters only. */
module Formatting {

  /** The characters that separate words in a material name. */
  predicate IsSeparator(c: char) {
    c == '_' || c == '-' || c == ' '
  }

  /** Upper-case an ASCII letter; every other character is unchanged. */
  function ToUpper(c: char): (r: char)
    ensures 'a' <= c <= 'z' ==> 'A' <= r <= 'Z' && r as int == c as int - 32
    ensures !('a' <= c <= 'z') ==> r == c
  {
    if 'a' <= c <= 'z' then (c as int - 32) as char else c
  }

  /** Lower-case an ASCII letter; every other character is unchanged. */
  function ToLower(c: char): (r: char)
    ensures 'A' <= c <= 'Z' ==> 'a' <= r <= 'z' && r as int == c as int + 32
    ensures !('A' <= c <= 'Z') ==> r == c
  {
    if 'A' <= c <= 'Z' then (c as int + 32) as char else c
  }

  /** Does position `i` of `s` start a word? It does at the front when the
      scan starts at a word boundary, and right after any separator. */
  predicate StartsWord(s: string, i: nat, atBoundary: bool)
    requires i < |s|
  {
    if i == 0 then atBoundary else IsSeparator(s[i - 1])
  }

  /** The character the title-casing produces at position `i`, stated
      independently of the left-to-right scan. */
  function TitleChar(s: string, i: nat, atBoundary: bool): char
    requires i < |s|
  {
    if IsSeparator(s[i]) then ' '
    else if StartsWord(s, i, atBoundary) then ToUpper(s[i])
    else ToLower(s[i])
  }

  /** The scan of `toTitleCase` in Formatting.java: one output character per input character,
      carrying whether the previous character was a separator. */
  function TitleScan(s: string, prevSpace: bool): (r: string)
    ensures |r| == |s|
    ensures forall i :: 0 <= i < |s| ==> r[i] == TitleChar(s, i, prevSpace)
  {
    if |s| == 0 then ""
    else
      var rest := TitleScan(s[1..], IsSeparator(s[0]));
      assert forall i :: 1 <= i < |s| ==> TitleChar(s[1..], i - 1, IsSeparator(s[0])) == TitleChar(s, i, prevSpace);
      var first := if IsSeparator(s[0]) then ' ' else if prevSpace then ToUpper(s[0]) else ToLower(s[0]);
      [first] + rest
  }

  /** `Formatting.toTitleCase`. */
  function ToTitleCase(s: string): (r: string)
    ensures |r| == |s|
    ensures forall i :: 0 <= i < |s| && IsSeparator(s[i]) ==> r[i] == ' '
    ensures forall i :: 0 <= i < |s| && !IsSeparator(s[i]) && (i == 0 || IsSeparator(s[i - 1])) ==> r[i] == ToUpper(s[i])
    ensures forall i :: 0 <= i < |s| && !IsSeparator(s[i]) && i > 0 && !IsSeparator(s[i - 1]) ==> r[i] == ToLower(s[i])
    ensures '_' !in r && '-' !in r
  {
    TitleScan(s, true)
  }

  /** Title-casing a title-cased string changes nothing. */
  lemma ToTitleCaseIdempotent(s: string)
    ensures ToTitleCase(ToTitleCase(s)) == ToTitleCase(s)
  {
  }
}
