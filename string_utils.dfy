/** Trimming and ASCII lower-casing of strings, taken by value and returned as new strings. */
module StringUtils {

  /** The characters trimmed by default: space, tab, newline, carriage return,
      form feed, vertical tab and the hyphen '-'. */
  const DefaultTrimChars: string := " \t\n\r\U{000C}\U{000B}-"

  /** Removes the longest prefix made of characters in `t`
      (find_first_not_of followed by erase; everything when no character is outside `t`). */
  function LTrim(s: string, t: string := DefaultTrimChars): (r: string)
    ensures |r| <= |s| && r == s[|s| - |r|..]
    ensures r == [] || r[0] !in t
    ensures forall i :: 0 <= i < |s| - |r| ==> s[i] in t
  {
    if s == [] || s[0] !in t then s else LTrim(s[1..], t)
  }

  /** Removes the longest suffix made of characters in `t`
      (erase from find_last_not_of + 1; everything when no character is outside `t`). */
  function RTrim(s: string, t: string := DefaultTrimChars): (r: string)
    ensures |r| <= |s| && r == s[..|r|]
    ensures r == [] || r[|r| - 1] !in t
    ensures forall i :: |r| <= i < |s| ==> s[i] in t
  {
    if s == [] || s[|s| - 1] !in t then s else RTrim(s[..|s| - 1], t)
  }

  /** Trims both ends: the right end first, then the left end. */
  function Trim(s: string, t: string := DefaultTrimChars): string
  {
    LTrim(RTrim(s, t), t)
  }

  /** std::tolower in the "C" locale: only 'A'..'Z' change. */
  function LowerChar(c: char): (d: char)
    ensures 'A' <= c <= 'Z' ==> d as int == c as int + ('a' as int - 'A' as int)
    ensures !('A' <= d <= 'Z')
    ensures !('A' <= c <= 'Z') ==> d == c
  {
    if 'A' <= c <= 'Z' then (c as int - 'A' as int + 'a' as int) as char else c
  }

  /** Maps every character independently through LowerChar. */
  function Lowercase(s: string): (r: string)
    ensures |r| == |s|
    ensures forall i :: 0 <= i < |s| ==> r[i] == LowerChar(s[i])
  {
    if s == [] then [] else [LowerChar(s[0])] + Lowercase(s[1..])
  }

  /** A string of upper-case letters lowercases letter by letter to 'a'..'z',
      each 32 code points up. */
  lemma LowercaseUpper(s: string)
    requires forall i :: 0 <= i < |s| ==> 'A' <= s[i] <= 'Z'
    ensures forall i :: 0 <= i < |s| ==> 'a' <= Lowercase(s)[i] <= 'z' && Lowercase(s)[i] as int == s[i] as int + 32
  {
  }

  function TrimAndLowercase(s: string): string
  {
    Lowercase(Trim(s))
  }

  /** The piece of `s` that Trim keeps runs from `i` to `j`, and everything cut away lies in `t`. */
  lemma TrimBounds(s: string, t: string) returns (i: nat, j: nat)
    ensures i <= j <= |s| && Trim(s, t) == s[i..j]
    ensures forall k :: 0 <= k < i ==> s[k] in t
    ensures forall k :: j <= k < |s| ==> s[k] in t
  {
    var m := RTrim(s, t);
    var r := LTrim(m, t);
    i, j := |m| - |r|, |m|;
    assert m == s[..j];
    assert r == m[i..];
    assert forall k :: 0 <= k < i ==> s[k] == m[k];
  }

  /** The ends of a non-empty Trim result are outside `t`. */
  lemma TrimEnds(s: string, t: string)
    ensures Trim(s, t) == [] || (Trim(s, t)[0] !in t && Trim(s, t)[|Trim(s, t)| - 1] !in t)
  {
    var m := RTrim(s, t);
    var r := LTrim(m, t);
    if r != [] {
      assert r == m[|m| - |r|..];
      assert r[|r| - 1] == m[|m| - 1];
    }
  }

  /** The result of Trim is a contiguous piece of `s` that neither begins nor
      ends with a character of `t`, and everything cut away lies in `t`. */
  lemma TrimIsTrimmedSlice(s: string, t: string)
    ensures exists i, j :: 0 <= i <= j <= |s| && Trim(s, t) == s[i..j]
                          && (forall k :: 0 <= k < i ==> s[k] in t)
                          && (forall k :: j <= k < |s| ==> s[k] in t)
    ensures Trim(s, t) == [] || (Trim(s, t)[0] !in t && Trim(s, t)[|Trim(s, t)| - 1] !in t)
  {
    var i, j := TrimBounds(s, t);
    TrimEnds(s, t);
  }

  /** A string that neither begins nor ends with a character of `t` is left alone. */
  lemma {:induction false} TrimKeepsTrimmed(s: string, t: string)
    requires s == [] || (s[0] !in t && s[|s| - 1] !in t)
    ensures Trim(s, t) == s
  {
  }

  /** Trimming twice is trimming once. */
  lemma TrimIdempotent(s: string, t: string)
    ensures Trim(Trim(s, t), t) == Trim(s, t)
  {
    TrimIsTrimmedSlice(s, t);
    TrimKeepsTrimmed(Trim(s, t), t);
  }

  /** A string made only of trim characters trims to nothing, in either direction. */
  lemma AllTrimCharsVanish(s: string, t: string)
    requires forall k :: 0 <= k < |s| ==> s[k] in t
    ensures LTrim(s, t) == [] && RTrim(s, t) == [] && Trim(s, t) == []
  {
  }

  /** The default trim set includes the hyphen, so a dash-only word vanishes. */
  lemma HyphenIsTrimmed()
    ensures '-' in DefaultTrimChars && Trim("--") == []
  {
    AllTrimCharsVanish("--", DefaultTrimChars);
  }

  /** Lower-casing is idempotent and leaves no upper-case ASCII letter. */
  lemma LowercaseIdempotent(s: string)
    ensures Lowercase(Lowercase(s)) == Lowercase(s)
    ensures forall i :: 0 <= i < |s| ==> !('A' <= Lowercase(s)[i] <= 'Z')
  {
    assert forall i :: 0 <= i < |s| ==> LowerChar(LowerChar(s[i])) == LowerChar(s[i]);
  }

  /** TrimAndLowercase yields a lower-case string whose length is that of the trimmed input. */
  lemma TrimAndLowercaseShape(s: string)
    ensures |TrimAndLowercase(s)| == |Trim(s)|
    ensures forall i :: 0 <= i < |Trim(s)| ==> TrimAndLowercase(s)[i] == LowerChar(Trim(s)[i])
    ensures Lowercase(TrimAndLowercase(s)) == TrimAndLowercase(s)
  {
    LowercaseIdempotent(Trim(s));
  }
}
