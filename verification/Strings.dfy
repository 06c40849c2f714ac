/** Searching strings, and the case of ASCII strings. */
module Strings {

  ghost predicate IsAscii(s: string) {
    forall i :: 0 <= i < |s| ==> s[i] < 128 as char
  }

  function LowerChar(c: char): char {
    if 'A' <= c <= 'Z' then (c as int + 32) as char else c
  }

  function UpperChar(c: char): char {
    if 'a' <= c <= 'z' then (c as int - 32) as char else c
  }

  function ToLower(s: string): (r: string)
    ensures |r| == |s|
  {
    seq(|s|, i requires 0 <= i < |s| => LowerChar(s[i]))
  }

  function ToUpper(s: string): (r: string)
    ensures |r| == |s|
  {
    seq(|s|, i requires 0 <= i < |s| => UpperChar(s[i]))
  }

  /** A string has a letter of the other case exactly when changing the case changes it. */
  lemma CaseChanges(s: string)
    ensures ToLower(s) != s <==> exists i :: 0 <= i < |s| && 'A' <= s[i] <= 'Z'
    ensures ToUpper(s) != s <==> exists i :: 0 <= i < |s| && 'a' <= s[i] <= 'z'
  {
    if ToLower(s) != s {
      var i :| 0 <= i < |s| && ToLower(s)[i] != s[i];
    }
    if ToUpper(s) != s {
      var i :| 0 <= i < |s| && ToUpper(s)[i] != s[i];
    }
    forall i | 0 <= i < |s|
      ensures 'A' <= s[i] <= 'Z' ==> ToLower(s)[i] != s[i]
      ensures 'a' <= s[i] <= 'z' ==> ToUpper(s)[i] != s[i]
    {
    }
  }

  lemma LowerIdempotent(s: string)
    ensures ToLower(ToLower(s)) == ToLower(s)
  {
  }

  /** Index of the first occurrence of `c` in `s`, or -1. */
  function IndexOf(s: string, c: char): (i: int)
    ensures -1 <= i < |s| && (i >= 0 ==> s[i] == c)
    ensures forall j :: 0 <= j < (if i >= 0 then i else |s|) ==> s[j] != c
  {
    if s == "" then -1
    else if s[0] == c then 0
    else
      var i := IndexOf(s[1..], c);
      if i == -1 then -1 else i + 1
  }

  /** A separator behind text without one is found, and splits the text off. */
  lemma IndexOfSeparator(s: string, c: char, t: string)
    requires c !in s
    ensures var joined := s + [c] + t;
            IndexOf(s, c) == -1 && IndexOf(joined, c) == |s| && joined[..|s|] == s && joined[|s| + 1..] == t
  {
    var joined := s + [c] + t;
    assert joined[|s|] == c;
    assert forall j :: 0 <= j < |s| ==> joined[j] == s[j] && s[j] in s;
  }

  /** Index of the last occurrence of `c` in `s`, or -1. */
  function LastIndexOf(s: string, c: char): (i: int)
    ensures -1 <= i < |s| && (i >= 0 ==> s[i] == c)
    ensures forall j :: i < j < |s| ==> s[j] != c
  {
    if s == "" then -1
    else
      var n := |s| - 1;
      if s[n] == c then n else LastIndexOf(s[..n], c)
  }
}
