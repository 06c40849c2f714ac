/** Well-formed UTF-8 (section 4 of RFC 3629) and where it can be cut. */
module Utf8 {
  import opened Words

  predicate Continuation(b: Byte) {
    0x80 <= b < 0xC0
  }

  /** Length of the rune that `s` starts with; zero if `s` starts with no well-formed rune. */
  function RuneLen(s: seq<Byte>): (n: nat)
    ensures n <= |s| && n <= 4
    ensures forall i :: 1 <= i < n ==> Continuation(s[i])
  {
    if |s| >= 1 && s[0] < 0x80 then 1
    else if |s| >= 2 && 0xC2 <= s[0] <= 0xDF && Continuation(s[1]) then 2
    else if |s| >= 3 && 0xE0 <= s[0] <= 0xEF && Continuation(s[1]) && Continuation(s[2])
            && (s[0] == 0xE0 ==> s[1] >= 0xA0) && (s[0] == 0xED ==> s[1] <= 0x9F) then 3
    else if |s| >= 4 && 0xF0 <= s[0] <= 0xF4 && Continuation(s[1]) && Continuation(s[2]) && Continuation(s[3])
            && (s[0] == 0xF0 ==> s[1] >= 0x90) && (s[0] == 0xF4 ==> s[1] <= 0x8F) then 4
    else 0
  }

  predicate ValidString(s: seq<Byte>) {
    s == [] || (RuneLen(s) > 0 && ValidString(s[RuneLen(s)..]))
  }

  // ---------- well-formed means encoded ----------

  /** The characters that UTF-8 encodes: no surrogates, nothing above U+10FFFF. */
  predicate Scalar(c: nat) {
    c < 0xD800 || 0xE000 <= c < 0x11_0000
  }

  /** The bytes of a character (section 3 of RFC 3629). */
  function EncodeRune(c: nat): (s: seq<Byte>)
    requires Scalar(c)
    ensures 0 < |s| <= 4
  {
    if c < 0x80 then [c]
    else if c < 0x800 then [0xC0 + c / 0x40, 0x80 + c % 0x40]
    else if c < 0x1_0000 then [0xE0 + c / 0x1000, 0x80 + c / 0x40 % 0x40, 0x80 + c % 0x40]
    else [0xF0 + c / 0x4_0000, 0x80 + c / 0x1000 % 0x40, 0x80 + c / 0x40 % 0x40, 0x80 + c % 0x40]
  }

  predicate IsText(text: seq<nat>) {
    forall i :: 0 <= i < |text| ==> Scalar(text[i])
  }

  function EncodeAll(text: seq<nat>): seq<Byte>
    requires IsText(text)
  {
    if text == [] then [] else EncodeRune(text[0]) + EncodeAll(text[1..])
  }

  lemma RuneOfEncoding(c: nat, rest: seq<Byte>)
    requires Scalar(c)
    ensures RuneLen(EncodeRune(c) + rest) == |EncodeRune(c)|
  {
    var s := EncodeRune(c) + rest;
    if c < 0x80 {
      assert s[0] == c;
    } else if c < 0x800 {
      assert s[0] == 0xC0 + c / 0x40 && s[1] == 0x80 + c % 0x40;
    } else if c < 0x1_0000 {
      assert s[0] == 0xE0 + c / 0x1000 && s[1] == 0x80 + c / 0x40 % 0x40 && s[2] == 0x80 + c % 0x40;
      assert c < 0x1000 ==> c / 0x40 < 0x40;
      assert c / 0x1000 == 0xD ==> c / 0x40 % 0x40 == c / 0x40 - 0x340;
    } else {
      assert s[0] == 0xF0 + c / 0x4_0000 && s[1] == 0x80 + c / 0x1000 % 0x40;
      assert s[2] == 0x80 + c / 0x40 % 0x40 && s[3] == 0x80 + c % 0x40;
      assert c < 0x4_0000 ==> c / 0x1000 % 0x40 == c / 0x1000;
      assert c / 0x4_0000 == 4 ==> c / 0x1000 % 0x40 == c / 0x1000 - 0x100;
    }
  }

  lemma EncodesOne(c: nat)
    requires c < 0x80
    ensures Scalar(c) && EncodeRune(c) == [c]
  {
  }

  lemma EncodesTwo(x: nat, y: nat)
    requires 2 <= x < 0x20 && y < 0x40
    ensures var c := 0x40 * x + y; Scalar(c) && EncodeRune(c) == [0xC0 + x, 0x80 + y]
  {
    assert (0x40 * x + y) / 0x40 == x;
  }

  lemma EncodesThree(x: nat, y: nat, z: nat)
    requires x < 0x10 && y < 0x40 && z < 0x40 && (x == 0 ==> y >= 0x20) && (x == 0xD ==> y < 0x20)
    ensures var c := 0x40 * (0x40 * x + y) + z; Scalar(c) && EncodeRune(c) == [0xE0 + x, 0x80 + y, 0x80 + z]
  {
    var high := 0x40 * x + y;
    var c := 0x40 * high + z;
    assert c / 0x40 == high && high / 0x40 == x && c / 0x1000 == x;
  }

  lemma EncodesFour(x: nat, y: nat, z: nat, w: nat)
    requires x <= 4 && y < 0x40 && z < 0x40 && w < 0x40 && (x == 0 ==> y >= 0x10) && (x == 4 ==> y < 0x10)
    ensures var c := 0x40 * (0x40 * (0x40 * x + y) + z) + w;
            Scalar(c) && EncodeRune(c) == [0xF0 + x, 0x80 + y, 0x80 + z, 0x80 + w]
  {
    var high := 0x40 * x + y;
    var mid := 0x40 * high + z;
    var c := 0x40 * mid + w;
    assert c / 0x40 == mid && mid / 0x40 == high && high / 0x40 == x;
    assert c / 0x1000 == high && c / 0x4_0000 == x;
  }

  lemma EncodingOfRune(s: seq<Byte>) returns (c: nat)
    requires RuneLen(s) > 0
    ensures Scalar(c) && EncodeRune(c) == s[..RuneLen(s)]
  {
    hide EncodeRune, Scalar;
    var n := RuneLen(s);
    var lead, rest: seq<int> := s[0] as int, seq(n - 1, i requires 0 <= i < n - 1 => s[i + 1] as int - 0x80);
    if n == 1 {
      c := lead;
      EncodesOne(c);
    } else if n == 2 {
      c := 0x40 * (lead - 0xC0) + rest[0];
      EncodesTwo(lead - 0xC0, rest[0]);
    } else if n == 3 {
      c := 0x40 * (0x40 * (lead - 0xE0) + rest[0]) + rest[1];
      EncodesThree(lead - 0xE0, rest[0], rest[1]);
    } else {
      c := 0x40 * (0x40 * (0x40 * (lead - 0xF0) + rest[0]) + rest[1]) + rest[2];
      EncodesFour(lead - 0xF0, rest[0], rest[1], rest[2]);
    }
  }

  lemma {:induction false} ValidIsEncoded(s: seq<Byte>) returns (text: seq<nat>)
    requires ValidString(s)
    ensures IsText(text) && EncodeAll(text) == s
    decreases |s|
  {
    hide RuneLen, EncodeRune, Scalar;
    if s == [] {
      text := [];
    } else {
      var n := RuneLen(s);
      var c := EncodingOfRune(s);
      var rest := ValidIsEncoded(s[n..]);
      text := [c] + rest;
      assert text[1..] == rest && s == s[..n] + s[n..];
    }
  }

  /** The strings accepted as well-formed are exactly the encodings of sequences of characters. */
  lemma ValidExactly(s: seq<Byte>)
    ensures ValidString(s) <==> exists text :: IsText(text) && EncodeAll(text) == s
  {
    hide ValidString, EncodeAll;
    if ValidString(s) {
      var text := ValidIsEncoded(s);
    } else if text :| IsText(text) && EncodeAll(text) == s {
      EncodedIsValid(text);
      assert false;
    }
  }

  lemma {:induction false} EncodedIsValid(text: seq<nat>)
    requires IsText(text)
    ensures ValidString(EncodeAll(text))
  {
    hide RuneLen, EncodeRune, Scalar;
    if text != [] {
      var rest := EncodeAll(text[1..]);
      RuneOfEncoding(text[0], rest);
      EncodedIsValid(text[1..]);
      assert EncodeAll(text)[|EncodeRune(text[0])|..] == rest;
    }
  }

  // ---------- cutting ----------

  /** A well-formed string can be cut before any byte that starts a rune. */
  lemma {:induction false} ValidCut(s: seq<Byte>, i: nat)
    requires ValidString(s) && i <= |s| && (i < |s| ==> !Continuation(s[i]))
    ensures ValidString(s[..i]) && ValidString(s[i..])
    decreases |s|
  {
    hide RuneLen;
    if i == 0 {
      assert s[0..] == s;
    } else {
      var n := RuneLen(s);
      assert n <= i;
      var t, p := s[n..], s[..i];
      ValidCut(t, i - n);
      assert s[i..] == t[i - n..];
      assert p[n..] == t[..i - n];
      SameRune(s, p);
    }
  }

  /** The first rune only looks at its own bytes. */
  lemma SameRune(s: seq<Byte>, p: seq<Byte>)
    requires RuneLen(s) > 0 && p <= s && RuneLen(s) <= |p|
    ensures RuneLen(p) == RuneLen(s)
  {
  }

  /** Cutting a well-formed string anywhere leaves at most three bytes too many. */
  lemma {:induction false} CutBackThree(s: seq<Byte>, m: nat) returns (k: nat)
    requires ValidString(s) && m <= |s|
    ensures k <= 3 && k <= m && ValidString(s[..m - k])
    decreases |s|
  {
    hide RuneLen;
    var n := RuneLen(s);
    if m == 0 || m < n {
      k := m;
      assert s[..m - k] == [];
    } else {
      var t := s[n..];
      k := CutBackThree(t, m - n);
      var p := s[..m - k];
      SameRune(s, p);
      assert p[n..] == t[..m - n - k];
      assert ValidString(p);
    }
  }

  // ---------- truncateUTF8 ----------

  const UTF_MAX: nat := 4

  /** `s` without its last bytes until it is well-formed, but without at most `tries` of them. */
  function BackUp(s: seq<Byte>, tries: nat): (r: seq<Byte>)
    ensures r <= s
  {
    if tries == 0 || s == [] || ValidString(s) then s
    else BackUp(s[..|s| - 1], tries - 1)
  }

  function Cut(s: seq<Byte>, maxBytes: nat): seq<Byte> {
    if maxBytes < |s| then s[..maxBytes] else s
  }

  method TruncateUtf8(input: seq<Byte>, maxBytes: nat) returns (s: seq<Byte>)
    ensures s == BackUp(Cut(input, maxBytes), UTF_MAX)
  {
    s := input;
    if maxBytes < |s| {
      s := s[..maxBytes];
    }
    var i := 0;
    while i < UTF_MAX && |s| > 0
      invariant i <= UTF_MAX
      invariant BackUp(s, UTF_MAX - i) == BackUp(Cut(input, maxBytes), UTF_MAX)
    {
      if ValidString(s) {
        return;
      }
      s := s[..|s| - 1];
      i := i + 1;
    }
  }

  /** On any string: the longest well-formed prefix if it lacks fewer bytes than `tries`, else that many bytes less. */
  lemma {:induction false} BackUpAny(s: seq<Byte>, tries: nat)
    ensures var r := BackUp(s, tries);
            && (ValidString(r) || |r| + tries == |s|)
            && forall p :: p <= s && |r| < |p| ==> !ValidString(p)
    decreases tries
  {
    hide ValidString;
    if tries > 0 && s != [] && !ValidString(s) {
      var s' := s[..|s| - 1];
      BackUpAny(s', tries - 1);
      forall p | p <= s && |BackUp(s, tries)| < |p|
        ensures !ValidString(p)
      {
        if |p| < |s| { assert p <= s'; } else { assert p == s; }
      }
    } else if s == [] {
      EmptyValid();
    }
  }

  lemma EmptyValid()
    ensures ValidString([])
  {
  }

  /** On a piece of a well-formed string, backing up finds the longest well-formed prefix. */
  lemma BackUpLongest(v: seq<Byte>, s: seq<Byte>)
    requires ValidString(v) && s <= v
    ensures ValidString(BackUp(s, UTF_MAX))
    ensures forall p :: p <= s && |BackUp(s, UTF_MAX)| < |p| ==> !ValidString(p)
  {
    var k := CutBackThree(v, |s|);
    assert s[..|s| - k] == v[..|s| - k];
    BackUpFinds(s, UTF_MAX, k);
  }

  lemma {:induction false} BackUpFinds(s: seq<Byte>, tries: nat, k: nat)
    requires k < tries && k <= |s| && ValidString(s[..|s| - k])
    ensures ValidString(BackUp(s, tries))
    ensures forall p :: p <= s && |BackUp(s, tries)| < |p| ==> !ValidString(p)
    decreases tries
  {
    hide ValidString;
    assert s[..|s|] == s;
    if !ValidString(s) {
      var s' := s[..|s| - 1];
      assert s'[..|s'| - (k - 1)] == s[..|s| - k];
      BackUpFinds(s', tries - 1, k - 1);
      forall p | p <= s && |BackUp(s, tries)| < |p|
        ensures !ValidString(p)
      {
        if |p| < |s| { assert p <= s'; } else { assert p == s; }
      }
    }
  }
}
