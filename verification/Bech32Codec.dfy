/** `Encode` and `Decode`: Bech32 strings without the length limit of BIP 173. */
module Bech32Codec {
  import opened Words
  import opened Wrappers
  import opened Strings
  import opened Bech32Bits
  import opened Bech32Checksum

  const CHARSET: string := "qpzry9x8gf2tvdw0s3jn54khce6mua7l"

  datatype EncodeError = Conversion(error: BitsError) | EmptyHrp | HrpCharacter(index: nat) | MixedCaseHrp

  datatype DecodeError =
    | MixedCase
    | Separator(pos: int)
    | InvalidHrpCharacter(index: nat)
    | DataCharacter(index: nat)
    | InvalidChecksum
    | Padding(error: BitsError)

  // ---------- characters ----------

  predicate HrpChar(c: char) {
    33 <= c as int <= 126
  }

  /** The index of `c` in the charset, or -1; see `SymbolIsIndex`. */
  function Symbol(c: char): (p: int)
    ensures -1 <= p < 32
  {
    match c
    case 'q' => 0
    case 'p' => 1
    case 'z' => 2
    case 'r' => 3
    case 'y' => 4
    case '9' => 5
    case 'x' => 6
    case '8' => 7
    case 'g' => 8
    case 'f' => 9
    case '2' => 10
    case 't' => 11
    case 'v' => 12
    case 'd' => 13
    case 'w' => 14
    case '0' => 15
    case 's' => 16
    case '3' => 17
    case 'j' => 18
    case 'n' => 19
    case '5' => 20
    case '4' => 21
    case 'k' => 22
    case 'h' => 23
    case 'c' => 24
    case 'e' => 25
    case '6' => 26
    case 'm' => 27
    case 'u' => 28
    case 'a' => 29
    case '7' => 30
    case 'l' => 31
    case _ => -1
  }

  lemma SymbolOfChar(p: nat)
    requires p < 32
    ensures Symbol(CHARSET[p]) == p
    ensures CHARSET[p] != '1' && LowerChar(CHARSET[p]) == CHARSET[p] &&
            UpperChar(CHARSET[p]) != '1' && CHARSET[p] < 128 as char
  {
  }

  lemma CharOfSymbol(c: char)
    requires Symbol(c) != -1
    ensures CHARSET[Symbol(c)] == c
  {
  }

  lemma SymbolIsIndex(c: char)
    ensures IndexOf(CHARSET, c) == Symbol(c)
  {
    hide Symbol, IndexOf;
    var i := IndexOf(CHARSET, c);
    if i != -1 {
      SymbolOfChar(i);
    } else if Symbol(c) != -1 {
      CharOfSymbol(c);
    }
  }

  predicate DataChar(c: char) {
    Symbol(c) != -1
  }

  /** Index of the first character that is not `ok`. */
  function FirstBad(s: string, ok: char -> bool): (r: Option<nat>)
    ensures r.None? <==> forall i :: 0 <= i < |s| ==> ok(s[i])
    ensures r.Some? ==> r.value < |s| && !ok(s[r.value]) && forall i :: 0 <= i < r.value ==> ok(s[i])
  {
    if s == "" then None
    else
      var n := |s| - 1;
      match FirstBad(s[..n], ok)
      case Some(i) => Some(i)
      case None => if ok(s[n]) then None else Some(n)
  }

  predicate Mixed(s: string) {
    ToLower(s) != s && ToUpper(s) != s
  }

  function Chars(values: seq<Byte>): (s: string)
    requires Symbols(values)
    ensures |s| == |values|
  {
    seq(|values|, i requires 0 <= i < |values| => CHARSET[values[i]])
  }

  function Values(t: string): (values: seq<Byte>)
    requires FirstBad(t, DataChar).None?
    ensures |values| == |t| && Symbols(values)
  {
    seq(|t|, i requires 0 <= i < |t| => Symbol(t[i]))
  }

  // ---------- what Encode and Decode compute ----------

  function Encoded(hrp: string, data: seq<Byte>): Result<string, EncodeError> {
    match Regroup(data, 8, 5, true)
    case Err(e) => Err(Conversion(e))
    case Ok(values) =>
      if |hrp| < 1 then Err(EmptyHrp)
      else if FirstBad(hrp, HrpChar).Some? then Err(HrpCharacter(FirstBad(hrp, HrpChar).value))
      else if ToUpper(hrp) != hrp && ToLower(hrp) != hrp then Err(MixedCaseHrp)
      else
        SymbolsFit(data, values);
        var t := Assemble(ToLower(hrp), values);
        Ok(if ToLower(hrp) == hrp then t else ToUpper(t))
  }

  /** The lower-case Bech32 string of `hrp` and the symbols `values`. */
  function Assemble(hrp: string, values: seq<Byte>): string
    requires IsAscii(hrp) && Symbols(values)
  {
    hrp + "1" + Chars(values + Checksum(hrp, values))
  }

  function Decoded(s: string): Result<(string, seq<Byte>), DecodeError>
    requires IsAscii(s)
  {
    var pos := LastIndexOf(s, '1');
    if Mixed(s) then Err(MixedCase)
    else if pos < 1 || pos + 7 > |s| then Err(Separator(pos))
    else
      var hrp, t := s[..pos], ToLower(s)[pos + 1..];
      if FirstBad(hrp, HrpChar).Some? then Err(InvalidHrpCharacter(FirstBad(hrp, HrpChar).value))
      else if FirstBad(t, DataChar).Some? then Err(DataCharacter(FirstBad(t, DataChar).value))
      else if !Verifies(hrp, Values(t)) then Err(InvalidChecksum)
      else
        match Regroup(Values(t)[..|t| - 6], 5, 8, false)
        case Err(e) => Err(Padding(e))
        case Ok(data) => Ok((hrp, data))
  }

  lemma SymbolsFit(data: seq<Byte>, values: seq<Byte>)
    requires Regroup(data, 8, 5, true) == Ok(values)
    ensures Symbols(values)
  {
    hide Regroup;
    RegroupRoundTrip(data);
    forall i | 0 <= i < |values|
      ensures values[i] < 32
    {
      assert Shr(values[i], 5) == 0;
      ShrFive(values[i]);
    }
  }

  lemma ShrFive(v: Byte)
    ensures Shr(v, 5) == v / 32
  {
    ShrByFive(v, 1);
  }

  method CheckHrp(hrp: string) returns (bad: Option<nat>)
    ensures bad == FirstBad(hrp, HrpChar)
  {
    for p := 0 to |hrp|
      invariant forall i :: 0 <= i < p ==> HrpChar(hrp[i])
    {
      var c := hrp[p];
      if c as int < 33 || c as int > 126 {
        return Some(p);
      }
    }
    return None;
  }

  method Encode(hrp: string, data: seq<Byte>) returns (r: Result<string, EncodeError>)
    ensures r == Encoded(hrp, data)
  {
    hide Regroup, Chars, Checksum;
    var converted := ConvertBits(data, 8, 5, true);
    if converted.Err? {
      return Err(Conversion(converted.error));
    }
    var values := converted.value;
    if |hrp| < 1 {
      return Err(EmptyHrp);
    }
    var bad := CheckHrp(hrp);
    if bad.Some? {
      return Err(HrpCharacter(bad.value));
    }
    if ToUpper(hrp) != hrp && ToLower(hrp) != hrp {
      return Err(MixedCaseHrp);
    }
    var lower := ToLower(hrp) == hrp;
    var low := ToLower(hrp);
    SymbolsFit(data, values);
    var ret := low + "1";
    var written := WriteChars(values);
    ret := ret + written;
    var checksum := CreateChecksum(low, values);
    written := WriteChars(checksum);
    ret := ret + written;
    assert ret == Assemble(low, values) by { CharsConcat(values, checksum); }
    if lower {
      return Ok(ret);
    }
    return Ok(ToUpper(ret));
  }

  method WriteChars(values: seq<Byte>) returns (s: string)
    requires Symbols(values)
    ensures s == Chars(values)
  {
    s := "";
    for i := 0 to |values|
      invariant s == Chars(values[..i])
    {
      assert values[..i + 1] == values[..i] + [values[i]];
      s := s + [CHARSET[values[i]]];
    }
    assert values[..|values|] == values;
  }

  lemma CharsConcat(a: seq<Byte>, b: seq<Byte>)
    requires Symbols(a) && Symbols(b)
    ensures Chars(a + b) == Chars(a) + Chars(b)
  {
  }

  method ReadChars(t: string) returns (r: Result<seq<Byte>, nat>)
    ensures r == match FirstBad(t, DataChar) case Some(i) => Err(i) case None => Ok(Values(t))
  {
    hide Symbol, IndexOf, FirstBad;
    var data: seq<Byte> := [];
    for p := 0 to |t|
      invariant forall i :: 0 <= i < p ==> DataChar(t[i])
      invariant |data| == p && forall i :: 0 <= i < p ==> data[i] == Symbol(t[i])
    {
      var d := IndexOf(CHARSET, t[p]);
      SymbolIsIndex(t[p]);
      if d == -1 {
        return Err(p);
      }
      data := data + [d];
    }
    assert data == Values(t);
    return Ok(data);
  }

  method Decode(s: string) returns (r: Result<(string, seq<Byte>), DecodeError>)
    requires IsAscii(s)
    ensures r == Decoded(s)
  {
    hide Regroup, Verifies, IndexOf, LastIndexOf, FirstBad, Values;
    if ToLower(s) != s && ToUpper(s) != s {
      return Err(MixedCase);
    }
    var pos := LastIndexOf(s, '1');
    if pos < 1 || pos + 7 > |s| {
      return Err(Separator(pos));
    }
    var hrp := s[..pos];
    var bad := CheckHrp(hrp);
    if bad.Some? {
      return Err(InvalidHrpCharacter(bad.value));
    }
    var t := ToLower(s)[pos + 1..];
    var read := ReadChars(t);
    if read.Err? {
      return Err(DataCharacter(read.error));
    }
    var data := read.value;
    var ok := VerifyChecksum(hrp, data);
    if !ok {
      return Err(InvalidChecksum);
    }
    var converted := ConvertBits(data[..|data| - 6], 5, 8, false);
    if converted.Err? {
      return Err(Padding(converted.error));
    }
    return Ok((hrp, converted.value));
  }

  // ---------- round trips ----------

  lemma ValuesOfChars(values: seq<Byte>)
    requires Symbols(values)
    ensures FirstBad(Chars(values), DataChar).None? && Values(Chars(values)) == values
  {
    hide Symbol;
    forall i | 0 <= i < |values|
      ensures DataChar(Chars(values)[i]) && Symbol(Chars(values)[i]) == values[i]
    {
      SymbolOfChar(values[i]);
    }
  }

  lemma CharsOfValues(t: string)
    requires FirstBad(t, DataChar).None?
    ensures Chars(Values(t)) == t
  {
    hide Symbol;
    forall i | 0 <= i < |t|
      ensures Chars(Values(t))[i] == t[i]
    {
      assert DataChar(t[i]);
      CharOfSymbol(t[i]);
    }
  }

  /** A separator, then only data characters: the separator is the last '1'. */
  lemma LastSeparator(s: string, n: nat, t: string)
    requires n < |s| && LowerChar(s[n]) == '1' && ToLower(s)[n + 1..] == t && FirstBad(t, DataChar).None?
    ensures LastIndexOf(s, '1') == n
  {
    hide LastIndexOf, Symbol;
    forall i | n < i < |s|
      ensures s[i] != '1'
    {
      assert t[i - n - 1] == LowerChar(s[i]) && DataChar(t[i - n - 1]);
      var c := t[i - n - 1];
      CharOfSymbol(c);
      SymbolOfChar(Symbol(c));
    }
  }

  /** When `Decode` succeeds: `n` is the place of the separator, `all` the symbols behind it. */
  ghost predicate Parses(s: string, n: nat, all: seq<Byte>, data: seq<Byte>)
    requires IsAscii(s)
  {
    && !Mixed(s) && 0 < n && n + 7 <= |s| && LastIndexOf(s, '1') == n
    && FirstBad(s[..n], HrpChar).None?
    && FirstBad(ToLower(s)[n + 1..], DataChar).None? && Values(ToLower(s)[n + 1..]) == all
    && Verifies(s[..n], all)
    && Regroup(all[..|all| - 6], 5, 8, false) == Ok(data)
  }

  lemma ParsesDecoded(s: string, n: nat, all: seq<Byte>, data: seq<Byte>)
    requires IsAscii(s) && Parses(s, n, all, data)
    ensures Decoded(s) == Ok((s[..n], data))
  {
    hide Regroup, Verifies, LastIndexOf, Values, FirstBad, ToLower;
  }

  lemma DecodedParses(s: string) returns (n: nat, all: seq<Byte>)
    requires IsAscii(s) && Decoded(s).Ok?
    ensures Parses(s, n, all, Decoded(s).value.1) && s[..n] == Decoded(s).value.0
  {
    hide Regroup, Verifies, LastIndexOf, Values, FirstBad, ToLower;
    n := LastIndexOf(s, '1');
    all := Values(ToLower(s)[n + 1..]);
  }

  lemma HrpOfLower(hrp: string)
    requires FirstBad(ToLower(hrp), HrpChar).None?
    ensures FirstBad(hrp, HrpChar).None?
  {
    forall i | 0 <= i < |hrp|
      ensures HrpChar(hrp[i])
    {
      assert HrpChar(ToLower(hrp)[i]);
    }
  }

  /** In whatever single case it is written, the string of `low` and `values` decodes to its parts. */
  lemma DecodesAnyCase(s: string, low: string, values: seq<Byte>, data: seq<Byte>)
    requires IsAscii(s) && !Mixed(s)
    requires |low| > 0 && IsAscii(low) && FirstBad(low, HrpChar).None? && ToLower(low) == low
    requires Symbols(values) && Regroup(values, 5, 8, false) == Ok(data)
    requires ToLower(s) == Assemble(low, values)
    ensures |low| <= |s| && Decoded(s) == Ok((s[..|low|], data))
  {
    hide ToLower, Regroup, Verifies, LastIndexOf, LowerChar, Values, FirstBad, Checksum, Chars,
         HrpExpand, Symbols, Symbol, HrpChar, DataChar, Mixed, IsAscii;
    var n := |low|;
    var checksum := Checksum(low, values);
    var all := values + checksum;
    CheckedSymbols(values, checksum);
    var hrp := s[..n];
    var t := Chars(all);
    SplitAssembled(s, low, t);
    ValuesOfChars(all);
    LastSeparator(s, n, t);
    HrpOfLower(hrp);
    ChecksumUnique(low, values, checksum);
    SameExpansion(hrp, low, all);
    assert all[..|all| - 6] == values;
    ParsesDecoded(s, n, all, data);
  }

  lemma SplitAssembled(s: string, low: string, t: string)
    requires IsAscii(s) && ToLower(s) == low + "1" + t && |low| <= |s|
    ensures IsAscii(s[..|low|]) && ToLower(s[..|low|]) == low
    ensures ToLower(s)[|low| + 1..] == t
    ensures |low| < |s| && LowerChar(s[|low|]) == '1'
  {
    assert ToLower(s)[|low|] == '1';
    CaseOfPrefix(s, |low|);
  }

  lemma CheckedSymbols(values: seq<Byte>, checksum: seq<Byte>)
    requires Symbols(values) && Symbols(checksum)
    ensures Symbols(values + checksum)
  {
  }

  lemma SameExpansion(hrp: string, low: string, data: seq<Byte>)
    requires IsAscii(hrp) && IsAscii(low) && ToLower(hrp) == ToLower(low)
    ensures Verifies(hrp, data) == Verifies(low, data)
    ensures Checksum(hrp, data) == Checksum(low, data)
  {
  }

  lemma CaseOfAssemble(low: string, values: seq<Byte>)
    requires IsAscii(low) && ToLower(low) == low && Symbols(values)
    ensures var t := Assemble(low, values); IsAscii(t) && ToLower(t) == t
  {
    hide Checksum;
    var checked := values + Checksum(low, values);
    forall i | 0 <= i < |checked|
      ensures Chars(checked)[i] < 128 as char && LowerChar(Chars(checked)[i]) == Chars(checked)[i]
    {
      SymbolOfChar(checked[i]);
    }
  }

  lemma UpperOfLower(t: string)
    requires IsAscii(t) && ToLower(t) == t
    ensures var u := ToUpper(t); IsAscii(u) && ToUpper(u) == u && ToLower(u) == t
  {
    forall i | 0 <= i < |t|
      ensures LowerChar(UpperChar(t[i])) == t[i]
    {
      assert t[i] == LowerChar(t[i]);
    }
  }

  /** Decoding what was encoded gives back the human-readable part, case kept, and the data. */
  lemma RoundTrip(hrp: string, data: seq<Byte>)
    requires Encoded(hrp, data).Ok?
    ensures IsAscii(Encoded(hrp, data).value)
    ensures Decoded(Encoded(hrp, data).value) == Ok((hrp, data))
  {
    hide Regroup, Assemble, Decoded;
    var values := Regroup(data, 8, 5, true).value;
    SymbolsFit(data, values);
    RegroupRoundTrip(data);
    var low := ToLower(hrp);
    LowerIdempotent(hrp);
    LowerHrp(hrp);
    var t := Assemble(low, values);
    CaseOfAssemble(low, values);
    UpperOfLower(t);
    AssemblePrefix(low, values);
    DecodesAnyCase(Encoded(hrp, data).value, low, values, data);
    if ToLower(hrp) != hrp {
      assert ToUpper(t)[..|low|] == ToUpper(t[..|low|]);
      UpperLower(hrp);
    }
  }

  lemma AssemblePrefix(low: string, values: seq<Byte>)
    requires IsAscii(low) && Symbols(values)
    ensures |Assemble(low, values)| >= |low| && Assemble(low, values)[..|low|] == low
  {
  }

  lemma LowerHrp(hrp: string)
    requires FirstBad(hrp, HrpChar).None?
    ensures FirstBad(ToLower(hrp), HrpChar).None?
  {
    forall i | 0 <= i < |hrp|
      ensures HrpChar(ToLower(hrp)[i])
    {
      assert HrpChar(hrp[i]);
    }
  }

  lemma UpperLower(s: string)
    requires ToUpper(s) == s
    ensures ToUpper(ToLower(s)) == s
  {
    forall i | 0 <= i < |s|
      ensures UpperChar(LowerChar(s[i])) == s[i]
    {
      assert s[i] == UpperChar(s[i]);
    }
  }

  /** What decodes is, up to case, the one encoding of what it decodes to. */
  lemma Canonical(s: string)
    requires IsAscii(s) && Decoded(s).Ok?
    ensures var (hrp, data) := Decoded(s).value;
            && Encoded(hrp, data).Ok?
            && ToLower(Encoded(hrp, data).value) == ToLower(s)
            && (Encoded(hrp, data).value == s <==> ToLower(s) == s || ToLower(hrp) != hrp)
  {
    hide Decoded, Regroup, Verifies, Assemble, Values, Symbols, LastIndexOf, FirstBad, HrpChar, DataChar;
    var n, all := DecodedParses(s);
    var (hrp, data) := Decoded(s).value;
    var values := all[..|all| - 6];
    var low := ToLower(hrp);
    LowerHrp(hrp);
    CaseOfPrefix(s, n);
    AssembleParsed(s, n, all, data);
    CaseOfAssemble(low, values);
    UpperOfLower(Assemble(low, values));
    if ToLower(s) != s {
      UpperLower(s);
    }
  }

  /** A string that parses is the assembly of its parts. */
  lemma AssembleParsed(s: string, n: nat, all: seq<Byte>, data: seq<Byte>)
    requires IsAscii(s) && Parses(s, n, all, data)
    ensures var low, values := ToLower(s[..n]), all[..|all| - 6];
            && IsAscii(low) && Symbols(values) && ToLower(low) == low
            && Regroup(data, 8, 5, true) == Ok(values)
            && ToLower(s) == Assemble(low, values)
  {
    hide Regroup, Verifies, Checksum, Chars, HrpExpand, Values, LastIndexOf, FirstBad, HrpChar, DataChar, Symbol;
    var low, t := ToLower(s[..n]), ToLower(s)[n + 1..];
    var values, suffix := all[..|all| - 6], all[|all| - 6..];
    assert all == values + suffix;
    LowerIdempotent(s[..n]);
    SameExpansion(s[..n], low, all);
    ChecksumUnique(low, values, suffix);
    FitsSymbols(values);
    RegroupCanonical(values);
    CharsOfValues(t);
    assert ToLower(s) == ToLower(s)[..n] + [ToLower(s)[n]] + t;
    CaseOfPrefix(s, n);
  }

  lemma FitsSymbols(values: seq<Byte>)
    requires Symbols(values)
    ensures Fits(values, 5)
  {
    forall i | 0 <= i < |values|
      ensures Shr(values[i], 5) == 0
    {
      ShrFive(values[i]);
    }
  }

  lemma CaseOfPrefix(s: string, n: nat)
    requires n <= |s|
    ensures ToLower(s)[..n] == ToLower(s[..n]) && ToUpper(s)[..n] == ToUpper(s[..n])
    ensures ToLower(s) == s ==> ToLower(s[..n]) == s[..n]
    ensures ToUpper(s) == s ==> ToUpper(s[..n]) == s[..n]
  {
  }

  // ---------- exactly what is accepted, and why the rest is not ----------

  ghost predicate HasCapital(s: string) {
    exists i :: 0 <= i < |s| && 'A' <= s[i] <= 'Z'
  }

  ghost predicate HasSmall(s: string) {
    exists i :: 0 <= i < |s| && 'a' <= s[i] <= 'z'
  }

  ghost predicate Visible(s: string) {
    forall i :: 0 <= i < |s| ==> 33 <= s[i] as int <= 126
  }

  ghost predicate FirstInvisible(s: string, i: nat) {
    i < |s| && Visible(s[..i]) && !(33 <= s[i] as int <= 126)
  }

  /** `Encode` accepts exactly the non-empty visible ASCII prefixes of one case, with any data. */
  lemma EncodesExactly(hrp: string, data: seq<Byte>)
    ensures Encoded(hrp, data).Ok? <==> hrp != "" && Visible(hrp) && !(HasCapital(hrp) && HasSmall(hrp))
    ensures Encoded(hrp, data).Err? ==>
              var e := Encoded(hrp, data).error;
              && !e.Conversion?
              && (e.EmptyHrp? <==> hrp == "")
              && (e.HrpCharacter? ==> FirstInvisible(hrp, e.index))
              && (e.MixedCaseHrp? ==> hrp != "" && Visible(hrp) && HasCapital(hrp) && HasSmall(hrp))
  {
    hide Regroup, Assemble, ToLower, ToUpper, IsAscii;
    RegroupRoundTrip(data);
    CaseChanges(hrp);
    HrpVisible(hrp);
  }

  /** What is decoded to is the lower-case or the upper-case form of an encoding. */
  lemma DecodesEncodings(s: string, hrp: string, data: seq<Byte>)
    requires IsAscii(s) && Encoded(hrp, data).Ok?
    requires s == ToLower(Encoded(hrp, data).value) || s == ToUpper(Encoded(hrp, data).value)
    ensures Decoded(s).Ok? && Decoded(s).value.1 == data && ToLower(Decoded(s).value.0) == ToLower(hrp)
  {
    hide Regroup, Assemble, Decoded;
    var values := Regroup(data, 8, 5, true).value;
    SymbolsFit(data, values);
    RegroupRoundTrip(data);
    var low := ToLower(hrp);
    LowerIdempotent(hrp);
    LowerHrp(hrp);
    var t := Assemble(low, values);
    CaseOfAssemble(low, values);
    UpperOfLower(t);
    UpperOfLower(ToLower(Encoded(hrp, data).value));
    DecodesAnyCase(s, low, values, data);
    AssemblePrefix(low, values);
    CaseOfPrefix(s, |low|);
  }

  /** `Decode` accepts exactly the encodings, each in lower case or in upper case. */
  lemma DecodesExactly(s: string)
    requires IsAscii(s)
    ensures Decoded(s).Ok? <==>
            exists hrp, data ::
              && Encoded(hrp, data).Ok?
              && (s == ToLower(Encoded(hrp, data).value) || s == ToUpper(Encoded(hrp, data).value))
  {
    hide Decoded, Encoded, ToLower, ToUpper, IsAscii;
    if Decoded(s).Ok? {
      var (hrp, data) := Decoded(s).value;
      Canonical(s);
      DecodedIsOneCase(s, Encoded(hrp, data).value);
    } else if hrp, data :|
        Encoded(hrp, data).Ok? && (s == ToLower(Encoded(hrp, data).value) || s == ToUpper(Encoded(hrp, data).value)) {
      DecodesEncodings(s, hrp, data);
      assert false;
    }
  }

  lemma DecodedIsOneCase(s: string, t: string)
    requires IsAscii(s) && Decoded(s).Ok? && ToLower(t) == ToLower(s)
    ensures s == ToLower(t) || s == ToUpper(t)
  {
    hide Regroup, Verifies, LastIndexOf, FirstBad, Values;
    if ToLower(s) != s {
      UpperLower(s);
      UpperIgnoresCase(t);
    }
  }

  lemma UpperIgnoresCase(t: string)
    ensures ToUpper(ToLower(t)) == ToUpper(t)
  {
  }

  /** The string is the assembly of its prefix and `values`, up to case. */
  ghost predicate Assembles(s: string, n: nat, values: seq<Byte>)
    requires n <= |s| && IsAscii(s)
  {
    Symbols(values) && IsAscii(ToLower(s[..n])) && ToLower(s) == Assemble(ToLower(s[..n]), values)
  }

  lemma OnlyValues(s: string, n: nat, values: seq<Byte>)
    requires IsAscii(s) && n + 7 <= |s| && s[n] == '1' && FirstBad(ToLower(s)[n + 1..], DataChar).None?
    requires Assembles(s, n, values)
    ensures var all := Values(ToLower(s)[n + 1..]);
            values == all[..|all| - 6] && Verifies(s[..n], all)
  {
    hide Checksum, Chars, HrpExpand, Values, FirstBad, DataChar, Verifies, Symbol, LowerChar;
    var low := ToLower(s[..n]);
    var checksum := Checksum(low, values);
    CheckedSymbols(values, checksum);
    ValuesOfChars(values + checksum);
    assert ToLower(s)[n + 1..] == Chars(values + checksum);
    ChecksumUnique(low, values, checksum);
    LowerIdempotent(s[..n]);
    SameExpansion(s[..n], low, values + checksum);
  }

  lemma ChecksumAssembles(s: string, n: nat)
    requires IsAscii(s) && n + 7 <= |s| && s[n] == '1' && FirstBad(ToLower(s)[n + 1..], DataChar).None?
    requires Verifies(s[..n], Values(ToLower(s)[n + 1..]))
    ensures var all := Values(ToLower(s)[n + 1..]); Assembles(s, n, all[..|all| - 6])
  {
    hide Verifies, Checksum, Chars, HrpExpand, Values, FirstBad, DataChar, Symbol;
    var low, t := ToLower(s[..n]), ToLower(s)[n + 1..];
    var all := Values(t);
    var values, suffix := all[..|all| - 6], all[|all| - 6..];
    assert all == values + suffix;
    LowerIdempotent(s[..n]);
    SameExpansion(s[..n], low, all);
    ChecksumUnique(low, values, suffix);
    CharsOfValues(t);
    CaseOfPrefix(s, n);
    assert ToLower(s) == ToLower(s)[..n] + [ToLower(s)[n]] + t;
  }

  /** The data characters from `lo` up to `hi` are in the charset, in either case. */
  ghost predicate Charset(s: string, lo: int, hi: int) {
    forall j :: 0 <= lo <= j < hi <= |s| ==> LowerChar(s[j]) in CHARSET
  }

  /** Counted from `lo`, the `i`-th character is the first that is not in the charset. */
  ghost predicate FirstForeign(s: string, lo: int, i: int) {
    0 <= lo <= lo + i < |s| && LowerChar(s[lo + i]) !in CHARSET && Charset(s, lo, lo + i)
  }

  lemma DataCharExactly(c: char)
    ensures DataChar(c) <==> c in CHARSET
  {
    hide Symbol, IndexOf;
    SymbolIsIndex(c);
  }

  lemma MixedExactly(s: string)
    ensures Mixed(s) <==> HasCapital(s) && HasSmall(s)
  {
    CaseChanges(s);
  }

  /** Which check failed, by the order in which they are made. */
  lemma FailedCheck(s: string)
    requires IsAscii(s) && Decoded(s).Err?
    ensures var (e, p) := (Decoded(s).error, LastIndexOf(s, '1'));
            && (e.MixedCase? <==> Mixed(s))
            && (e.Separator? ==> e.pos == p && (p < 1 || |s| - p - 1 < 6))
            && (!e.MixedCase? && !e.Separator? ==>
                  && 1 <= p && |s| - p - 1 >= 6
                  && var (bad, wrong) := (FirstBad(s[..p], HrpChar), FirstBad(ToLower(s)[p + 1..], DataChar));
                     if e.InvalidHrpCharacter? then bad == Some(e.index)
                     else if e.DataCharacter? then bad.None? && wrong == Some(e.index)
                     else
                       && bad.None? && wrong.None?
                       && var all := Values(ToLower(s)[p + 1..]);
                          if e.InvalidChecksum? then !Verifies(s[..p], all)
                          else Verifies(s[..p], all) && Regroup(all[..|all| - 6], 5, 8, false) == Err(e.error))
  {
    hide Regroup, Verifies, LastIndexOf, Values, FirstBad, ToLower, LowerChar, Symbol, HrpChar, DataChar, Mixed;
  }

  /** The reason for which `Decode` gives up, in the order in which it looks. */
  lemma DecodeErrors(s: string)
    requires IsAscii(s) && Decoded(s).Err?
    ensures var (e, p) := (Decoded(s).error, LastIndexOf(s, '1'));
            && (e.MixedCase? <==> HasCapital(s) && HasSmall(s))
            && (e.Separator? ==> e.pos == p && (p < 1 || |s| - p - 1 < 6))
            && (!e.MixedCase? && !e.Separator? ==> 1 <= p && |s| - p - 1 >= 6)
            && (e.InvalidHrpCharacter? ==> FirstInvisible(s[..p], e.index))
            && (e.DataCharacter? ==> Visible(s[..p]) && FirstForeign(s, p + 1, e.index))
            && (e.InvalidChecksum? ==>
                  Visible(s[..p]) && Charset(s, p + 1, |s|) && forall values :: !Assembles(s, p, values))
            && (e.Padding? ==>
                  && Visible(s[..p])
                  && exists values :: Assembles(s, p, values) && Regroup(values, 5, 8, false) == Err(e.error))
  {
    hide Decoded, Regroup, Verifies, LastIndexOf, Values, FirstBad, ToLower, LowerChar, Assembles, Symbol,
         HrpChar, DataChar, Charset, Visible, FirstForeign, FirstInvisible, HasCapital, HasSmall, Mixed;
    MixedExactly(s);
    FailedCheck(s);
    var (e, p) := (Decoded(s).error, LastIndexOf(s, '1'));
    if !e.MixedCase? && !e.Separator? {
      HrpVisible(s[..p]);
      DataInCharset(s, p);
      if e.InvalidChecksum? || e.Padding? { ChecksumErrors(s, p); }
    }
  }

  lemma ChecksumErrors(s: string, p: nat)
    requires IsAscii(s) && p + 7 <= |s| && s[p] == '1' && FirstBad(ToLower(s)[p + 1..], DataChar).None?
    ensures var all := Values(ToLower(s)[p + 1..]);
            if Verifies(s[..p], all) then Assembles(s, p, all[..|all| - 6])
            else forall values :: !Assembles(s, p, values)
  {
    hide Verifies, Values, FirstBad, ToLower, Assembles, DataChar;
    var all := Values(ToLower(s)[p + 1..]);
    if Verifies(s[..p], all) {
      ChecksumAssembles(s, p);
    } else {
      forall values
        ensures !Assembles(s, p, values)
      {
        if Assembles(s, p, values) { OnlyValues(s, p, values); }
      }
    }
  }

  lemma HrpVisible(hrp: string)
    ensures FirstBad(hrp, HrpChar).None? <==> Visible(hrp)
    ensures FirstBad(hrp, HrpChar).Some? ==> FirstInvisible(hrp, FirstBad(hrp, HrpChar).value)
  {
    hide FirstBad;
    assert forall i :: 0 <= i < |hrp| ==> (HrpChar(hrp[i]) <==> 33 <= hrp[i] as int <= 126);
  }

  lemma DataInCharset(s: string, p: nat)
    requires p < |s|
    ensures var bad := FirstBad(ToLower(s)[p + 1..], DataChar);
            if bad.None? then Charset(s, p + 1, |s|) else FirstForeign(s, p + 1, bad.value)
  {
    hide FirstBad, LowerChar, DataChar;
    var t := ToLower(s)[p + 1..];
    var n := if FirstBad(t, DataChar).Some? then FirstBad(t, DataChar).value else |t|;
    forall j | p + 1 <= j < p + 1 + n
      ensures LowerChar(s[j]) in CHARSET
    {
      assert t[j - p - 1] == LowerChar(s[j]) && DataChar(t[j - p - 1]);
      DataCharExactly(t[j - p - 1]);
    }
    if n < |t| { DataCharExactly(t[n]); }
  }

  /**
   * Two strings that both decode and agree outside six adjacent characters of the data part
   * carry the same symbols there: a burst of up to six wrong characters is always noticed.
   */
  lemma BurstOfCharacters(s: string, s': string, i: nat)
    requires IsAscii(s) && IsAscii(s') && |s| == |s'|
    requires 0 <= LastIndexOf(s, '1') < i
    requires forall j :: 0 <= j < |s| && !(i <= j < i + 6) ==> s[j] == s'[j]
    requires forall j :: i <= j < i + 6 && j < |s'| ==> s'[j] != '1'
    ensures Decoded(s).Ok? && Decoded(s').Ok? ==> ToLower(s) == ToLower(s')
  {
    hide ToLower, Decoded, Regroup, Verifies, LastIndexOf, FirstBad, Values, HrpChar, DataChar, Symbols, Mixed;
    if Decoded(s).Ok? && Decoded(s').Ok? {
      var n, all := DecodedParses(s);
      var n', all' := DecodedParses(s');
      SameSeparator(s, s', i);
      TailsAgree(s, s', i, n);
      ParsedBurst(s, s', n, all, all', Decoded(s).value.1, Decoded(s').value.1, i - n - 1);
      HeadsAgree(s, s', n);
    }
  }

  lemma ParsedBurst(s: string, s': string, n: nat, all: seq<Byte>, all': seq<Byte>,
                    data: seq<Byte>, data': seq<Byte>, i: nat)
    requires IsAscii(s) && IsAscii(s') && |s| == |s'| && n < |s| && s[..n] == s'[..n]
    requires Parses(s, n, all, data) && Parses(s', n, all', data')
    requires var t, t' := ToLower(s)[n + 1..], ToLower(s')[n + 1..];
             forall j :: 0 <= j < |t| && !(i <= j < i + 6) ==> t[j] == t'[j]
    ensures ToLower(s)[n + 1..] == ToLower(s')[n + 1..]
  {
    hide ToLower, Regroup, Verifies, LastIndexOf, FirstBad, Values, HrpChar, DataChar, Symbols, Mixed;
    var t, t' := ToLower(s)[n + 1..], ToLower(s')[n + 1..];
    ValuesAgree(t, t', i);
    BurstDetected(s[..n], all, all', i);
    CharsOfValues(t);
    CharsOfValues(t');
  }

  lemma SameSeparator(s: string, s': string, i: nat)
    requires |s| == |s'| && 0 <= LastIndexOf(s, '1') < i
    requires forall j :: 0 <= j < |s| && !(i <= j < i + 6) ==> s[j] == s'[j]
    requires forall j :: i <= j < i + 6 && j < |s'| ==> s'[j] != '1'
    ensures LastIndexOf(s', '1') == LastIndexOf(s, '1')
    ensures s[..LastIndexOf(s, '1')] == s'[..LastIndexOf(s, '1')]
  {
    hide LastIndexOf;
    var n := LastIndexOf(s, '1');
    forall j | n < j < |s'|
      ensures s'[j] != '1'
    {
      if !(i <= j < i + 6) {
        assert s[j] == s[n + 1..][j - n - 1];
      }
    }
    assert s'[n] == s[n] == '1';
  }

  lemma TailsAgree(s: string, s': string, i: nat, n: nat)
    requires |s| == |s'| && n < |s| && n < i
    requires forall j :: 0 <= j < |s| && !(i <= j < i + 6) ==> s[j] == s'[j]
    ensures var t, t', k := ToLower(s)[n + 1..], ToLower(s')[n + 1..], i - n - 1;
            forall j :: 0 <= j < |t| && !(k <= j < k + 6) ==> t[j] == t'[j]
  {
    var t, t', k := ToLower(s)[n + 1..], ToLower(s')[n + 1..], i - n - 1;
    forall j | 0 <= j < |t| && !(k <= j < k + 6)
      ensures t[j] == t'[j]
    {
      assert s[j + n + 1] == s'[j + n + 1];
    }
  }

  lemma HeadsAgree(s: string, s': string, n: nat)
    requires |s| == |s'| && n < |s| && s[..n] == s'[..n] && s[n] == s'[n]
    requires ToLower(s)[n + 1..] == ToLower(s')[n + 1..]
    ensures ToLower(s) == ToLower(s')
  {
    CaseOfPrefix(s, n);
    CaseOfPrefix(s', n);
    assert ToLower(s) == ToLower(s)[..n] + [LowerChar(s[n])] + ToLower(s)[n + 1..];
    assert ToLower(s') == ToLower(s')[..n] + [LowerChar(s'[n])] + ToLower(s')[n + 1..];
  }

  lemma ValuesAgree(t: string, t': string, i: nat)
    requires |t| == |t'| && FirstBad(t, DataChar).None? && FirstBad(t', DataChar).None?
    requires forall j :: 0 <= j < |t| && !(i <= j < i + 6) ==> t[j] == t'[j]
    ensures forall j :: 0 <= j < |t| && !(i <= j < i + 6) ==> Values(t)[j] == Values(t')[j]
  {
  }
}
