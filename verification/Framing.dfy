/** `jsonrpc.Stream`: messages framed by a `Content-Length` header. A byte is the char of its code. */
module Framing {
  import opened Wrappers
  import opened Strings
  import opened Decimal
  import Utf8

  const CONTENT_LENGTH: string := "Content-Length"

  // `TooLong` is the panic of allocating a buffer beyond what the process can have.
  datatype ReadError = HeaderEof | InvalidHeader | InvalidLength | MissingLength | TooLong | ShortBody

  // The longest buffer that can be allocated; lengths of slices are 64-bit integers.
  type Size = n: nat | n <= MAX_INT

  // ---------- lines and fields ----------

  predicate Space(c: char) {
    c == ' ' || 9 <= c as int <= 13
  }

  /** The UTF-8 bytes of a white space character outside ASCII. */
  predicate WideSpace(s: string) {
    if |s| == 2 then s[0] as int == 0xc2 && (s[1] as int == 0x85 || s[1] as int == 0xa0)
    else
      && |s| == 3
      && var (a, b, c) := (s[0] as int, s[1] as int, s[2] as int);
         || (a == 0xe1 && b == 0x9a && c == 0x80)
         || (a == 0xe2 && b == 0x80 && (0x80 <= c <= 0x8a || c == 0xa8 || c == 0xa9 || c == 0xaf))
         || (a == 0xe2 && b == 0x81 && c == 0x9f)
         || (a == 0xe3 && b == 0x80 && c == 0x80)
  }

  /** The number of bytes of the white space character at the front, if there is one. */
  function LeadingSpace(s: string): (n: nat)
    ensures n <= |s|
  {
    if s != "" && Space(s[0]) then 1
    else if |s| >= 2 && WideSpace(s[..2]) then 2
    else if |s| >= 3 && WideSpace(s[..3]) then 3
    else 0
  }

  /** The number of bytes of the white space character at the end, if there is one. */
  function TrailingSpace(s: string): (n: nat)
    ensures n <= |s|
  {
    if s != "" && Space(s[|s| - 1]) then 1
    else if |s| >= 2 && WideSpace(s[|s| - 2..]) then 2
    else if |s| >= 3 && WideSpace(s[|s| - 3..]) then 3
    else 0
  }

  function TrimLeft(s: string): (t: string)
    ensures |t| <= |s|
  {
    if LeadingSpace(s) == 0 then s else TrimLeft(s[LeadingSpace(s)..])
  }

  function TrimRight(s: string): (t: string)
    ensures |t| <= |s|
  {
    if TrailingSpace(s) == 0 then s else TrimRight(s[..|s| - TrailingSpace(s)])
  }

  function TrimSpace(s: string): string {
    TrimRight(TrimLeft(s))
  }

  datatype Header = Blank | Length(n: int) | Other | Malformed(error: ReadError)

  /** What a header line says. */
  function ParseHeader(text: string): Header {
    var line := TrimSpace(text);
    if line == "" then Blank
    else
      var colon := IndexOf(line, ':');
      if colon == -1 then Malformed(InvalidHeader)
      else if ToLower(TrimSpace(line[..colon])) != ToLower(CONTENT_LENGTH) then Other
      else
        match Atoi(TrimSpace(line[colon + 1..]))
        case None => Malformed(InvalidLength)
        case Some(n) => Length(n)
  }

  // ---------- reading and writing ----------

  /** Reads header lines up to the blank one; `length` is the last length seen, -1 if none. */
  function ReadHeaders(buf: string, length: int): (r: (Result<int, ReadError>, string))
    ensures |r.1| <= |buf| && (r.0.Ok? ==> |r.1| < |buf|)
    decreases |buf|
  {
    var i := IndexOf(buf, '\n');
    if i == -1 then (Err(HeaderEof), "")
    else
      var rest := buf[i + 1..];
      match ParseHeader(buf[..i + 1])
      case Blank => (Ok(length), rest)
      case Length(n) => ReadHeaders(rest, n)
      case Other => ReadHeaders(rest, length)
      case Malformed(e) => (Err(e), rest)
  }

  /** One message read from `buf`, and what is left unread. */
  function ReadFrame(buf: string, memory: Size): (r: (Result<string, ReadError>, string))
    ensures r.0.Ok? ==> |r.1| < |buf|
  {
    var (length, rest) := ReadHeaders(buf, -1);
    match length
    case Err(e) => (Err(e), rest)
    case Ok(n) =>
      if n < 0 then (Err(MissingLength), rest)
      else if n > memory then (Err(TooLong), rest)
      else if |rest| < n then (Err(ShortBody), "")
      else (Ok(rest[..n]), rest[n..])
  }

  /** One message as it is written. */
  function Frame(body: string): string {
    CONTENT_LENGTH + ": " + OfNat(|body|) + "\r\n\r\n" + body
  }

  class Stream {
    const memory: Size
    var input: string
    var output: string

    constructor (input: string, memory: Size)
      ensures this.input == input && output == "" && this.memory == memory
    {
      this.input, output, this.memory := input, "", memory;
    }

    method Read() returns (r: Result<string, ReadError>)
      modifies this`input
      ensures (r, input) == ReadFrame(old(input), memory)
    {
      hide ParseHeader, IndexOf;
      var contentLength := -1;
      while true
        invariant ReadHeaders(input, contentLength) == ReadHeaders(old(input), -1)
        decreases |input|
      {
        var i := IndexOf(input, '\n');
        if i == -1 {
          input := "";
          return Err(HeaderEof);
        }
        var line := input[..i + 1];
        input := input[i + 1..];
        match ParseHeader(line) {
          case Blank => break;
          case Length(n) => contentLength := n;
          case Other =>
          case Malformed(e) => return Err(e);
        }
      }
      if contentLength < 0 {
        return Err(MissingLength);
      }
      if contentLength > memory {
        return Err(TooLong);
      }
      if |input| < contentLength {
        input := "";
        return Err(ShortBody);
      }
      r := Ok(input[..contentLength]);
      input := input[contentLength..];
    }

    method Write(body: string)
      modifies this`output
      ensures output == old(output) + Frame(body)
    {
      var header := CONTENT_LENGTH + ": " + OfNat(|body|) + "\r\n\r\n";
      output := output + header;
      output := output + body;
      assert output == old(output) + (header + body);
    }
  }

  // ---------- white space ----------

  /** The white space of Unicode outside ASCII. */
  predicate UnicodeSpace(c: nat) {
    c == 0x85 || c == 0xA0 || c == 0x1680 || 0x2000 <= c <= 0x200A || c == 0x2028 || c == 0x2029 || c == 0x202F
    || c == 0x205F || c == 0x3000
  }

  ghost predicate SpellsRune(s: string, c: nat) {
    Utf8.Scalar(c) && |s| == |Utf8.EncodeRune(c)| && forall i :: 0 <= i < |s| ==> s[i] as int == Utf8.EncodeRune(c)[i]
  }

  lemma SpaceBytes(c: nat)
    requires UnicodeSpace(c)
    ensures Utf8.Scalar(c)
    ensures Utf8.EncodeRune(c) ==
            if c < 0x100 then [0xC2, c]
            else if c == 0x1680 then [0xE1, 0x9A, 0x80]
            else if c < 0x2030 then [0xE2, 0x80, 0x80 + (c - 0x2000)]
            else if c == 0x205F then [0xE2, 0x81, 0x9F]
            else [0xE3, 0x80, 0x80]
  {
  }

  /** The sequences trimmed besides ASCII white space are exactly the encodings of Unicode white space. */
  lemma WideSpaceExactly(s: string)
    ensures WideSpace(s) <==> exists c :: UnicodeSpace(c) && SpellsRune(s, c)
  {
    if WideSpace(s) {
      var c := if |s| == 2 then s[1] as int
               else if s[0] as int == 0xE1 then 0x1680
               else if s[0] as int == 0xE3 then 0x3000
               else if s[1] as int == 0x81 then 0x205F
               else 0x2000 + (s[2] as int - 0x80);
      SpaceBytes(c);
      hide Utf8.EncodeRune;
      assert UnicodeSpace(c) && SpellsRune(s, c);
    } else if c :| UnicodeSpace(c) && SpellsRune(s, c) {
      SpaceBytes(c);
      hide Utf8.EncodeRune;
      assert false;
    }
  }

  // ---------- one frame ----------

  /** An ASCII character that is no white space. */
  predicate Plain(c: char) {
    c as int < 128 && !Space(c)
  }

  lemma PlainEnds(s: string)
    requires s != ""
    ensures Plain(s[0]) ==> LeadingSpace(s) == 0
    ensures Plain(s[|s| - 1]) ==> TrailingSpace(s) == 0
  {
  }

  /** Nothing is trimmed between two such characters. */
  lemma TrimNothing(s: string)
    requires s != "" && Plain(s[0]) && Plain(s[|s| - 1])
    ensures TrimSpace(s) == s
  {
    hide LeadingSpace, TrailingSpace;
    PlainEnds(s);
  }

  lemma TrimOneSpace(s: string)
    ensures TrimLeft(" " + s) == TrimLeft(s)
  {
    assert (" " + s)[1..] == s;
  }

  function LengthLine(n: nat): string {
    CONTENT_LENGTH + ": " + OfNat(n)
  }

  lemma ParseLengthLine(n: nat)
    requires n <= MAX_INT
    ensures ParseHeader(LengthLine(n) + "\r\n") == Length(n)
  {
    hide LeadingSpace, TrailingSpace, TrimLeft, TrimRight;
    var digits := OfNat(n);
    var line := LengthLine(n);
    TrimLineEnd(line);
    assert line[14] == ':';
    assert line[..14] == CONTENT_LENGTH;
    assert IndexOf(line, ':') == 14;
    TrimNothing(CONTENT_LENGTH);
    assert line[15..] == " " + digits;
    TrimOneSpace(digits);
    TrimNothing(digits);
    AtoiOfInt(n);
  }

  lemma TrimLineEnd(line: string)
    requires line != "" && Plain(line[0]) && Plain(line[|line| - 1])
    ensures TrimSpace(line + "\r\n") == line
  {
    hide LeadingSpace, TrailingSpace, TrimRight;
    PlainEnds(line + "\r\n");
    TrimRightEnd(line);
  }

  lemma ParseBlankLine()
    ensures ParseHeader("\r\n") == Blank
  {
    assert "\r\n"[1..] == "\n" && "\n"[1..] == "";
    assert TrimLeft("\r\n") == TrimLeft("\n") == "";
  }

  lemma LengthLineClean(n: nat)
    ensures '\n' !in LengthLine(n) && |LengthLine(n)| > 16
  {
  }

  /** Headers are read off the front of what was written. */
  lemma ReadWrittenHeaders(n: nat, tail: string)
    requires n <= MAX_INT
    ensures ReadHeaders(LengthLine(n) + "\r\n\r\n" + tail, -1) == (Ok(n), tail)
  {
    hide ParseHeader, IndexOf;
    var line := LengthLine(n) + "\r";
    var buf := LengthLine(n) + "\r\n\r\n" + tail;
    var rest := "\r\n" + tail;
    LengthLineClean(n);
    assert buf == line + "\n" + rest;
    FirstLine(buf, line, rest);
    FirstLine(rest, "\r", tail);
    ParseLengthLine(n);
    ParseBlankLine();
    assert line + "\n" == LengthLine(n) + "\r\n" && "\r" + "\n" == "\r\n";
    assert ReadHeaders(rest, n) == (Ok(n), tail);
  }

  lemma FirstLine(buf: string, line: string, rest: string)
    requires buf == line + "\n" + rest && '\n' !in line
    ensures IndexOf(buf, '\n') == |line| < |buf|
    ensures buf[..|line| + 1] == line + "\n" && buf[|line| + 1..] == rest
  {
    hide IndexOf;
    IndexOfSeparator(line, '\n', rest);
  }

  /** Reading what was written gives the body and stops at its end, exactly if the body fits in memory. */
  lemma ReadWritten(body: string, tail: string, memory: Size)
    requires |body| <= MAX_INT
    ensures ReadFrame(Frame(body) + tail, memory) ==
            if |body| <= memory then (Ok(body), tail) else (Err(TooLong), body + tail)
  {
    hide ReadHeaders;
    assert Frame(body) + tail == LengthLine(|body|) + "\r\n\r\n" + (body + tail);
    ReadWrittenHeaders(|body|, body + tail);
  }

  /** A frame that was cut short is never taken for a message. */
  lemma CutFrameFails(body: string, cut: string, memory: Size)
    requires |body| <= MAX_INT && cut < Frame(body)
    ensures var (r, rest) := ReadFrame(cut, memory);
            || (r == Err(HeaderEof) && rest == "")
            || (if |body| <= memory then r == Err(ShortBody) && rest == "" else r == Err(TooLong))
  {
    hide ParseHeader, IndexOf;
    var n := |body|;
    var head := LengthLine(n) + "\r\n\r\n";
    var line := LengthLine(n) + "\r";
    LengthLineClean(n);
    assert Frame(body) == head + body;
    if |cut| >= |head| {
      var part := cut[|head|..];
      assert cut == LengthLine(n) + "\r\n\r\n" + part;
      ReadWrittenHeaders(n, part);
    } else {
      assert cut <= head;
      if |cut| <= |line| {
        assert cut <= line;
        NoLine(cut, line);
      } else {
        var rest := cut[|line| + 1..];
        assert cut == line + "\n" + rest;
        FirstLine(cut, line, rest);
        ParseLengthLine(n);
        assert line + "\n" == LengthLine(n) + "\r\n";
        assert rest <= "\r";
        NoLine(rest, "\r");
        assert ReadHeaders(rest, n) == (Err(HeaderEof), "");
      }
    }
  }

  lemma NoLine(cut: string, line: string)
    requires cut <= line && '\n' !in line
    ensures IndexOf(cut, '\n') == -1
  {
    hide IndexOf;
    assert forall i :: 0 <= i < |cut| ==> cut[i] == line[i] && line[i] in line;
  }

  // ---------- other headers ----------

  /** Trimming on the right stops at a plain character. */
  lemma {:induction false} TrimRightKeeps(p: string, t: string)
    requires p != "" && Plain(p[|p| - 1])
    ensures TrimRight(p + t) == p + TrimRight(t)
    decreases |t|
  {
    SpaceBehind(p, t);
    hide TrailingSpace;
    var n := TrailingSpace(t);
    if n == 0 {
    } else {
      assert (p + t)[..|p + t| - n] == p + t[..|t| - n];
      TrimRightKeeps(p, t[..|t| - n]);
    }
  }

  lemma SpaceBehind(p: string, t: string)
    requires p != "" && Plain(p[|p| - 1])
    ensures TrailingSpace(p + t) == TrailingSpace(t)
  {
    hide WideSpace;
    var s := p + t;
    if |t| == 0 {
      assert s == p;
      PlainEnds(p);
    } else if |t| == 1 {
      NotWide(s[|s| - 2..], 0);
      if |s| >= 3 { NotWide(s[|s| - 3..], 1); }
    } else if |t| == 2 {
      assert s[|s| - 2..] == t;
      assert t[|t| - 2..] == t;
      NotWide(s[|s| - 3..], 0);
    } else {
      assert s[|s| - 2..] == t[|t| - 2..] && s[|s| - 3..] == t[|t| - 3..];
    }
  }

  lemma NotWide(s: string, k: nat)
    requires k < |s| && s[k] as int < 128
    ensures !WideSpace(s)
  {
  }

  /** A header line with a plain name: the name in any case, and the value behind the first colon. */
  lemma HeaderLine(name: string, value: string)
    requires name != "" && ':' !in name && Plain(name[0]) && Plain(name[|name| - 1])
    ensures ParseHeader(name + ":" + value) ==
            if ToLower(name) != ToLower(CONTENT_LENGTH) then Other
            else
              var n := Atoi(TrimSpace(TrimRight(value)));
              if n.None? then Malformed(InvalidLength) else Length(n.value)
  {
    hide LeadingSpace, TrailingSpace, ToLower, Atoi, IndexOf;
    var text := name + ":" + value;
    PlainEnds(text);
    assert text == (name + ":") + value;
    TrimRightKeeps(name + ":", value);
    var line := name + ":" + TrimRight(value);
    assert TrimSpace(text) == line;
    IndexOfSeparator(name, ':', TrimRight(value));
    TrimNothing(name);
  }

  /** Any other header in front of a frame makes no difference, nor does an earlier length. */
  lemma OtherHeader(name: string, value: string, rest: string, length: int)
    requires name != "" && ':' !in name && Plain(name[0]) && Plain(name[|name| - 1])
    requires '\n' !in name && '\n' !in value
    ensures ToLower(name) != ToLower(CONTENT_LENGTH) ==>
              ReadHeaders(name + ":" + value + "\n" + rest, length) == ReadHeaders(rest, length)
    ensures ToLower(name) == ToLower(CONTENT_LENGTH) && Atoi(TrimSpace(TrimRight(value + "\n"))).Some? ==>
              ReadHeaders(name + ":" + value + "\n" + rest, length)
              == ReadHeaders(rest, Atoi(TrimSpace(TrimRight(value + "\n"))).value)
    ensures ToLower(name) == ToLower(CONTENT_LENGTH) && Atoi(TrimSpace(TrimRight(value + "\n"))).None? ==>
              ReadHeaders(name + ":" + value + "\n" + rest, length) == (Err(InvalidLength), rest)
  {
    hide ParseHeader, IndexOf, ToLower, Atoi, TrimSpace, TrimRight;
    var line := name + ":" + value;
    var buf := line + "\n" + rest;
    HeaderLine(name, value + "\n");
    assert name + ":" + (value + "\n") == line + "\n";
    FirstLine(buf, line, rest);
  }

  /** So a frame reads the same behind any other header. */
  lemma HeaderIgnored(name: string, value: string, rest: string, memory: Size)
    requires name != "" && ':' !in name && Plain(name[0]) && Plain(name[|name| - 1])
    requires '\n' !in name && '\n' !in value && ToLower(name) != ToLower(CONTENT_LENGTH)
    ensures ReadFrame(name + ":" + value + "\n" + rest, memory) == ReadFrame(rest, memory)
  {
    hide ReadHeaders, ToLower;
    OtherHeader(name, value, rest, -1);
  }

  lemma AnyCaseHeaders(name: string, n: nat, rest: string)
    requires ToLower(name) == ToLower(CONTENT_LENGTH) && n <= MAX_INT
    ensures ReadHeaders(name + ":" + (" " + OfNat(n) + "\r") + "\n" + ("\r\n" + rest), -1) == (Ok(n), rest)
  {
    LengthNamePlain(name);
    ValueTrimmed(n);
    BlankThenRest(rest, n);
    hide *;
    OtherHeader(name, " " + OfNat(n) + "\r", "\r\n" + rest, -1);
  }

  lemma FrameBehind(buf: string, n: nat, rest: string, memory: Size)
    requires ReadHeaders(buf, -1) == (Ok(n), rest) && n <= |rest| && n <= memory
    ensures ReadFrame(buf, memory) == (Ok(rest[..n]), rest[n..])
  {
    hide ReadHeaders;
  }

  /** And the length is recognized under its name in any case. */
  lemma AnyCaseOfName(name: string, n: nat, rest: string, memory: Size)
    requires ToLower(name) == ToLower(CONTENT_LENGTH) && n <= |rest| && n <= memory
    ensures ReadFrame(name + ":" + (" " + OfNat(n) + "\r") + "\n" + ("\r\n" + rest), memory)
            == (Ok(rest[..n]), rest[n..])
  {
    hide *;
    AnyCaseHeaders(name, n, rest);
    FrameBehind(name + ":" + (" " + OfNat(n) + "\r") + "\n" + ("\r\n" + rest), n, rest, memory);
  }

  lemma BlankThenRest(rest: string, length: int)
    ensures ReadHeaders("\r\n" + rest, length) == (Ok(length), rest)
  {
    hide ParseHeader, IndexOf;
    assert "\r\n" + rest == "\r" + "\n" + rest && "\r" + "\n" == "\r\n";
    FirstLine("\r\n" + rest, "\r", rest);
    ParseBlankLine();
  }

  lemma LengthNamePlain(name: string)
    requires ToLower(name) == ToLower(CONTENT_LENGTH)
    ensures |name| == 14 && ':' !in name && '\n' !in name && Plain(name[0]) && Plain(name[13])
  {
    assert |ToLower(name)| == 14;
    forall i | 0 <= i < 14
      ensures name[i] != ':' && name[i] != '\n'
    {
      assert ToLower(name)[i] == LowerChar(name[i]) == LowerChar(CONTENT_LENGTH[i]);
    }
    assert LowerChar(name[0]) == ToLower(name)[0] == 'c' && LowerChar(name[13]) == ToLower(name)[13] == 'h';
  }

  lemma ValueTrimmed(n: nat)
    requires n <= MAX_INT
    ensures '\n' !in " " + OfNat(n) + "\r"
    ensures Atoi(TrimSpace(TrimRight(" " + OfNat(n) + "\r" + "\n"))) == Some(n)
  {
    hide LeadingSpace, TrailingSpace, TrimLeft, TrimRight, TrimSpace, Atoi;
    var digits := OfNat(n);
    var s := " " + digits;
    assert s + "\r" + "\n" == s + "\r\n";
    TrimRightEnd(s);
    SpacedDigits(digits);
    AtoiOfInt(n);
  }

  lemma SpacedDigits(digits: string)
    requires digits != "" && Plain(digits[0]) && Plain(digits[|digits| - 1])
    ensures TrimSpace(" " + digits) == digits
  {
    hide LeadingSpace, TrailingSpace;
    PlainEnds(digits);
    TrimOneSpace(digits);
  }

  lemma TrimRightEnd(s: string)
    requires s != "" && Plain(s[|s| - 1])
    ensures TrimRight(s + "\r\n") == s
  {
    var t := s + "\r\n";
    assert t[..|t| - 1] == s + "\r" && (s + "\r")[..|s|] == s;
    PlainEnds(s);
    assert TrailingSpace(t) == 1 && TrailingSpace(s + "\r") == 1;
    hide TrailingSpace;
    assert TrimRight(t) == TrimRight(s + "\r") == TrimRight(s) == s;
  }

  /** A line without a colon, unless it is blank, is an error; so is a header without a length. */
  lemma MalformedHeaders(line: string, rest: string, length: int, memory: Size)
    requires ':' !in line && '\n' !in line
    ensures TrimSpace(line + "\n") != "" ==> ReadHeaders(line + "\n" + rest, length) == (Err(InvalidHeader), rest)
    ensures TrimSpace(line + "\n") == "" ==>
              && ReadHeaders(line + "\n" + rest, length) == (Ok(length), rest)
              && ReadFrame(line + "\n" + rest, memory) == (Err(MissingLength), rest)
  {
    hide IndexOf, TrimSpace;
    FirstLine(line + "\n" + rest, line, rest);
    TrimNoColon(line + "\n");
  }

  lemma TrimNoColon(s: string)
    requires ':' !in s
    ensures IndexOf(TrimSpace(s), ':') == -1
  {
    hide IndexOf, LeadingSpace, TrailingSpace;
    TrimLeftPart(s);
    TrimRightPart(TrimLeft(s));
    var t := TrimSpace(s);
    assert forall i :: 0 <= i < |t| ==> t[i] in s;
  }

  lemma {:induction false} TrimLeftPart(s: string)
    ensures forall i :: 0 <= i < |TrimLeft(s)| ==> TrimLeft(s)[i] in s
    decreases |s|
  {
    hide LeadingSpace;
    if LeadingSpace(s) > 0 { TrimLeftPart(s[LeadingSpace(s)..]); }
  }

  lemma {:induction false} TrimRightPart(s: string)
    ensures forall i :: 0 <= i < |TrimRight(s)| ==> TrimRight(s)[i] in s
    decreases |s|
  {
    hide TrailingSpace;
    if TrailingSpace(s) > 0 { TrimRightPart(s[..|s| - TrailingSpace(s)]); }
  }

  // ---------- whole streams ----------

  /** Everything that `Write` puts out for `bodies`. */
  function Frames(bodies: seq<string>): string {
    if bodies == [] then "" else Frame(bodies[0]) + Frames(bodies[1..])
  }

  /** Reads until the first error: the messages read, the error, and what is left unread. */
  function ReadAll(buf: string, memory: Size): (seq<string>, ReadError, string)
    decreases |buf|
  {
    var (r, rest) := ReadFrame(buf, memory);
    match r
    case Err(e) => ([], e, rest)
    case Ok(body) => var (bodies, e, end) := ReadAll(rest, memory); ([body] + bodies, e, end)
  }

  /**
   * Reading a stream of written messages, cut off anywhere in the next one, gives exactly the
   * complete messages, in order, and then an error that has used up the whole stream.
   */
  lemma {:induction false} StreamRoundTrip(bodies: seq<string>, next: string, cut: string, memory: Size)
    requires forall i :: 0 <= i < |bodies| ==> |bodies[i]| <= memory
    requires |next| <= memory && cut < Frame(next)
    ensures var (read, e, end) := ReadAll(Frames(bodies) + cut, memory);
            read == bodies && end == "" && (e == HeaderEof || e == ShortBody) && (cut == "" ==> e == HeaderEof)
    decreases |bodies|
  {
    hide ReadFrame, Frame;
    if bodies == [] {
      assert Frames(bodies) + cut == cut;
      CutFrameFails(next, cut, memory);
      if cut == "" { EmptyFails(memory); }
    } else {
      var tail := Frames(bodies[1..]) + cut;
      assert Frames(bodies) + cut == Frame(bodies[0]) + tail;
      ReadWritten(bodies[0], tail, memory);
      StreamRoundTrip(bodies[1..], next, cut, memory);
      assert [bodies[0]] + bodies[1..] == bodies;
    }
  }

  lemma EmptyFails(memory: Size)
    ensures ReadFrame("", memory) == (Err(HeaderEof), "")
  {
  }

  /** Writing message after message appends frame after frame. */
  method WriteAll(stream: Stream, bodies: seq<string>)
    modifies stream`output
    ensures stream.output == old(stream.output) + Frames(bodies)
  {
    hide Frame;
    assert stream.output == stream.output + Frames([]);
    for i := 0 to |bodies|
      invariant stream.output == old(stream.output) + Frames(bodies[..i])
    {
      stream.Write(bodies[i]);
      FramesAppend(bodies[..i], bodies[i]);
      assert bodies[..i + 1] == bodies[..i] + [bodies[i]];
    }
    assert bodies[..|bodies|] == bodies;
  }

  lemma {:induction false} FramesAppend(bodies: seq<string>, body: string)
    ensures Frames(bodies + [body]) == Frames(bodies) + Frame(body)
  {
    hide Frame;
    if bodies == [] {
      assert ([] + [body])[1..] == [];
    } else {
      FramesAppend(bodies[1..], body);
      assert (bodies + [body])[1..] == bodies[1..] + [body];
    }
  }
}
