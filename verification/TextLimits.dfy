/** `LimitText`: cutting a text to lines and bytes. */
module TextLimits {
  import opened Wrappers
  import opened Words
  import opened Utf8

  const NL: Byte := 0x0A

  // Limits that are not positive mean unlimited.
  datatype Limits = Limits(head: int, tail: int, maxLines: int, maxBytes: int)

  datatype Info = Info(originalBytes: nat, originalLines: nat, keptBytes: nat, keptLines: nat, position: string)

  datatype LimitedText = LimitedText(content: seq<Byte>, truncated: bool, info: Option<Info>)

  // ---------- lines ----------

  function TrimNewlines(s: seq<Byte>): (t: seq<Byte>)
    ensures t <= s && (t == [] || t[|t| - 1] != NL)
    ensures forall i :: |t| <= i < |s| ==> s[i] == NL
  {
    if s != [] && s[|s| - 1] == NL then TrimNewlines(s[..|s| - 1]) else s
  }

  /** The pieces between newlines, at least one. */
  function Split(s: seq<Byte>): (lines: seq<seq<Byte>>)
    ensures |lines| > 0
  {
    if s == [] then [[]]
    else
      var rest := Split(s[1..]);
      if s[0] == NL then [[]] + rest else [[s[0]] + rest[0]] + rest[1..]
  }

  function Join(lines: seq<seq<Byte>>): seq<Byte> {
    if lines == [] then []
    else if |lines| == 1 then lines[0]
    else lines[0] + [NL] + Join(lines[1..])
  }

  function Newlines(s: seq<Byte>): nat {
    if s == [] then 0 else Newlines(s[..|s| - 1]) + (if s[|s| - 1] == NL then 1 else 0)
  }

  function SplitLines(s: seq<Byte>): seq<seq<Byte>> {
    if s == [] then []
    else
      var t := TrimNewlines(s);
      if t == [] then [[]] else Split(t)
  }

  function JoinLines(lines: seq<seq<Byte>>, trailingNewline: bool): seq<Byte> {
    Join(lines) + (if trailingNewline then [NL] else [])
  }

  lemma {:induction false} JoinSplit(s: seq<Byte>)
    ensures Join(Split(s)) == s
  {
    if s != [] {
      JoinSplit(s[1..]);
      var rest := Split(s[1..]);
      if s[0] == NL {
        assert ([[]] + rest)[1..] == rest;
      } else {
        assert ([[s[0]] + rest[0]] + rest[1..])[1..] == rest[1..];
      }
    }
  }

  lemma {:induction false} JoinConcat(a: seq<seq<Byte>>, b: seq<seq<Byte>>)
    requires a != [] && b != []
    ensures Join(a + b) == Join(a) + [NL] + Join(b)
  {
    if |a| == 1 {
      assert (a + b)[1..] == b;
    } else {
      JoinConcat(a[1..], b);
      assert (a + b)[1..] == a[1..] + b;
    }
  }

  lemma {:induction false} NewlinesConcat(s: seq<Byte>, t: seq<Byte>)
    ensures Newlines(s + t) == Newlines(s) + Newlines(t)
    decreases |t|
  {
    if t == [] {
      assert s + t == s;
    } else {
      NewlinesConcat(s, t[..|t| - 1]);
      assert (s + t)[..|s + t| - 1] == s + t[..|t| - 1];
    }
  }

  lemma {:induction false} SplitCount(s: seq<Byte>)
    ensures |Split(s)| == Newlines(s) + 1
  {
    if s != [] {
      SplitCount(s[1..]);
      NewlinesConcat([s[0]], s[1..]);
      assert s == [s[0]] + s[1..];
      assert Newlines([s[0]]) == if s[0] == NL then 1 else 0;
    }
  }

  ghost predicate Clean(lines: seq<seq<Byte>>) {
    forall i :: 0 <= i < |lines| ==> Newlines(lines[i]) == 0
  }

  lemma {:induction false} NoNewlines(s: seq<Byte>)
    ensures Clean(Split(s))
  {
    if s != [] {
      NoNewlines(s[1..]);
      var rest := Split(s[1..]);
      assert Newlines(rest[0]) == 0;
      NewlinesConcat([s[0]], rest[0]);
    }
  }

  lemma {:induction false} JoinCount(lines: seq<seq<Byte>>)
    requires Clean(lines) && lines != []
    ensures Newlines(Join(lines)) == |lines| - 1
  {
    assert Newlines(lines[0]) == 0;
    if |lines| > 1 {
      JoinCount(lines[1..]);
      NewlinesConcat(lines[0], [NL]);
      NewlinesConcat(lines[0] + [NL], Join(lines[1..]));
    }
  }

  // ---------- what is kept ----------

  /** Which lines of `n` stay: how many, and whether they are the last ones. */
  function Kept(n: nat, limits: Limits): (r: (nat, string))
    requires n > 0
    ensures 0 < r.0 <= n
    ensures r.1 in {"", "head", "tail"} && (r.1 == "" <==> r.0 == n)
  {
    var headed := 0 < limits.head < n;
    var tailed := !headed && 0 < limits.tail < n;
    var k := if headed then limits.head else if tailed then limits.tail else n;
    var m := if 0 < limits.maxLines < k then limits.maxLines else k;
    (m, if tailed then "tail" else if m < n then "head" else "")
  }

  function KeptLines(lines: seq<seq<Byte>>, limits: Limits): (kept: seq<seq<Byte>>)
    requires lines != []
    ensures 0 < |kept| <= |lines|
  {
    var (m, position) := Kept(|lines|, limits);
    if position == "tail" then lines[|lines| - m..] else lines[..m]
  }

  function KeptText(input: seq<Byte>, limits: Limits): seq<Byte>
    requires input != []
  {
    SplitNonempty(input);
    JoinLines(KeptLines(SplitLines(input), limits),
              input[|input| - 1] == NL && Kept(|SplitLines(input)|, limits).1 == "")
  }

  /** Index of the last newline, or -1. */
  function LastNewline(s: seq<Byte>): (i: int)
    ensures -1 <= i < |s|
    ensures i >= 0 ==> s[i] == NL
    ensures forall j :: i < j < |s| ==> s[j] != NL
  {
    if s == [] then -1
    else if s[|s| - 1] == NL then |s| - 1
    else LastNewline(s[..|s| - 1])
  }

  function TruncateAtBoundary(s: seq<Byte>, maxBytes: int): (t: seq<Byte>)
    ensures t <= s && (maxBytes >= 0 ==> |t| <= maxBytes)
  {
    if maxBytes <= 0 then []
    else if |s| <= maxBytes then s
    else
      var cut := s[..maxBytes];
      var i := LastNewline(cut);
      if i > 0 then cut[..i + 1] else BackUp(cut, UTF_MAX)
  }

  lemma SplitNonempty(s: seq<Byte>)
    requires s != []
    ensures SplitLines(s) != []
  {
  }

  method TruncateAt(s: seq<Byte>, maxBytes: int) returns (t: seq<Byte>)
    ensures t == TruncateAtBoundary(s, maxBytes)
  {
    if maxBytes <= 0 {
      return [];
    }
    if |s| <= maxBytes {
      return s;
    }
    var truncated := s[..maxBytes];
    var idx := LastNewline(truncated);
    if idx > 0 {
      return truncated[..idx + 1];
    }
    t := TruncateUtf8(truncated, maxBytes);
  }

  function Limited(input: seq<Byte>, limits: Limits): LimitedText {
    if input == [] then LimitedText([], false, None)
    else
      SplitNonempty(input);
      var kept := KeptText(input, limits);
      var n := |SplitLines(input)|;
      var (m, position) := Kept(n, limits);
      if 0 < limits.maxBytes < |kept| then
        var content := TruncateAtBoundary(kept, limits.maxBytes);
        Describe(input, content, |SplitLines(content)|, if position == "" then "head" else position)
      else Describe(input, kept, m, position)
  }

  function Describe(input: seq<Byte>, content: seq<Byte>, keptLines: nat, position: string): LimitedText {
    if |content| == |input| then LimitedText(content, false, None)
    else LimitedText(content, true, Some(Info(|input|, |SplitLines(input)|, |content|, keptLines, position)))
  }

  method LimitText(input: seq<Byte>, limits: Limits) returns (r: LimitedText)
    ensures r == Limited(input, limits)
  {
    hide SplitLines, Join, TruncateAtBoundary, JoinLines, TrimNewlines, Newlines;
    if input == [] {
      return LimitedText(input, false, None);
    }
    var originalBytes := |input|;
    var lines := SplitLines(input);
    var originalLines := |lines|;
    SplitNonempty(input);
    var trailingNewline := |input| > 0 && input[|input| - 1] == NL;
    var position := "";
    var result := lines;
    if limits.head > 0 && limits.head < |result| {
      result := result[..limits.head];
      position := "head";
    } else if limits.tail > 0 && limits.tail < |result| {
      result := result[|result| - limits.tail..];
      position := "tail";
    }
    if limits.maxLines > 0 && limits.maxLines < |result| {
      if position == "tail" {
        result := result[|result| - limits.maxLines..];
      } else {
        result := result[..limits.maxLines];
        if position == "" {
          position := "head";
        }
      }
    }
    assert result == KeptLines(lines, limits) && position == Kept(|lines|, limits).1;
    var content := JoinLines(result, trailingNewline && position == "");
    if limits.maxBytes > 0 && |content| > limits.maxBytes {
      content := TruncateAt(content, limits.maxBytes);
      if position == "" {
        position := "head";
      }
      result := SplitLines(content);
    }
    var truncated := |content| != originalBytes;
    if !truncated {
      return LimitedText(content, false, None);
    }
    var keptLines := |result|;
    return LimitedText(content, true, Some(Info(originalBytes, originalLines, |content|, keptLines, position)));
  }

  // ---------- where the kept text lies in the input ----------

  /** `part` is what lies at `at` in `whole`, with a newline or an end on either side. */
  ghost predicate WholeLines(whole: seq<Byte>, part: seq<Byte>, at: nat) {
    && at + |part| <= |whole| && whole[at..at + |part|] == part
    && (at == 0 || whole[at - 1] == NL)
    && (at + |part| == |whole| || whole[at + |part|] == NL)
  }

  lemma JoinSlice(lines: seq<seq<Byte>>, lo: nat, hi: nat) returns (at: nat)
    requires lo < hi <= |lines|
    ensures WholeLines(Join(lines), Join(lines[lo..hi]), at)
  {
    hide Join;
    var a, b, c := lines[..lo], lines[lo..hi], lines[hi..];
    var pre, post := if lo == 0 then [] else Join(a) + [NL], if hi == |lines| then [] else [NL] + Join(c);
    at := |pre|;
    assert b + c == lines[lo..] && a + lines[lo..] == lines;
    if hi < |lines| { JoinConcat(b, c); }
    if lo > 0 { JoinConcat(a, lines[lo..]); }
    assert hi == |lines| ==> lines[lo..] == b;
    assert lo == 0 ==> lines[lo..] == lines;
    assert Join(lines) == pre + Join(b) + post;
  }

  lemma SplitLinesIsSplit(input: seq<Byte>)
    requires input != []
    ensures SplitLines(input) == Split(TrimNewlines(input))
  {
  }

  lemma KeptAt(input: seq<Byte>, limits: Limits) returns (at: nat)
    requires input != []
    ensures WholeLines(input, KeptText(input, limits), at)
  {
    hide Split, Join, SplitLines, TrimNewlines;
    SplitLinesIsSplit(input);
    SplitNonempty(input);
    var t := TrimNewlines(input);
    var lines := SplitLines(input);
    JoinSplit(t);
    var (m, position) := Kept(|lines|, limits);
    if position == "" {
      at := 0;
      assert KeptLines(lines, limits) == lines;
    } else if position == "tail" {
      at := JoinSlice(lines, |lines| - m, |lines|);
      assert lines[|lines| - m..|lines|] == lines[|lines| - m..];
    } else {
      at := JoinSlice(lines, 0, m);
      assert lines[0..m] == lines[..m];
    }
    if position != "" {
      assert KeptText(input, limits) == Join(KeptLines(lines, limits));
    }
  }

  /** The content is a contiguous piece of the input. */
  lemma ContentIsSubstring(input: seq<Byte>, limits: Limits) returns (at: nat)
    ensures var c := Limited(input, limits).content; at + |c| <= |input| && input[at..at + |c|] == c
  {
    hide SplitLines, KeptText, TruncateAtBoundary;
    at := 0;
    if input != [] {
      at := KeptAt(input, limits);
      var kept := KeptText(input, limits);
      var c := Limited(input, limits).content;
      assert c <= kept;
    }
  }

  /** `truncated` says exactly whether the content differs from the input. */
  lemma TruncatedExactly(input: seq<Byte>, limits: Limits)
    ensures var r := Limited(input, limits); (r.truncated <==> r.content != input) && (r.info.Some? <==> r.truncated)
  {
    hide SplitLines, KeptText, TruncateAtBoundary;
    var at := ContentIsSubstring(input, limits);
  }

  // ---------- which lines are kept ----------

  /** `c` is the first `k` lines of `t`, and not all of them. */
  ghost predicate FirstLines(t: seq<Byte>, c: seq<Byte>, k: int) {
    |c| < |t| && t[..|c|] == c && t[|c|] == NL && Newlines(c) == k - 1
  }

  /** `c` is the last `k` lines of `t`, and not all of them. */
  ghost predicate LastLines(t: seq<Byte>, c: seq<Byte>, k: int) {
    |c| < |t| && t[|t| - |c|..] == c && t[|t| - |c| - 1] == NL && Newlines(c) == k - 1
  }

  /** A positive limit below `n` cuts. */
  predicate Cuts(limit: int, n: int) {
    0 < limit < n
  }

  /** The lines of the input that the limits on lines leave, read off the input itself. */
  ghost predicate KeepsRightLines(input: seq<Byte>, limits: Limits, c: seq<Byte>)
    requires input != []
  {
    var t := TrimNewlines(input);
    var n := Newlines(t) + 1;
    if Cuts(limits.head, n) then
      FirstLines(t, c, if Cuts(limits.maxLines, limits.head) then limits.maxLines else limits.head)
    else if Cuts(limits.tail, n) then
      LastLines(t, c, if Cuts(limits.maxLines, limits.tail) then limits.maxLines else limits.tail)
    else if Cuts(limits.maxLines, n) then FirstLines(t, c, limits.maxLines)
    else c == if input[|input| - 1] == NL then t + [NL] else t
  }

  lemma FrontLines(t: seq<Byte>, lines: seq<seq<Byte>>, k: nat)
    requires lines == Split(t) && 0 < k < |lines|
    ensures FirstLines(t, Join(lines[..k]), k)
  {
    hide Split, Join, Newlines;
    JoinSplit(t);
    NoNewlines(t);
    assert lines == lines[..k] + lines[k..];
    JoinConcat(lines[..k], lines[k..]);
    JoinCount(lines[..k]);
  }

  lemma BackLines(t: seq<Byte>, lines: seq<seq<Byte>>, k: nat)
    requires lines == Split(t) && 0 < k < |lines|
    ensures LastLines(t, Join(lines[|lines| - k..]), k)
  {
    hide Split, Join, Newlines;
    JoinSplit(t);
    NoNewlines(t);
    var m := |lines| - k;
    assert lines == lines[..m] + lines[m..];
    JoinConcat(lines[..m], lines[m..]);
    JoinCount(lines[m..]);
  }

  /** Head and max lines keep the first lines of the input, tail the last; max lines bounds either. */
  lemma LinesKept(input: seq<Byte>, limits: Limits)
    requires input != []
    ensures KeepsRightLines(input, limits, KeptText(input, limits))
  {
    hide Split, Join, SplitLines, TrimNewlines, Newlines, FirstLines, LastLines;
    SplitLinesIsSplit(input);
    SplitNonempty(input);
    var t := TrimNewlines(input);
    var lines := SplitLines(input);
    JoinSplit(t);
    SplitCount(t);
    var (m, position) := Kept(|lines|, limits);
    if position == "" {
      assert KeptLines(lines, limits) == lines;
    } else {
      assert KeptText(input, limits) == Join(KeptLines(lines, limits));
      if position == "tail" { BackLines(t, lines, m); } else { FrontLines(t, lines, m); }
    }
  }

  /** Unless the limit on bytes cuts as well, these lines are the content. */
  lemma ContentKept(input: seq<Byte>, limits: Limits)
    requires input != [] && !Cuts(limits.maxBytes, |KeptText(input, limits)|)
    ensures KeepsRightLines(input, limits, Limited(input, limits).content)
    ensures Limited(input, limits).content == KeptText(input, limits)
  {
    hide KeptText, SplitLines, KeepsRightLines;
    LinesKept(input, limits);
  }

  /** What is reported when something was cut: where, and how many lines there were and are. */
  lemma ReportsCuts(input: seq<Byte>, limits: Limits)
    requires Limited(input, limits).truncated
    ensures input != []
    ensures var (c, i) := (Limited(input, limits).content, Limited(input, limits).info.value);
            var n := Newlines(TrimNewlines(input)) + 1;
            var bytesCut := Cuts(limits.maxBytes, |KeptText(input, limits)|);
            var linesCut := Cuts(limits.head, n) || Cuts(limits.tail, n) || Cuts(limits.maxLines, n);
            && i.originalLines == n
            && (i.position == "tail" <==> !Cuts(limits.head, n) && Cuts(limits.tail, n))
            && (i.position == "head" <==> i.position != "tail" && (linesCut || bytesCut))
            && (i.position == "" <==> !linesCut && !bytesCut)
            && i.keptLines ==
                 if bytesCut then (if c == [] then 0 else Newlines(TrimNewlines(c)) + 1)
                 else if linesCut then Newlines(c) + 1 else n
  {
    hide Split, Join, SplitLines, TrimNewlines, Newlines, KeptText, TruncateAtBoundary, FirstLines, LastLines;
    SplitLinesIsSplit(input);
    SplitNonempty(input);
    SplitCount(TrimNewlines(input));
    LinesKept(input, limits);
    CountsKept(input, limits);
    var c := Limited(input, limits).content;
    LinesCounted(c);
  }

  lemma LinesCounted(c: seq<Byte>)
    ensures |SplitLines(c)| == if c == [] then 0 else Newlines(TrimNewlines(c)) + 1
  {
    hide Split, Newlines, TrimNewlines;
    if c != [] {
      SplitLinesIsSplit(c);
      SplitCount(TrimNewlines(c));
    }
  }

  lemma CountsKept(input: seq<Byte>, limits: Limits)
    requires input != []
    ensures var n := Newlines(TrimNewlines(input)) + 1;
            Kept(n, limits).1 != "" ==> Newlines(KeptText(input, limits)) + 1 == Kept(n, limits).0
  {
    hide Split, Join, SplitLines, TrimNewlines, Newlines;
    LinesKept(input, limits);
  }

  // ---------- bounds ----------

  lemma {:induction false} NewlinesPrefix(p: seq<Byte>, s: seq<Byte>)
    requires p <= s
    ensures Newlines(p) <= Newlines(s)
  {
    assert s == p + s[|p|..];
    NewlinesConcat(p, s[|p|..]);
  }

  /** Cutting bytes off joined lines never gives more lines. */
  lemma FewerLines(lines: seq<seq<Byte>>, p: seq<Byte>, trailingNewline: bool)
    requires lines != [] && Clean(lines) && p <= JoinLines(lines, trailingNewline)
    ensures |SplitLines(p)| <= |lines|
  {
    hide Join, Newlines, Split;
    JoinCount(lines);
    if p != [] {
      var t := TrimNewlines(p);
      if t != [] {
        assert t <= Join(lines) by {
          assert t <= Join(lines) + [NL];
          assert |t| <= |Join(lines)|;
        }
        NewlinesPrefix(t, Join(lines));
        SplitCount(t);
      }
    }
  }

  /** The content respects every positive limit on bytes and lines, also after lines are recounted. */
  lemma WithinLimits(input: seq<Byte>, limits: Limits)
    ensures var r := Limited(input, limits);
            && (limits.maxBytes > 0 ==> |r.content| <= limits.maxBytes)
            && (r.truncated ==>
                 var i := r.info.value;
                 && i.keptBytes == |r.content| && i.originalBytes == |input|
                 && i.keptLines <= i.originalLines
                 && (limits.head > 0 ==> i.keptLines <= limits.head)
                 && (limits.maxLines > 0 ==> i.keptLines <= limits.maxLines)
                 && (limits.tail > 0 && !(0 < limits.head < i.originalLines) ==> i.keptLines <= limits.tail))
  {
    hide Split, Join, SplitLines, TrimNewlines, KeptText, TruncateAtBoundary, Newlines, JoinLines;
    if input != [] {
      SplitNonempty(input);
      SplitLinesIsSplit(input);
      var lines := SplitLines(input);
      var kept := KeptLines(lines, limits);
      KeptIsClean(input, limits);
      var text := KeptText(input, limits);
      var trailing := KeptTextIs(input, limits);
      if 0 < limits.maxBytes < |text| {
        FewerLines(kept, TruncateAtBoundary(text, limits.maxBytes), trailing);
      }
    }
  }

  lemma KeptTextIs(input: seq<Byte>, limits: Limits) returns (trailing: bool)
    requires input != []
    ensures SplitLines(input) != []
    ensures KeptText(input, limits) == JoinLines(KeptLines(SplitLines(input), limits), trailing)
  {
    SplitNonempty(input);
    trailing := input[|input| - 1] == NL && Kept(|SplitLines(input)|, limits).1 == "";
  }

  lemma KeptIsClean(input: seq<Byte>, limits: Limits)
    requires input != []
    ensures SplitLines(input) != [] && Clean(KeptLines(SplitLines(input), limits))
  {
    hide Split, SplitLines, Newlines;
    SplitNonempty(input);
    SplitLinesIsSplit(input);
    NoNewlines(TrimNewlines(input));
  }

  // ---------- UTF-8 ----------

  lemma ValidAroundNewline(s: seq<Byte>, i: nat)
    requires ValidString(s) && i < |s| && s[i] == NL
    ensures ValidString(s[..i]) && ValidString(s[..i + 1]) && ValidString(s[i + 1..])
  {
    ValidCut(s, i);
    var t := s[i..];
    assert RuneLen(t) == 1 && t[1..] == s[i + 1..];
    assert i + 1 < |s| ==> !Continuation(s[i + 1]) by {
      if i + 1 < |s| { StartsRune(s[i + 1..]); }
    }
    ValidCut(s, i + 1);
  }

  lemma StartsRune(s: seq<Byte>)
    requires ValidString(s) && s != []
    ensures !Continuation(s[0])
  {
  }

  lemma ValidLines(whole: seq<Byte>, part: seq<Byte>, at: nat)
    requires ValidString(whole) && WholeLines(whole, part, at)
    ensures ValidString(part)
  {
    hide ValidString;
    var end := at + |part|;
    ValidCut(whole, end);
    var p := whole[..end];
    assert part == p[at..];
    if at > 0 { ValidAroundNewline(p, at - 1); } else { assert part == p; }
  }

  /** Well-formed input gives well-formed content, whatever the limits. */
  lemma StaysValid(input: seq<Byte>, limits: Limits)
    requires ValidString(input)
    ensures ValidString(Limited(input, limits).content)
  {
    hide SplitLines, KeptText, ValidString, LastNewline, BackUp;
    if input != [] {
      var at := KeptAt(input, limits);
      var kept := KeptText(input, limits);
      ValidLines(input, kept, at);
      if 0 < limits.maxBytes < |kept| {
        var cut := kept[..limits.maxBytes];
        var i := LastNewline(cut);
        if i > 0 {
          ValidAroundNewline(kept, i);
          assert cut[..i + 1] == kept[..i + 1];
        } else {
          BackUpLongest(kept, cut);
        }
      }
    }
  }

  /** With no newline to cut at, the content is the longest well-formed prefix of the kept text that fits. */
  lemma CutsLongest(input: seq<Byte>, limits: Limits, p: seq<Byte>)
    requires input != [] && ValidString(input)
    requires 0 < limits.maxBytes < |KeptText(input, limits)|
    requires LastNewline(KeptText(input, limits)[..limits.maxBytes]) <= 0
    requires p <= KeptText(input, limits) && ValidString(p) && |p| <= limits.maxBytes
    ensures p <= Limited(input, limits).content
  {
    hide SplitLines, KeptText, ValidString, LastNewline, BackUp;
    var at := KeptAt(input, limits);
    var kept := KeptText(input, limits);
    ValidLines(input, kept, at);
    var cut := kept[..limits.maxBytes];
    BackUpLongest(kept, cut);
    assert p <= cut;
    assert |p| <= |BackUp(cut, UTF_MAX)|;
  }

  /** With a newline behind the first byte of the cut, the content ends at the last such newline. */
  lemma CutsAtLine(input: seq<Byte>, limits: Limits)
    requires input != []
    requires 0 < limits.maxBytes < |KeptText(input, limits)|
    requires LastNewline(KeptText(input, limits)[..limits.maxBytes]) > 0
    ensures var (c, kept) := (Limited(input, limits).content, KeptText(input, limits));
            && c <= kept && |c| >= 2 && c[|c| - 1] == NL && |c| <= limits.maxBytes
            && forall j :: |c| <= j < limits.maxBytes ==> kept[j] != NL
  {
    hide SplitLines, KeptText;
    var cut := KeptText(input, limits)[..limits.maxBytes];
    forall j | LastNewline(cut) < j < |cut|
      ensures KeptText(input, limits)[j] != NL
    {
      assert cut[j] != NL;
    }
  }

  // ---------- no limits ----------

  /** Without limits the input comes back unchanged exactly when it does not end in two newlines. */
  lemma NoLimits(input: seq<Byte>, limits: Limits)
    requires limits.head <= 0 && limits.tail <= 0 && limits.maxLines <= 0 && limits.maxBytes <= 0
    ensures Limited(input, limits).content == input <==>
            !(|input| >= 2 && input[|input| - 1] == NL && input[|input| - 2] == NL)
  {
    hide Split, Join, SplitLines;
    if input != [] {
      SplitLinesIsSplit(input);
      SplitNonempty(input);
      var t := TrimNewlines(input);
      JoinSplit(t);
      assert KeptLines(SplitLines(input), limits) == SplitLines(input);
      if input[|input| - 1] == NL {
        assert TrimNewlines(input) == TrimNewlines(input[..|input| - 1]);
        assert Limited(input, limits).content == t + [NL];
      } else {
        assert Limited(input, limits).content == t;
      }
    }
  }
}
