/** The listing parser: the program text is split into physical lines, and each
    line that starts with a decimal line number yields that number and the code
    text after it; blank and unnumbered lines are dropped. */
module Listing {
  import opened Wrappers
  import opened Text
  import opened Decimal

  /** JavaScript white space and line terminators: what `trim` removes and
      what `\s` matches. */
  predicate IsJsSpace(c: char)
  {
    || c == '\t' || c == '\n' || c == '\U{000B}' || c == '\U{000C}' || c == '\r' || c == ' '
    || c == '\U{00A0}' || c == '\U{1680}' || ('\U{2000}' <= c <= '\U{200A}') || c == '\U{2028}'
    || c == '\U{2029}' || c == '\U{202F}' || c == '\U{205F}' || c == '\U{3000}' || c == '\U{FEFF}'
  }

  /** The characters a regular-expression `.` does not match. */
  predicate IsLineTerminator(c: char)
  {
    c == '\n' || c == '\r' || c == '\U{2028}' || c == '\U{2029}'
  }

  predicate HasLineTerminator(s: string)
  {
    exists j :: 0 <= j < |s| && IsLineTerminator(s[j])
  }

  /** Drops the white space at the start of `s`. */
  function TrimStart(s: string): (r: string)
    ensures |r| <= |s|
    ensures r == [] || !IsJsSpace(r[0])
  {
    if s != [] && IsJsSpace(s[0]) then TrimStart(s[1..]) else s
  }

  /** What `TrimStart` keeps is a suffix of `s`. */
  lemma {:induction false} TrimStartSuffix(s: string)
    ensures TrimStart(s) == s[|s| - |TrimStart(s)|..]
    decreases |s|
  {
    if s != [] && IsJsSpace(s[0]) {
      TrimStartSuffix(s[1..]);
    }
  }

  /** What `TrimStart` drops is white space. */
  lemma {:induction false} TrimStartDropsSpace(s: string)
    ensures forall j :: 0 <= j < |s| - |TrimStart(s)| ==> IsJsSpace(s[j])
    decreases |s|
  {
    if s != [] && IsJsSpace(s[0]) {
      TrimStartDropsSpace(s[1..]);
      assert forall j :: 1 <= j < |s| ==> s[j] == s[1..][j - 1];
    }
  }

  /** Drops the white space at the end of `s`. */
  function TrimEnd(s: string): (r: string)
    ensures |r| <= |s|
    ensures r == [] || !IsJsSpace(r[|r| - 1])
  {
    if s != [] && IsJsSpace(s[|s| - 1]) then TrimEnd(s[..|s| - 1]) else s
  }

  /** What `TrimEnd` keeps is a prefix of `s`. */
  lemma {:induction false} TrimEndPrefix(s: string)
    ensures TrimEnd(s) == s[..|TrimEnd(s)|]
    decreases |s|
  {
    if s != [] && IsJsSpace(s[|s| - 1]) {
      TrimEndPrefix(s[..|s| - 1]);
    }
  }

  /** What `TrimEnd` drops is white space. */
  lemma {:induction false} TrimEndDropsSpace(s: string)
    ensures forall j :: |TrimEnd(s)| <= j < |s| ==> IsJsSpace(s[j])
    decreases |s|
  {
    if s != [] && IsJsSpace(s[|s| - 1]) {
      TrimEndDropsSpace(s[..|s| - 1]);
    }
  }

  /** `String.prototype.trim`: no white space is left at either end. */
  function Trim(s: string): (r: string)
    ensures |r| <= |s|
    ensures r == [] || (!IsJsSpace(r[0]) && !IsJsSpace(r[|r| - 1]))
  {
    TrimEndPrefix(TrimStart(s));
    TrimEnd(TrimStart(s))
  }

  /** Index of the first `c` in `s`. */
  function FirstIndex(s: string, c: char): (j: nat)
    requires c in s
    ensures j < |s| && s[j] == c && c !in s[..j]
  {
    if s[0] == c then 0 else 1 + FirstIndex(s[1..], c)
  }

  /** `text.split(/\r?\n/)`: cut at every line feed, dropping a carriage
      return just before it. */
  function SplitLines(text: string): (lines: seq<string>)
    ensures |lines| >= 1
    decreases |text|
  {
    if '\n' !in text then [text]
    else
      var j := FirstIndex(text, '\n');
      var piece := if j > 0 && text[j - 1] == '\r' then text[..j - 1] else text[..j];
      [piece] + SplitLines(text[j + 1..])
  }

  /** No line holds a line feed. */
  lemma {:induction false} SplitLinesNoFeed(text: string)
    ensures forall k :: 0 <= k < |SplitLines(text)| ==> '\n' !in SplitLines(text)[k]
    decreases |text|
  {
    if '\n' in text {
      var j := FirstIndex(text, '\n');
      SplitLinesNoFeed(text[j + 1..]);
      var piece := if j > 0 && text[j - 1] == '\r' then text[..j - 1] else text[..j];
      assert forall k :: 0 <= k < |piece| ==> piece[k] == text[..j][k];
      assert SplitLines(text) == [piece] + SplitLines(text[j + 1..]);
    }
  }

  /** A suffix of text without carriage returns has none. */
  lemma NoCarriageSuffix(text: string, i: nat)
    requires '\r' !in text && i <= |text|
    ensures '\r' !in text[i..]
  {
    assert forall k :: 0 <= k < |text| - i ==> text[i..][k] == text[i + k];
  }

  /** Without carriage returns, the first line is everything before the first line feed. */
  lemma SplitLinesCut(text: string)
    requires '\r' !in text && '\n' in text
    ensures var j := FirstIndex(text, '\n');
      SplitLines(text) == [text[..j]] + SplitLines(text[j + 1..])
  {
    var j := FirstIndex(text, '\n');
    if j > 0 {
      assert text[j - 1] in text;
    }
  }

  /** Cutting out a line feed and putting it back gives the text. */
  lemma CutAtFeed(text: string, j: nat)
    requires j < |text| && text[j] == '\n'
    ensures text[..j] + "\n" + text[j + 1..] == text
  {
  }

  /** Without carriage returns, splitting and joining with line feeds gives
      the text back. */
  lemma {:induction false} SplitJoin(text: string)
    requires '\r' !in text
    ensures Join(SplitLines(text), "\n") == text
    decreases |text|
  {
    if '\n' in text {
      var j := FirstIndex(text, '\n');
      var rest := text[j + 1..];
      NoCarriageSuffix(text, j + 1);
      SplitJoin(rest);
      SplitLinesCut(text);
      JoinCons(text[..j], SplitLines(rest), "\n");
      CutAtFeed(text, j);
    }
  }

  /** Every line feed follows a carriage return and every carriage return
      precedes a line feed: a listing with CRLF line ends only. */
  predicate CrLfOnly(text: string)
  {
    && (forall k :: 0 <= k < |text| && text[k] == '\n' ==> 0 < k && text[k - 1] == '\r')
    && (forall k :: 0 <= k < |text| && text[k] == '\r' ==> k + 1 < |text| && text[k + 1] == '\n')
  }

  /** What follows a line feed of a CRLF listing is a CRLF listing. */
  lemma CrLfSuffix(text: string, j: nat)
    requires CrLfOnly(text) && j < |text| && text[j] == '\n'
    ensures CrLfOnly(text[j + 1..])
  {
    var rest := text[j + 1..];
    forall k | 0 <= k < |rest| && rest[k] == '\n'
      ensures 0 < k && rest[k - 1] == '\r'
    {
      assert text[j + 1 + k] == '\n';
    }
    forall k | 0 <= k < |rest| && rest[k] == '\r'
      ensures k + 1 < |rest| && rest[k + 1] == '\n'
    {
      assert text[j + 1 + k] == '\r';
    }
  }

  /** A line ending in a carriage return before the first line feed loses it. */
  lemma SplitLinesCutCr(text: string, j: nat)
    requires '\n' in text && j == FirstIndex(text, '\n') && 0 < j && text[j - 1] == '\r'
    ensures SplitLines(text) == [text[..j - 1]] + SplitLines(text[j + 1..])
  {
  }

  /** Cutting out a CRLF pair and putting it back gives the text. */
  lemma CutAtCrLf(text: string, j: nat)
    requires 0 < j < |text| && text[j - 1] == '\r' && text[j] == '\n'
    ensures text[..j - 1] + "\r\n" + text[j + 1..] == text
  {
  }

  /** With CRLF line ends only, splitting and joining with `"\r\n"` gives
      the text back: the carriage return before each line feed is dropped. */
  lemma {:induction false} SplitJoinCrLf(text: string)
    requires CrLfOnly(text)
    ensures Join(SplitLines(text), "\r\n") == text
    decreases |text|
  {
    if '\n' in text {
      var j := FirstIndex(text, '\n');
      assert 0 < j && text[j - 1] == '\r';
      var rest := text[j + 1..];
      CrLfSuffix(text, j);
      SplitJoinCrLf(rest);
      SplitLinesCutCr(text, j);
      JoinCons(text[..j - 1], SplitLines(rest), "\r\n");
      CutAtCrLf(text, j);
    }
  }

  /** One parsed program line. */
  datatype LogicalLine = LogicalLine(lineNumber: nat, code: string)

  /** Length of the run of decimal digits at the start of `s`. */
  function DigitRun(s: string): (n: nat)
    ensures n <= |s| && (n == |s| || !IsDigit(s[n]))
  {
    if s != [] && IsDigit(s[0]) then 1 + DigitRun(s[1..]) else 0
  }

  /** The digit run is made of digits. */
  lemma {:induction false} DigitRunDigits(s: string)
    ensures AllDigits(s[..DigitRun(s)])
    decreases |s|
  {
    if s != [] && IsDigit(s[0]) {
      DigitRunDigits(s[1..]);
      var n := DigitRun(s);
      assert s[..n] == [s[0]] + s[1..][..n - 1];
    }
  }

  /** `/^(\d+)\s*(.*)$/` accepts `t` with the digits `t[..n]`, the white
      space `t[n..m]` and the rest `t[m..]`. */
  ghost predicate PatternSplit(t: string, n: nat, m: nat)
  {
    && 0 < n <= m <= |t|
    && AllDigits(t[..n])
    && (forall j :: n <= j < m ==> IsJsSpace(t[j]))
    && !HasLineTerminator(t[m..])
  }

  /** The line-number pattern applied to an already trimmed line: the empty
      text gives null; otherwise the leading digits, then the white space
      after them, then the code text, which must hold no line terminator. */
  function ParseTrimmed(t: string): Option<LogicalLine>
  {
    if t == [] then None
    else
      var n := DigitRun(t);
      if n == 0 then None
      else
        var code := TrimStart(t[n..]);
        if HasLineTerminator(code) then None
        else
          DigitRunDigits(t);
          Some(LogicalLine(DecimalValue(t[..n]), code))
  }

  /** `parseLine`: trim, then match the line-number pattern. A blank line
      gives null; an accepted code holds no line terminator and has no white
      space at either end. */
  function ParseLine(line: string): (r: Option<LogicalLine>)
    ensures Trim(line) == [] ==> r == None
    ensures r.Some? ==> !HasLineTerminator(r.value.code)
    ensures r.Some? ==> r.value.code == [] || (!IsJsSpace(r.value.code[0]) && !IsJsSpace(r.value.code[|r.value.code| - 1]))
  {
    var t := Trim(line);
    if t == [] || DigitRun(t) == 0 then ParseTrimmed(t)
    else TrimStartSuffix(t[DigitRun(t)..]); ParseTrimmed(t)
  }

  /** What the pattern returns for a text it accepts. */
  lemma ParseTrimmedSome(t: string)
    requires ParseTrimmed(t).Some?
    ensures var n := DigitRun(t);
      && n > 0 && !HasLineTerminator(TrimStart(t[n..])) && AllDigits(t[..n])
      && ParseTrimmed(t) == Some(LogicalLine(DecimalValue(t[..n]), TrimStart(t[n..])))
  {
    DigitRunDigits(t);
  }

  /** The texts the pattern rejects. */
  lemma ParseTrimmedNone(t: string)
    requires ParseTrimmed(t).None?
    ensures t == [] || DigitRun(t) == 0 || HasLineTerminator(TrimStart(t[DigitRun(t)..]))
  {
  }

  /** From position `n`, the white space `TrimStart` skips runs up to the
      code text it returns. */
  lemma SpacesUpToCode(t: string, n: nat)
    requires n <= |t|
    ensures var m := |t| - |TrimStart(t[n..])|;
      && n <= m && t[m..] == TrimStart(t[n..])
      && forall j :: n <= j < m ==> IsJsSpace(t[j])
  {
    var rest := t[n..];
    var m := |t| - |TrimStart(rest)|;
    TrimStartSuffix(rest);
    TrimStartDropsSpace(rest);
    forall j | n <= j < m
      ensures IsJsSpace(t[j])
    {
      assert t[j] == rest[j - n];
    }
  }

  /** The greedy way to match the pattern: all the leading digits, then all
      the white space after them. */
  lemma GreedySplit(t: string)
    requires DigitRun(t) > 0 && !HasLineTerminator(TrimStart(t[DigitRun(t)..]))
    ensures PatternSplit(t, DigitRun(t), |t| - |TrimStart(t[DigitRun(t)..])|)
  {
    DigitRunDigits(t);
    SpacesUpToCode(t, DigitRun(t));
  }

  /** What an accepted text holds: it splits as the pattern says, the digits
      taken are the whole leading digit run, the code text is all that follows
      the white space after them, and the line number is the value of those
      digits. */
  lemma ParseTrimmedFields(t: string)
    requires ParseTrimmed(t).Some?
    ensures var n := DigitRun(t); var r := ParseTrimmed(t).value;
      && PatternSplit(t, n, |t| - |r.code|)
      && (n == |t| || !IsDigit(t[n]))
      && (r.code == [] || !IsJsSpace(r.code[0]))
      && r.lineNumber == DecimalValue(t[..n])
  {
    ParseTrimmedSome(t);
    GreedySplit(t);
  }

  /** `TrimStart` removes every leading white-space character, however many. */
  lemma {:induction false} TrimStartMaximal(s: string, k: nat)
    requires k <= |s| && forall j :: 0 <= j < k ==> IsJsSpace(s[j])
    ensures |TrimStart(s)| <= |s| - k
    decreases k
  {
    if k > 0 {
      assert forall j :: 0 <= j < k - 1 ==> s[1..][j] == s[j + 1];
      TrimStartMaximal(s[1..], k - 1);
    }
  }

  /** The leading digit run is the longest prefix made of digits. */
  lemma {:induction false} DigitRunMaximal(s: string, n: nat)
    requires n <= |s| && AllDigits(s[..n])
    ensures n <= DigitRun(s)
    decreases n
  {
    if n > 0 {
      assert IsDigit(s[..n][0]);
      assert s[1..][..n - 1] == s[..n][1..];
      DigitRunMaximal(s[1..], n - 1);
    }
  }

  /** White space after position `k` ends no later than the code text there. */
  lemma SpacesBeforeCode(t: string, k: nat, m: nat)
    requires k <= m <= |t| && forall j :: k <= j < m ==> IsJsSpace(t[j])
    ensures m <= |t| - |TrimStart(t[k..])|
  {
    var s := t[k..];
    forall j | 0 <= j < m - k
      ensures IsJsSpace(s[j])
    {
      assert s[j] == t[k + j];
    }
    TrimStartMaximal(s, m - k);
  }

  /** Every character of the code text the pattern returns comes from the text. */
  lemma CodeFromTrimmed(t: string)
    requires ParseTrimmed(t).Some?
    ensures forall c :: c in ParseTrimmed(t).value.code ==> c in t
  {
    ParseTrimmedSome(t);
    var rest := t[DigitRun(t)..];
    var code := TrimStart(rest);
    TrimStartSuffix(rest);
    assert forall c :: c in code ==> c in rest;
    assert forall c :: c in rest ==> c in t;
  }

  /** Every character of the code text `parseLine` returns comes from the line. */
  lemma CodeFromLine(line: string)
    requires ParseLine(line).Some?
    ensures forall c :: c in ParseLine(line).value.code ==> c in line
  {
    var s := TrimStart(line);
    var t := TrimEnd(s);
    CodeFromTrimmed(t);
    TrimStartSuffix(line);
    TrimEndPrefix(s);
    assert forall c :: c in t ==> c in s;
    assert forall c :: c in s ==> c in line;
  }

  /** Any way the pattern accepts `t` takes at most the leading digit run and
      ends its white space no later than the code text that `parseLine` returns. */
  lemma PatternSplitBounded(t: string, n: nat, m: nat)
    requires PatternSplit(t, n, m)
    ensures n <= DigitRun(t)
    ensures m <= |t| - |TrimStart(t[DigitRun(t)..])|
  {
    DigitRunMaximal(t, n);
    var n0 := DigitRun(t);
    if n < n0 {
      // the digits may stop early only when no white space follows them
      DigitRunDigits(t);
      assert IsDigit(t[..n0][n]);
      assert !IsJsSpace(t[n]);
      assert m == n;
    } else {
      SpacesBeforeCode(t, n0, m);
    }
  }

  /** A text with no line terminator from `m` on has none from any later `k` on. */
  lemma TerminatorFreeSuffix(t: string, m: nat, k: nat)
    requires m <= k <= |t| && !HasLineTerminator(t[m..])
    ensures !HasLineTerminator(t[k..])
  {
    forall j | 0 <= j < |t| - k
      ensures !IsLineTerminator(t[k..][j])
    {
      assert t[k..][j] == t[m..][k - m + j];
    }
  }

  /** A text the pattern rejects fits it in no way at all: it is empty, does
      not start with a digit, or (the regular-expression `.` not matching
      them) has a line terminator in its code text. */
  lemma NoneMissesPattern(t: string, n: nat, m: nat)
    requires ParseTrimmed(t).None?
    ensures !PatternSplit(t, n, m)
  {
    if PatternSplit(t, n, m) {
      PatternSplitBounded(t, n, m);
      var n0 := DigitRun(t);
      SpacesUpToCode(t, n0);
      TerminatorFreeSuffix(t, m, |t| - |TrimStart(t[n0..])|);
      ParseTrimmedNone(t);
    }
  }

  /** The lines of `lines` that `parse` accepts, parsed, in their order. */
  function Accepted(parse: string -> Option<LogicalLine>, lines: seq<string>): (r: seq<LogicalLine>)
    ensures |r| <= |lines|
  {
    if lines == [] then []
    else
      var p := parse(lines[|lines| - 1]);
      Accepted(parse, lines[..|lines| - 1]) + (if p.Some? then [p.value] else [])
  }

  /** One more line adds its parsed form when it parses, and nothing otherwise. */
  lemma AcceptedStep(parse: string -> Option<LogicalLine>, lines: seq<string>, i: nat)
    requires i < |lines|
    ensures var p := parse(lines[i]);
      Accepted(parse, lines[..i + 1]) == Accepted(parse, lines[..i]) + (if p.Some? then [p.value] else [])
  {
    assert lines[..i + 1][..i] == lines[..i];
  }

  /** Parsing is line by line: the lines of a concatenation are the lines of
      each part, in order, so no line is reordered, merged or invented. */
  lemma {:induction false} AcceptedAppend(parse: string -> Option<LogicalLine>, a: seq<string>, b: seq<string>)
    ensures Accepted(parse, a + b) == Accepted(parse, a) + Accepted(parse, b)
    decreases |b|
  {
    if b != [] {
      var init := b[..|b| - 1];
      assert (a + b)[..|a + b| - 1] == a + init;
      AcceptedAppend(parse, a, init);
    } else {
      assert a + b == a;
    }
  }

  /** A property `ok` of every code text `parse` returns holds for every
      accepted line. */
  lemma {:induction false} AcceptedCodes(parse: string -> Option<LogicalLine>, lines: seq<string>, ok: string -> bool)
    requires forall i :: 0 <= i < |lines| && parse(lines[i]).Some? ==> ok(parse(lines[i]).value.code)
    ensures forall k :: 0 <= k < |Accepted(parse, lines)| ==> ok(Accepted(parse, lines)[k].code)
    decreases |lines|
  {
    if lines != [] {
      var init := lines[..|lines| - 1];
      assert forall i :: 0 <= i < |init| ==> init[i] == lines[i];
      AcceptedCodes(parse, init, ok);
    }
  }

  /** The program lines among `lines`: those `parseLine` accepts. */
  function ParseAll(lines: seq<string>): seq<LogicalLine>
  {
    Accepted(ParseLine, lines)
  }

  /** One more line adds its program line when it parses, and nothing otherwise. */
  lemma ParseAllStep(lines: seq<string>, i: nat)
    requires i < |lines|
    ensures var p := ParseLine(lines[i]);
      ParseAll(lines[..i + 1]) == ParseAll(lines[..i]) + (if p.Some? then [p.value] else [])
  {
    AcceptedStep(ParseLine, lines, i);
  }

  /** The program lines of two runs of lines, one after the other. */
  lemma ParseAllAppend(a: seq<string>, b: seq<string>)
    ensures ParseAll(a + b) == ParseAll(a) + ParseAll(b)
  {
    AcceptedAppend(ParseLine, a, b);
  }

  /** A listing's program lines. */
  function ParseListing(text: string): seq<LogicalLine>
  {
    ParseAll(SplitLines(text))
  }

  /** Digits are neither white space nor line terminators. */
  lemma DigitNotSpace(c: char)
    requires IsDigit(c)
    ensures !IsJsSpace(c) && !IsLineTerminator(c)
  {
  }

  /** The blank and code text after a line number; nothing for empty code. */
  function AfterNumber(code: string): string
  {
    if code == [] then [] else " " + code
  }

  /** Text that starts with a non-space keeps its start. */
  lemma TrimStartKeeps(s: string)
    requires s != [] && !IsJsSpace(s[0])
    ensures TrimStart(s) == s
  {
  }

  /** Text that ends with a non-space keeps its end. */
  lemma TrimEndKeeps(s: string)
    requires s != [] && !IsJsSpace(s[|s| - 1])
    ensures TrimEnd(s) == s
  {
  }

  /** A trailing white-space character is dropped. */
  lemma TrimEndDropsLast(s: string)
    requires s != [] && IsJsSpace(s[|s| - 1])
    ensures TrimEnd(s) == TrimEnd(s[..|s| - 1])
  {
  }

  /** Trimming number, blank, code leaves number and `AfterNumber(code)`. */
  lemma TrimRendered(d: string, code: string)
    requires d != [] && !IsJsSpace(d[0]) && !IsJsSpace(d[|d| - 1])
    requires code == [] || (!IsJsSpace(code[0]) && !IsJsSpace(code[|code| - 1]))
    ensures Trim(d + " " + code) == d + AfterNumber(code)
  {
    var line := d + " " + code;
    assert line[0] == d[0];
    TrimStartKeeps(line);
    if code == [] {
      assert line[..|line| - 1] == d;
      TrimEndDropsLast(line);
      TrimEndKeeps(d);
      assert d + AfterNumber(code) == d;
    } else {
      assert line[|line| - 1] == code[|code| - 1];
      TrimEndKeeps(line);
      assert line == d + AfterNumber(code);
    }
  }

  /** Number and code, as trimming leaves them, are read back as that number
      and that code. */
  lemma ParseTrimmedRendered(n: nat, code: string)
    requires code == [] || !IsJsSpace(code[0])
    requires !HasLineTerminator(code)
    ensures ParseTrimmed(NatToDecimal(n) + AfterNumber(code)) == Some(LogicalLine(n, code))
  {
    var d := NatToDecimal(n);
    var rest := AfterNumber(code);
    var t := d + rest;
    DigitRunPrefix(d, rest);
    assert t[..|d|] == d;
    assert t[|d|..] == rest;
    DecimalRoundTrip(n);
    assert TrimStart(rest) == code by {
      if code != [] {
        assert rest[1..] == code;
      }
    }
    ParseTrimmedAccepted(t);
  }

  /** A line written as number, blank, code is read back as that number and
      that code, for code with no white space at either end and no line
      terminator. */
  lemma ParseRendered(n: nat, code: string)
    requires code == [] || (!IsJsSpace(code[0]) && !IsJsSpace(code[|code| - 1]))
    requires !HasLineTerminator(code)
    ensures ParseLine(NatToDecimal(n) + " " + code) == Some(LogicalLine(n, code))
  {
    var d := NatToDecimal(n);
    DigitNotSpace(d[0]);
    DigitNotSpace(d[|d| - 1]);
    TrimRendered(d, code);
    ParseTrimmedRendered(n, code);
  }

  /** Unfolds the pattern on a text it accepts. */
  lemma ParseTrimmedAccepted(t: string)
    requires t != [] && DigitRun(t) > 0
    requires !HasLineTerminator(TrimStart(t[DigitRun(t)..]))
    ensures var n := DigitRun(t);
      AllDigits(t[..n]) && ParseTrimmed(t) == Some(LogicalLine(DecimalValue(t[..n]), TrimStart(t[n..])))
  {
    DigitRunDigits(t);
  }

  /** The digit run of digits followed by a non-digit is those digits. */
  lemma {:induction false} DigitRunPrefix(d: string, rest: string)
    requires AllDigits(d) && (rest == [] || !IsDigit(rest[0]))
    ensures DigitRun(d + rest) == |d|
    decreases |d|
  {
    if d != [] {
      assert (d + rest)[1..] == d[1..] + rest;
      DigitRunPrefix(d[1..], rest);
    } else {
      assert d + rest == rest;
    }
  }
}
