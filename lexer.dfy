/** The line tokenizer: one left-to-right scan of a line's code text that
    replaces keywords by their bytes, passes quoted text through, expands the
    apostrophe comment shorthand, copies the rest of a `REM` or `DATA`
    statement verbatim and puts a separator before `ELSE`.

    The keyword table is a parameter of every member here; the program passes
    `Tokens.TOKENS`. */
module Lexer {
  import opened Tokens

  /** ASCII upper-casing of one character. */
  function UpperChar(c: char): char
  {
    if 'a' <= c <= 'z' then (c as int - 32) as char else c
  }

  /** ASCII upper-casing of a string (JavaScript `toUpperCase` on ASCII text). */
  function Upper(s: string): string
  {
    seq(|s|, j requires 0 <= j < |s| => UpperChar(s[j]))
  }

  /** The character codes of `s`, one per character. `charCodeAt` reads
      UTF-16 code units, which agree with these for characters up to U+FFFF. */
  function Codes(s: string): seq<int>
  {
    seq(|s|, j requires 0 <= j < |s| => s[j] as int)
  }

  /** The scanner never tries a candidate longer than this. */
  const SEARCH_LIMIT := 10

  /** The first candidate length tried at `i`: `min(10, length - i)`. */
  function SearchBound(code: string, i: nat): nat
    requires i <= |code|
  {
    if SEARCH_LIMIT < |code| - i then SEARCH_LIMIT else |code| - i
  }

  /** The `len` characters at `i`, upper-cased, are a key of the table. */
  predicate KeywordOfLength(table: map<string, int>, code: string, i: nat, len: nat)
    requires i + len <= |code|
  {
    Upper(code[i..i + len]) in table
  }

  /** `k` is the longest matching length at `i` within the search bound, or 0
      when no length from 1 to the bound matches. */
  ghost predicate IsLongestKeyword(table: map<string, int>, code: string, i: nat, k: nat)
    requires i < |code|
  {
    && k <= SearchBound(code, i)
    && (k > 0 ==> KeywordOfLength(table, code, i, k))
    && forall l :: k < l <= SearchBound(code, i) ==> !KeywordOfLength(table, code, i, l)
  }

  /** The longest matching length among 1..len, or 0. */
  function LongestUpTo(table: map<string, int>, code: string, i: nat, len: nat): (k: nat)
    requires i + len <= |code|
    ensures k <= len
    ensures k > 0 ==> KeywordOfLength(table, code, i, k)
    ensures forall l :: k < l <= len ==> !KeywordOfLength(table, code, i, l)
  {
    if len == 0 then 0
    else if KeywordOfLength(table, code, i, len) then len
    else LongestUpTo(table, code, i, len - 1)
  }

  /** Length of the keyword the scanner matches at `i` (0 for none). */
  function KeywordAt(table: map<string, int>, code: string, i: nat): (k: nat)
    requires i < |code|
    ensures IsLongestKeyword(table, code, i, k)
  {
    LongestUpTo(table, code, i, SearchBound(code, i))
  }

  /** Only one length is the longest match. */
  lemma LongestKeywordUnique(table: map<string, int>, code: string, i: nat, k: nat)
    requires i < |code| && IsLongestKeyword(table, code, i, k)
    ensures k == KeywordAt(table, code, i)
  {
  }

  /** The bound of ten characters loses nothing: any key that spells the text
      at `i` is matched there, or a longer one is. */
  lemma SearchSeesEveryKey(table: map<string, int>, code: string, i: nat, w: string)
    requires i < |code| && Shaped(table, 0x80, 0x100) && w in table
    requires i + |w| <= |code| && Upper(code[i..i + |w|]) == w
    ensures KeywordAt(table, code, i) >= |w|
  {
    assert KeywordOfLength(table, code, i, |w|);
  }

  /** The inner `for` loop: try lengths from `min(10, length - i)` down to 1
      and stop at the first whose upper-cased text is a key. */
  method LongestKeyword(table: map<string, int>, code: string, i: nat) returns (k: nat)
    requires i < |code|
    ensures IsLongestKeyword(table, code, i, k)
  {
    var keywordLen := SearchBound(code, i);
    while keywordLen > 0
      invariant keywordLen <= SearchBound(code, i)
      invariant forall l: nat :: keywordLen < l <= SearchBound(code, i) ==> !KeywordOfLength(table, code, i, l)
    {
      if Upper(code[i..i + keywordLen]) in table {
        return keywordLen;
      }
      keywordLen := keywordLen - 1;
    }
    return 0;
  }

  /** A `"` at `j` flips the in-string state unless the source character just
      before it is a backslash. */
  predicate TogglesAt(code: string, j: nat)
    requires j < |code|
  {
    code[j] == '"' && (j == 0 || code[j - 1] != '\\')
  }

  /** The scanner's state: position, the in-string flag, and the bytes so far. */
  datatype Scan = Scan(pos: nat, inString: bool, out: seq<int>)

  /** The keyword part of one turn at `i`, outside a string: the longest key
      is replaced by its byte, `REM` and `DATA` take the rest of the line
      verbatim, and `ELSE` gets a separator unless one precedes it; with no
      key the character passes through. */
  function WordStep(table: map<string, int>, code: string, i: nat, out: seq<int>): (t: Scan)
    requires i < |code|
    ensures i < t.pos <= |code| && !t.inString
    ensures |out| <= |t.out| && t.out[..|out|] == out
  {
    var k := KeywordAt(table, code, i);
    if k == 0 then
      Scan(i + 1, false, out + [code[i] as int])
    else
      var w := Upper(code[i..i + k]);
      var pushed := out + [table[w]];
      if w == "REM" || w == "DATA" then
        Scan(|code|, false, pushed + Codes(code[i + k..]))
      else if w == "ELSE" && |pushed| > 1 && pushed[|pushed| - 2] != SEPARATOR then
        Scan(i + k, false, out + [SEPARATOR, table[w]])
      else
        Scan(i + k, false, pushed)
  }

  /** One turn of the scanning loop. */
  function Step(table: map<string, int>, code: string, s: Scan): (t: Scan)
    requires s.pos < |code|
    ensures s.pos < t.pos <= |code|
    ensures |s.out| <= |t.out| && t.out[..|s.out|] == s.out
  {
    var i := s.pos;
    if TogglesAt(code, i) then
      Scan(i + 1, !s.inString, s.out + [code[i] as int])
    else if code[i] == '\'' && !s.inString then
      Scan(|code|, s.inString, s.out + [SEPARATOR, REM_CODE, APOSTROPHE_CODE])
    else if s.inString then
      Scan(i + 1, true, s.out + [code[i] as int])
    else
      WordStep(table, code, i, s.out)
  }

  /** The scan from state `s` to the end of the line; the result is the output. */
  function Run(table: map<string, int>, code: string, s: Scan): seq<int>
    requires s.pos <= |code|
    decreases |code| - s.pos
  {
    if s.pos == |code| then s.out else Run(table, code, Step(table, code, s))
  }

  /** The bytes of one line's code text. */
  function Tokenize(table: map<string, int>, code: string): seq<int>
  {
    Run(table, code, Scan(0, false, []))
  }

  /** The inner search and its aftermath, proved to compute `WordStep`. */
  method ScanWord(table: map<string, int>, code: string, i: nat, tokenized: seq<int>)
    returns (next: nat, result: seq<int>)
    requires i < |code|
    ensures Scan(next, false, result) == WordStep(table, code, i, tokenized)
  {
    var k := LongestKeyword(table, code, i);
    LongestKeywordUnique(table, code, i, k);
    result := tokenized;
    if k > 0 {
      var candidate := Upper(code[i..i + k]);
      result := result + [table[candidate]];
      next := i + k;
      if candidate == "REM" || candidate == "DATA" {
        var j := next;
        while j < |code|
          invariant next <= j <= |code|
          invariant result == tokenized + [table[candidate]] + Codes(code[next..j])
        {
          result := result + [code[j] as int];
          j := j + 1;
        }
        next := |code|;
        return;
      }
      if candidate == "ELSE" {
        if |result| > 1 && result[|result| - 2] != SEPARATOR {
          result := result[..|result| - 1] + [SEPARATOR] + result[|result| - 1..];
        }
      }
      return;
    }
    result := result + [code[i] as int];
    next := i + 1;
  }

  /** `tokenizeLine`: the scanning loop, proved to compute `Tokenize`. */
  method TokenizeLine(table: map<string, int>, code: string) returns (tokenized: seq<int>)
    ensures tokenized == Tokenize(table, code)
  {
    tokenized := [];
    var i := 0;
    var inString := false;
    while i < |code|
      invariant i <= |code|
      invariant Run(table, code, Scan(i, inString, tokenized)) == Tokenize(table, code)
    {
      ghost var before := Scan(i, inString, tokenized);
      if code[i] == '"' && (i == 0 || code[i - 1] != '\\') {
        inString := !inString;
        tokenized := tokenized + [code[i] as int];
        i := i + 1;
        continue;
      }
      if code[i] == '\'' && !inString {
        tokenized := tokenized + [SEPARATOR, REM_CODE, APOSTROPHE_CODE];
        assert Step(table, code, before) == Scan(|code|, inString, tokenized);
        break;
      }
      if inString {
        tokenized := tokenized + [code[i] as int];
        i := i + 1;
        continue;
      }
      i, tokenized := ScanWord(table, code, i, tokenized);
    }
  }

  /** Bytes once emitted are never taken back: the scan only appends (the
      `ELSE` splice inserts just before the byte it has itself pushed). */
  lemma {:induction false} RunExtends(table: map<string, int>, code: string, s: Scan)
    requires s.pos <= |code|
    ensures |s.out| <= |Run(table, code, s)| && Run(table, code, s)[..|s.out|] == s.out
    decreases |code| - s.pos
  {
    if s.pos < |code| {
      var t := Step(table, code, s);
      RunExtends(table, code, t);
      assert Run(table, code, s) == Run(table, code, t);
      assert Run(table, code, s)[..|t.out|][..|s.out|] == s.out;
    }
  }

  /** Every element is a byte. */
  predicate AllBytes(b: seq<int>)
  {
    forall j :: 0 <= j < |b| ==> 0 <= b[j] < 256
  }

  /** Every character code is below 256. */
  predicate Latin1(s: string)
  {
    forall j :: 0 <= j < |s| ==> s[j] as int < 256
  }

  /** The character codes of Latin-1 text are bytes. */
  lemma CodesBytes(s: string)
    requires Latin1(s)
    ensures AllBytes(Codes(s))
  {
    forall j | 0 <= j < |s|
      ensures 0 <= Codes(s)[j] < 256
    {
      assert Codes(s)[j] == s[j] as int;
    }
  }

  /** A suffix of Latin-1 text is Latin-1. */
  lemma LatinSuffix(s: string, i: nat)
    requires Latin1(s) && i <= |s|
    ensures Latin1(s[i..])
  {
    assert forall j :: 0 <= j < |s| - i ==> s[i..][j] == s[i + j];
  }

  /** Bytes followed by bytes are bytes. */
  lemma AppendBytes(a: seq<int>, b: seq<int>)
    requires AllBytes(a) && AllBytes(b)
    ensures AllBytes(a + b)
  {
    assert forall j :: |a| <= j < |a + b| ==> (a + b)[j] == b[j - |a|];
  }

  /** A keyword turn adds a token byte, perhaps a separator before it, and
      for `REM` and `DATA` the codes of the rest of the line. */
  lemma WordStepBytes(table: map<string, int>, code: string, i: nat, out: seq<int>)
    requires Shaped(table, 0x80, 0x100) && Latin1(code)
    requires i < |code| && AllBytes(out)
    ensures AllBytes(WordStep(table, code, i, out).out)
  {
    var k := KeywordAt(table, code, i);
    if k == 0 {
      AppendBytes(out, [code[i] as int]);
    } else {
      var w := Upper(code[i..i + k]);
      assert KeywordOfLength(table, code, i, k);
      assert 0x80 <= table[w] < 0x100;
      if w == "REM" || w == "DATA" {
        LatinSuffix(code, i + k);
        CodesBytes(code[i + k..]);
        AppendBytes(out, [table[w]]);
        AppendBytes(out + [table[w]], Codes(code[i + k..]));
      } else if w == "ELSE" && |out| > 0 && out[|out| - 1] != SEPARATOR {
        AppendBytes(out, [SEPARATOR, table[w]]);
      } else {
        AppendBytes(out, [table[w]]);
      }
    }
  }

  /** One turn keeps the output a byte string. */
  lemma StepBytes(table: map<string, int>, code: string, s: Scan)
    requires Shaped(table, 0x80, 0x100) && Latin1(code)
    requires s.pos < |code| && AllBytes(s.out)
    ensures AllBytes(Step(table, code, s).out)
  {
    var i := s.pos;
    if TogglesAt(code, i) || s.inString {
      AppendBytes(s.out, [code[i] as int]);
    } else if code[i] == '\'' {
      AppendBytes(s.out, [SEPARATOR, REM_CODE, APOSTROPHE_CODE]);
    } else {
      WordStepBytes(table, code, i, s.out);
    }
  }

  lemma {:induction false} RunBytes(table: map<string, int>, code: string, s: Scan)
    requires Shaped(table, 0x80, 0x100) && Latin1(code)
    requires s.pos <= |code| && AllBytes(s.out)
    ensures AllBytes(Run(table, code, s))
    decreases |code| - s.pos
  {
    if s.pos < |code| {
      StepBytes(table, code, s);
      RunBytes(table, code, Step(table, code, s));
    }
  }

  /** With a table of token bytes and a line of 8-bit characters, the
      tokenized line is a byte string. */
  lemma TokenizeBytes(table: map<string, int>, code: string)
    requires Shaped(table, 0x80, 0x100) && Latin1(code)
    ensures AllBytes(Tokenize(table, code))
  {
    RunBytes(table, code, Scan(0, false, []));
  }

  /** An apostrophe outside a string ends the line: the output is what came
      before, then exactly `:`, the `REM` byte and the apostrophe byte. */
  lemma ApostropheEndsLine(table: map<string, int>, code: string, s: Scan)
    requires s.pos < |code| && code[s.pos] == '\'' && !s.inString
    ensures Run(table, code, s) == s.out + [SEPARATOR, REM_CODE, APOSTROPHE_CODE]
  {
    assert Step(table, code, s).pos == |code|;
  }

  /** The codes of a slice are the code of its first character, then the
      codes of the rest. */
  lemma CodesStep(code: string, a: nat, b: nat)
    requires a < b <= |code|
    ensures Codes(code[a..b]) == [code[a] as int] + Codes(code[a + 1..b])
  {
  }

  /** Inside a string, everything up to and including the closing quote is
      passed through as character codes, keywords included, and the scan
      continues outside the string after it. */
  lemma {:induction false} StringBodyVerbatim(table: map<string, int>, code: string, s: Scan, q: nat)
    requires s.inString && s.pos <= q < |code| && TogglesAt(code, q)
    requires forall j :: s.pos <= j < q ==> !TogglesAt(code, j)
    ensures Run(table, code, s) == Run(table, code, Scan(q + 1, false, s.out + Codes(code[s.pos..q + 1])))
    decreases q - s.pos
  {
    var t := Step(table, code, s);
    CodesStep(code, s.pos, q + 1);
    if s.pos < q {
      assert t == Scan(s.pos + 1, true, s.out + [code[s.pos] as int]);
      StringBodyVerbatim(table, code, t, q);
      assert t.out + Codes(code[t.pos..q + 1]) == s.out + Codes(code[s.pos..q + 1]);
    } else {
      assert Codes(code[q + 1..q + 1]) == [];
      assert t == Scan(q + 1, false, s.out + Codes(code[s.pos..q + 1]));
    }
  }

  /** A string that is never closed runs to the end of the line verbatim. */
  lemma {:induction false} UnclosedStringVerbatim(table: map<string, int>, code: string, s: Scan)
    requires s.inString && s.pos <= |code|
    requires forall j :: s.pos <= j < |code| ==> !TogglesAt(code, j)
    ensures Run(table, code, s) == s.out + Codes(code[s.pos..])
    decreases |code| - s.pos
  {
    if s.pos < |code| {
      var t := Step(table, code, s);
      assert t == Scan(s.pos + 1, true, s.out + [code[s.pos] as int]);
      UnclosedStringVerbatim(table, code, t);
      assert t.out + Codes(code[t.pos..]) == s.out + Codes(code[s.pos..]);
    }
  }

  /** String-literal masking: from an opening quote outside a string to the
      next toggling quote, the text is emitted as its own character codes and
      no keyword inside it is replaced. */
  lemma QuotedLiteralVerbatim(table: map<string, int>, code: string, s: Scan, q: nat)
    requires !s.inString && s.pos < q < |code| && TogglesAt(code, s.pos) && TogglesAt(code, q)
    requires forall j :: s.pos < j < q ==> !TogglesAt(code, j)
    ensures Run(table, code, s) == Run(table, code, Scan(q + 1, false, s.out + Codes(code[s.pos..q + 1])))
  {
    var t := Step(table, code, s);
    assert t == Scan(s.pos + 1, true, s.out + [code[s.pos] as int]);
    StringBodyVerbatim(table, code, t, q);
    assert t.out + Codes(code[t.pos..q + 1]) == s.out + Codes(code[s.pos..q + 1]);
  }

  /** After `REM` or `DATA` the output is the keyword's byte followed by the
      rest of the line's character codes, and the scan ends. */
  lemma RemDataCopiesRest(table: map<string, int>, code: string, s: Scan)
    requires s.pos < |code| && !s.inString
    requires var k := KeywordAt(table, code, s.pos);
      k > 0 && (Upper(code[s.pos..s.pos + k]) == "REM" || Upper(code[s.pos..s.pos + k]) == "DATA")
    ensures var k := KeywordAt(table, code, s.pos);
      Run(table, code, s) == s.out + [table[Upper(code[s.pos..s.pos + k])]] + Codes(code[s.pos + k..])
  {
    var k := KeywordAt(table, code, s.pos);
    assert Upper(code[s.pos..s.pos + k])[0] == UpperChar(code[s.pos]);
    assert Step(table, code, s).pos == |code|;
  }

  /** `ELSE` is preceded by a separator: one is inserted exactly when some byte
      precedes the keyword and that byte is not already `:`. */
  lemma ElseGetsSeparator(table: map<string, int>, code: string, s: Scan)
    requires s.pos < |code| && !s.inString
    requires var k := KeywordAt(table, code, s.pos); k > 0 && Upper(code[s.pos..s.pos + k]) == "ELSE"
    ensures var t := Step(table, code, s);
      var inserted := |s.out| > 0 && s.out[|s.out| - 1] != SEPARATOR;
      && t.pos == s.pos + 4 && !t.inString
      && t.out == s.out + (if inserted then [SEPARATOR] else []) + [table["ELSE"]]
      && (|s.out| > 0 ==> t.out[|t.out| - 2] == SEPARATOR)
  {
    var k := KeywordAt(table, code, s.pos);
    assert Upper(code[s.pos..s.pos + k])[0] == UpperChar(code[s.pos]);
  }

  /** Any other keyword: its byte replaces the longest matching text. With no
      match, the character's own code is emitted. */
  lemma WordReplaced(table: map<string, int>, code: string, s: Scan)
    requires s.pos < |code| && !s.inString && !TogglesAt(code, s.pos) && code[s.pos] != '\''
    ensures var k := KeywordAt(table, code, s.pos);
      var w := Upper(code[s.pos..s.pos + k]);
      && (k == 0 ==> Step(table, code, s) == Scan(s.pos + 1, false, s.out + [code[s.pos] as int]))
      && (k > 0 && w != "REM" && w != "DATA" && w != "ELSE" ==>
            w in table && Step(table, code, s) == Scan(s.pos + k, false, s.out + [table[w]]))
  {
  }
}
