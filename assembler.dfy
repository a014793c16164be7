/** The tokenized-file builder: the numbered lines of a listing are tokenized
    and laid out as a chain of line records. Each record is the two-byte
    address of the next record, the two-byte line number (both low byte
    first), the line's token bytes and a terminating zero byte; the first
    record is placed at a base address. */
module Assembler {
  import opened Wrappers
  import opened Tokens
  import opened Lexer
  import opened Listing

  /** One program line after tokenizing. */
  datatype TokenizedLine = TokenizedLine(lineNumber: nat, code: seq<int>)

  /** Where the first record goes when no base address is given. */
  const DEFAULT_BASE_ADDRESS := 0x8001

  /** Link field, line-number field and terminator around the code bytes. */
  const RECORD_OVERHEAD := 2 + 2 + 1

  /** The terminator after each record's code bytes. */
  const END_OF_LINE := 0x00

  /** Bytes taken by one record. */
  function RecordSize(line: TokenizedLine): nat
  {
    RECORD_OVERHEAD + |line.code|
  }

  /** Bytes taken by the records of `lines`. */
  function TotalSize(lines: seq<TokenizedLine>): nat
  {
    if lines == [] then 0
    else TotalSize(lines[..|lines| - 1]) + RecordSize(lines[|lines| - 1])
  }

  /** `n & 0xff` on a JavaScript number that holds an integer. */
  function Lo(n: int): int
  {
    n % 256
  }

  /** `(n >> 8) & 0xff` on a JavaScript number that holds an integer. */
  function Hi(n: int): int
  {
    (n / 256) % 256
  }

  /** Division by 256 is determined by quotient and remainder. */
  lemma Div256(n: int, q: int, r: int)
    requires 0 <= r < 256 && n == 256 * q + r
    ensures n / 256 == q && n % 256 == r
  {
  }

  /** Division by 65536 is determined by quotient and remainder. */
  lemma Div65536(n: int, q: int, r: int)
    requires 0 <= r < 65536 && n == 65536 * q + r
    ensures n / 65536 == q && n % 65536 == r
  {
  }

  /** A 16-bit field written low byte first holds the value modulo 65536. */
  lemma Le16(n: int)
    ensures 0 <= Lo(n) < 256 && 0 <= Hi(n) < 256
    ensures Lo(n) + 256 * Hi(n) == n % 65536
  {
    var a := n / 65536;
    var b := n % 65536;
    var hi := b / 256;
    var lo := b % 256;
    assert b == 256 * hi + lo;
    assert n == 256 * (256 * a + hi) + lo;
    Div256(n, 256 * a + hi, lo);
    Div256(256 * a + hi, a, hi);
  }

  /** An address made relative to the base again, modulo 65536, gives back
      an offset below 65536. */
  lemma RelativeAddress(base: int, q: int)
    requires 0 <= q < 65536
    ensures ((base + q) % 65536 - base) % 65536 == q
  {
    var a := (base + q) / 65536;
    assert (base + q) % 65536 - base == 65536 * (0 - a) + q;
    Div65536((base + q) % 65536 - base, 0 - a, q);
  }

  /** One record: the link to `next`, the line number, the code, the terminator. */
  function Record(next: int, line: TokenizedLine): seq<int>
  {
    [Lo(next), Hi(next), Lo(line.lineNumber), Hi(line.lineNumber)] + line.code + [END_OF_LINE]
  }

  /** The records of `lines`, laid out from `base`: each link holds the
      address just past its own record, which is where the next record
      starts (or the end of the program, for the last). */
  function Encode(lines: seq<TokenizedLine>, base: int): (r: seq<int>)
    ensures |r| == TotalSize(lines)
  {
    if lines == [] then []
    else
      var last := lines[|lines| - 1];
      Encode(lines[..|lines| - 1], base) + Record(base + TotalSize(lines), last)
  }

  /** `Buffer.from` on an array of integers keeps the low eight bits of each. */
  function BufferFrom(values: seq<int>): (r: seq<int>)
    ensures |r| == |values| && AllBytes(r)
  {
    seq(|values|, j requires 0 <= j < |values| => values[j] % 256)
  }

  /** Tokenizes each parsed line, keeping its line number. */
  function TokenizeParsed(table: map<string, int>, parsed: seq<LogicalLine>): (r: seq<TokenizedLine>)
    ensures |r| == |parsed|
  {
    if parsed == [] then []
    else
      var last := parsed[|parsed| - 1];
      TokenizeParsed(table, parsed[..|parsed| - 1]) + [TokenizedLine(last.lineNumber, Tokenize(table, last.code))]
  }

  /** Line `k` of the result is line `k` of the input, tokenized. */
  lemma {:induction false} TokenizeParsedAt(table: map<string, int>, parsed: seq<LogicalLine>, k: nat)
    requires k < |parsed|
    ensures TokenizeParsed(table, parsed)[k] == TokenizedLine(parsed[k].lineNumber, Tokenize(table, parsed[k].code))
    decreases |parsed|
  {
    if k < |parsed| - 1 {
      TokenizeParsedAt(table, parsed[..|parsed| - 1], k);
    }
  }

  /** Tokenizing one more parsed line appends it. */
  lemma TokenizeParsedSnoc(table: map<string, int>, parsed: seq<LogicalLine>, p: LogicalLine)
    ensures TokenizeParsed(table, parsed + [p])
      == TokenizeParsed(table, parsed) + [TokenizedLine(p.lineNumber, Tokenize(table, p.code))]
  {
    assert (parsed + [p])[..|parsed|] == parsed;
  }

  /** One more listing line adds its tokenized line when it parses, and
      nothing otherwise. */
  lemma ListingStep(table: map<string, int>, lines: seq<string>, i: nat)
    requires i < |lines|
    ensures var p := ParseLine(lines[i]);
      TokenizeParsed(table, ParseAll(lines[..i + 1])) == TokenizeParsed(table, ParseAll(lines[..i]))
        + (if p.Some? then [TokenizedLine(p.value.lineNumber, Tokenize(table, p.value.code))] else [])
  {
    ParseAllStep(lines, i);
    var p := ParseLine(lines[i]);
    if p.Some? {
      TokenizeParsedSnoc(table, ParseAll(lines[..i]), p.value);
    } else {
      assert ParseAll(lines[..i]) + [] == ParseAll(lines[..i]);
    }
  }

  /** The whole tokenized file of a listing. */
  function TokenizedFile(table: map<string, int>, text: string, base: int): seq<int>
  {
    BufferFrom(Encode(TokenizeParsed(table, ParseListing(text)), base))
  }

  /** The first loop: split the text, parse each line, tokenize each line that
      parses. */
  method TokenizeListing(table: map<string, int>, text: string) returns (tokenizedLines: seq<TokenizedLine>)
    ensures tokenizedLines == TokenizeParsed(table, ParseListing(text))
  {
    var lines := SplitLines(text);
    tokenizedLines := [];
    for i := 0 to |lines|
      invariant tokenizedLines == TokenizeParsed(table, ParseAll(lines[..i]))
    {
      ListingStep(table, lines, i);
      var parsed := ParseLine(lines[i]);
      if parsed.None? {
        continue;
      }
      var tokenizedCode := TokenizeLine(table, parsed.value.code);
      tokenizedLines := tokenizedLines + [TokenizedLine(parsed.value.lineNumber, tokenizedCode)];
    }
    assert lines[..|lines|] == lines;
  }

  /** The first address pass: the address of every record, and the address
      just past the last one. */
  method LineAddresses(tokenizedLines: seq<TokenizedLine>, baseAddress: int)
    returns (lineAddresses: seq<int>, tempAddress: int)
    ensures |lineAddresses| == |tokenizedLines|
    ensures forall j :: 0 <= j < |tokenizedLines| ==> lineAddresses[j] == baseAddress + Offset(tokenizedLines, j)
    ensures tempAddress == baseAddress + TotalSize(tokenizedLines)
  {
    lineAddresses := [];
    tempAddress := baseAddress;
    for i := 0 to |tokenizedLines|
      invariant |lineAddresses| == i
      invariant forall j :: 0 <= j < i ==> lineAddresses[j] == baseAddress + Offset(tokenizedLines, j)
      invariant tempAddress == baseAddress + Offset(tokenizedLines, i)
    {
      OffsetStep(tokenizedLines, i);
      lineAddresses := lineAddresses + [tempAddress];
      var lineSize := 2 + 2 + |tokenizedLines[i].code| + 1;
      tempAddress := tempAddress + lineSize;
    }
    OffsetEnd(tokenizedLines);
  }

  /** The second pass: the records, each linking to the next record's address
      or, for the last, to the address just past it. */
  method EmitRecords(tokenizedLines: seq<TokenizedLine>, baseAddress: int, lineAddresses: seq<int>, tempAddress: int)
    returns (outputData: seq<int>)
    requires |lineAddresses| == |tokenizedLines|
    requires forall j :: 0 <= j < |tokenizedLines| ==> lineAddresses[j] == baseAddress + Offset(tokenizedLines, j)
    requires tempAddress == baseAddress + TotalSize(tokenizedLines)
    ensures outputData == Encode(tokenizedLines, baseAddress)
  {
    outputData := [];
    OffsetEnd(tokenizedLines);
    for i := 0 to |tokenizedLines|
      invariant outputData == Encode(tokenizedLines[..i], baseAddress)
    {
      EncodeStep(tokenizedLines, baseAddress, i);
      var line := tokenizedLines[i];
      var nextAddress := if i + 1 < |tokenizedLines| then lineAddresses[i + 1] else tempAddress;
      // link, line number, code bytes, terminator
      var record := [Lo(nextAddress), Hi(nextAddress), Lo(line.lineNumber), Hi(line.lineNumber)]
        + line.code + [END_OF_LINE];
      outputData := outputData + record;
    }
    assert tokenizedLines[..|tokenizedLines|] == tokenizedLines;
  }

  /** The two address passes of `createTokenizedFile`. */
  method Assemble(tokenizedLines: seq<TokenizedLine>, baseAddress: int) returns (outputData: seq<int>)
    ensures outputData == Encode(tokenizedLines, baseAddress)
  {
    var lineAddresses, tempAddress := LineAddresses(tokenizedLines, baseAddress);
    outputData := EmitRecords(tokenizedLines, baseAddress, lineAddresses, tempAddress);
  }

  /** `createTokenizedFile` with the keyword table passed in. */
  method CreateTokenizedFileWith(table: map<string, int>, inputText: string, baseAddress: int) returns (data: seq<int>)
    ensures data == TokenizedFile(table, inputText, baseAddress)
  {
    var tokenizedLines := TokenizeListing(table, inputText);
    var outputData := Assemble(tokenizedLines, baseAddress);
    data := BufferFrom(outputData);
  }

  /** `createTokenizedFile(inputText, baseAddress)`; the base address
      defaults to 0x8001 when the caller leaves it out. */
  method CreateTokenizedFile(inputText: string, baseAddress: int := DEFAULT_BASE_ADDRESS) returns (data: seq<int>)
    ensures data == TokenizedFile(TOKENS, inputText, baseAddress)
  {
    data := CreateTokenizedFileWith(TOKENS, inputText, baseAddress);
  }

  // ----- Layout of the records -----

  /** Where record `k` starts, relative to the base address. */
  function Offset(lines: seq<TokenizedLine>, k: nat): nat
    requires k <= |lines|
  {
    TotalSize(lines[..k])
  }

  /** Record `k` ends where record `k + 1` starts. */
  lemma OffsetStep(lines: seq<TokenizedLine>, k: nat)
    requires k < |lines|
    ensures Offset(lines, k + 1) == Offset(lines, k) + RecordSize(lines[k])
  {
    assert lines[..k + 1][..k] == lines[..k];
  }

  /** The last record ends at the end of the program. */
  lemma OffsetEnd(lines: seq<TokenizedLine>)
    ensures Offset(lines, |lines|) == TotalSize(lines)
  {
    assert lines[..|lines|] == lines;
  }

  /** Records only ever add bytes: an earlier record starts no later than a later one. */
  lemma {:induction false} OffsetMonotone(lines: seq<TokenizedLine>, j: nat, k: nat)
    requires j <= k <= |lines|
    ensures Offset(lines, j) <= Offset(lines, k)
    decreases k - j
  {
    if j < k {
      OffsetStep(lines, k - 1);
      OffsetMonotone(lines, j, k - 1);
    }
  }

  /** Laying out one more line appends its record, linked just past itself. */
  lemma EncodeStep(lines: seq<TokenizedLine>, base: int, k: nat)
    requires k < |lines|
    ensures Encode(lines[..k + 1], base) == Encode(lines[..k], base) + Record(base + Offset(lines, k + 1), lines[k])
  {
    assert lines[..k + 1][..k] == lines[..k];
  }

  /** Laying out a prefix of the lines gives a prefix of the bytes. */
  lemma {:induction false} EncodePrefix(lines: seq<TokenizedLine>, base: int, k: nat)
    requires k <= |lines|
    ensures Offset(lines, k) <= |Encode(lines, base)|
    ensures Encode(lines[..k], base) == Encode(lines, base)[..Offset(lines, k)]
    decreases |lines| - k
  {
    OffsetMonotone(lines, k, |lines|);
    OffsetEnd(lines);
    if k == |lines| {
      assert lines[..k] == lines;
    } else {
      EncodePrefix(lines, base, k + 1);
      EncodeStep(lines, base, k);
      var e := Encode(lines, base);
      var shorter := Encode(lines[..k], base);
      assert |shorter| == Offset(lines, k);
      assert e[..Offset(lines, k + 1)][..Offset(lines, k)] == e[..Offset(lines, k)];
    }
  }

  /** Record `i` sits between offsets `i` and `i + 1` and links to the
      address of offset `i + 1`. */
  lemma RecordAt(lines: seq<TokenizedLine>, base: int, i: nat)
    requires i < |lines|
    ensures Offset(lines, i + 1) == Offset(lines, i) + RecordSize(lines[i])
    ensures Offset(lines, i + 1) <= |Encode(lines, base)|
    ensures Encode(lines, base)[Offset(lines, i)..Offset(lines, i + 1)]
      == Record(base + Offset(lines, i + 1), lines[i])
  {
    OffsetStep(lines, i);
    EncodePrefix(lines, base, i + 1);
    EncodeStep(lines, base, i);
    var e := Encode(lines, base);
    var a := Offset(lines, i);
    var b := Offset(lines, i + 1);
    var shorter := Encode(lines[..i], base);
    assert |shorter| == a;
    assert e[..b] == shorter + Record(base + b, lines[i]);
    assert e[a..b] == e[..b][a..];
  }

  // ----- Reading the chain back -----

  /** The 16-bit field at `p`, low byte first. */
  function Field16(data: seq<int>, p: nat): int
    requires p + 1 < |data|
  {
    data[p] + 256 * data[p + 1]
  }

  /** Follows the links from offset `p` to the end of `data`: each record's
      link, made relative to `base`, gives where the next record starts, and
      the byte just before it must be the terminator. */
  function ReadRecords(data: seq<int>, base: int, p: nat): Option<seq<TokenizedLine>>
    requires p <= |data|
    decreases |data| - p
  {
    if p == |data| then Some([])
    else if |data| - p < RECORD_OVERHEAD then None
    else
      var next := (Field16(data, p) - base) % 65536;
      var number := Field16(data, p + 2);
      if next < p + RECORD_OVERHEAD || next > |data| || data[next - 1] != END_OF_LINE || number < 0 then None
      else
        match ReadRecords(data, base, next)
        case None => None
        case Some(rest) => Some([TokenizedLine(number, data[p + 4..next - 1])] + rest)
  }

  /** The records of a tokenized file, read from its start. */
  function ReadFile(data: seq<int>, base: int): Option<seq<TokenizedLine>>
  {
    ReadRecords(data, base, 0)
  }

  /** The lines fit the 16-bit fields: line numbers below 65536 and a program
      shorter than 65536 bytes. */
  predicate Fits16(lines: seq<TokenizedLine>)
  {
    && TotalSize(lines) < 65536
    && forall k :: 0 <= k < |lines| ==> lines[k].lineNumber < 65536
  }

  /** The fields of a record found at `p`. */
  lemma RecordFields(data: seq<int>, p: nat, next: int, line: TokenizedLine)
    requires p + RecordSize(line) <= |data|
    requires data[p..p + RecordSize(line)] == Record(next, line)
    ensures Field16(data, p) == Lo(next) + 256 * Hi(next)
    ensures Field16(data, p + 2) == Lo(line.lineNumber) + 256 * Hi(line.lineNumber)
    ensures data[p + RecordSize(line) - 1] == END_OF_LINE
    ensures data[p + 4..p + RecordSize(line) - 1] == line.code
  {
    var q := p + RecordSize(line);
    var r := Record(next, line);
    var s := data[p..q];
    assert data[p] == s[0] == r[0];
    assert data[p + 1] == s[1] == r[1];
    assert data[p + 2] == s[2] == r[2];
    assert data[p + 3] == s[3] == r[3];
    assert data[q - 1] == s[|s| - 1] == r[|r| - 1];
    assert data[p + 4..q - 1] == s[4..|s| - 1] by {
      assert forall k :: p + 4 <= k < q - 1 ==> data[k] == s[k - p];
    }
    assert r[4..|r| - 1] == line.code;
  }

  /** A record laid out at `p`, linking just past itself, reads back as its
      line and the offset of the record after it. */
  lemma ReadRecordAt(data: seq<int>, base: int, p: nat, q: nat, line: TokenizedLine)
    requires p + RecordSize(line) == q <= |data| && q < 65536 && line.lineNumber < 65536
    requires data[p..q] == Record(base + q, line)
    ensures (Field16(data, p) - base) % 65536 == q
    ensures Field16(data, p + 2) == line.lineNumber
    ensures data[q - 1] == END_OF_LINE && data[p + 4..q - 1] == line.code
  {
    RecordFields(data, p, base + q, line);
    Le16(base + q);
    RelativeAddress(base, q);
    Le16(line.lineNumber);
    assert line.lineNumber % 65536 == line.lineNumber;
  }

  /** Every record offset fits 16 bits when the whole program does. */
  lemma OffsetFits(lines: seq<TokenizedLine>, k: nat)
    requires k <= |lines| && Fits16(lines)
    ensures Offset(lines, k) < 65536
  {
    OffsetMonotone(lines, k, |lines|);
    OffsetEnd(lines);
  }

  /** One well-formed record at `p` holding line `k`, followed by records
      read as the lines after `k`, reads as the lines from `k` on. */
  lemma ReadStep(data: seq<int>, base: int, p: nat, q: nat, lines: seq<TokenizedLine>, k: nat)
    requires k < |lines| && p + RECORD_OVERHEAD <= q <= |data|
    requires (Field16(data, p) - base) % 65536 == q && Field16(data, p + 2) == lines[k].lineNumber
    requires data[q - 1] == END_OF_LINE && data[p + 4..q - 1] == lines[k].code
    requires ReadRecords(data, base, q) == Some(lines[k + 1..])
    ensures ReadRecords(data, base, p) == Some(lines[k..])
  {
    assert lines[k..] == [lines[k]] + lines[k + 1..];
  }

  /** Nothing is left to read at the end of the data. */
  lemma ReadEnd(data: seq<int>, base: int, lines: seq<TokenizedLine>, k: nat)
    requires k == |lines|
    ensures ReadRecords(data, base, |data|) == Some(lines[k..])
  {
    assert lines[k..] == [];
  }

  /** Reading from offset `k` gives back the lines from `k` on. */
  lemma {:induction false} ReadFrom(lines: seq<TokenizedLine>, base: int, k: nat)
    requires k <= |lines| && Fits16(lines)
    ensures Offset(lines, k) <= |Encode(lines, base)|
    ensures ReadRecords(Encode(lines, base), base, Offset(lines, k)) == Some(lines[k..])
    decreases |lines| - k
  {
    OffsetMonotone(lines, k, |lines|);
    OffsetEnd(lines);
    if k < |lines| {
      var e := Encode(lines, base);
      var p := Offset(lines, k);
      var q := Offset(lines, k + 1);
      RecordAt(lines, base, k);
      OffsetFits(lines, k + 1);
      ReadRecordAt(e, base, p, q, lines[k]);
      ReadFrom(lines, base, k + 1);
      ReadStep(e, base, p, q, lines, k);
    } else {
      ReadEnd(Encode(lines, base), base, lines, k);
    }
  }

  /** The links are consistent: following them from the start reads every
      line back, in order, when the lines fit the 16-bit fields. */
  lemma ReadEncoded(lines: seq<TokenizedLine>, base: int)
    requires Fits16(lines)
    ensures ReadFile(Encode(lines, base), base) == Some(lines)
  {
    ReadFrom(lines, base, 0);
    assert lines[..0] == [];
  }

  // ----- No truncation for Latin-1 text -----

  /** Every line holds only character codes below 256. */
  predicate AllLatin1(lines: seq<string>)
  {
    forall k :: 0 <= k < |lines| ==> Latin1(lines[k])
  }

  /** A slice of Latin-1 text is Latin-1. */
  lemma LatinSlice(s: string, a: nat, b: nat)
    requires Latin1(s) && a <= b <= |s|
    ensures Latin1(s[a..b])
  {
    assert forall j :: 0 <= j < b - a ==> s[a..b][j] == s[a + j];
  }

  /** The lines of Latin-1 text are Latin-1. */
  lemma {:induction false} LatinLines(text: string)
    requires Latin1(text)
    ensures AllLatin1(SplitLines(text))
    decreases |text|
  {
    if '\n' in text {
      var j := FirstIndex(text, '\n');
      LatinSlice(text, j + 1, |text|);
      assert text[j + 1..|text|] == text[j + 1..];
      LatinLines(text[j + 1..]);
      if j > 0 && text[j - 1] == '\r' {
        LatinSlice(text, 0, j - 1);
        assert text[0..j - 1] == text[..j - 1];
      } else {
        LatinSlice(text, 0, j);
        assert text[0..j] == text[..j];
      }
    } else {
      assert SplitLines(text) == [text];
    }
  }

  /** Text made only of characters of Latin-1 text is Latin-1. */
  lemma LatinMembers(s: string, t: string)
    requires Latin1(t) && forall c :: c in s ==> c in t
    ensures Latin1(s)
  {
    forall j | 0 <= j < |s|
      ensures s[j] as int < 256
    {
      assert s[j] in t;
      var k :| 0 <= k < |t| && t[k] == s[j];
    }
  }

  /** The code text `parseLine` returns comes from the line. */
  lemma ParsedCodeLatin(line: string)
    requires Latin1(line) && ParseLine(line).Some?
    ensures Latin1(ParseLine(line).value.code)
  {
    CodeFromLine(line);
    LatinMembers(ParseLine(line).value.code, line);
  }

  /** The code texts parsed from Latin-1 lines are Latin-1. */
  lemma ParsedLatin(lines: seq<string>)
    requires AllLatin1(lines)
    ensures forall k :: 0 <= k < |ParseAll(lines)| ==> Latin1(ParseAll(lines)[k].code)
  {
    forall i | 0 <= i < |lines| && ParseLine(lines[i]).Some?
      ensures Latin1(ParseLine(lines[i]).value.code)
    {
      ParsedCodeLatin(lines[i]);
    }
    AcceptedCodes(ParseLine, lines, Latin1);
  }

  /** With a table of byte codes, a Latin-1 code text tokenizes to bytes. */
  lemma TokenizedLineBytes(table: map<string, int>, parsed: seq<LogicalLine>, k: nat)
    requires Shaped(table, 0x80, 0x100) && k < |parsed| && Latin1(parsed[k].code)
    ensures AllBytes(TokenizeParsed(table, parsed)[k].code)
  {
    TokenizeParsedAt(table, parsed, k);
    TokenizeBytes(table, parsed[k].code);
  }

  /** With a table of byte codes, Latin-1 code texts tokenize to bytes. */
  lemma TokenizedBytes(table: map<string, int>, parsed: seq<LogicalLine>)
    requires Shaped(table, 0x80, 0x100)
    requires forall k :: 0 <= k < |parsed| ==> Latin1(parsed[k].code)
    ensures forall k :: 0 <= k < |parsed| ==> AllBytes(TokenizeParsed(table, parsed)[k].code)
  {
    forall k | 0 <= k < |parsed|
      ensures AllBytes(TokenizeParsed(table, parsed)[k].code)
    {
      TokenizedLineBytes(table, parsed, k);
    }
  }

  /** With Latin-1 code text and token bytes below 256, every record byte
      already fits a byte. */
  lemma {:induction false} EncodeBytes(lines: seq<TokenizedLine>, base: int)
    requires forall k :: 0 <= k < |lines| ==> AllBytes(lines[k].code)
    ensures AllBytes(Encode(lines, base))
    decreases |lines|
  {
    if lines != [] {
      var last := lines[|lines| - 1];
      EncodeBytes(lines[..|lines| - 1], base);
      Le16(base + TotalSize(lines));
      Le16(last.lineNumber);
      var r := Record(base + TotalSize(lines), last);
      assert forall j :: 4 <= j < |r| - 1 ==> r[j] == last.code[j - 4];
    }
  }

  /** Keeping the low eight bits of bytes changes nothing. */
  lemma BufferFromBytes(values: seq<int>)
    requires AllBytes(values)
    ensures BufferFrom(values) == values
  {
  }

  /** For Latin-1 text the truncation to bytes changes nothing: the file is
      exactly the laid-out records. `TOKENS` has the required shape
      (`TableShape`). */
  lemma LatinFileUntruncated(table: map<string, int>, text: string, base: int)
    requires Shaped(table, 0x80, 0x100) && Latin1(text)
    ensures TokenizedFile(table, text, base) == Encode(TokenizeParsed(table, ParseListing(text)), base)
  {
    LatinLines(text);
    ParsedLatin(SplitLines(text));
    var parsed := ParseListing(text);
    TokenizedBytes(table, parsed);
    EncodeBytes(TokenizeParsed(table, parsed), base);
    BufferFromBytes(Encode(TokenizeParsed(table, parsed), base));
  }
}
