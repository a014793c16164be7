# Model 100 BASIC tokenizer and chance-card encoder

This project models two build scripts of a stock-market game written for the
TRS-80 Model 100, and proves properties of the models in Dafny.

**The tokenizer** is `scripts/tokenize_sbonds.js`. It turns a numbered
plain-text BASIC listing into the interpreter's tokenized program image in
three stages:

- `parseLine` keeps the lines that start with a line number and splits off
  that number.
- `tokenizeLine` replaces keywords by their one-byte codes from the fixed
  `TOKENS` table. It takes the longest case-insensitive match. Quoted text is
  left alone, an apostrophe outside a string becomes `:REM'` (the bytes 0x3A,
  0x8E, 0xFF) and ends the line, and the rest of a `REM` or `DATA` line is
  copied verbatim. A `:` is put in front of `ELSE` when some byte precedes
  `ELSE` and it is not already `:`.
- `createTokenizedFile` lays the lines out as a chain of records. Each record
  holds a two-byte next-record address, a two-byte line number (both low byte
  first), the token bytes and a terminating zero. The first record sits at a
  base address, 0x8001 by default.

**The chance-card converter** is `scripts/convert_chance_cards.py`. It turns
each card row of a spreadsheet into a sparse list `[index, change, ..., 0]`,
visiting the ten stock tickers in table order. It renders the first four pairs
as a readable comment, then lays the cards out as BASIC `DATA` statements padded
to eight values, numbered in steps of ten.

Modules:

- `Wrappers`: `Option`.
- `Text`: `Join`.
- `Decimal`: decimal numerals and integer parsing.
- `Tokens`: the keyword table.
- `Lexer`: `tokenizeLine`.
- `Listing`: line splitting and `parseLine`.
- `Assembler`: `createTokenizedFile`.
- `ChanceCards`: the Python script.

The loops of the sources are methods. Each method is proved equal to a
specification function, and the properties are proved about those functions:

- `TokenizeLine` against `Tokenize`;
- `TokenizeListing` against `TokenizeParsed` of the parsed listing;
- `LineAddresses` against the record offsets `Offset` and the total size
  `TotalSize`;
- `EmitRecords` and `CreateTokenizedFile` against `Encode` and
  `TokenizedFile`;
- `EncodeCard` against `Encoding`;
- `StockNames` against `Comment`;
- `PadToEight` against `Padded`;
- `CollectCards` against `Cards`.

The keyword table and the stock table are passed as parameters to the functions
that use them. `TOKENS` and `STOCK_MAP` are the values the scripts fix, and the
lemmas about those two tables state the shape the generic proofs rely on.

## Model

| member | source | states |
|---|---|---|
| Tokens.TableShape | scripts/tokenize_sbonds.js:7-136 | every key of the keyword table is 1 to 7 characters long, within the 10-character search bound, and every code lies in 0x80..0xFF |
| Tokens.KeyShape | scripts/tokenize_sbonds.js:7-136 | any single keyword has a code in 0x80..0xFF and a length within the 10-character search bound |
| Tokens.SpecialCodes | scripts/tokenize_sbonds.js:7-136 | `REM` is 0x8E, `DATA` is 0x83 and `ELSE` is 0x91 in the table |
| Lexer.KeywordAt | scripts/tokenize_sbonds.js:164-190 | the length found is that of the longest upper-cased slice (of at most 10 characters) that is a key, or 0 when none is |
| Lexer.LongestKeywordUnique | scripts/tokenize_sbonds.js:164-190 | the longest-match length is unique, so any search meeting the definition agrees with it |
| Lexer.SearchSeesEveryKey | scripts/tokenize_sbonds.js:165 | for a table shaped like `TOKENS`, every key spelled at the position is seen by the 10-down-to-1 search, so the match is at least that long |
| Lexer.LongestKeyword | scripts/tokenize_sbonds.js:164-190 | the downward length loop returns the longest matching keyword length, or 0 |
| Lexer.ScanWord | scripts/tokenize_sbonds.js:164-197 | one step outside a string emits what the word rule prescribes: the keyword code (with the REM/DATA copy and the ELSE separator) or the raw character code |
| Lexer.TokenizeLine | scripts/tokenize_sbonds.js:138-201 | the scanning loop with its `inString` flag produces exactly the byte list of the scan specification `Tokenize` |
| Lexer.RunExtends | scripts/tokenize_sbonds.js:138-201 | the scan only appends: bytes already emitted are never changed or removed |
| Lexer.TokenizeBytes | scripts/tokenize_sbonds.js:138-201 | for a table shaped like `TOKENS` and a line of character codes below 256, every emitted value is a byte |
| Lexer.ApostropheEndsLine | scripts/tokenize_sbonds.js:151-156 | an apostrophe outside a string ends the output with exactly 0x3A, 0x8E, 0xFF, and nothing after it is emitted |
| Lexer.StringBodyVerbatim | scripts/tokenize_sbonds.js:144-162 | inside a string, every character up to and including the closing quote is emitted as its own code, with no keyword substitution |
| Lexer.UnclosedStringVerbatim | scripts/tokenize_sbonds.js:144-162 | an unclosed string copies the rest of the line verbatim |
| Lexer.QuotedLiteralVerbatim | scripts/tokenize_sbonds.js:144-162 | a quoted literal, with a quote toggling only when not preceded by a backslash, is emitted byte for byte, and scanning resumes outside the string after it |
| Lexer.RemDataCopiesRest | scripts/tokenize_sbonds.js:174-180 | after `REM` or `DATA`, the output is the keyword code followed by the remaining characters verbatim, and scanning stops |
| Lexer.ElseGetsSeparator | scripts/tokenize_sbonds.js:182-186 | before the `ELSE` code, 0x3A is inserted exactly when some byte precedes it that is not already 0x3A; afterwards the byte before `ELSE` is always 0x3A when any precedes it |
| Lexer.WordReplaced | scripts/tokenize_sbonds.js:164-197 | any other keyword's code replaces the longest matching text and the position advances by its length; with no match the raw character code is emitted and the position advances by one |
| Listing.TrimStartSuffix | scripts/tokenize_sbonds.js:204 | trimming at the start removes a prefix |
| Listing.TrimStartDropsSpace | scripts/tokenize_sbonds.js:204 | the removed prefix is white space, and the result does not start with white space |
| Listing.TrimEndPrefix | scripts/tokenize_sbonds.js:204 | trimming at the end removes a suffix |
| Listing.TrimEndDropsSpace | scripts/tokenize_sbonds.js:204 | the removed suffix is white space, and the result does not end with white space |
| Listing.Trim | scripts/tokenize_sbonds.js:204 | the trimmed line is never longer and has no white space at either end; `TrimStartDropsSpace` and `TrimEndDropsSpace` state that only white space is removed |
| Listing.SplitLinesNoFeed | scripts/tokenize_sbonds.js:221 | no piece of the split listing contains a line feed |
| Listing.SplitLines | scripts/tokenize_sbonds.js:221 | `split(/\r?\n/)` always yields at least one piece; `SplitLinesNoFeed`, `SplitJoin` (LF line ends) and `SplitJoinCrLf` (CRLF line ends) state what the pieces hold |
| Listing.SplitJoin | scripts/tokenize_sbonds.js:221 | without carriage returns, joining the pieces with line feeds gives back the listing |
| Listing.SplitJoinCrLf | scripts/tokenize_sbonds.js:221 | when every line feed follows a carriage return and every carriage return precedes a line feed, joining the pieces with `"\r\n"` gives back the listing, so each piece has lost exactly its carriage return |
| Listing.ParseTrimmedSome | scripts/tokenize_sbonds.js:209-217 | an accepted line starts with a digit run, its number is that run's decimal value, and its code is the rest with leading white space removed |
| Listing.ParseTrimmedNone | scripts/tokenize_sbonds.js:205-212 | a line is rejected only when it is blank, when it does not start with a digit, or when its code still holds a line terminator that `.` cannot match |
| Listing.ParseTrimmedFields | scripts/tokenize_sbonds.js:209-217 | the accepted number and code are the greedy split of the pattern `^(\d+)\s*(.*)$` |
| Listing.PatternSplitBounded | scripts/tokenize_sbonds.js:209 | every way of matching the pattern uses at most the digits and spaces the greedy split takes |
| Listing.NoneMissesPattern | scripts/tokenize_sbonds.js:209-212 | a rejected line has no way of matching the pattern |
| Listing.CodeFromLine | scripts/tokenize_sbonds.js:203-218 | every character of the parsed code comes from the line |
| Listing.ParseRendered | scripts/tokenize_sbonds.js:203-218 | a listing line written as number, space and code parses back to that number and code |
| Listing.ParseLine | scripts/tokenize_sbonds.js:203-218 | a line blank after trimming gives null; an accepted code holds no line terminator and has no white space at either end; `ParseTrimmedFields`, `ParseTrimmedNone` and `NoneMissesPattern` state which lines are accepted and what they hold |
| Listing.AcceptedAppend | scripts/tokenize_sbonds.js:224-229 | filtering a listing of two parts gives the filtered parts in order |
| Listing.ParseAllAppend | scripts/tokenize_sbonds.js:224-229 | the parsed lines of a concatenation are the parsed lines of each part, in input order |
| Assembler.Le16 | scripts/tokenize_sbonds.js:250-253 | the low and high byte are bytes and together give the value modulo 2^16 |
| Assembler.Record | scripts/tokenize_sbonds.js:250-255 | one record: next address low and high byte, line number low and high byte, the tokens, then 0; `RecordFields` states what each field holds |
| Assembler.RelativeAddress | scripts/tokenize_sbonds.js:248-251 | a stored 16-bit address minus the base, modulo 2^16, gives back an offset below 2^16 |
| Assembler.Encode | scripts/tokenize_sbonds.js:245-256 | the buffer is as long as the sum of the record sizes, 5 plus the token count per line |
| Assembler.BufferFrom | scripts/tokenize_sbonds.js:258 | the conversion keeps the length and yields bytes only |
| Assembler.TokenizeParsedAt | scripts/tokenize_sbonds.js:230-234 | the k-th tokenized line carries the k-th parsed line's number and the tokenizing of its code |
| Assembler.TokenizeListing | scripts/tokenize_sbonds.js:221-235 | the parse-and-tokenize loop keeps one tokenized line per accepted line, in input order |
| Assembler.LineAddresses | scripts/tokenize_sbonds.js:237-243 | line j starts at the base plus the sizes of the records before it, and the final running address is the base plus the total size |
| Assembler.EmitRecords | scripts/tokenize_sbonds.js:245-256 | the emission loop writes exactly the chained records `Encode` describes |
| Assembler.Assemble | scripts/tokenize_sbonds.js:237-256 | the two passes together produce `Encode` of the lines at the base address |
| Assembler.CreateTokenizedFileWith | scripts/tokenize_sbonds.js:220-259 | the whole builder with a given keyword table yields the byte buffer of the specification `TokenizedFile` |
| Assembler.CreateTokenizedFile | scripts/tokenize_sbonds.js:220-259 | the builder with `TOKENS` yields the byte buffer of the specification `TokenizedFile`; the base address defaults to 0x8001 |
| Assembler.OffsetStep | scripts/tokenize_sbonds.js:241-242 | each record's offset is the previous offset plus the previous record's size |
| Assembler.OffsetEnd | scripts/tokenize_sbonds.js:237-243 | the offset after the last record is the total size |
| Assembler.OffsetMonotone | scripts/tokenize_sbonds.js:237-243 | record offsets never decrease |
| Assembler.EncodeStep | scripts/tokenize_sbonds.js:245-256 | encoding one more line appends its record, whose link is the base plus the offset of the following record |
| Assembler.EncodePrefix | scripts/tokenize_sbonds.js:245-256 | the records of the first k lines are the buffer up to the offset of record k |
| Assembler.RecordAt | scripts/tokenize_sbonds.js:245-256 | record i occupies the buffer from its offset to the next offset, and holds the link to the next record and its line |
| Assembler.RecordFields | scripts/tokenize_sbonds.js:250-255 | a record's first field is the next address modulo 2^16, its second the line number modulo 2^16, its last byte is 0, and the code bytes lie between |
| Assembler.ReadRecordAt | scripts/tokenize_sbonds.js:248-255 | a record's stored link, minus the base modulo 2^16, is the buffer offset where the next record begins |
| Assembler.ReadFrom | scripts/tokenize_sbonds.js:245-256 | following the links from record k reads back exactly lines k onwards |
| Assembler.ReadEncoded | scripts/tokenize_sbonds.js:237-256 | when line numbers and the buffer fit in 16 bits, walking the link chain of the buffer reads back every line, number and token bytes, in order |
| Assembler.LatinLines | scripts/tokenize_sbonds.js:221 | splitting a listing of codes below 256 gives lines of codes below 256 |
| Assembler.TokenizedBytes | scripts/tokenize_sbonds.js:230 | for a table shaped like `TOKENS`, lines of codes below 256 tokenize to bytes |
| Assembler.EncodeBytes | scripts/tokenize_sbonds.js:245-256 | when every line's tokens are bytes, every value of the buffer is a byte |
| Assembler.LatinFileUntruncated | scripts/tokenize_sbonds.js:258 | for a listing of codes below 256, `Buffer.from` truncates nothing: the file is exactly the encoded records |
| Decimal.DecimalRoundTrip | scripts/tokenize_sbonds.js:215 | reading the decimal numeral of n gives back n |
| Decimal.ParseIntRoundTrip | scripts/convert_chance_cards.py:46 | parsing the rendered decimal of any integer gives back that integer |
| Decimal.ParseInt | scripts/convert_chance_cards.py:44-46 | `int()` on a stripped cell: a value is returned exactly for an optional `+` or `-` followed by one or more digits, and it is the digits' decimal value, negated after `-`; `ParseIntRoundTrip` states that every `str(n)` reads back as n |
| Decimal.IntToDecimal | scripts/convert_chance_cards.py:75 | `str(n)` is non-empty, ends with a digit, and starts with `-` exactly when n is negative |
| Text.JoinEnds | scripts/convert_chance_cards.py:77 | a joined list starts with its first part and ends with its last |
| Text.Join | scripts/convert_chance_cards.py:77 | joining no parts gives the empty string and joining one part gives that part; `JoinCons` states that a longer join is the first part, the separator and the join of the rest, and `JoinEnds` states its ends |
| Text.JoinCons | scripts/convert_chance_cards.py:77 | joining a first part with a non-empty rest is the first part, the separator, then the join of the rest |
| ChanceCards.StockMapShape | scripts/convert_chance_cards.py:17-20 | the table has ten tickers numbered 1 to 10 in table order, each a non-empty name starting with a capital letter |
| ChanceCards.KeysOfNumbered | scripts/convert_chance_cards.py:73 | in a consecutively numbered table, exactly one key has a given index |
| ChanceCards.TickerOfIndex | scripts/convert_chance_cards.py:73 | the ticker looked up for index i is the i-th ticker of the table, and it is the only one with that index |
| ChanceCards.IndexOf | scripts/convert_chance_cards.py:37 | `header.index` gives the first position holding the ticker, or nothing when no cell is that ticker |
| ChanceCards.StripStartDropsSpace | scripts/convert_chance_cards.py:42 | stripping at the start keeps a suffix and drops only white space |
| ChanceCards.StripEndDropsSpace | scripts/convert_chance_cards.py:42 | stripping at the end keeps a prefix and drops only white space |
| ChanceCards.StripMiddle | scripts/convert_chance_cards.py:42 | the stripped cell is a slice of the cell with only white space before and after it |
| ChanceCards.Strip | scripts/convert_chance_cards.py:42 | `str.strip` never lengthens a cell and leaves no white space at either end; with `StripMiddle` the result is the cell from its first to its last character that is not white space |
| ChanceCards.Change | scripts/convert_chance_cards.py:36-51 | a ticker missing from the header has no change; a change comes only from a column inside the row whose stripped cell is not `0` and parses to that change |
| ChanceCards.EncodeCard | scripts/convert_chance_cards.py:23-60 | the loop over the tickers yields the sparse encoding `Encoding`, and the warning carries the pair count exactly when more than 4 pairs are present |
| ChanceCards.PairsLength | scripts/convert_chance_cards.py:34-51 | the pair list holds two values per ticker that has a change |
| ChanceCards.PairsIndices | scripts/convert_chance_cards.py:34-51 | the stock indices in the pairs lie in 1..10 and strictly increase |
| ChanceCards.EncodingShape | scripts/convert_chance_cards.py:31-54 | the encoding has odd length, ends in the single terminator 0, and its pairs have strictly increasing indices in 1..10 |
| ChanceCards.PairsLookup | scripts/convert_chance_cards.py:34-51 | looking up a stock index among the first n tickers' pairs gives that ticker's change when it is among them, and nothing otherwise |
| ChanceCards.EncodingPairs | scripts/convert_chance_cards.py:34-51 | stock k+1 has a pair exactly when its header cell is found, its stripped cell is neither empty nor `0`, and it parses as an integer; the pair holds that integer |
| ChanceCards.WarningThreshold | scripts/convert_chance_cards.py:57-58 | the encoding is longer than 9 exactly when more than 4 tickers have a change |
| ChanceCards.ShownStopsAtTerminator | scripts/convert_chance_cards.py:66-69 | the rendered pairs are at most four, none of them is the terminator, and rendering stops at four pairs or at the terminator |
| ChanceCards.StockNames | scripts/convert_chance_cards.py:63-84 | the loop with its early break yields the comment `Comment`: the first shown pairs as `TICKER +N` or `TICKER N`, joined by `, `, or `no changes`, plus the dividend note for card 36 |
| ChanceCards.PairTextEnds | scripts/convert_chance_cards.py:74-75 | a rendered pair ends with a digit |
| ChanceCards.PairText | scripts/convert_chance_cards.py:74-75 | the f-string `{ticker} {sign}{change}`; `PairTextReadsBack` and `PairTextEnds` state its shape |
| ChanceCards.PairTextReadsBack | scripts/convert_chance_cards.py:74-75 | a rendered pair is the ticker, a space, and a numeral starting with `+` for a gain or `-` for a loss that reads back as the change |
| ChanceCards.SummaryEnd | scripts/convert_chance_cards.py:77 | the summary is never empty; it ends with a digit when a pair is shown and is `no changes` otherwise |
| ChanceCards.NoChangesIffEmpty | scripts/convert_chance_cards.py:77 | the summary is `no changes` exactly when the encoding starts with the terminator |
| ChanceCards.DividendNoteIff36 | scripts/convert_chance_cards.py:80-82 | the comment ends with the dividend note exactly when the stripped first cell is `36` |
| ChanceCards.PadToEight | scripts/convert_chance_cards.py:162-164 | the DATA values are exactly 8 long: the first 8 encoded values, then zeros |
| ChanceCards.PaddedTerminator | scripts/convert_chance_cards.py:162-164 | with fewer than 4 pairs the padded values keep the whole encoding, terminator included; with 4 or more pairs the terminator is cut off |
| ChanceCards.Numerals | scripts/convert_chance_cards.py:166 | each rendered value parses back to the value |
| ChanceCards.DataStatements | scripts/convert_chance_cards.py:155-171 | the header REM line carries the start line, the k-th card's DATA line is numbered start + 10(k+1) with that card's padded values, number and comment, and the next free line is start + 10(cards+1) |
| ChanceCards.Rendered | scripts/convert_chance_cards.py:157-170 | the text written for the header remark and for each DATA line; `RenderedLine` states its line number and line end |
| ChanceCards.RenderedLine | scripts/convert_chance_cards.py:157-170 | every written line starts with a numeral that reads back as its line number, then a space, and ends with a newline |
| ChanceCards.RowCard | scripts/convert_chance_cards.py:138-150 | a row yields a card exactly when it is non-empty and its stripped first cell parses as an integer; the card's number is that stripped cell, its encoding is the row's encoding (hence well formed), and its comment is rendered from that encoding |
| ChanceCards.CardsStep | scripts/convert_chance_cards.py:138-150 | one more row appends its card when `RowCard` keeps it, and nothing otherwise |
| ChanceCards.CardsAppend | scripts/convert_chance_cards.py:137-150 | collecting the cards of two runs of rows gives the cards of each run, in row order |
| ChanceCards.CollectCards | scripts/convert_chance_cards.py:137-150 | the row loop keeps one card per accepted row, in row order |

## Left out

- `main` of `scripts/tokenize_sbonds.js` is not modelled: it only resolves paths, reads and writes files and logs.
- The argument parsing, CSV reading, file writing, `print` output and `SystemExit` of `scripts/convert_chance_cards.py` are not modelled. The header and the rows arrive as parameters, and the DATA lines are `Statement` values with a rendering function `Rendered`.
- ChanceCards.EncodeCard: the warning is printed by the source; the model returns it as an optional pair count instead.
- ChanceCards.StockNames: the unused `header` parameter of `get_stock_names` is dropped.
- ChanceCards.CollectCards: its ensures does not restate that every card's encoding is well formed; `RowCard`'s ensures carries that property for each card.
- Lexer.TokenizeLine: a string is modelled as a sequence of Unicode characters, one code each. JavaScript indexes, slices and reads `charCodeAt` by UTF-16 code units, so a character above U+FFFF is two values (a surrogate pair) in the source and one in the model. After `Buffer.from`, that is two bytes in the source and one in the model.
- ChanceCards.StockNames: requires a well-formed encoding, as `encode_card` always returns. The `IndexError` that `get_stock_names` raises on a list that runs out before a terminator or before four pairs, and on an index missing from `STOCK_MAP`, is not modelled.
- ChanceCards.DataStatements: the text of each line (`Rendered`, with the header remark text) is modelled as written. Only its leading line number and its line end are proved (`RenderedLine`); the other proved properties are about the line numbers, padded values, card numbers and comments each statement carries.
- Lexer.TokenizeLine: upper-casing is modelled for ASCII letters only. JavaScript's `toUpperCase` also maps other letters and can change a string's length.
- Listing.ParseLine: `parseInt` on a very long digit string loses precision above 2^53; the model reads the exact decimal value.
- Listing.ParseLine: the white-space and line-terminator sets of JavaScript regular expressions are modelled as fixed character predicates.
- Lexer.TokenizeBytes: `Buffer.from` keeps only the low 8 bits of each value. The model applies `% 256` in `BufferFrom` and proves it changes nothing for listings of character codes below 256.
- Decimal.ParseInt: Python's `int()` also accepts underscores between digits, surrounding white space and non-ASCII digits. The model accepts an optional sign and ASCII digits only.
- Assembler.Encode: base addresses and line numbers are not range-checked, because the source does not check them either. The 16-bit fields wrap exactly as the source's `& 0xff` and `>> 8` do, and no end-of-program sentinel is appended, because the source appends none.

## Notes on the sources

- The module docstring of `scripts/convert_chance_cards.py` says that each card stores up to 6 values, but the code pads every DATA statement to 8 values. The model follows the code.
