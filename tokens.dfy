/** The keyword table of Model 100 BASIC: each reserved word, operator or
    function name, written in upper case, with the single byte that stands for
    it in a tokenized program. */
module Tokens {

  /** The fixed table, in the order of its declaration: codes run without a
      gap from 0x80 (`END`) to 0xFF (the apostrophe). It is written out in eight
      rows of sixteen consecutive codes each. */
  const TOKENS: map<string, int> := ((ROW7 + ROW6) + (ROW5 + ROW4)) + ((ROW3 + ROW2) + (ROW1 + ROW0))

  /** Codes 0x80..0x8F. */
  const ROW0: map<string, int> := map[
      "END" := 0x80, "FOR" := 0x81, "NEXT" := 0x82, "DATA" := 0x83,
      "INPUT" := 0x84, "DIM" := 0x85, "READ" := 0x86, "LET" := 0x87,
      "GOTO" := 0x88, "RUN" := 0x89, "IF" := 0x8A, "RESTORE" := 0x8B,
      "GOSUB" := 0x8C, "RETURN" := 0x8D, "REM" := 0x8E, "STOP" := 0x8F
    ]

  /** Codes 0x90..0x9F. */
  const ROW1: map<string, int> := map[
      "WIDTH" := 0x90, "ELSE" := 0x91, "LINE" := 0x92, "EDIT" := 0x93,
      "ERROR" := 0x94, "RESUME" := 0x95, "OUT" := 0x96, "ON" := 0x97,
      "DSKO$" := 0x98, "OPEN" := 0x99, "CLOSE" := 0x9A, "LOAD" := 0x9B,
      "MERGE" := 0x9C, "FILES" := 0x9D, "SAVE" := 0x9E, "LFILES" := 0x9F
    ]

  /** Codes 0xA0..0xAF. */
  const ROW2: map<string, int> := map[
      "LPRINT" := 0xA0, "DEF" := 0xA1, "POKE" := 0xA2, "PRINT" := 0xA3,
      "CONT" := 0xA4, "LIST" := 0xA5, "LLIST" := 0xA6, "CLEAR" := 0xA7,
      "CLOAD" := 0xA8, "CSAVE" := 0xA9, "TIME$" := 0xAA, "DATE$" := 0xAB,
      "DAY$" := 0xAC, "COM" := 0xAD, "MDM" := 0xAE, "KEY" := 0xAF
    ]

  /** Codes 0xB0..0xBF. */
  const ROW3: map<string, int> := map[
      "CLS" := 0xB0, "BEEP" := 0xB1, "SOUND" := 0xB2, "LCOPY" := 0xB3,
      "PSET" := 0xB4, "PRESET" := 0xB5, "MOTOR" := 0xB6, "MAX" := 0xB7,
      "POWER" := 0xB8, "CALL" := 0xB9, "MENU" := 0xBA, "IPL" := 0xBB,
      "NAME" := 0xBC, "KILL" := 0xBD, "SCREEN" := 0xBE, "NEW" := 0xBF
    ]

  /** Codes 0xC0..0xCF. */
  const ROW4: map<string, int> := map[
      "TAB(" := 0xC0, "TO" := 0xC1, "USING" := 0xC2, "VARPTR" := 0xC3,
      "ERL" := 0xC4, "ERR" := 0xC5, "STRING$" := 0xC6, "INSTR" := 0xC7,
      "DSKI$" := 0xC8, "INKEY$" := 0xC9, "CSRLIN" := 0xCA, "OFF" := 0xCB,
      "HIMEM" := 0xCC, "THEN" := 0xCD, "NOT" := 0xCE, "STEP" := 0xCF
    ]

  /** Codes 0xD0..0xDF. */
  const ROW5: map<string, int> := map[
      "+" := 0xD0, "-" := 0xD1, "*" := 0xD2, "/" := 0xD3,
      "^" := 0xD4, "AND" := 0xD5, "OR" := 0xD6, "XOR" := 0xD7,
      "EQV" := 0xD8, "IMP" := 0xD9, "MOD" := 0xDA, "\\" := 0xDB,
      ">" := 0xDC, "=" := 0xDD, "<" := 0xDE, "SGN" := 0xDF
    ]

  /** Codes 0xE0..0xEF. */
  const ROW6: map<string, int> := map[
      "INT" := 0xE0, "ABS" := 0xE1, "FRE" := 0xE2, "INP" := 0xE3,
      "LPOS" := 0xE4, "POS" := 0xE5, "SQR" := 0xE6, "RND" := 0xE7,
      "LOG" := 0xE8, "EXP" := 0xE9, "COS" := 0xEA, "SIN" := 0xEB,
      "TAN" := 0xEC, "ATN" := 0xED, "PEEK" := 0xEE, "EOF" := 0xEF
    ]

  /** Codes 0xF0..0xFF. */
  const ROW7: map<string, int> := map[
      "LOC" := 0xF0, "LOF" := 0xF1, "CINT" := 0xF2, "CSNG" := 0xF3,
      "CDBL" := 0xF4, "FIX" := 0xF5, "LEN" := 0xF6, "STR$" := 0xF7,
      "VAL" := 0xF8, "ASC" := 0xF9, "CHR$" := 0xFA, "SPACE$" := 0xFB,
      "LEFT$" := 0xFC, "RIGHT$" := 0xFD, "MID$" := 0xFE, "'" := 0xFF
    ]

  /** Byte of the comment statement `REM`. */
  const REM_CODE := 0x8E
  /** Byte of the `ELSE` keyword. */
  const ELSE_CODE := 0x91
  /** The statement separator `:`. */
  const SEPARATOR := 0x3A
  /** Byte of the apostrophe comment shorthand. */
  const APOSTROPHE_CODE := 0xFF

  /** Longest key in the table. */
  const LONGEST_KEY := 7

  /** A part of the table whose keys have 1 to 7 characters and whose codes lie in [lo, hi). */
  ghost predicate Shaped(part: map<string, int>, lo: int, hi: int)
  {
    forall w :: w in part ==> 1 <= |w| <= LONGEST_KEY && lo <= part[w] < hi
  }

  // Each row holds sixteen consecutive codes, so each lies in one sixteenth of [0x80, 0x100).
  lemma Row0Shape() ensures Shaped(ROW0, 0x80, 0x90) {}
  lemma Row1Shape() ensures Shaped(ROW1, 0x90, 0xA0) {}
  lemma Row2Shape() ensures Shaped(ROW2, 0xA0, 0xB0) {}
  lemma Row3Shape() ensures Shaped(ROW3, 0xB0, 0xC0) {}
  lemma Row4Shape() ensures Shaped(ROW4, 0xC0, 0xD0) {}
  lemma Row5Shape() ensures Shaped(ROW5, 0xD0, 0xE0) {}
  lemma Row6Shape() ensures Shaped(ROW6, 0xE0, 0xF0) {}
  lemma Row7Shape() ensures Shaped(ROW7, 0xF0, 0x100) {}

  /** Joining a part with codes in [mid, hi) and one with codes in [lo, mid)
      gives a part with codes in [lo, hi). */
  lemma JoinShaped(a: map<string, int>, b: map<string, int>, lo: int, mid: int, hi: int)
    requires lo <= mid <= hi && Shaped(a, mid, hi) && Shaped(b, lo, mid)
    ensures Shaped(a + b, lo, hi)
  {
  }

  lemma LowQuarterShape() ensures Shaped(ROW1 + ROW0, 0x80, 0xA0)
  {
    Row0Shape(); Row1Shape(); JoinShaped(ROW1, ROW0, 0x80, 0x90, 0xA0);
  }
  lemma SecondQuarterShape() ensures Shaped(ROW3 + ROW2, 0xA0, 0xC0)
  {
    Row2Shape(); Row3Shape(); JoinShaped(ROW3, ROW2, 0xA0, 0xB0, 0xC0);
  }
  lemma ThirdQuarterShape() ensures Shaped(ROW5 + ROW4, 0xC0, 0xE0)
  {
    Row4Shape(); Row5Shape(); JoinShaped(ROW5, ROW4, 0xC0, 0xD0, 0xE0);
  }
  lemma HighQuarterShape() ensures Shaped(ROW7 + ROW6, 0xE0, 0x100)
  {
    Row6Shape(); Row7Shape(); JoinShaped(ROW7, ROW6, 0xE0, 0xF0, 0x100);
  }
  lemma LowHalfShape() ensures Shaped((ROW3 + ROW2) + (ROW1 + ROW0), 0x80, 0xC0)
  {
    LowQuarterShape(); SecondQuarterShape(); JoinShaped(ROW3 + ROW2, ROW1 + ROW0, 0x80, 0xA0, 0xC0);
  }
  lemma HighHalfShape() ensures Shaped((ROW7 + ROW6) + (ROW5 + ROW4), 0xC0, 0x100)
  {
    ThirdQuarterShape(); HighQuarterShape(); JoinShaped(ROW7 + ROW6, ROW5 + ROW4, 0xC0, 0xE0, 0x100);
  }

  /** Every code is a token byte (high bit set), and every key has 1 to 7
      characters, so a search of at most 10 characters sees every key. */
  lemma TableShape()
    ensures Shaped(TOKENS, 0x80, 0x100)
  {
    LowHalfShape(); HighHalfShape();
    JoinShaped((ROW7 + ROW6) + (ROW5 + ROW4), (ROW3 + ROW2) + (ROW1 + ROW0), 0x80, 0xC0, 0x100);
  }

  /** The table's shape, spelled out for one key. */
  lemma KeyShape(w: string)
    requires w in TOKENS
    ensures 0x80 <= TOKENS[w] <= 0xFF && 1 <= |w| <= LONGEST_KEY
  {
    TableShape();
  }

  lemma RemDataInRow0() ensures "REM" in ROW0 && ROW0["REM"] == REM_CODE && "DATA" in ROW0 && ROW0["DATA"] == 0x83 {}
  lemma ElseInRow1() ensures "ELSE" in ROW1 && ROW1["ELSE"] == ELSE_CODE {}
  lemma ElseNotInRow0() ensures "ELSE" !in ROW0 {}

  /** The codes the scanner treats specially: `REM` and `DATA` (both in the
      last-joined row) and `ELSE`. */
  lemma SpecialCodes()
    ensures "REM" in TOKENS && TOKENS["REM"] == REM_CODE
    ensures "DATA" in TOKENS && TOKENS["DATA"] == 0x83
    ensures "ELSE" in TOKENS && TOKENS["ELSE"] == ELSE_CODE
  {
    RemDataInRow0(); ElseInRow1(); ElseNotInRow0();
  }
}
