/** The chance-card converter: each card row of the spreadsheet becomes a
    sparse list of (stock index, price change) pairs closed by a 0, a comment
    naming the changes, and a fixed-width BASIC `DATA` statement. */
module ChanceCards {
  import opened Wrappers
  import opened Text
  import opened Decimal

  // ---------------------------------------------------------------------
  // The stock table
  // ---------------------------------------------------------------------

  /** `STOCK_MAP` in its insertion order: each ticker with its stock index. */
  const STOCK_MAP: seq<(string, int)> := [
    ("CE", 1), ("GR", 2), ("ME", 3), ("PI", 4), ("SH", 5),
    ("ST", 6), ("TR", 7), ("UN", 8), ("UR", 9), ("VA", 10)
  ]

  /** Number of stocks. */
  const STOCK_COUNT := 10
  /** The index 0 closes an encoding. */
  const TERMINATOR := 0
  /** The comment lists at most this many pairs (`range(0, 8, 2)`). */
  const SHOWN_PAIRS := 4
  /** Number of values in every `DATA` statement. */
  const DATA_WIDTH := 8
  /** Distance between consecutive BASIC line numbers. */
  const LINE_STEP := 10

  /** A table shaped like `STOCK_MAP`: ten entries whose indices count from 1
      in table order, each ticker starting with a capital letter. The
      functions below take the table as a parameter; `STOCK_MAP` is the one
      the converter uses. */
  predicate StockTable(table: seq<(string, int)>)
  {
    && |table| == STOCK_COUNT
    && forall j :: 0 <= j < |table| ==> table[j].1 == j + 1 && |table[j].0| > 0 && 'A' <= table[j].0[0] <= 'Z'
  }

  lemma StockMapShape()
    ensures StockTable(STOCK_MAP)
  {
  }

  /** The comprehension `[k for k, v in entries if v == index]`. */
  function KeysWithValue(entries: seq<(string, int)>, index: int): (r: seq<string>)
    ensures |r| <= |entries|
  {
    if entries == [] then []
    else (if entries[0].1 == index then [entries[0].0] else []) + KeysWithValue(entries[1..], index)
  }

  /** In a table numbered consecutively from `base`, no key has a smaller index. */
  lemma {:induction false} NoKeysBelow(entries: seq<(string, int)>, base: int, index: int)
    requires forall j :: 0 <= j < |entries| ==> entries[j].1 == base + j
    requires index < base
    ensures KeysWithValue(entries, index) == []
    decreases |entries|
  {
    if entries != [] {
      NoKeysBelow(entries[1..], base + 1, index);
    }
  }

  /** In a table numbered consecutively from `base`, the key with index
      `base + k` is the `k`-th one, and it is the only one. */
  lemma {:induction false} KeysOfNumbered(entries: seq<(string, int)>, base: int, k: nat)
    requires forall j :: 0 <= j < |entries| ==> entries[j].1 == base + j
    requires k < |entries|
    ensures KeysWithValue(entries, base + k) == [entries[k].0]
    decreases k
  {
    if k == 0 {
      NoKeysBelow(entries[1..], base + 1, base);
    } else {
      KeysOfNumbered(entries[1..], base + 1, k - 1);
    }
  }

  /** The ticker lookup of `get_stock_names`: the first key whose index is
      `index`. */
  function TickerOf(table: seq<(string, int)>, index: int): string
    requires StockTable(table) && 1 <= index <= STOCK_COUNT
  {
    KeysOfNumbered(table, 1, index - 1);
    KeysWithValue(table, index)[0]
  }

  /** The lookup finds the ticker of entry `index - 1`, the only one with
      that index. */
  lemma TickerOfIndex(table: seq<(string, int)>, index: int)
    requires StockTable(table) && 1 <= index <= STOCK_COUNT
    ensures KeysWithValue(table, index) == [table[index - 1].0]
    ensures TickerOf(table, index) == table[index - 1].0
  {
    KeysOfNumbered(table, 1, index - 1);
  }

  // ---------------------------------------------------------------------
  // Reading cells
  // ---------------------------------------------------------------------

  /** Python `str.isspace` for one character. */
  predicate IsPySpace(c: char)
  {
    || ('\t' <= c <= '\r') || ('\U{001C}' <= c <= '\U{001F}') || c == ' '
    || c == '\U{0085}' || c == '\U{00A0}' || c == '\U{1680}' || ('\U{2000}' <= c <= '\U{200A}')
    || c == '\U{2028}' || c == '\U{2029}' || c == '\U{202F}' || c == '\U{205F}' || c == '\U{3000}'
  }

  function StripStart(s: string): (r: string)
    ensures |r| <= |s|
    ensures r == [] || !IsPySpace(r[0])
  {
    if s != [] && IsPySpace(s[0]) then StripStart(s[1..]) else s
  }

  function StripEnd(s: string): (r: string)
    ensures |r| <= |s|
    ensures r == [] || !IsPySpace(r[|r| - 1])
  {
    if s != [] && IsPySpace(s[|s| - 1]) then StripEnd(s[..|s| - 1]) else s
  }

  /** What `StripStart` keeps is a suffix of `s`, and what it drops is white space. */
  lemma {:induction false} StripStartDropsSpace(s: string)
    ensures StripStart(s) == s[|s| - |StripStart(s)|..]
    ensures forall j :: 0 <= j < |s| - |StripStart(s)| ==> IsPySpace(s[j])
    decreases |s|
  {
    if s != [] && IsPySpace(s[0]) {
      StripStartDropsSpace(s[1..]);
      assert forall j :: 1 <= j < |s| ==> s[j] == s[1..][j - 1];
    }
  }

  /** What `StripEnd` keeps is a prefix of `s`, and what it drops is white space. */
  lemma {:induction false} StripEndDropsSpace(s: string)
    ensures StripEnd(s) == s[..|StripEnd(s)|]
    ensures forall j :: |StripEnd(s)| <= j < |s| ==> IsPySpace(s[j])
    decreases |s|
  {
    if s != [] && IsPySpace(s[|s| - 1]) {
      StripEndDropsSpace(s[..|s| - 1]);
    }
  }

  /** Cutting white space off the end keeps the first character. */
  lemma {:induction false} StripEndKeepsFirst(s: string)
    requires StripEnd(s) != []
    ensures StripEnd(s)[0] == s[0]
    decreases |s|
  {
    if s != [] && IsPySpace(s[|s| - 1]) {
      StripEndKeepsFirst(s[..|s| - 1]);
    }
  }

  /** Python `s.strip()`: white space removed at both ends. */
  function Strip(s: string): (r: string)
    ensures |r| <= |s|
    ensures r == [] || (!IsPySpace(r[0]) && !IsPySpace(r[|r| - 1]))
  {
    var r := StripEnd(StripStart(s));
    if r == [] then r else StripEndKeepsFirst(StripStart(s)); r
  }

  /** `Strip` keeps the slice `s[a..b]` of `s` and drops only white space
      before `a` and after `b`; with the clean ends `Strip` ensures, this is
      the slice from the first to the last character that is not white space. */
  lemma StripMiddle(s: string)
    ensures var a := |s| - |StripStart(s)|; var b := a + |Strip(s)|;
      b <= |s| && Strip(s) == s[a..b] &&
      (forall j :: 0 <= j < a ==> IsPySpace(s[j])) &&
      (forall j :: b <= j < |s| ==> IsPySpace(s[j]))
  {
    StripStartDropsSpace(s);
    var t := StripStart(s);
    StripEndDropsSpace(t);
    var a := |s| - |t|;
    var b := a + |Strip(s)|;
    assert Strip(s) == StripEnd(t);
    forall j | b <= j < |s|
      ensures IsPySpace(s[j])
    {
      assert s[j] == t[j - a];
    }
  }

  /** Python `list.index(x)`: the first position holding `x`; `None` stands
      for the `ValueError` raised when there is none. */
  function IndexOf(xs: seq<string>, x: string): (r: Option<nat>)
    ensures r.Some? ==> r.value < |xs| && xs[r.value] == x && forall j :: 0 <= j < r.value ==> xs[j] != x
    ensures r.None? ==> forall j :: 0 <= j < |xs| ==> xs[j] != x
  {
    if xs == [] then None
    else if xs[0] == x then Some(0)
    else match IndexOf(xs[1..], x)
      case None => None
      case Some(j) => Some(j + 1)
  }

  /** The stripped cell in column `col`, or empty when the row is shorter. */
  function CellValue(row: seq<string>, col: nat): string
  {
    if col < |row| then Strip(row[col]) else ""
  }

  /** The change a card gives `ticker`: the ticker must be a header cell
      (its first occurrence names the column), and the stripped cell in that
      column must be non-empty, other than `0`, and an integer. */
  function Change(row: seq<string>, header: seq<string>, ticker: string): (r: Option<int>)
    ensures ticker !in header ==> r == None
    ensures r.Some? ==> var col := IndexOf(header, ticker).value;
      col < |row| && Strip(row[col]) != "0" && ParseInt(Strip(row[col])) == r
  {
    match IndexOf(header, ticker)
    case None => None
    case Some(col) =>
      var value := CellValue(row, col);
      if value == "" || value == "0" then None else ParseInt(value)
  }

  // ---------------------------------------------------------------------
  // encode_card
  // ---------------------------------------------------------------------

  /** What one ticker adds: its stock index and change when it has one. */
  function Contribution(index: int, change: Option<int>): seq<int>
  {
    match change
    case Some(c) => [index, c]
    case None => []
  }

  /** The pairs of the first `n` entries of `table`, in table order. */
  function Pairs(table: seq<(string, int)>, change: string -> Option<int>, n: nat): seq<int>
    requires n <= |table|
  {
    if n == 0 then []
    else Pairs(table, change, n - 1) + Contribution(table[n - 1].1, change(table[n - 1].0))
  }

  /** How many of the first `n` tickers of `table` the card changes. */
  function ChangedCount(table: seq<(string, int)>, change: string -> Option<int>, n: nat): nat
    requires n <= |table|
  {
    if n == 0 then 0
    else ChangedCount(table, change, n - 1) + if change(table[n - 1].0).Some? then 1 else 0
  }

  /** The change of each ticker on this card. */
  function ChangeOf(row: seq<string>, header: seq<string>): string -> Option<int>
  {
    ticker => Change(row, header, ticker)
  }

  /** The list `encode_card` returns for a stock table. */
  function Encoding(table: seq<(string, int)>, row: seq<string>, header: seq<string>): seq<int>
  {
    Pairs(table, ChangeOf(row, header), |table|) + [TERMINATOR]
  }

  /** `encode_card`. Its warning, printed by the source, is returned here: it
      carries the number of stocks when the card changes more than four. */
  method EncodeCard(row: seq<string>, header: seq<string>) returns (encoded: seq<int>, warning: Option<nat>)
    ensures encoded == Encoding(STOCK_MAP, row, header)
    ensures warning == if ChangedCount(STOCK_MAP, ChangeOf(row, header), |STOCK_MAP|) > SHOWN_PAIRS
      then Some(ChangedCount(STOCK_MAP, ChangeOf(row, header), |STOCK_MAP|)) else None
  {
    encoded := [];
    for k := 0 to |STOCK_MAP|
      invariant encoded == Pairs(STOCK_MAP, ChangeOf(row, header), k)
    {
      var stockTicker := STOCK_MAP[k].0;
      ghost var expected := Change(row, header, stockTicker);
      assert ChangeOf(row, header)(stockTicker) == expected;
      var colIdx := IndexOf(header, stockTicker);
      if colIdx.None? {
        assert expected == None;
        continue;
      }
      var value := if colIdx.value < |row| then Strip(row[colIdx.value]) else "";
      assert value == CellValue(row, colIdx.value);
      if value != "" && value != "0" {
        var change := ParseInt(value);
        assert expected == change;
        if change.Some? {
          var stockIdx := STOCK_MAP[k].1;
          encoded := encoded + [stockIdx];
          encoded := encoded + [change.value];
        }
      } else {
        assert expected == None;
      }
    }
    ghost var count := ChangedCount(STOCK_MAP, ChangeOf(row, header), |STOCK_MAP|);
    PairsLength(STOCK_MAP, ChangeOf(row, header), |STOCK_MAP|);
    encoded := encoded + [TERMINATOR];
    assert |encoded| == 2 * count + 1 && |encoded| / 2 == count;
    warning := None;
    if |encoded| > 9 {
      warning := Some(|encoded| / 2);
    }
  }

  /** Each changed ticker adds two values. */
  lemma {:induction false} PairsLength(table: seq<(string, int)>, change: string -> Option<int>, n: nat)
    requires n <= |table|
    ensures |Pairs(table, change, n)| == 2 * ChangedCount(table, change, n)
  {
    if n > 0 {
      PairsLength(table, change, n - 1);
    }
  }

  /** Number of pairs before the terminator of an odd-length encoding. */
  function PairCount(e: seq<int>): nat
  {
    |e| / 2
  }

  /** The stock index of pair `p`. */
  function StockAt(e: seq<int>, p: nat): int
    requires 2 * p < |e|
  {
    e[2 * p]
  }

  /** The change of pair `p`. */
  function ChangeAt(e: seq<int>, p: nat): int
    requires 2 * p + 1 < |e|
  {
    e[2 * p + 1]
  }

  /** The stock indices of the first `n` tickers' pairs lie in 1..n and
      strictly increase. */
  lemma {:induction false} PairsIndices(table: seq<(string, int)>, change: string -> Option<int>, n: nat)
    requires StockTable(table) && n <= |table|
    ensures var ps := Pairs(table, change, n);
      forall p :: 0 <= p < PairCount(ps) ==> 1 <= StockAt(ps, p) <= n
    ensures var ps := Pairs(table, change, n);
      forall p, p' :: 0 <= p < p' < PairCount(ps) ==> StockAt(ps, p) < StockAt(ps, p')
  {
    if n > 0 {
      PairsIndices(table, change, n - 1);
      PairsLength(table, change, n - 1);
      IndicesAppend(Pairs(table, change, n - 1), table[n - 1].1, change(table[n - 1].0));
    }
  }

  /** Appending the contribution of stock `n` to pairs whose indices lie in
      1..n-1 and increase keeps them increasing, now within 1..n. */
  lemma IndicesAppend(before: seq<int>, n: int, change: Option<int>)
    requires 1 <= n && |before| % 2 == 0
    requires forall p :: 0 <= p < PairCount(before) ==> 1 <= StockAt(before, p) <= n - 1
    requires forall p, p' :: 0 <= p < p' < PairCount(before) ==> StockAt(before, p) < StockAt(before, p')
    ensures var ps := before + Contribution(n, change);
      && (forall p :: 0 <= p < PairCount(ps) ==> 1 <= StockAt(ps, p) <= n)
      && (forall p, p' :: 0 <= p < p' < PairCount(ps) ==> StockAt(ps, p) < StockAt(ps, p'))
  {
    var ps := before + Contribution(n, change);
    assert forall p :: 0 <= p < PairCount(before) ==> StockAt(ps, p) == StockAt(before, p);
    if change.Some? {
      assert PairCount(ps) == PairCount(before) + 1 && StockAt(ps, PairCount(before)) == n;
      assert forall p :: 0 <= p < PairCount(before) ==> StockAt(ps, p) < StockAt(ps, PairCount(before));
    } else {
      assert ps == before;
    }
  }

  /** An encoding the rest of the program accepts: pairs whose indices lie in
      1..10, then the terminator. */
  predicate WellFormed(e: seq<int>)
  {
    && |e| % 2 == 1
    && e[|e| - 1] == TERMINATOR
    && forall p :: 0 <= p < PairCount(e) ==> 1 <= StockAt(e, p) <= STOCK_COUNT
  }

  /** The terminated pairs of any change function are well formed, with
      strictly increasing stock indices. */
  lemma TerminatedShape(table: seq<(string, int)>, change: string -> Option<int>)
    requires StockTable(table)
    ensures var e := Pairs(table, change, |table|) + [TERMINATOR];
      && WellFormed(e)
      && |e| == 2 * ChangedCount(table, change, |table|) + 1
      && forall p, p' :: 0 <= p < p' < PairCount(e) ==> StockAt(e, p) < StockAt(e, p')
  {
    var ps := Pairs(table, change, |table|);
    PairsLength(table, change, |table|);
    PairsIndices(table, change, |table|);
    var e := ps + [TERMINATOR];
    assert PairCount(e) == PairCount(ps);
    assert forall p :: 0 <= p < PairCount(ps) ==> StockAt(e, p) == StockAt(ps, p);
  }

  /** `encode_card` returns an odd-length list ending in its only terminator:
      one pair per changed ticker, with indices in 1..10 in strictly
      increasing order. */
  lemma EncodingShape(table: seq<(string, int)>, row: seq<string>, header: seq<string>)
    requires StockTable(table)
    ensures var e := Encoding(table, row, header);
      && WellFormed(e)
      && |e| == 2 * ChangedCount(table, ChangeOf(row, header), |table|) + 1
      && forall p, p' :: 0 <= p < p' < PairCount(e) ==> StockAt(e, p) < StockAt(e, p')
  {
    TerminatedShape(table, ChangeOf(row, header));
  }

  /** The change paired with `index` in a list of pairs, if any. */
  function Lookup(pairs: seq<int>, index: int): Option<int>
    decreases |pairs|
  {
    if |pairs| < 2 then None
    else if pairs[0] == index then Some(pairs[1])
    else Lookup(pairs[2..], index)
  }

  /** Looking up in a list of whole pairs followed by more values. */
  lemma {:induction false} LookupAppend(a: seq<int>, b: seq<int>, index: int)
    requires |a| % 2 == 0
    ensures Lookup(a + b, index) == if Lookup(a, index).Some? then Lookup(a, index) else Lookup(b, index)
    decreases |a|
  {
    if a == [] {
      assert a + b == b;
    } else {
      assert (a + b)[2..] == a[2..] + b;
      LookupAppend(a[2..], b, index);
    }
  }

  /** Among the first `n` tickers, ticker `k` has a pair exactly when it has a
      change, and the pair carries that change. */
  lemma {:induction false} PairsLookup(table: seq<(string, int)>, change: string -> Option<int>, n: nat, k: nat)
    requires StockTable(table) && n <= |table| && k < |table|
    ensures Lookup(Pairs(table, change, n), k + 1) == if k < n then change(table[k].0) else None
  {
    if n > 0 {
      PairsLength(table, change, n - 1);
      PairsLookup(table, change, n - 1, k);
      assert table[n - 1].1 == n;
      LookupStep(Pairs(table, change, n - 1), table[n - 1].1, change(table[n - 1].0), k + 1);
    }
  }

  /** Looking up after appending one contribution: an earlier pair wins,
      otherwise the contribution answers for its own index only. */
  lemma LookupStep(before: seq<int>, index: int, change: Option<int>, key: int)
    requires |before| % 2 == 0
    ensures Lookup(before + Contribution(index, change), key) ==
      if Lookup(before, key).Some? then Lookup(before, key) else if key == index then change else None
  {
    LookupAppend(before, Contribution(index, change), key);
    assert Lookup(Contribution(index, change), key) == if key == index then change else None;
  }

  /** Looking up stock `k + 1` in the terminated pairs gives its change. */
  lemma TerminatedLookup(table: seq<(string, int)>, change: string -> Option<int>, k: nat)
    requires StockTable(table) && k < |table|
    ensures Lookup(Pairs(table, change, |table|) + [TERMINATOR], k + 1) == change(table[k].0)
  {
    PairsLength(table, change, |table|);
    PairsLookup(table, change, |table|, k);
    LookupAppend(Pairs(table, change, |table|), [TERMINATOR], k + 1);
  }

  /** The encoding holds a pair for stock `k + 1` exactly when that ticker's
      column exists, its stripped cell is neither empty nor `0`, and it reads
      as an integer; the pair then carries that integer. */
  lemma EncodingPairs(table: seq<(string, int)>, row: seq<string>, header: seq<string>, k: nat)
    requires StockTable(table) && k < |table|
    ensures Lookup(Encoding(table, row, header), k + 1) == Change(row, header, table[k].0)
  {
    TerminatedLookup(table, ChangeOf(row, header), k);
  }

  /** The warning fires exactly when the list is longer than 9 values, that
      is, when more than four stocks change. */
  lemma WarningThreshold(table: seq<(string, int)>, row: seq<string>, header: seq<string>)
    ensures |Encoding(table, row, header)| > 9 <==> ChangedCount(table, ChangeOf(row, header), |table|) > SHOWN_PAIRS
  {
    PairsLength(table, ChangeOf(row, header), |table|);
  }

  // ---------------------------------------------------------------------
  // get_stock_names
  // ---------------------------------------------------------------------

  /** Appended to the comment of card 36. */
  const DIVIDEND_NOTE := " (special: also pays $2/share dividend)"
  /** The comment of a card without changes. */
  const NO_CHANGES := "no changes"

  /** The signed numeral of a rendered pair reads back as the change. */
  lemma PairNumeral(change: int)
    ensures var numeral := (if change > 0 then "+" else "") + IntToDecimal(change);
      && |numeral| > 0
      && numeral[0] == (if change > 0 then '+' else if change < 0 then '-' else '0')
      && ParseInt(numeral) == Some(change)
  {
    if change > 0 {
      var digits := NatToDecimal(change);
      DecimalRoundTrip(change);
      assert ("+" + digits)[1..] == digits;
    } else {
      ParseIntRoundTrip(change);
      assert "" + IntToDecimal(change) == IntToDecimal(change);
      if change == 0 {
        assert IntToDecimal(0) == [DigitChar(0)];
      }
    }
  }

  /** One rendered pair, the f-string of `get_stock_names`: the ticker, a
      space, and the change with a `+` in front when it is positive. */
  function PairText(ticker: string, change: int): string
  {
    ticker + " " + (if change > 0 then "+" else "") + IntToDecimal(change)
  }

  /** A rendered pair is the ticker, a space, and a numeral that starts with
      `+` for a gain, `-` for a loss, and reads back as the change. */
  lemma PairTextReadsBack(ticker: string, change: int)
    ensures var r := PairText(ticker, change);
      && |r| > |ticker| + 1 && r[..|ticker| + 1] == ticker + " "
      && r[|ticker| + 1] == (if change > 0 then '+' else if change < 0 then '-' else '0')
      && ParseInt(r[|ticker| + 1..]) == Some(change)
  {
    var numeral := (if change > 0 then "+" else "") + IntToDecimal(change);
    PairNumeral(change);
    assert PairText(ticker, change) == (ticker + " ") + numeral;
  }

  /** Number of pairs the comment shows: all of them, but at most four. */
  function Shown(e: seq<int>): nat
  {
    if PairCount(e) < SHOWN_PAIRS then PairCount(e) else SHOWN_PAIRS
  }

  /** The loop of `get_stock_names` stops after the fourth pair or at the
      terminator, whichever comes first: that is after `Shown(e)` pairs. */
  lemma ShownStopsAtTerminator(e: seq<int>)
    requires WellFormed(e)
    ensures Shown(e) <= PairCount(e) && 2 * Shown(e) < |e|
    ensures forall p :: 0 <= p < Shown(e) ==> StockAt(e, p) != TERMINATOR
    ensures Shown(e) == SHOWN_PAIRS || StockAt(e, Shown(e)) == TERMINATOR
  {
  }

  /** The rendered first `q` pairs of `e`, in order. */
  function ShownNames(table: seq<(string, int)>, e: seq<int>, q: nat): (r: seq<string>)
    requires StockTable(table) && WellFormed(e) && q <= Shown(e)
    ensures |r| == q
  {
    if q == 0 then []
    else ShownNames(table, e, q - 1) + [PairText(TickerOf(table, StockAt(e, q - 1)), ChangeAt(e, q - 1))]
  }

  /** The comment before the dividend note. */
  function Summary(table: seq<(string, int)>, e: seq<int>): string
    requires StockTable(table) && WellFormed(e)
  {
    var names := ShownNames(table, e, Shown(e));
    if names != [] then Join(names, ", ") else NO_CHANGES
  }

  /** `row[0].strip()`, or empty for an empty row. */
  function CardNumber(row: seq<string>): string
  {
    if row != [] then Strip(row[0]) else ""
  }

  /** The comment `get_stock_names` returns. */
  function Comment(table: seq<(string, int)>, e: seq<int>, row: seq<string>): string
    requires StockTable(table) && WellFormed(e)
  {
    Summary(table, e) + if CardNumber(row) == "36" then DIVIDEND_NOTE else ""
  }

  /** `get_stock_names`. Its `header` argument is unused by the source and is
      dropped. The source reads past the list, or finds no ticker, unless the
      encoding is well formed, as `encode_card`'s always is. */
  method StockNames(encoded: seq<int>, row: seq<string>) returns (comment: string)
    requires WellFormed(encoded)
    ensures StockTable(STOCK_MAP) && comment == Comment(STOCK_MAP, encoded, row)
  {
    StockMapShape();
    ShownStopsAtTerminator(encoded);
    var names: seq<string> := [];
    var i := 0;
    ghost var q: nat := 0;
    while i < 2 * SHOWN_PAIRS
      invariant i == 2 * q && q <= Shown(encoded)
      invariant names == ShownNames(STOCK_MAP, encoded, q)
    {
      var stockIdx := encoded[i];
      assert stockIdx == StockAt(encoded, q);
      if stockIdx == TERMINATOR {
        assert q == Shown(encoded);
        break;
      }
      var change := encoded[i + 1];
      var stockTicker := TickerOf(STOCK_MAP, stockIdx);
      names := names + [PairText(stockTicker, change)];
      i := i + 2;
      q := q + 1;
    }
    assert names == ShownNames(STOCK_MAP, encoded, Shown(encoded));
    comment := if names != [] then Join(names, ", ") else NO_CHANGES;
    var cardNum := if row != [] then Strip(row[0]) else "";
    if cardNum == "36" {
      comment := comment + DIVIDEND_NOTE;
    }
  }

  /** A rendered pair ends with the last digit of the change. */
  lemma PairTextEnds(ticker: string, change: int)
    ensures var t := PairText(ticker, change);
      |t| > 0 && IsDigit(t[|t| - 1])
  {
    var d := IntToDecimal(change);
    var t := PairText(ticker, change);
    assert t[|t| - 1] == d[|d| - 1];
  }

  /** A join whose last part ends with a digit ends with that digit. */
  lemma JoinLastDigit(parts: seq<string>, sep: string)
    requires |parts| > 0
    requires var last := parts[|parts| - 1]; |last| > 0 && IsDigit(last[|last| - 1])
    ensures var r := Join(parts, sep); |r| > 0 && IsDigit(r[|r| - 1])
  {
    JoinEnds(parts, sep);
    var last := parts[|parts| - 1];
    var r := Join(parts, sep);
    assert r[|r| - 1] == last[|last| - 1];
  }

  /** The last of the first `q` shown pairs' texts ends with a digit. */
  lemma ShownNamesLast(table: seq<(string, int)>, e: seq<int>, q: nat)
    requires StockTable(table) && WellFormed(e) && 0 < q <= Shown(e)
    ensures var last := ShownNames(table, e, q)[q - 1]; |last| > 0 && IsDigit(last[|last| - 1])
  {
    PairTextEnds(TickerOf(table, StockAt(e, q - 1)), ChangeAt(e, q - 1));
  }

  /** With at least one pair the summary ends with the last digit of the
      last shown change; without any it is `no changes`. */
  lemma SummaryEnd(table: seq<(string, int)>, e: seq<int>)
    requires StockTable(table) && WellFormed(e)
    ensures |Summary(table, e)| > 0
    ensures Shown(e) > 0 ==> IsDigit(Summary(table, e)[|Summary(table, e)| - 1])
    ensures Shown(e) == 0 ==> Summary(table, e) == NO_CHANGES
  {
    var q := Shown(e);
    if q > 0 {
      ShownNamesLast(table, e, q);
      JoinLastDigit(ShownNames(table, e, q), ", ");
    }
  }

  /** The summary is `no changes` exactly when the encoding has no pair. */
  lemma NoChangesIffEmpty(table: seq<(string, int)>, e: seq<int>)
    requires StockTable(table) && WellFormed(e)
    ensures Summary(table, e) == NO_CHANGES <==> e[0] == TERMINATOR
  {
    SummaryEnd(table, e);
    if e[0] == TERMINATOR {
      assert StockAt(e, 0) == TERMINATOR;
    } else {
      assert StockAt(e, 0) == e[0];
      assert !IsDigit(NO_CHANGES[|NO_CHANGES| - 1]);
    }
  }

  /** A string ends with `suffix`. */
  predicate EndsWith(s: string, suffix: string)
  {
    |s| >= |suffix| && s[|s| - |suffix|..] == suffix
  }

  /** The comment ends with the dividend note exactly when the stripped
      first cell is `36`. */
  lemma DividendNoteIff36(table: seq<(string, int)>, e: seq<int>, row: seq<string>)
    requires StockTable(table) && WellFormed(e)
    ensures EndsWith(Comment(table, e, row), DIVIDEND_NOTE) <==> CardNumber(row) == "36"
  {
    var c := Comment(table, e, row);
    SummaryEnd(table, e);
    if CardNumber(row) == "36" {
      assert c[|c| - |DIVIDEND_NOTE|..] == DIVIDEND_NOTE;
    } else {
      assert c == Summary(table, e);
      assert DIVIDEND_NOTE[|DIVIDEND_NOTE| - 1] == ')';
    }
  }

  // ---------------------------------------------------------------------
  // DATA statements
  // ---------------------------------------------------------------------

  /** The eight values of a card's `DATA` statement: the first eight
      encoded values, then zeros. */
  function Padded(e: seq<int>): seq<int>
  {
    seq(DATA_WIDTH, j requires 0 <= j < DATA_WIDTH => if j < |e| then e[j] else 0)
  }

  /** `padded = encoded[:8]`, then zeros appended until there are eight. */
  method PadToEight(encoded: seq<int>) returns (padded: seq<int>)
    ensures |padded| == DATA_WIDTH
    ensures forall j :: 0 <= j < |padded| ==> padded[j] == if j < |encoded| then encoded[j] else 0
    ensures padded == Padded(encoded)
  {
    padded := if |encoded| <= DATA_WIDTH then encoded else encoded[..DATA_WIDTH];
    while |padded| < DATA_WIDTH
      invariant |padded| <= DATA_WIDTH
      invariant forall j :: 0 <= j < |padded| ==> padded[j] == if j < |encoded| then encoded[j] else 0
      decreases DATA_WIDTH - |padded|
    {
      padded := padded + [0];
    }
  }

  /** With fewer than four pairs the whole encoding, terminator included,
      opens the padded values; with four or more the terminator is cut off
      and each of the four pairs holds a stock index. */
  lemma PaddedTerminator(e: seq<int>)
    requires WellFormed(e)
    ensures PairCount(e) < SHOWN_PAIRS ==> Padded(e)[..|e|] == e && Padded(e)[|e| - 1] == TERMINATOR
    ensures PairCount(e) >= SHOWN_PAIRS ==>
      Padded(e) == e[..DATA_WIDTH] && forall p :: 0 <= p < SHOWN_PAIRS ==> StockAt(Padded(e), p) != TERMINATOR
  {
    if PairCount(e) >= SHOWN_PAIRS {
      assert forall p :: 0 <= p < SHOWN_PAIRS ==> StockAt(Padded(e), p) == StockAt(e, p);
    }
  }

  /** A card as `main` collects it. */
  datatype Card = Card(number: string, encoded: seq<int>, comment: string)

  /** A line `main` writes: the header comment, or one card's `DATA`
      statement with its trailing comment. */
  datatype Statement =
    | Remark(lineNum: int)
    | Data(lineNum: int, values: seq<int>, number: string, comment: string)

  const HEADER_TEXT := " REM --- CHANCE CARDS DATA (36 CARDS) ---\n"

  /** The numerals of `values`, each reading back as its value. */
  function Numerals(values: seq<int>): (r: seq<string>)
    ensures |r| == |values|
    ensures forall j :: 0 <= j < |r| ==> ParseInt(r[j]) == Some(values[j])
  {
    if values == [] then []
    else
      ParseIntRoundTrip(values[0]);
      [IntToDecimal(values[0])] + Numerals(values[1..])
  }

  /** The text written for a statement: its line number, a space, then the
      statement and the line end. */
  function Rendered(st: Statement): string
  {
    match st
    case Remark(lineNum) => IntToDecimal(lineNum) + HEADER_TEXT
    case Data(lineNum, values, number, comment) =>
      IntToDecimal(lineNum) + (" " + ("DATA " + Join(Numerals(values), ",")
        + "  : REM Card " + number + ": " + comment + "\n"))
  }

  /** A numeral, a space and a text ending the line. */
  lemma NumberedLine(n: string, rest: string)
    requires |rest| > 0 && rest[|rest| - 1] == '\n'
    ensures var r := n + (" " + rest);
      |r| > |n| && r[..|n|] == n && r[|n|] == ' ' && r[|r| - 1] == '\n'
  {
  }

  /** A rendered statement starts with a numeral that reads back as its line
      number, followed by a space, and ends the line. */
  lemma RenderedLine(st: Statement)
    ensures var r := Rendered(st); var n := IntToDecimal(st.lineNum);
      && |r| > |n| && ParseInt(r[..|n|]) == Some(st.lineNum) && r[|n|] == ' ' && r[|r| - 1] == '\n'
  {
    ParseIntRoundTrip(st.lineNum);
    match st
    case Remark(lineNum) =>
      NumberedLine(IntToDecimal(lineNum), HEADER_TEXT[1..]);
      assert " " + HEADER_TEXT[1..] == HEADER_TEXT;
    case Data(lineNum, values, number, comment) =>
      NumberedLine(IntToDecimal(lineNum), "DATA " + Join(Numerals(values), ",")
        + "  : REM Card " + number + ": " + comment + "\n");
  }


  /** The lines `main` writes: the header numbered `startLine`, then card
      `k`'s eight padded values numbered `startLine + 10 * (k + 1)`;
      `lineNum` is the next free line number. */
  method DataStatements(startLine: int, cards: seq<Card>) returns (lines: seq<Statement>, lineNum: int)
    ensures |lines| == |cards| + 1
    ensures lines[0] == Remark(startLine)
    ensures forall k :: 0 <= k < |cards| ==>
      lines[k + 1] == Data(startLine + LINE_STEP * (k + 1), Padded(cards[k].encoded), cards[k].number, cards[k].comment)
    ensures lineNum == startLine + LINE_STEP * (|cards| + 1)
  {
    lineNum := startLine;
    lines := [Remark(lineNum)];
    lineNum := lineNum + LINE_STEP;
    for k := 0 to |cards|
      invariant |lines| == k + 1
      invariant lines[0] == Remark(startLine)
      invariant forall m :: 0 <= m < k ==>
        lines[m + 1] == Data(startLine + LINE_STEP * (m + 1), Padded(cards[m].encoded), cards[m].number, cards[m].comment)
      invariant lineNum == startLine + LINE_STEP * (k + 1)
    {
      var card := cards[k];
      var padded := PadToEight(card.encoded);
      lines := lines + [Data(lineNum, padded, card.number, card.comment)];
      lineNum := lineNum + LINE_STEP;
    }
  }

  // ---------------------------------------------------------------------
  // Selecting the card rows
  // ---------------------------------------------------------------------

  /** The card `main` makes of one row after the header: none when the row
      is empty or its stripped first cell is empty or not an integer;
      otherwise the card with that number, its encoding and its comment. */
  function RowCard(header: seq<string>, row: seq<string>): (r: Option<Card>)
    ensures r.Some? <==> row != [] && ParseInt(Strip(row[0])).Some?
    ensures r.Some? ==> r.value.number == Strip(row[0]) && r.value.encoded == Encoding(STOCK_MAP, row, header)
    ensures r.Some? ==> WellFormed(r.value.encoded) && ParseInt(r.value.number).Some?
    ensures r.Some? ==> StockTable(STOCK_MAP) && r.value.comment == Comment(STOCK_MAP, r.value.encoded, row)
  {
    if row == [] || Strip(row[0]) == "" || ParseInt(Strip(row[0])).None? then None
    else
      StockMapShape();
      EncodingShape(STOCK_MAP, row, header);
      var e := Encoding(STOCK_MAP, row, header);
      Some(Card(Strip(row[0]), e, Comment(STOCK_MAP, e, row)))
  }

  /** The cards `main` collects from the rows after the header, in order. */
  function Cards(header: seq<string>, rows: seq<seq<string>>): seq<Card>
  {
    if rows == [] then []
    else
      Cards(header, rows[..|rows| - 1]) +
      match RowCard(header, rows[|rows| - 1])
      case Some(card) => [card]
      case None => []
  }

  /** One more row adds its card, if it yields one. */
  lemma CardsStep(header: seq<string>, rows: seq<seq<string>>, r: nat)
    requires r < |rows|
    ensures var kept := RowCard(header, rows[r]);
      Cards(header, rows[..r + 1]) == Cards(header, rows[..r]) + if kept.Some? then [kept.value] else []
  {
    assert rows[..r + 1][..r] == rows[..r];
  }

  /** Collecting the cards of two runs of rows gives the cards of each run,
      in row order. */
  lemma {:induction false} CardsAppend(header: seq<string>, a: seq<seq<string>>, b: seq<seq<string>>)
    ensures Cards(header, a + b) == Cards(header, a) + Cards(header, b)
    decreases |b|
  {
    if b != [] {
      var last := b[|b| - 1];
      assert (a + b)[..|a + b| - 1] == a + b[..|b| - 1];
      assert (a + b)[|a + b| - 1] == last;
      CardsAppend(header, a, b[..|b| - 1]);
    } else {
      assert a + b == a;
    }
  }

  /** The card loop of `main`: one card per row that `RowCard` keeps, in
      row order. */
  method CollectCards(header: seq<string>, rows: seq<seq<string>>) returns (cards: seq<Card>)
    ensures cards == Cards(header, rows)
  {
    cards := [];
    for r := 0 to |rows|
      invariant cards == Cards(header, rows[..r])
    {
      var row := rows[r];
      CardsStep(header, rows, r);
      if row == [] || Strip(row[0]) == "" {
        continue;
      }
      var cardNum := Strip(row[0]);
      if ParseInt(cardNum).None? {
        continue;
      }
      var encoded, _ := EncodeCard(row, header);
      StockMapShape();
      EncodingShape(STOCK_MAP, row, header);
      var comment := StockNames(encoded, row);
      var kept := RowCard(header, row);
      assert kept.Some? && kept.value == Card(cardNum, encoded, comment);
      cards := cards + [Card(cardNum, encoded, comment)];
    }
    assert rows[..|rows|] == rows;
  }
}
