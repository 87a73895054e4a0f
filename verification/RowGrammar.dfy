/**
 * The row pattern: fixed fields around two lazy groups.
 *
 * A row is its sequence of tokens, with a mark on each token that stands after three or more spaces.
 * Every group of the pattern begins and ends at a token boundary, so lazy matching takes the fewest
 * description tokens for which the rest can match, and then the fewest pip-value tokens. Only when no
 * number of tokens will do does the pattern give back spaces: in a gap of three or more, the middle ones
 * can stand for a blank description or pip value.
 */
module RowGrammar {
  import opened Wrappers
  import opened Text
  import opened Segmentation

  predicate IsDecimal(t: string) {
    IsNumber(t) || exists i | 0 < i < |t| - 1 :: t[i] == '.' && IsNumber(t[..i]) && IsNumber(t[i + 1..])
  }

  predicate IsSigned(t: string) {
    IsDecimal(t) || (t != "" && t[0] == '-' && IsDecimal(t[1..]))
  }

  predicate IsPercent(t: string) {
    t != "" && t[|t| - 1] == '%' && IsDecimal(t[..|t| - 1])
  }

  /** `[\d,]+`. */
  predicate IsLot(t: string) {
    t != "" && forall i :: 0 <= i < |t| ==> '0' <= t[i] <= '9' || t[i] == ','
  }

  /** Digits, or digits on both sides of one point. */
  lemma DecimalExactly(t: string)
    ensures IsDecimal(t) <==> IsNumber(t) || exists a, b :: IsNumber(a) && IsNumber(b) && t == a + "." + b
  {
    if i :| 0 < i < |t| - 1 && t[i] == '.' && IsNumber(t[..i]) && IsNumber(t[i + 1..]) {
      assert t == t[..i] + "." + t[i + 1..];
    }
    if a, b :| IsNumber(a) && IsNumber(b) && t == a + "." + b {
      assert t[..|a|] == a && t[|a|] == '.' && t[|a| + 1..] == b;
    }
  }

  lemma SignedExactly(t: string)
    ensures IsSigned(t) <==> IsDecimal(t) || exists a :: IsDecimal(a) && t == "-" + a
  {
    if t != "" && t[0] == '-' {
      assert t == "-" + t[1..];
    }
    if a :| IsDecimal(a) && t == "-" + a {
      assert t[1..] == a;
    }
  }

  lemma PercentExactly(t: string)
    ensures IsPercent(t) <==> exists a :: IsDecimal(a) && t == a + "%"
  {
    if IsPercent(t) {
      assert t == t[..|t| - 1] + "%";
    }
    if a :| IsDecimal(a) && t == a + "%" {
      assert t[..|t| - 1] == a;
    }
  }

  predicate LotChars(t: string) {
    forall i :: 0 <= i < |t| ==> IsDigit(t[i]) || t[i] == ','
  }

  predicate DigitPieces(pieces: seq<string>) {
    forall i :: 0 <= i < |pieces| ==> AllDigits(pieces[i])
  }

  lemma DigitPiecesCons(piece: string, pieces: seq<string>)
    ensures DigitPieces([piece] + pieces) <==> AllDigits(piece) && DigitPieces(pieces)
  {
    var all := [piece] + pieces;
    assert all[0] == piece && forall i :: 0 <= i < |pieces| ==> all[i + 1] == pieces[i];
  }

  lemma LotCharsCut(t: string, i: nat)
    requires i < |t| && t[i] == ',' && forall j :: 0 <= j < i ==> t[j] != ','
    ensures LotChars(t) <==> AllDigits(t[..i]) && LotChars(t[i + 1..])
  {
    var tail := t[i + 1..];
    assert forall j :: i < j < |t| ==> t[j] == tail[j - i - 1];
  }

  /** A lot size is digits between commas, or commas alone; the pattern does not ask for groups of three. */
  lemma {:induction false} LotPieces(t: string)
    ensures LotChars(t) <==> DigitPieces(Split(t, ","))
    decreases |t|
  {
    match Find(t, ",", 0)
    case None =>
      CharFree(t, ',', |t|);
      DigitPiecesCons(t, []);
      assert Split(t, ",") == [t] == [t] + [];
    case Some(i) =>
      CharFree(t, ',', i);
      assert t[i..i + 1][0] == ',';
      LotCharsCut(t, i);
      LotPieces(t[i + 1..]);
      DigitPiecesCons(t[..i], Split(t[i + 1..], ","));
      assert Split(t, ",") == [t[..i]] + Split(t[i + 1..], ",");
  }

  lemma LotExactly(t: string)
    ensures IsLot(t) <==> t != "" && DigitPieces(Split(t, ","))
  {
    LotPieces(t);
  }

  lemma PercentIsNotLot(t: string)
    requires IsPercent(t)
    ensures !IsLot(t)
  {
  }

  datatype Fields = Fields(
    symbol: string,
    description: seq<string>,
    marginRetail: string,
    marginPro: string,
    lotSize: string,
    pipValue: seq<string>,
    swapLong: string,
    swapShort: string,
    digits: string,
    tick: string,
    minLots: string,
    maxLots: string,
    hours: seq<string>)

  function Numbers(f: Fields): seq<string> {
    [f.swapLong, f.swapShort, f.digits, f.tick, f.minLots, f.maxLots]
  }

  /** The tokens of a row, in the order they are written. */
  function Print(f: Fields): seq<string> {
    [f.symbol] + f.description + [f.marginRetail, f.marginPro, f.lotSize] + f.pipValue + Numbers(f) + f.hours
  }

  /** The six numeric columns, each in the shape its group demands. */
  predicate SixAt(t: seq<string>, i: int) {
    && 0 <= i && i + 6 <= |t|
    && IsSigned(t[i]) && IsSigned(t[i + 1]) && IsNumber(t[i + 2])
    && IsDecimal(t[i + 3]) && IsDecimal(t[i + 4]) && IsDecimal(t[i + 5])
  }

  predicate MarginsAt(t: seq<string>, i: int) {
    0 <= i && i + 3 <= |t| && IsPercent(t[i]) && IsPercent(t[i + 1]) && IsLot(t[i + 2])
  }

  predicate Shaped(f: Fields) {
    && f.hours != []
    && IsPercent(f.marginRetail) && IsPercent(f.marginPro) && IsLot(f.lotSize)
    && IsSigned(f.swapLong) && IsSigned(f.swapShort) && IsNumber(f.digits)
    && IsDecimal(f.tick) && IsDecimal(f.minLots) && IsDecimal(f.maxLots)
  }

  /** Neither of the lazy groups is blank. */
  predicate Full(f: Fields) {
    f.description != [] && f.pipValue != []
  }

  predicate WideAt(wide: seq<bool>, i: nat) {
    i < |wide| && wide[i]
  }

  /** A blank field needs a wide gap where it would stand. */
  predicate Fits(f: Fields, wide: seq<bool>) {
    && (f.description == [] ==> WideAt(wide, 1))
    && (f.pipValue == [] ==> WideAt(wide, 4 + |f.description|))
  }

  // ---- matching ----

  /** The first place at or after `i` for the six numbers, with trading hours behind them. */
  function FindNumbers(t: seq<string>, i: nat): (r: Option<nat>)
    ensures r.Some? ==> i <= r.value && SixAt(t, r.value) && r.value + 6 < |t|
    ensures r.Some? ==> forall j :: i <= j < r.value ==> !SixAt(t, j)
    ensures r.None? ==> forall j :: i <= j && j + 6 < |t| ==> !SixAt(t, j)
    decreases |t| - i
  {
    if i + 6 >= |t| then None
    else if SixAt(t, i) then Some(i)
    else FindNumbers(t, i + 1)
  }

  /** Where the numbers begin when the margins begin at `m`; a blank pip value is the last resort. */
  function PipEnd(t: seq<string>, wide: seq<bool>, m: nat): (r: Option<nat>)
    ensures r.Some? ==> m + 3 <= r.value && SixAt(t, r.value) && r.value + 6 < |t|
    ensures r == Some(m + 3) ==> WideAt(wide, m + 3)
    ensures FindNumbers(t, m + 4).Some? ==> r == FindNumbers(t, m + 4)
  {
    match FindNumbers(t, m + 4)
    case Some(n) => Some(n)
    case None => if WideAt(wide, m + 3) && SixAt(t, m + 3) && m + 9 < |t| then Some(m + 3) else None
  }

  /** The first place at or after `i` for the margins from which the rest can match. */
  function FindMargins(t: seq<string>, wide: seq<bool>, i: nat): (r: Option<(nat, nat)>)
    ensures r.Some? ==>
              var (m, n) := r.value;
              && i <= m && MarginsAt(t, m) && PipEnd(t, wide, m) == Some(n)
              && forall j :: i <= j < m && MarginsAt(t, j) ==> PipEnd(t, wide, j).None?
    ensures r.None? ==> forall j :: i <= j && MarginsAt(t, j) ==> PipEnd(t, wide, j).None?
    decreases |t| - i
  {
    if i + 3 > |t| then None
    else if MarginsAt(t, i) && PipEnd(t, wide, i).Some? then Some((i, PipEnd(t, wide, i).value))
    else FindMargins(t, wide, i + 1)
  }

  /** The fields of a row whose margins begin at `m` and whose numbers begin at `n`. */
  function Cut(t: seq<string>, m: nat, n: nat): Fields
    requires 1 <= m && m + 3 <= n && n + 6 < |t|
  {
    Fields(t[0], t[1..m], t[m], t[m + 1], t[m + 2], t[m + 3..n],
           t[n], t[n + 1], t[n + 2], t[n + 3], t[n + 4], t[n + 5], t[n + 6..])
  }

  /** `ROW_PATTERN.match`; a blank description is the last resort. */
  function MatchRow(t: seq<string>, wide: seq<bool>): Option<Fields> {
    match FindMargins(t, wide, 2)
    case Some((m, n)) => Some(Cut(t, m, n))
    case None =>
      if WideAt(wide, 1) && MarginsAt(t, 1) && PipEnd(t, wide, 1).Some? then Some(Cut(t, 1, PipEnd(t, wide, 1).value))
      else None
  }

  lemma PrintLayout(f: Fields)
    ensures var t, m := Print(f), 1 + |f.description|;
            var n := m + 3 + |f.pipValue|;
            && |t| == n + 6 + |f.hours|
            && t[0] == f.symbol && t[1..m] == f.description
            && t[m] == f.marginRetail && t[m + 1] == f.marginPro && t[m + 2] == f.lotSize
            && t[m + 3..n] == f.pipValue
            && t[n..n + 6] == Numbers(f)
            && t[n + 6..] == f.hours
  {
  }

  lemma WindowAt(t: seq<string>, i: nat, w: seq<string>, j: nat)
    requires j + 6 <= |w| && i + |w| <= |t| && t[i..i + |w|] == w
    ensures SixAt(t, i + j) <==> SixAt(w, j)
  {
    var u := t[i..i + |w|];
    assert u[j] == t[i + j] && u[j + 1] == t[i + j + 1] && u[j + 2] == t[i + j + 2];
    assert u[j + 3] == t[i + j + 3] && u[j + 4] == t[i + j + 4] && u[j + 5] == t[i + j + 5];
  }

  lemma PrintNumbersAt(f: Fields)
    requires Shaped(f)
    ensures var m := 1 + |f.description|; MarginsAt(Print(f), m) && SixAt(Print(f), m + 3 + |f.pipValue|)
  {
    PrintLayout(f);
    var n := 4 + |f.description| + |f.pipValue|;
    WindowAt(Print(f), n, Numbers(f), 0);
  }

  /** What matching returns is a reading of the whole row, and it fails only when there is none. */
  lemma MatchSound(t: seq<string>, wide: seq<bool>)
    ensures var r := MatchRow(t, wide);
            r.Some? ==> Shaped(r.value) && Fits(r.value, wide) && Print(r.value) == t
  {
    match FindMargins(t, wide, 2)
    case Some((m, n)) => CutSound(t, wide, m, n);
    case None =>
      if MatchRow(t, wide).Some? {
        CutSound(t, wide, 1, PipEnd(t, wide, 1).value);
      }
  }

  lemma CutSound(t: seq<string>, wide: seq<bool>, m: nat, n: nat)
    requires 1 <= m && MarginsAt(t, m) && PipEnd(t, wide, m) == Some(n) && (m == 1 ==> WideAt(wide, 1))
    ensures var f := Cut(t, m, n); Shaped(f) && Fits(f, wide) && Print(f) == t
  {
    var f := Cut(t, m, n);
    CutPrints(t, m, n);
    assert SixAt(Numbers(f), 0);
  }

  lemma CutPrints(t: seq<string>, m: nat, n: nat)
    requires 1 <= m && m + 3 <= n && n + 6 < |t|
    ensures Print(Cut(t, m, n)) == t
  {
    var f := Cut(t, m, n);
    assert t[n..n + 6] == Numbers(f);
    assert t == [t[0]] + t[1..m] + t[m..m + 3] + t[m + 3..n] + t[n..n + 6] + t[n + 6..];
    assert t[m..m + 3] == [t[m], t[m + 1], t[m + 2]];
  }

  lemma MatchComplete(f: Fields, wide: seq<bool>)
    requires Shaped(f) && Fits(f, wide)
    ensures MatchRow(Print(f), wide).Some?
  {
    PrintLayout(f);
    PrintNumbersAt(f);
    assert PipEnd(Print(f), wide, 1 + |f.description|).Some?;
  }

  /** The row is one under some choice of fields. */
  ghost predicate Readable(t: seq<string>, wide: seq<bool>) {
    exists f :: Shaped(f) && Fits(f, wide) && Print(f) == t
  }

  /** Matching succeeds exactly on the rows that can be read at all. */
  lemma MatchExactlyReadable(t: seq<string>, wide: seq<bool>)
    ensures MatchRow(t, wide).Some? <==> Readable(t, wide)
  {
    MatchSound(t, wide);
    if f :| Shaped(f) && Fits(f, wide) && Print(f) == t {
      MatchComplete(f, wide);
    }
  }

  // ---- ambiguity ----

  /** No two percentages followed by a lot size inside the description, after its first token. */
  predicate PlainDescription(f: Fields) {
    forall i :: 1 <= i < |f.description| ==> !MarginsAt(f.description, i)
  }

  /** No window of six well-shaped numbers begins inside the pip value, after its first token. */
  predicate PlainPipValue(f: Fields) {
    forall i :: 1 <= i < |f.pipValue| ==> !SixAt(f.pipValue + Numbers(f), i)
  }

  lemma MarginsInside(f: Fields, i: nat)
    requires Shaped(f) && 1 <= i < |f.description|
    ensures MarginsAt(Print(f), 1 + i) <==> MarginsAt(f.description, i)
  {
    PrintLayout(f);
    var t, d := Print(f), f.description;
    PercentIsNotLot(f.marginRetail);
    PercentIsNotLot(f.marginPro);
    forall k | 0 <= k < |d| ensures t[1 + k] == d[k] {
      assert t[1..1 + |d|][k] == d[k];
    }
    assert i + 1 == |d| ==> t[1 + i + 2] == f.marginPro;
    assert i + 2 == |d| ==> t[1 + i + 2] == f.marginRetail;
  }

  lemma NumbersInside(f: Fields, i: nat)
    requires Shaped(f) && 1 <= i <= |f.pipValue|
    ensures SixAt(Print(f), 4 + |f.description| + i) <==> SixAt(f.pipValue + Numbers(f), i)
  {
    PrintLayout(f);
    var t, w, at := Print(f), f.pipValue + Numbers(f), 4 + |f.description|;
    assert t[at..at + |w|] == w;
    WindowAt(t, at, w, i);
  }

  /** Margins seen early always let the rest match: the row's own numbers are still to come. */
  lemma EarlyMarginsWin(f: Fields, j: nat)
    requires Shaped(f) && 2 <= j < 1 + |f.description| && MarginsAt(Print(f), j)
    ensures FindNumbers(Print(f), j + 4).Some?
  {
    PrintLayout(f);
    PrintNumbersAt(f);
    MarginsInside(f, j - 1);
  }

  lemma OwnMarginsWork(f: Fields, wide: seq<bool>)
    requires Shaped(f) && Full(f)
    ensures var t, m := Print(f), 1 + |f.description|;
            2 <= m && MarginsAt(t, m) && FindNumbers(t, m + 4).Some? && PipEnd(t, wide, m).Some?
  {
    PrintLayout(f);
    PrintNumbersAt(f);
  }

  /** In a printed row the margins are found no later than where they were put, and numbers follow. */
  lemma MarginsReached(f: Fields, wide: seq<bool>)
    requires Shaped(f) && Full(f)
    ensures FindMargins(Print(f), wide, 2).Some?
    ensures var (m, n) := FindMargins(Print(f), wide, 2).value;
            m <= 1 + |f.description| && FindNumbers(Print(f), m + 4) == Some(n)
  {
    OwnMarginsWork(f, wide);
    var found := FindMargins(Print(f), wide, 2).value.0;
    if found < 1 + |f.description| {
      EarlyMarginsWin(f, found);
    }
  }

  /** Where matching finds the margins of a printed row, whatever the gaps. */
  lemma MarginsFound(f: Fields, wide: seq<bool>)
    requires Shaped(f) && Full(f)
    ensures FindMargins(Print(f), wide, 2).Some?
    ensures PlainDescription(f) <==> FindMargins(Print(f), wide, 2).value.0 == 1 + |f.description|
  {
    MarginsReached(f, wide);
    if PlainDescription(f) {
      forall j | 2 <= j < 1 + |f.description| ensures !MarginsAt(Print(f), j) {
        MarginsInside(f, j - 1);
      }
    } else {
      var i :| 1 <= i < |f.description| && MarginsAt(f.description, i);
      MarginsInside(f, i);
      EarlyMarginsWin(f, 1 + i);
      assert PipEnd(Print(f), wide, 1 + i).Some?;
    }
  }

  lemma NumbersFound(f: Fields)
    requires Shaped(f) && Full(f)
    ensures var at := 4 + |f.description|;
            PlainPipValue(f) <==> FindNumbers(Print(f), at + 1) == Some(at + |f.pipValue|)
  {
    PrintLayout(f);
    PrintNumbersAt(f);
    var t, at := Print(f), 4 + |f.description|;
    forall i | 1 <= i < |f.pipValue| ensures SixAt(t, at + i) <==> SixAt(f.pipValue + Numbers(f), i) {
      NumbersInside(f, i);
    }
    if PlainPipValue(f) {
      forall j | at + 1 <= j < at + |f.pipValue| ensures !SixAt(t, j) {
        assert !SixAt(f.pipValue + Numbers(f), j - at);
      }
    }
  }

  /**
   * Printing a row and matching it recovers every field exactly when neither lazy group can stop early,
   * whatever the gaps between its tokens.
   */
  lemma RowRoundTrip(f: Fields, wide: seq<bool>)
    requires Shaped(f) && Full(f)
    ensures MatchRow(Print(f), wide) == Some(f) <==> PlainDescription(f) && PlainPipValue(f)
  {
    MarginsReached(f, wide);
    MarginsFound(f, wide);
    NumbersFound(f);
    var (m, n) := FindMargins(Print(f), wide, 2).value;
    CutRecovers(f, m, n);
  }

  /** A row that can be read with no field blank is read so. */
  lemma FullReadingWins(f: Fields, wide: seq<bool>)
    requires Shaped(f) && Full(f)
    ensures MatchRow(Print(f), wide).Some? && Full(MatchRow(Print(f), wide).value)
  {
    MarginsReached(f, wide);
  }

  /** Cutting a printed row gives its fields back exactly when both cuts are where they were made. */
  lemma CutRecovers(f: Fields, m: nat, n: nat)
    requires 1 <= m && m + 3 <= n && n + 6 < |Print(f)|
    ensures Cut(Print(f), m, n) == f <==> m == 1 + |f.description| && n == m + 3 + |f.pipValue|
  {
    PrintLayout(f);
    var t := Print(f);
    var found := Cut(t, m, n);
    assert |found.description| == m - 1 && |found.pipValue| == n - m - 3;
    if m == 1 + |f.description| && n == m + 3 + |f.pipValue| {
      var w := t[n..n + 6];
      assert t[n] == w[0] && t[n + 1] == w[1] && t[n + 2] == w[2];
      assert t[n + 3] == w[3] && t[n + 4] == w[4] && t[n + 5] == w[5];
    }
  }

  /**
   * A check on the fields alone, met by rows such as `10 CHF per 0.0001` with swap points `-22.98`:
   * no percentage in the description, no number inside the pip value except at its ends, and a short
   * swap that is not a bare digit string.
   */
  lemma SignedSwapRowsRoundTrip(f: Fields, wide: seq<bool>)
    requires Shaped(f) && Full(f) && !IsNumber(f.swapShort)
    requires forall i :: 1 <= i < |f.description| ==> !IsPercent(f.description[i])
    requires forall i :: 1 <= i < |f.pipValue| - 1 ==> !IsSigned(f.pipValue[i])
    ensures MatchRow(Print(f), wide) == Some(f)
  {
    var w, last := f.pipValue + Numbers(f), |f.pipValue| - 1;
    assert w[last + 2] == f.swapShort;
    assert forall i :: 1 <= i < last ==> w[i] == f.pipValue[i];
    RowRoundTrip(f, wide);
  }

  /**
   * With both swaps written as bare digits the lazy pip value stops one token early: its `0.0001` is
   * read as the long swap and every later column moves by one.
   */
  lemma BareDigitSwapsShift(f: Fields, wide: seq<bool>)
    requires Shaped(f) && Full(f) && |f.pipValue| >= 2
    requires IsDecimal(f.pipValue[|f.pipValue| - 1]) && IsNumber(f.swapLong) && IsNumber(f.swapShort)
    ensures MatchRow(Print(f), wide) != Some(f)
  {
    var w, last := f.pipValue + Numbers(f), |f.pipValue| - 1;
    assert w[last] == f.pipValue[last] && w[last + 1] == f.swapLong && w[last + 2] == f.swapShort;
    assert w[last + 3] == f.digits && w[last + 4] == f.tick && w[last + 5] == f.minLots;
    assert SixAt(w, last);
    RowRoundTrip(f, wide);
  }
}
