/** `parse_text` as a whole: segmentation, then one row match per segment. */
module SpecificationParser {
  import opened Wrappers
  import opened Text
  import opened Segmentation
  import opened RowGrammar

  /** The whitespace-separated tokens of a text, `cur` being the token under way. */
  function WordsFrom(s: string, cur: string): seq<string>
    decreases |s|
  {
    if s == "" then (if cur == "" then [] else [cur])
    else if IsSpace(s[0]) then (if cur == "" then [] else [cur]) + WordsFrom(s[1..], "")
    else WordsFrom(s[1..], cur + [s[0]])
  }

  function Words(s: string): seq<string> {
    WordsFrom(s, "")
  }

  lemma {:induction false} WordsFromConcat(a: string, b: string, cur: string)
    ensures WordsFrom(a + " " + b, cur) == WordsFrom(a, cur) + WordsFrom(b, "")
    decreases |a|
  {
    var whole := a + " " + b;
    if a == "" {
      assert whole[1..] == b;
    } else {
      assert whole[0] == a[0] && whole[1..] == a[1..] + " " + b;
      if IsSpace(a[0]) {
        WordsFromConcat(a[1..], b, "");
      } else {
        WordsFromConcat(a[1..], b, cur + [a[0]]);
      }
    }
  }

  function FlatWords(lines: seq<string>): seq<string> {
    if lines == [] then [] else FlatWords(lines[..|lines| - 1]) + Words(lines[|lines| - 1])
  }

  /** Joining wrapped lines keeps their tokens. */
  lemma {:induction false} WordsOfJoin(lines: seq<string>)
    ensures Words(Join(lines)) == FlatWords(lines)
  {
    if |lines| == 1 {
      assert FlatWords(lines[..0]) == [];
    } else if |lines| > 1 {
      var init, last := lines[..|lines| - 1], lines[|lines| - 1];
      WordsOfJoin(init);
      WordsFromConcat(Join(init), last, "");
    }
  }

  /** For each token, whether three or more spaces stand before it; `gap` counts the spaces just read. */
  function GapsFrom(s: string, inWord: bool, gap: nat): seq<bool>
    decreases |s|
  {
    if s == "" then []
    else if IsSpace(s[0]) then GapsFrom(s[1..], false, gap + 1)
    else (if inWord then [] else [gap >= 3]) + GapsFrom(s[1..], true, 0)
  }

  function WideGaps(s: string): seq<bool> {
    GapsFrom(s, false, 0)
  }

  /** There is one mark for each token. */
  lemma {:induction false} GapForEachWord(s: string, cur: string, gap: nat)
    ensures |GapsFrom(s, cur != "", gap)| + Bit(cur != "") == |WordsFrom(s, cur)|
    decreases |s|
  {
    if s != "" {
      if IsSpace(s[0]) {
        GapForEachWord(s[1..], "", gap + 1);
      } else {
        GapForEachWord(s[1..], cur + [s[0]], 0);
      }
    }
  }

  lemma {:induction false} GapsOfSpaces(spaces: string, rest: string, inWord: bool, gap: nat)
    requires spaces != "" && AllSpaces(spaces)
    ensures GapsFrom(spaces + rest, inWord, gap) == GapsFrom(rest, false, gap + |spaces|)
    decreases |spaces|
  {
    var s := spaces + rest;
    assert s[0] == spaces[0] && s[1..] == spaces[1..] + rest;
    if |spaces| > 1 {
      GapsOfSpaces(spaces[1..], rest, false, gap + 1);
    } else {
      assert s[1..] == rest;
    }
  }

  lemma {:induction false} GapsOfWord(word: string, rest: string, gap: nat, inWord: bool)
    requires word != "" && forall i :: 0 <= i < |word| ==> !IsSpace(word[i])
    ensures GapsFrom(word + rest, inWord, gap) == (if inWord then [] else [gap >= 3]) + GapsFrom(rest, true, 0)
    decreases |word|
  {
    var s := word + rest;
    assert s[0] == word[0] && s[1..] == word[1..] + rest;
    if |word| > 1 {
      GapsOfWord(word[1..], rest, 0, true);
    } else {
      assert s[1..] == rest;
    }
  }

  /** A gap is marked exactly when it has three or more spaces. */
  lemma GapsOfTwoWords(word1: string, spaces: string, word2: string)
    requires word1 != "" && word2 != "" && spaces != "" && AllSpaces(spaces)
    requires forall i :: 0 <= i < |word1| ==> !IsSpace(word1[i])
    requires forall i :: 0 <= i < |word2| ==> !IsSpace(word2[i])
    ensures WideGaps(word1 + (spaces + word2)) == [false, |spaces| >= 3]
  {
    GapsOfWord(word1, spaces + word2, 0, false);
    GapsOfSpaces(spaces, word2, true, 0);
    GapsOfWord(word2, "", |spaces|, false);
    assert word2 + "" == word2;
  }

  datatype Asset = Asset(section: Section, fields: Fields)

  /** A row that does not match raises an error naming its text. */
  function ParseRow(row: Row): Result<Asset, string> {
    match MatchRow(Words(row.text), WideGaps(row.text))
    case None => Err(row.text)
    case Some(fields) => Ok(Asset(row.section, fields))
  }

  function ParseRows(rows: seq<Row>): Result<seq<Asset>, string> {
    if rows == [] then Ok([]) else
    match ParseRow(rows[0])
    case Err(text) => Err(text)
    case Ok(asset) =>
      match ParseRows(rows[1..])
      case Err(text) => Err(text)
      case Ok(assets) => Ok([asset] + assets)
  }

  function ParseText(rawLines: seq<string>): Result<seq<Asset>, string> {
    ParseRows(Segment(Stripped(rawLines), Classify))
  }

  lemma {:induction false} ParseRowsPointwise(rows: seq<Row>, assets: seq<Asset>)
    requires |assets| == |rows|
    ensures ParseRows(rows) == Ok(assets) <==> forall i :: 0 <= i < |rows| ==> ParseRow(rows[i]) == Ok(assets[i])
  {
    if rows != [] {
      ParseRowsPointwise(rows[1..], assets[1..]);
      assert assets == [assets[0]] + assets[1..];
      if forall i :: 0 <= i < |rows[1..]| ==> ParseRow(rows[1..][i]) == Ok(assets[1..][i]) {
        forall i | 1 <= i < |rows| ensures ParseRow(rows[i]) == Ok(assets[i]) {
          assert rows[i] == rows[1..][i - 1] && assets[i] == assets[1..][i - 1];
        }
      }
    }
  }

  ghost predicate ReadableText(text: string) {
    Readable(Words(text), WideGaps(text))
  }

  /** Row `i` is the first that cannot be read in any way. */
  ghost predicate FirstUnreadable(rows: seq<Row>, i: nat) {
    && i < |rows| && !ReadableText(rows[i].text)
    && forall j :: 0 <= j < i ==> ReadableText(rows[j].text)
  }

  lemma FirstUnreadableBehind(first: Row, rows: seq<Row>, i: nat)
    requires ReadableText(first.text)
    ensures FirstUnreadable([first] + rows, i + 1) <==> FirstUnreadable(rows, i)
    ensures !FirstUnreadable([first] + rows, 0)
  {
    var all := [first] + rows;
    assert forall j :: 0 <= j < |rows| ==> all[j + 1] == rows[j];
    if FirstUnreadable(rows, i) {
      forall j | 0 <= j < i + 1 ensures ReadableText(all[j].text) {
        assert j > 0 ==> all[j] == rows[j - 1];
      }
    }
    if FirstUnreadable(all, i + 1) {
      forall j | 0 <= j < i ensures ReadableText(rows[j].text) {
        assert all[j + 1] == rows[j];
      }
    }
  }

  /** The parse fails with a text exactly when that is the text of the first row that cannot be read in any way. */
  lemma {:induction false} ParseErrorNamesRow(rows: seq<Row>, text: string)
    ensures ParseRows(rows) == Err(text) <==> exists i: nat :: FirstUnreadable(rows, i) && text == rows[i].text
  {
    if rows != [] {
      var rest := rows[1..];
      assert rows == [rows[0]] + rest;
      MatchExactlyReadable(Words(rows[0].text), WideGaps(rows[0].text));
      if ReadableText(rows[0].text) {
        ParseErrorNamesRow(rest, text);
        forall i: nat ensures FirstUnreadable(rows, i + 1) <==> FirstUnreadable(rest, i) {
          FirstUnreadableBehind(rows[0], rest, i);
        }
        FirstUnreadableBehind(rows[0], rest, 0);
        if i: nat :| FirstUnreadable(rest, i) && text == rest[i].text {
          assert FirstUnreadable(rows, i + 1);
        }
        if i: nat :| FirstUnreadable(rows, i) && text == rows[i].text {
          assert FirstUnreadable(rest, i - 1);
        }
      } else {
        assert FirstUnreadable(rows, 0);
      }
    }
  }

  /** The parse fails exactly when some row cannot be read in any way. */
  lemma {:induction false} ParseFailsOnUnreadableRow(rows: seq<Row>)
    ensures ParseRows(rows).Err? <==> exists i :: 0 <= i < |rows| && !ReadableText(rows[i].text)
  {
    if rows != [] {
      MatchExactlyReadable(Words(rows[0].text), WideGaps(rows[0].text));
      ParseFailsOnUnreadableRow(rows[1..]);
      if i :| 0 <= i < |rows| && !ReadableText(rows[i].text) {
        assert i > 0 ==> rows[i] == rows[1..][i - 1];
      }
    }
  }

  // ---- printing a document and parsing it back ----

  /** A row's fields and the lines its tokens were wrapped over. */
  datatype PrintedRow = PrintedRow(fields: Fields, lines: seq<string>)

  datatype PrintedSection = PrintedSection(header: string, section: Section, rows: seq<PrintedRow>)

  datatype Placed = Placed(section: Section, row: PrintedRow)

  function BlockOf(p: PrintedSection): Block {
    Block(p.header, p.section, seq(|p.rows|, i requires 0 <= i < |p.rows| => p.rows[i].lines))
  }

  function BlocksOf(ps: seq<PrintedSection>): seq<Block> {
    seq(|ps|, i requires 0 <= i < |ps| => BlockOf(ps[i]))
  }

  function PlacedRows(p: PrintedSection): seq<Placed> {
    seq(|p.rows|, i requires 0 <= i < |p.rows| => Placed(p.section, p.rows[i]))
  }

  /** Every row of the document with its section, in order. */
  function Flat(ps: seq<PrintedSection>): seq<Placed> {
    if ps == [] then [] else Flat(ps[..|ps| - 1]) + PlacedRows(ps[|ps| - 1])
  }

  function TextsOf(rows: seq<Placed>): seq<Row> {
    seq(|rows|, i requires 0 <= i < |rows| => Row(rows[i].section, Join(rows[i].row.lines)))
  }

  function AssetsOf(rows: seq<Placed>): seq<Asset> {
    seq(|rows|, i requires 0 <= i < |rows| => Asset(rows[i].section, rows[i].row.fields))
  }

  predicate Printed(row: PrintedRow) {
    Shaped(row.fields) && Full(row.fields) && FlatWords(row.lines) == Print(row.fields)
  }

  predicate Plain(f: Fields) {
    PlainDescription(f) && PlainPipValue(f)
  }

  lemma {:induction false} FlatRows(ps: seq<PrintedSection>)
    ensures Rows(BlocksOf(ps)) == TextsOf(Flat(ps))
    decreases |ps|
  {
    if ps != [] {
      var init, last := ps[..|ps| - 1], ps[|ps| - 1];
      FlatRows(init);
      var blocks := BlocksOf(ps);
      assert blocks[..|blocks| - 1] == BlocksOf(init);
      assert blocks[|blocks| - 1] == BlockOf(last);
      assert BlockRows(last.section, BlockOf(last).rows) == TextsOf(PlacedRows(last));
      TextsOfConcat(Flat(init), PlacedRows(last));
    }
  }

  lemma TextsOfConcat(a: seq<Placed>, b: seq<Placed>)
    ensures TextsOf(a + b) == TextsOf(a) + TextsOf(b)
  {
  }

  lemma PrintedRowParses(p: Placed)
    requires Printed(p.row)
    ensures ParseRow(Row(p.section, Join(p.row.lines))) == Ok(Asset(p.section, p.row.fields)) <==> Plain(p.row.fields)
  {
    WordsOfJoin(p.row.lines);
    RowRoundTrip(p.row.fields, WideGaps(Join(p.row.lines)));
  }

  predicate AllGood(rows: seq<Placed>, good: Placed -> bool) {
    forall i :: 0 <= i < |rows| ==> good(rows[i])
  }

  lemma AllGoodConcat(a: seq<Placed>, b: seq<Placed>, good: Placed -> bool)
    ensures AllGood(a + b, good) <==> AllGood(a, good) && AllGood(b, good)
  {
    var c := a + b;
    if AllGood(c, good) {
      forall i | 0 <= i < |a| ensures good(a[i]) { assert c[i] == a[i]; }
      forall i | 0 <= i < |b| ensures good(b[i]) { assert c[|a| + i] == b[i]; }
    }
  }

  /** What holds of every row holds of every section's rows. */
  lemma {:induction false} AllGoodBySection(ps: seq<PrintedSection>, good: Placed -> bool)
    ensures AllGood(Flat(ps), good) <==> forall i :: 0 <= i < |ps| ==> AllGood(PlacedRows(ps[i]), good)
    decreases |ps|
  {
    if ps != [] {
      var init, last := ps[..|ps| - 1], ps[|ps| - 1];
      AllGoodBySection(init, good);
      AllGoodConcat(Flat(init), PlacedRows(last), good);
      assert forall i :: 0 <= i < |init| ==> ps[i] == init[i];
    }
  }

  function WrappedRow(kindOf: string -> Kind): Placed -> bool {
    (p: Placed) => Wrapped(p.row.lines, kindOf)
  }

  lemma WrappedBlock(p: PrintedSection, kindOf: string -> Kind)
    ensures AllGood(PlacedRows(p), WrappedRow(kindOf)) <==> RowsWrapped(BlockOf(p).rows, kindOf)
  {
    var good := WrappedRow(kindOf);
    var placed, rows := PlacedRows(p), BlockOf(p).rows;
    assert forall k :: 0 <= k < |rows| ==> (good(placed[k]) <==> Wrapped(rows[k], kindOf));
    if AllGood(placed, good) {
      forall k | 0 <= k < |rows| ensures Wrapped(rows[k], kindOf) { assert good(placed[k]); }
    }
    if RowsWrapped(rows, kindOf) {
      forall k | 0 <= k < |placed| ensures good(placed[k]) { assert Wrapped(rows[k], kindOf); }
    }
  }

  lemma AllWrappedBySection(ps: seq<PrintedSection>, kindOf: string -> Kind)
    ensures AllGood(Flat(ps), WrappedRow(kindOf)) <==> AllWrapped(BlocksOf(ps), kindOf)
  {
    AllGoodBySection(ps, WrappedRow(kindOf));
    forall i | 0 <= i < |ps|
      ensures AllGood(PlacedRows(ps[i]), WrappedRow(kindOf)) <==> RowsWrapped(BlocksOf(ps)[i].rows, kindOf)
    {
      WrappedBlock(ps[i], kindOf);
    }
    if AllWrapped(BlocksOf(ps), kindOf) {
      forall i | 0 <= i < |ps| ensures AllGood(PlacedRows(ps[i]), WrappedRow(kindOf)) {
        assert RowsWrapped(BlocksOf(ps)[i].rows, kindOf);
      }
    }
  }

  function WordCount(): string -> nat {
    t => |Words(t)|
  }

  lemma WordsMeasure()
    ensures Measures(WordCount())
  {
    forall a: string, b: string ensures WordCount()(a + " " + b) == WordCount()(a) + WordCount()(b) {
      WordsFromConcat(a, b, "");
    }
    forall t: string | t != "" && Trimmed(t) ensures WordCount()(t) > 0 {
      SomeWord(t[1..], "" + [t[0]]);
    }
  }

  lemma {:induction false} SomeWord(s: string, cur: string)
    requires cur != ""
    ensures |WordsFrom(s, cur)| > 0
    decreases |s|
  {
    if s != "" && !IsSpace(s[0]) { SomeWord(s[1..], cur + [s[0]]); }
  }

  lemma {:induction false} OneAssetEach(rows: seq<Row>)
    ensures ParseRows(rows).Ok? ==> |ParseRows(rows).value| == |rows|
  {
    if rows != [] { OneAssetEach(rows[1..]); }
  }

  /** Rows that parse to the printed fields have as many words each as the printed ones. */
  lemma ParsedWeights(rows: seq<Row>, flat: seq<Placed>)
    requires forall i :: 0 <= i < |flat| ==> Printed(flat[i].row)
    requires ParseRows(rows) == Ok(AssetsOf(flat))
    ensures SameWeights(rows, TextsOf(flat), WordCount())
  {
    OneAssetEach(rows);
    ParseRowsPointwise(rows, AssetsOf(flat));
    forall i | 0 <= i < |rows| ensures |Words(rows[i].text)| == |Words(TextsOf(flat)[i].text)| {
      assert ParseRow(rows[i]) == Ok(AssetsOf(flat)[i]);
      MatchSound(Words(rows[i].text), WideGaps(rows[i].text));
      assert Words(rows[i].text) == Print(flat[i].row.fields);
      assert Printed(flat[i].row);
      WordsOfJoin(flat[i].row.lines);
    }
  }

  function PlainRow(): Placed -> bool {
    (p: Placed) => Plain(p.row.fields)
  }

  /** Rows cut as they were printed parse back exactly when each is free of early matches. */
  lemma PrintedRowsParse(flat: seq<Placed>)
    requires forall i :: 0 <= i < |flat| ==> Printed(flat[i].row)
    ensures ParseRows(TextsOf(flat)) == Ok(AssetsOf(flat)) <==> AllGood(flat, PlainRow())
  {
    var rows := TextsOf(flat);
    ParseRowsPointwise(rows, AssetsOf(flat));
    forall i | 0 <= i < |flat| ensures ParseRow(rows[i]) == Ok(AssetsOf(flat)[i]) <==> PlainRow()(flat[i]) {
      PrintedRowParses(flat[i]);
    }
    if AllGood(flat, PlainRow()) {
      forall i | 0 <= i < |rows| ensures ParseRow(rows[i]) == Ok(AssetsOf(flat)[i]) {
        assert PlainRow()(flat[i]);
      }
    }
  }

  /**
   * A document written as headers and rows, its rows broken over lines at any token and noise put in
   * anywhere, parses back to exactly its rows, in order and with their sections, exactly when every row is
   * free of early matches and broken so that its first line looks like a row start and each later line is
   * taken for a continuation. A line such as `10 CHF per 0.0001` looks like a row start.
   */
  lemma DocumentRoundTrip(ps: seq<PrintedSection>, rawLines: seq<string>)
    requires forall i :: 0 <= i < |ps| ==> LaidOut(BlockOf(ps[i]), Classify)
    requires WithoutNoise(Stripped(rawLines), Classify) == WithoutNoise(Lines(BlocksOf(ps)), Classify)
    requires forall i :: 0 <= i < |Flat(ps)| ==> Printed(Flat(ps)[i].row)
    ensures ParseText(rawLines) == Ok(AssetsOf(Flat(ps)))
            <==> AllGood(Flat(ps), WrappedRow(Classify)) && AllGood(Flat(ps), PlainRow())
  {
    WordsMeasure();
    FlatRows(ps);
    AllWrappedBySection(ps, Classify);
    LayoutForced(BlocksOf(ps), Stripped(rawLines), WordCount(), Classify);
    PrintedRowsParse(Flat(ps));
    if ParseText(rawLines) == Ok(AssetsOf(Flat(ps))) {
      ParsedWeights(Segment(Stripped(rawLines), Classify), Flat(ps));
    }
  }

  // ---- rows broken before their margins ----

  predicate IsToken(t: string) {
    t != "" && forall i :: 0 <= i < |t| ==> !IsSpace(t[i])
  }

  predicate AllTokens(tokens: seq<string>) {
    forall i :: 0 <= i < |tokens| ==> IsToken(tokens[i])
  }

  lemma {:induction false} WordsOfToken(t: string, cur: string)
    requires forall i :: 0 <= i < |t| ==> !IsSpace(t[i])
    requires cur + t != ""
    ensures WordsFrom(t, cur) == [cur + t]
    decreases |t|
  {
    if t == "" {
      assert cur + t == cur;
    } else {
      WordsOfToken(t[1..], cur + [t[0]]);
      assert cur + [t[0]] + t[1..] == cur + t;
    }
  }

  /** Tokens joined by single spaces are read back one by one. */
  lemma {:induction false} WordsOfTokens(tokens: seq<string>)
    requires tokens != [] && AllTokens(tokens)
    ensures Words(Join(tokens)) == tokens
    ensures Join(tokens) != "" && Trimmed(Join(tokens))
  {
    var init, last := tokens[..|tokens| - 1], tokens[|tokens| - 1];
    assert "" + last == last;
    WordsOfToken(last, "");
    if init == [] {
      assert tokens == [last];
    } else {
      WordsOfTokens(init);
      WordsFromConcat(Join(init), last, "");
      assert tokens == init + [last];
      TrimJoined(Join(init), last);
    }
  }

  /** The tokens before the margins, and those from the margins on. */
  function BeforeMargins(f: Fields): seq<string> {
    [f.symbol] + f.description
  }

  function FromMargins(f: Fields): seq<string> {
    [f.marginRetail] + ([f.marginPro, f.lotSize] + f.pipValue + Numbers(f) + f.hours)
  }

  function TwoLines(f: Fields): seq<string> {
    [Join(BeforeMargins(f)), Join(FromMargins(f))]
  }

  /** A row as a document has it: whole tokens, every column present, broken before its margins. */
  predicate BrokenAtMargins(row: PrintedRow) {
    Shaped(row.fields) && Full(row.fields) && AllTokens(Print(row.fields)) && row.lines == TwoLines(row.fields)
  }

  lemma PrintInTwo(f: Fields)
    ensures Print(f) == BeforeMargins(f) + FromMargins(f)
  {
  }

  lemma TwoLinesPrint(row: PrintedRow)
    requires BrokenAtMargins(row)
    ensures Printed(row) && NonBlank(row.lines)
  {
    var a, b := BeforeMargins(row.fields), FromMargins(row.fields);
    PrintInTwo(row.fields);
    assert AllTokens(a) by { assert a == (a + b)[..|a|]; }
    assert AllTokens(b) by { assert b == (a + b)[|a|..]; }
    WordsOfTokens(a);
    WordsOfTokens(b);
    FlatTwo(Join(a), Join(b));
  }

  lemma FlatTwo(x: string, y: string)
    ensures FlatWords([x, y]) == Words(x) + Words(y)
  {
    assert [x, y][..1] == [x] && [x][..0] == [];
    assert FlatWords([x]) == [] + Words(x);
  }

  /** The second line begins with a percentage, so it is always taken for a continuation. */
  lemma MarginsContinue(f: Fields)
    requires Shaped(f) && AllTokens(Print(f))
    ensures Classify(Join(FromMargins(f))) == Continuation
  {
    var number := f.marginRetail[..|f.marginRetail| - 1];
    var rest := [f.marginPro, f.lotSize] + f.pipValue + Numbers(f) + f.hours;
    PrintInTwo(f);
    assert Print(f)[|BeforeMargins(f)|] == f.marginRetail;
    JoinCons(f.marginRetail, rest, " ");
    assert f.marginRetail == number + "%" && IsDecimal(number);
    assert number + "%" + (" " + JoinWith(rest, " ")) == f.marginRetail + " " + JoinWith(rest, " ");
    DecimalLead(number);
    PercentLineContinues(number, " " + JoinWith(rest, " "));
  }

  lemma DecimalLead(t: string)
    requires IsDecimal(t)
    ensures t != "" && IsDigit(t[0])
  {
  }

  predicate StartsRow(line: string) {
    Classify(line) == RowStart
  }

  /** The first line starts a row exactly when the symbol is a symbol word and the line is no header and no noise. */
  lemma FirstLineStarts(f: Fields)
    requires f.description != [] && AllTokens(BeforeMargins(f))
    ensures var line := Join(BeforeMargins(f));
            StartsRow(line) <==> IsSymbolWord(f.symbol) && SectionOf(line, SECTIONS).None? && !IsNoiseLine(line)
  {
    var line := Join(BeforeMargins(f));
    JoinCons(f.symbol, f.description, " ");
    assert line == f.symbol + " " + Join(f.description);
    assert BeforeMargins(f)[0] == f.symbol;
    if IsSymbolWord(f.symbol) {
      WordLooksLikeRowStart(f.symbol, Join(f.description));
    } else {
      SymbolDecides(f.symbol, Join(f.description));
    }
  }

  lemma SymbolDecides(symbol: string, rest: string)
    requires IsToken(symbol) && !IsSymbolWord(symbol)
    ensures !LooksLikeRowStart(symbol + " " + rest)
  {
    var line := symbol + " " + rest;
    if IsAlphanumeric(symbol[0]) {
      var k :| 0 <= k < |symbol| && !IsSymbolChar(symbol[k]);
      OtherWordIsNoRowStart(symbol, " " + rest, k);
      assert symbol + (" " + rest) == line;
    } else {
      assert line[0] == symbol[0];
    }
  }

  function StartingRow(): Placed -> bool {
    (p: Placed) => StartsRow(Join(BeforeMargins(p.row.fields)))
  }

  /**
   * Documents whose rows are all broken before their margins do come back, exactly when each row's first
   * line starts a row and no lazy group can stop early.
   */
  lemma MarginBreakRoundTrip(ps: seq<PrintedSection>, rawLines: seq<string>)
    requires forall i :: 0 <= i < |ps| ==> Classify(ps[i].header) == Header(ps[i].section)
    requires forall i :: 0 <= i < |ps| ==> forall k :: 0 <= k < |ps[i].rows| ==> BrokenAtMargins(ps[i].rows[k])
    requires WithoutNoise(Stripped(rawLines), Classify) == WithoutNoise(Lines(BlocksOf(ps)), Classify)
    ensures ParseText(rawLines) == Ok(AssetsOf(Flat(ps)))
            <==> AllGood(Flat(ps), StartingRow()) && AllGood(Flat(ps), PlainRow())
  {
    var broken := (p: Placed) => BrokenAtMargins(p.row);
    AllGoodBySection(ps, broken);
    var flat := Flat(ps);
    forall i | 0 <= i < |flat|
      ensures Printed(flat[i].row) && (WrappedRow(Classify)(flat[i]) <==> StartingRow()(flat[i]))
    {
      assert broken(flat[i]);
      BrokenRow(flat[i]);
    }
    forall i | 0 <= i < |ps| ensures LaidOut(BlockOf(ps[i]), Classify) {
      BrokenBlock(ps[i]);
    }
    DocumentRoundTrip(ps, rawLines);
  }

  lemma BrokenRow(p: Placed)
    requires BrokenAtMargins(p.row)
    ensures Printed(p.row) && (WrappedRow(Classify)(p) <==> StartingRow()(p))
  {
    TwoLinesPrint(p.row);
    MarginsContinue(p.row.fields);
  }

  lemma BrokenBlock(p: PrintedSection)
    requires Classify(p.header) == Header(p.section)
    requires forall k :: 0 <= k < |p.rows| ==> BrokenAtMargins(p.rows[k])
    ensures LaidOut(BlockOf(p), Classify)
  {
    forall k | 0 <= k < |p.rows| ensures NonBlank(BlockOf(p).rows[k]) {
      TwoLinesPrint(p.rows[k]);
    }
  }

  /** `parse_text`. */
  method Parse(rawLines: seq<string>) returns (result: Result<seq<Asset>, string>)
    ensures result == ParseText(rawLines)
  {
    var rows := SegmentLines(rawLines);
    result := ParseRows(rows);
  }
}
