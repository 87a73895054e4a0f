/** Cutting the text of the contract-specification PDF into rows, line by line. */
module Segmentation {
  import opened Wrappers
  import opened Text

  datatype Section = Section(
    title: string,
    pattern: string,
    assetClass: string,
    subtype: string,
    region: Option<string>)

  const SECTIONS: seq<Section> := [
    Section("FOREX", "FOREX Trading Hours", "FOREX", "spot_fx", None),
    Section("METALS", "METALS Trading Hours", "METALS", "spot_metal", None),
    Section("INDICES", "INDICES Trading Hours", "INDICES", "index_cfd", None),
    Section("COMMODITIES", "COMMODITIES Trading Hours", "COMMODITIES", "commodity_cfd", None),
    Section("CRYPTO", "CRYPTO Trading Hours", "CRYPTO", "crypto_spot", None),
    Section("STOCKS US", "STOCKS US Trading Hours", "STOCKS", "equity", Some("US")),
    Section("ETFS", "ETFs Trading Hours", "ETFS", "etf", Some("US")),
    Section("STOCKS EU", "STOCKS EU Trading Hours", "STOCKS", "equity", Some("EU")),
    Section("STOCKS UK", "STOCKS UK Trading Hours", "STOCKS", "equity", Some("UK")),
    Section("STOCKS MIDEAST", "STOCKS MIDEAST Trading Hours", "STOCKS", "equity", Some("MIDEAST")),
    Section("STOCKS LATAM", "STOCKS LATAM Trading Hours", "STOCKS", "equity", Some("LATAM")),
    Section("STOCKS ROW", "STOCKS ROW Trading Hours", "STOCKS", "equity", Some("ROW"))
  ]

  /** The first definition whose pattern, a literal anchored at the start, matches. */
  function SectionOf(line: string, definitions: seq<Section>): Option<Section> {
    if definitions == [] then None
    else if definitions[0].pattern <= line then Some(definitions[0])
    else SectionOf(line, definitions[1..])
  }

  predicate IsNumber(s: string) {
    s != "" && AllDigits(s)
  }

  /** `--- 3 / 12 ---`. */
  predicate IsPageMarker(line: string) {
    && |line| >= 8 && "--- " <= line && EndsWith(line, " ---")
    && var pieces := Split(line[4..|line| - 4], " / ");
       |pieces| == 2 && IsNumber(pieces[0]) && IsNumber(pieces[1])
  }

  const NOISE_PREFIXES: seq<string> := [
    "Symbol Market Description", "(Units)", "Lot Value per Pip", "Silver Tier", "Swap Long", "Swap Short",
    "Digits Min Tick", "Increment", "Min Trade Size", "Max Trade Size"
  ]

  const NOISE_LINES: seq<string> := ["Sunday Monday - Thursday Friday", "Monday - Friday", "Monday - Sunday"]

  predicate IsNoiseLine(line: string) {
    || line == ""
    || IsPageMarker(line)
    || (exists i | 0 <= i < |NOISE_PREFIXES| :: NOISE_PREFIXES[i] <= line)
    || line in NOISE_LINES
  }

  predicate IsAlphanumeric(c: char) {
    'A' <= c <= 'Z' || 'a' <= c <= 'z' || '0' <= c <= '9'
  }

  /** Where the leading run of symbol characters ends. */
  function SymbolEnd(line: string, i: nat): (end: nat)
    requires i <= |line|
    ensures i <= end <= |line|
    decreases |line| - i
  {
    if i < |line| && (IsAlphanumeric(line[i]) || line[i] == '.' || line[i] == '-') then SymbolEnd(line, i + 1) else i
  }

  /** `^[A-Za-z0-9][A-Za-z0-9.-]*\s+`: the run is followed by a space, or backtracking cannot help. */
  predicate LooksLikeRowStart(line: string) {
    && line != "" && IsAlphanumeric(line[0])
    && var end := SymbolEnd(line, 0);
       end < |line| && IsSpace(line[end])
  }

  // ---- which lines are what ----

  /** Letters of either case and digits. */
  lemma AlphanumericExactly(c: char)
    ensures IsAlphanumeric(c) <==> IsDigit(c) || 'A' <= UpperChar(c) <= 'Z'
  {
  }

  predicate IsSymbolWord(word: string) {
    && word != "" && IsAlphanumeric(word[0])
    && forall i :: 0 <= i < |word| ==> IsAlphanumeric(word[i]) || word[i] == '.' || word[i] == '-'
  }

  /** A line looks like a row start exactly when it begins with a word of symbol characters and a space. */
  lemma RowStartExactly(line: string)
    ensures LooksLikeRowStart(line) <==> exists n :: 0 < n < |line| && IsSymbolWord(line[..n]) && IsSpace(line[n])
  {
    SymbolEndSpec(line, 0);
    var end := SymbolEnd(line, 0);
    if LooksLikeRowStart(line) {
      assert IsSymbolWord(line[..end]);
    }
    if n :| 0 < n < |line| && IsSymbolWord(line[..n]) && IsSpace(line[n]) {
      assert forall i :: 0 <= i < n ==> line[i] == line[..n][i];
      assert end == n;
    }
  }

  predicate IsSymbolChar(c: char) {
    IsAlphanumeric(c) || c == '.' || c == '-'
  }

  /** The run is as long as it can be. */
  lemma {:induction false} SymbolEndSpec(line: string, i: nat)
    requires i <= |line|
    ensures var end := SymbolEnd(line, i);
            && (forall k :: i <= k < end ==> IsSymbolChar(line[k]))
            && (end < |line| ==> !IsSymbolChar(line[end]))
    decreases |line| - i
  {
    if i < |line| && IsSymbolChar(line[i]) {
      SymbolEndSpec(line, i + 1);
    }
  }

  /** Any word and a space look like a row start, be it `EURUSD`, `Euro` or `10`. */
  lemma WordLooksLikeRowStart(word: string, rest: string)
    requires IsSymbolWord(word)
    ensures LooksLikeRowStart(word + " " + rest)
  {
    var line := word + " " + rest;
    RowStartExactly(line);
    assert line[..|word|] == word && line[|word|] == ' ';
  }

  /** A first word with any other character in it does not, be it `3%`, `-1.2`, `100,000` or `1.0USD/lot`. */
  lemma OtherWordIsNoRowStart(word: string, rest: string, k: nat)
    requires k < |word| && !IsSymbolChar(word[k]) && forall i :: 0 <= i < |word| ==> !IsSpace(word[i])
    ensures !LooksLikeRowStart(word + rest)
  {
    var line := word + rest;
    RowStartExactly(line);
    forall n | k < n < |line| ensures !IsSymbolWord(line[..n]) {
      assert line[..n][k] == line[k] == word[k];
    }
    forall n | 0 < n <= k ensures !IsSpace(line[n]) {
      assert line[n] == word[n];
    }
  }

  lemma PageMarkerParts(line: string) returns (a: string, b: string)
    requires IsPageMarker(line)
    ensures IsNumber(a) && IsNumber(b) && line == "--- " + a + " / " + b + " ---"
  {
    var inner := line[4..|line| - 4];
    var pieces := Split(inner, " / ");
    a, b := pieces[0], pieces[1];
    SplitJoins(inner, " / ");
    TwoJoined(pieces, " / ");
    MarkerText(line, a, b);
  }

  lemma MarkerText(line: string, a: string, b: string)
    requires |line| >= 8 && "--- " <= line && EndsWith(line, " ---") && line[4..|line| - 4] == a + " / " + b
    ensures line == "--- " + a + " / " + b + " ---"
  {
    ThreeParts(line, 4, |line| - 4);
    assert line[..4] == "--- ";
  }

  lemma TwoJoined(pieces: seq<string>, sep: string)
    requires |pieces| == 2
    ensures JoinWith(pieces, sep) == pieces[0] + sep + pieces[1]
  {
    assert pieces[..1] == [pieces[0]];
  }

  /** A page marker is two numbers between its fixed parts, and nothing else. */
  lemma PageMarkerExactly(line: string)
    ensures IsPageMarker(line)
            <==> exists a, b :: IsNumber(a) && IsNumber(b) && line == "--- " + a + " / " + b + " ---"
  {
    if IsPageMarker(line) {
      var a, b := PageMarkerParts(line);
    }
    if a, b :| IsNumber(a) && IsNumber(b) && line == "--- " + a + " / " + b + " ---" {
      MarkerIsRead(a, b);
    }
  }

  lemma MarkerIsRead(a: string, b: string)
    requires IsNumber(a) && IsNumber(b)
    ensures IsPageMarker("--- " + a + " / " + b + " ---")
  {
    var line := "--- " + a + " / " + b + " ---";
    var inner := a + " / " + b;
    assert line[4..|line| - 4] == inner;
    assert line[|line| - 4..] == " ---" && line[..4] == "--- ";
    SlashPosition(a, b);
    assert Split(inner, " / ") == [inner[..|a|]] + Split(inner[|a| + 3..], " / ");
    assert inner[..|a|] == a && inner[|a| + 3..] == b;
    NoSlashInNumber(b);
  }

  lemma NoSlashInNumber(b: string)
    requires IsNumber(b)
    ensures !Contains(b, " / ") && Split(b, " / ") == [b]
  {
    forall i | 0 <= i <= |b| ensures !OccursAt(b, " / ", i) {
      if i + 3 <= |b| {
        assert b[i..i + 3][0] == b[i] != ' ';
      }
    }
  }

  lemma SlashPosition(a: string, b: string)
    requires IsNumber(a) && IsNumber(b)
    ensures Find(a + " / " + b, " / ", 0) == Some(|a|)
  {
    var inner := a + " / " + b;
    assert inner[|a|..|a| + 3] == " / ";
    assert OccursAt(inner, " / ", |a|);
    forall i | 0 <= i < |a| ensures !OccursAt(inner, " / ", i) {
      if i + 3 <= |inner| {
        assert inner[i..i + 3][0] == inner[i] == a[i] != ' ';
      }
    }
  }

  /** Noise is a blank line, a page marker, a line that begins like a column heading, or a bare line of days. */
  lemma NoiseExactly(line: string)
    ensures IsNoiseLine(line) <==>
            || line == "" || IsPageMarker(line)
            || "Symbol Market Description" <= line || "(Units)" <= line || "Lot Value per Pip" <= line
            || "Silver Tier" <= line || "Swap Long" <= line || "Swap Short" <= line || "Digits Min Tick" <= line
            || "Increment" <= line || "Min Trade Size" <= line || "Max Trade Size" <= line
            || line == "Sunday Monday - Thursday Friday" || line == "Monday - Friday" || line == "Monday - Sunday"
  {
    var p := NOISE_PREFIXES;
    assert p[0] == "Symbol Market Description" && p[1] == "(Units)" && p[2] == "Lot Value per Pip";
    assert p[3] == "Silver Tier" && p[4] == "Swap Long" && p[5] == "Swap Short" && p[6] == "Digits Min Tick";
    assert p[7] == "Increment" && p[8] == "Min Trade Size" && p[9] == "Max Trade Size" && |p| == 10;
  }

  /** At most one pattern can begin a line, so the order of the definitions does not matter. */
  lemma SectionExactly(line: string, section: Section)
    ensures SectionOf(line, SECTIONS) == Some(section) <==> section in SECTIONS && section.pattern <= line
  {
    FirstSection(line, SECTIONS);
    if section in SECTIONS && section.pattern <= line {
      var found := SectionOf(line, SECTIONS).value;
      var i :| 0 <= i < |SECTIONS| && SECTIONS[i] == section;
      var j :| 0 <= j < |SECTIONS| && SECTIONS[j] == found;
      SamePatternOnLine(line, SECTIONS[i].pattern, SECTIONS[j].pattern);
      if SECTIONS[i].pattern <= SECTIONS[j].pattern { PatternsApart(i, j); } else { PatternsApart(j, i); }
    }
  }

  lemma {:induction false} FirstSection(line: string, definitions: seq<Section>)
    ensures var r := SectionOf(line, definitions);
            && (r.Some? ==> r.value in definitions && r.value.pattern <= line)
            && (r.None? ==> forall s :: s in definitions ==> !(s.pattern <= line))
  {
    if definitions != [] && !(definitions[0].pattern <= line) {
      FirstSection(line, definitions[1..]);
      assert definitions == [definitions[0]] + definitions[1..];
    }
  }

  lemma SamePatternOnLine(line: string, p: string, q: string)
    requires p <= line && q <= line
    ensures p <= q || q <= p
  {
    assert |p| <= |q| ==> q[..|p|] == line[..|p|] == p;
    assert |q| <= |p| ==> p[..|q|] == line[..|q|] == q;
  }

  function SubtypeOf(assetClass: string): string {
    if assetClass == "FOREX" then "spot_fx"
    else if assetClass == "METALS" then "spot_metal"
    else if assetClass == "INDICES" then "index_cfd"
    else if assetClass == "COMMODITIES" then "commodity_cfd"
    else if assetClass == "CRYPTO" then "crypto_spot"
    else if assetClass == "ETFS" then "etf"
    else "equity"
  }

  /** A section is named after its asset class; shares are split by region, and the funds are American. */
  predicate Consistent(s: Section) {
    && (s.region.Some? <==> s.assetClass == "STOCKS" || s.assetClass == "ETFS")
    && s.subtype == SubtypeOf(s.assetClass)
    && if s.assetClass == "STOCKS" then s.title == "STOCKS " + s.region.value
       else s.title == s.assetClass && (s.region.Some? ==> s.region == Some("US"))
  }

  /** Four characters that tell the patterns apart. */
  function Signature(p: string): (char, char, char, char)
    requires |p| > 8
  {
    (p[0], p[1], p[7], p[8])
  }

  const SIGNATURES: seq<(char, char, char, char)> := [
    ('F', 'O', 'r', 'a'), ('M', 'E', 'T', 'r'), ('I', 'N', ' ', 'T'), ('C', 'O', 'T', 'I'), ('C', 'R', 'T', 'r'),
    ('S', 'T', 'U', 'S'), ('E', 'T', 'a', 'd'), ('S', 'T', 'E', 'U'), ('S', 'T', 'U', 'K'), ('S', 'T', 'M', 'I'),
    ('S', 'T', 'L', 'A'), ('S', 'T', 'R', 'O')
  ]

  predicate SectionAt(i: nat)
    requires i < 12
  {
    && Consistent(SECTIONS[i])
    && |SECTIONS[i].pattern| > 8 && Signature(SECTIONS[i].pattern) == SIGNATURES[i]
  }

  lemma SectionTable(i: nat)
    requires i < |SECTIONS|
    ensures SectionAt(i)
  {
    if i < 3 { SectionsTo3(i); }
    else if i < 6 { SectionsTo6(i); }
    else if i < 9 { SectionsTo9(i); }
    else { SectionsTo12(i); }
  }

  lemma SectionsTo3(i: nat)
    requires i < 3
    ensures SectionAt(i)
  {
  }

  lemma SectionsTo6(i: nat)
    requires 3 <= i < 6
    ensures SectionAt(i)
  {
  }

  lemma SectionsTo9(i: nat)
    requires 6 <= i < 9
    ensures SectionAt(i)
  {
  }

  lemma SectionsTo12(i: nat)
    requires 9 <= i < 12
    ensures SectionAt(i)
  {
  }

  /** No pattern begins another. */
  lemma PatternsApart(i: nat, j: nat)
    requires i < |SECTIONS| && j < |SECTIONS| && SECTIONS[i].pattern <= SECTIONS[j].pattern
    ensures i == j
  {
    SectionTable(i);
    SectionTable(j);
    var p, q := SECTIONS[i].pattern, SECTIONS[j].pattern;
    assert Signature(p) == Signature(q);
    SignaturesDiffer(i, j);
  }

  lemma SignaturesDiffer(i: nat, j: nat)
    requires i < 12 && j < 12 && SIGNATURES[i] == SIGNATURES[j]
    ensures i == j
  {
  }

  datatype Kind = Header(section: Section) | Noise | RowStart | Continuation

  /** How the loop treats a line once a section is open. */
  function Classify(line: string): Kind {
    match SectionOf(line, SECTIONS)
    case Some(section) => Header(section)
    case None =>
      if IsNoiseLine(line) then Noise
      else if LooksLikeRowStart(line) then RowStart
      else Continuation
  }

  lemma SectionLetter(line: string)
    requires SectionOf(line, SECTIONS).Some?
    ensures line != "" && 'A' <= line[0] <= 'Z'
  {
    FirstSection(line, SECTIONS);
    var section := SectionOf(line, SECTIONS).value;
    var i :| 0 <= i < |SECTIONS| && SECTIONS[i] == section;
    SectionTable(i);
    SignatureLetter(i);
    assert section.pattern <= line;
  }

  lemma SignatureLetter(i: nat)
    requires i < 12
    ensures 'A' <= SIGNATURES[i].0 <= 'Z'
  {
  }

  lemma NoiseLead(line: string)
    requires IsNoiseLine(line) && !IsPageMarker(line) && line != ""
    ensures 'A' <= line[0] <= 'Z' || line[0] == '('
  {
    NoiseExactly(line);
  }

  /** A line that begins with a digit or a minus sign is a row start or a continuation, unless it is a page marker. */
  lemma NumberLead(line: string)
    requires line != "" && (IsDigit(line[0]) || line[0] == '-') && !IsPageMarker(line)
    ensures Classify(line) == if LooksLikeRowStart(line) then RowStart else Continuation
  {
    if SectionOf(line, SECTIONS).Some? { SectionLetter(line); }
    if IsNoiseLine(line) { NoiseLead(line); }
  }

  /** Rows may be broken before a minus sign: no row starts with one. */
  lemma MinusLineContinues(line: string)
    requires line != "" && line[0] == '-' && !IsPageMarker(line)
    ensures Classify(line) == Continuation
  {
    NumberLead(line);
  }

  /** Rows may be broken before a percentage: the sign stands in the first word. */
  lemma PercentLineContinues(number: string, rest: string)
    requires number != "" && IsDigit(number[0]) && forall i :: 0 <= i < |number| ==> !IsSpace(number[i])
    ensures Classify(number + "%" + rest) == Continuation
  {
    var word := number + "%";
    assert word[|number|] == '%';
    OtherWordIsNoRowStart(word, rest, |number|);
    NumberLead(word + rest);
  }

  datatype Row = Row(section: Section, text: string)

  datatype Scan = Scan(rows: seq<Row>, current: Option<Section>, buffer: string)

  const START := Scan([], None, "")

  function Flush(s: Scan): Scan {
    if s.current.Some? && s.buffer != "" then Scan(s.rows + [Row(s.current.value, Trim(s.buffer))], s.current, "")
    else s.(buffer := "")
  }

  function Step(s: Scan, line: string, kindOf: string -> Kind): Scan {
    StepAs(s, line, kindOf(line))
  }

  function StepAs(s: Scan, line: string, kind: Kind): Scan {
    match kind
    case Header(section) => Flush(s).(current := Some(section))
    case Noise => s
    case RowStart => if s.current.None? then s else Flush(s).(buffer := line)
    case Continuation =>
      if s.current.None? || s.buffer == "" then s else s.(buffer := Trim(s.buffer + " " + line))
  }

  function ScanFrom(s: Scan, lines: seq<string>, kindOf: string -> Kind): Scan
    decreases |lines|
  {
    if lines == [] then s else Step(ScanFrom(s, lines[..|lines| - 1], kindOf), lines[|lines| - 1], kindOf)
  }

  /** The rows of a text, given its stripped lines. */
  function Segment(lines: seq<string>, kindOf: string -> Kind): seq<Row> {
    Flush(ScanFrom(START, lines, kindOf)).rows
  }

  function Stripped(lines: seq<string>): (r: seq<string>)
    ensures |r| == |lines| && forall i :: 0 <= i < |lines| ==> r[i] == Trim(lines[i])
  {
    seq(|lines|, i requires 0 <= i < |lines| => Trim(lines[i]))
  }

  lemma ScanOneMoreLine(s: Scan, lines: seq<string>, i: nat, kindOf: string -> Kind)
    requires i < |lines|
    ensures ScanFrom(s, lines[..i + 1], kindOf) == Step(ScanFrom(s, lines[..i], kindOf), lines[i], kindOf)
  {
    assert lines[..i + 1][..i] == lines[..i];
  }

  /** The loop of `parse_text`, before rows are parsed. */
  method SegmentLines(rawLines: seq<string>) returns (rows: seq<Row>)
    ensures rows == Segment(Stripped(rawLines), Classify)
  {
    ghost var lines := Stripped(rawLines);
    var current: Option<Section> := None;
    var buffer := "";
    rows := [];
    for i := 0 to |rawLines|
      invariant Scan(rows, current, buffer) == ScanFrom(START, lines[..i], Classify)
    {
      ScanOneMoreLine(START, lines, i, Classify);
      rows, current, buffer := ReadLine(rows, current, buffer, Trim(rawLines[i]));
    }
    assert lines[..|rawLines|] == lines;
    rows, buffer := FlushBuffer(rows, current, buffer);
  }

  /** One turn of the loop: `continue` is a return here. */
  method ReadLine(rows: seq<Row>, current: Option<Section>, buffer: string, line: string)
    returns (rows': seq<Row>, current': Option<Section>, buffer': string)
    ensures Scan(rows', current', buffer') == Step(Scan(rows, current, buffer), line, Classify)
  {
    rows', current', buffer' := rows, current, buffer;
    var section := SectionOf(line, SECTIONS);
    if section.Some? {
      rows', buffer' := FlushBuffer(rows, current, buffer);
      current' := section;
      return;
    }
    if current.None? || IsNoiseLine(line) {
      return;
    }
    if LooksLikeRowStart(line) {
      rows', buffer' := FlushBuffer(rows, current, buffer);
      buffer' := line;
      return;
    }
    if buffer != "" {
      buffer' := Trim(buffer + " " + line);
    }
  }

  method FlushBuffer(rows: seq<Row>, current: Option<Section>, buffer: string)
    returns (rows': seq<Row>, buffer': string)
    ensures Scan(rows', current, buffer') == Flush(Scan(rows, current, buffer))
  {
    rows', buffer' := rows, "";
    if current.Some? && buffer != "" {
      rows' := rows + [Row(current.value, Trim(buffer))];
    }
  }

  lemma {:induction false} ScanConcat(s: Scan, a: seq<string>, b: seq<string>, kindOf: string -> Kind)
    ensures ScanFrom(s, a + b, kindOf) == ScanFrom(ScanFrom(s, a, kindOf), b, kindOf)
    decreases |b|
  {
    if b == [] {
      assert a + b == a;
    } else {
      var n := |b| - 1;
      assert (a + b)[..|a + b| - 1] == a + b[..n];
      ScanConcat(s, a, b[..n], kindOf);
    }
  }

  // ---- noise ----

  function WithoutNoise(lines: seq<string>, kindOf: string -> Kind): (r: seq<string>)
    ensures forall l :: l in r ==> kindOf(l) != Noise
    decreases |lines|
  {
    if lines == [] then [] else
    var rest := WithoutNoise(lines[..|lines| - 1], kindOf);
    var last := lines[|lines| - 1];
    if kindOf(last) == Noise then rest else rest + [last]
  }

  lemma {:induction false} NoiseSkipped(s: Scan, lines: seq<string>, kindOf: string -> Kind)
    ensures ScanFrom(s, lines, kindOf) == ScanFrom(s, WithoutNoise(lines, kindOf), kindOf)
    decreases |lines|
  {
    if lines != [] {
      var init, last := lines[..|lines| - 1], lines[|lines| - 1];
      NoiseSkipped(s, init, kindOf);
      if kindOf(last) != Noise {
        assert WithoutNoise(lines, kindOf)[..|WithoutNoise(lines, kindOf)| - 1] == WithoutNoise(init, kindOf);
      }
    }
  }

  /** Noise lines change nothing, wherever they stand. */
  lemma NoiseIrrelevant(lines: seq<string>, kindOf: string -> Kind)
    ensures Segment(lines, kindOf) == Segment(WithoutNoise(lines, kindOf), kindOf)
  {
    NoiseSkipped(START, lines, kindOf);
  }

  /** Nothing before the first header is ever part of a row. */
  lemma {:induction false} NoRowsBeforeHeader(lines: seq<string>, kindOf: string -> Kind)
    requires forall i :: 0 <= i < |lines| ==> !kindOf(lines[i]).Header?
    ensures ScanFrom(START, lines, kindOf) == START && Segment(lines, kindOf) == []
    decreases |lines|
  {
    if lines != [] {
      NoRowsBeforeHeader(lines[..|lines| - 1], kindOf);
    }
  }

  // ---- concatenation at a header ----

  lemma {:induction false} EarlierRowsStay(rows: seq<Row>, s: Scan, lines: seq<string>, kindOf: string -> Kind)
    ensures ScanFrom(s.(rows := rows + s.rows), lines, kindOf)
            == ScanFrom(s, lines, kindOf).(rows := rows + ScanFrom(s, lines, kindOf).rows)
    decreases |lines|
  {
    if lines != [] {
      var before := ScanFrom(s, lines[..|lines| - 1], kindOf);
      EarlierRowsStay(rows, s, lines[..|lines| - 1], kindOf);
      FlushUnder(rows, before);
    }
  }

  lemma FlushUnder(rows: seq<Row>, s: Scan)
    ensures Flush(s.(rows := rows + s.rows)) == Flush(s).(rows := rows + Flush(s).rows)
  {
    if s.current.Some? && s.buffer != "" {
      var row := Row(s.current.value, Trim(s.buffer));
      assert rows + s.rows + [row] == rows + (s.rows + [row]);
    }
  }

  /** Texts can be parsed apart wherever a section header begins the second one. */
  lemma SegmentAtHeader(a: seq<string>, b: seq<string>, kindOf: string -> Kind)
    requires b != [] && kindOf(b[0]).Header?
    ensures Segment(a + b, kindOf) == Segment(a, kindOf) + Segment(b, kindOf)
  {
    var before := ScanFrom(START, a, kindOf);
    var inSection := Scan([], Some(kindOf(b[0]).section), "");
    var first, rest := [b[0]], b[1..];
    assert b == first + rest;
    ScanConcat(START, a, b, kindOf);
    ScanConcat(before, first, rest, kindOf);
    ScanConcat(START, first, rest, kindOf);
    OneLine(before, b[0], kindOf);
    OneLine(START, b[0], kindOf);
    EarlierRowsStay(Flush(before).rows, inSection, rest, kindOf);
    assert Flush(before).rows + [] == Flush(before).rows;
    FlushUnder(Flush(before).rows, ScanFrom(inSection, rest, kindOf));
  }

  lemma OneLine(s: Scan, line: string, kindOf: string -> Kind)
    ensures ScanFrom(s, [line], kindOf) == Step(s, line, kindOf)
  {
    assert [line][..0] == [];
  }

  // ---- laying rows out ----

  /** Lines joined by single spaces. */
  function Join(lines: seq<string>): string {
    JoinWith(lines, " ")
  }

  /** The lines one row was printed on: at least one, and none of them blank. */
  predicate NonBlank(row: seq<string>) {
    row != [] && forall i :: 0 <= i < |row| ==> row[i] != "" && Trimmed(row[i])
  }

  /** The first line looks like a row start and every later one continues it. */
  predicate Wrapped(row: seq<string>, kindOf: string -> Kind) {
    row != [] && kindOf(row[0]) == RowStart && forall i :: 1 <= i < |row| ==> kindOf(row[i]) == Continuation
  }

  datatype Block = Block(header: string, section: Section, rows: seq<seq<string>>)

  predicate LaidOut(block: Block, kindOf: string -> Kind) {
    && kindOf(block.header) == Header(block.section)
    && forall i :: 0 <= i < |block.rows| ==> NonBlank(block.rows[i])
  }

  predicate RowsWrapped(rows: seq<seq<string>>, kindOf: string -> Kind) {
    forall i :: 0 <= i < |rows| ==> Wrapped(rows[i], kindOf)
  }

  predicate AllWrapped(blocks: seq<Block>, kindOf: string -> Kind) {
    forall i :: 0 <= i < |blocks| ==> RowsWrapped(blocks[i].rows, kindOf)
  }

  function RowLines(rows: seq<seq<string>>): seq<string> {
    if rows == [] then [] else RowLines(rows[..|rows| - 1]) + rows[|rows| - 1]
  }

  function Lines(blocks: seq<Block>): seq<string> {
    if blocks == [] then [] else
    var last := blocks[|blocks| - 1];
    Lines(blocks[..|blocks| - 1]) + ([last.header] + RowLines(last.rows))
  }

  function BlockRows(section: Section, rows: seq<seq<string>>): seq<Row> {
    seq(|rows|, i requires 0 <= i < |rows| => Row(section, Join(rows[i])))
  }

  function Rows(blocks: seq<Block>): seq<Row> {
    if blocks == [] then [] else
    var last := blocks[|blocks| - 1];
    Rows(blocks[..|blocks| - 1]) + BlockRows(last.section, last.rows)
  }

  lemma TrimJoined(a: string, b: string)
    requires a != "" && b != "" && Trimmed(a) && Trimmed(b)
    ensures Trimmed(a + " " + b) && Trim(a + " " + b) == a + " " + b
  {
    TrimSpec(a + " " + b);
  }

  lemma {:induction false} JoinTrimmed(row: seq<string>)
    requires NonBlank(row)
    ensures Join(row) != "" && Trimmed(Join(row)) && Trim(Join(row)) == Join(row)
  {
    TrimSpec(Join(row));
    if |row| > 1 {
      JoinTrimmed(row[..|row| - 1]);
      TrimJoined(Join(row[..|row| - 1]), row[|row| - 1]);
    }
  }

  lemma {:induction false} WrappedScan(s: Scan, row: seq<string>, kindOf: string -> Kind)
    requires NonBlank(row) && Wrapped(row, kindOf) && s.current.Some?
    ensures ScanFrom(s, row, kindOf) == Flush(s).(buffer := Join(row))
    decreases |row|
  {
    if |row| == 1 {
      OneLine(s, row[0], kindOf);
      assert row == [row[0]];
    } else {
      var init, last := row[..|row| - 1], row[|row| - 1];
      WrappedScan(s, init, kindOf);
      JoinTrimmed(init);
      TrimJoined(Join(init), last);
    }
  }

  lemma {:induction false} BlockScan(s: Scan, section: Section, rows: seq<seq<string>>, kindOf: string -> Kind)
    requires (forall i :: 0 <= i < |rows| ==> NonBlank(rows[i])) && RowsWrapped(rows, kindOf)
    requires s.current == Some(section) && s.buffer == ""
    ensures var r := ScanFrom(s, RowLines(rows), kindOf);
            r.current == Some(section) && Flush(r) == s.(rows := s.rows + BlockRows(section, rows))
    decreases |rows|
  {
    if rows == [] {
      assert s.rows + BlockRows(section, rows) == s.rows;
    } else {
      var init, last := rows[..|rows| - 1], rows[|rows| - 1];
      BlockScan(s, section, init, kindOf);
      ScanConcat(s, RowLines(init), last, kindOf);
      LastRowScan(ScanFrom(s, RowLines(init), kindOf), section, last, kindOf);
      assert rows == init + [last];
      BlockRowsPush(section, init, last);
      assert s.rows + BlockRows(section, init) + [Row(section, Join(last))] == s.rows + BlockRows(section, rows);
    }
  }

  lemma LastRowScan(s: Scan, section: Section, row: seq<string>, kindOf: string -> Kind)
    requires NonBlank(row) && Wrapped(row, kindOf) && s.current == Some(section)
    ensures var r := ScanFrom(s, row, kindOf);
            && r.current == Some(section)
            && Flush(r) == Flush(s).(rows := Flush(s).rows + [Row(section, Join(row))])
  {
    WrappedScan(s, row, kindOf);
    JoinTrimmed(row);
  }

  lemma {:induction false} LinesScan(blocks: seq<Block>, kindOf: string -> Kind)
    requires (forall i :: 0 <= i < |blocks| ==> LaidOut(blocks[i], kindOf)) && AllWrapped(blocks, kindOf)
    ensures Flush(ScanFrom(START, Lines(blocks), kindOf)).rows == Rows(blocks)
    decreases |blocks|
  {
    if blocks != [] {
      var init, last := blocks[..|blocks| - 1], blocks[|blocks| - 1];
      LinesScan(init, kindOf);
      var before := ScanFrom(START, Lines(init), kindOf);
      var inside := Flush(before).(current := Some(last.section));
      ScanConcat(START, Lines(init), [last.header] + RowLines(last.rows), kindOf);
      ScanConcat(before, [last.header], RowLines(last.rows), kindOf);
      OneLine(before, last.header, kindOf);
      assert RowsWrapped(last.rows, kindOf);
      BlockScan(inside, last.section, last.rows, kindOf);
    }
  }

  // ---- nothing is lost ----

  /** The line belongs to some row: a section is open and it starts a row or continues one. */
  predicate Taken(s: Scan, kind: Kind) {
    s.current.Some? && (kind == RowStart || (kind == Continuation && s.buffer != ""))
  }

  function TakenLines(lines: seq<string>, kindOf: string -> Kind): seq<string>
    decreases |lines|
  {
    if lines == [] then [] else
    var init, last := lines[..|lines| - 1], lines[|lines| - 1];
    TakenLines(init, kindOf) + (if Taken(ScanFrom(START, init, kindOf), kindOf(last)) then [last] else [])
  }

  /** The texts of all rows, one space after each, are the taken lines, one space after each. */
  function Spaced(texts: seq<string>): string {
    if texts == [] then "" else Spaced(texts[..|texts| - 1]) + texts[|texts| - 1] + " "
  }

  function Texts(rows: seq<Row>): seq<string> {
    seq(|rows|, i requires 0 <= i < |rows| => rows[i].text)
  }

  lemma SpacedOne(texts: seq<string>, t: string)
    ensures Spaced(texts + [t]) == Spaced(texts) + t + " "
  {
    assert (texts + [t])[..|texts|] == texts;
  }

  predicate Tidy(s: Scan) {
    Trimmed(s.buffer) && (s.buffer != "" ==> s.current.Some?)
  }

  /** All text a scan holds: its rows, then the row it is still reading. */
  function Held(s: Scan): string {
    Spaced(Texts(s.rows)) + (if s.buffer == "" then "" else s.buffer + " ")
  }

  lemma StartConserves(s: Scan, line: string)
    requires Tidy(s) && s.current.Some? && Trimmed(line) && line != ""
    ensures var r := StepAs(s, line, RowStart); Tidy(r) && Held(r) == Held(s) + line + " "
  {
    FlushConserves(s);
    assert Spaced(Texts(Flush(s).rows)) + (line + " ") == Held(s) + line + " ";
  }

  lemma ContinuationConserves(s: Scan, line: string)
    requires Tidy(s) && s.buffer != "" && Trimmed(line) && line != ""
    ensures var r := StepAs(s, line, Continuation); Tidy(r) && Held(r) == Held(s) + line + " "
  {
    TrimJoined(s.buffer, line);
    var before := Spaced(Texts(s.rows));
    assert before + (s.buffer + " ") + line + " " == before + (s.buffer + " " + line + " ");
  }

  lemma StepConserves(s: Scan, line: string, kind: Kind)
    requires Tidy(s) && Trimmed(line) && (kind == RowStart || kind == Continuation ==> line != "")
    ensures Tidy(StepAs(s, line, kind))
    ensures Held(StepAs(s, line, kind)) == if Taken(s, kind) then Held(s) + line + " " else Held(s)
  {
    if Taken(s, kind) {
      if kind == RowStart { StartConserves(s, line); } else { ContinuationConserves(s, line); }
    } else if kind.Header? {
      FlushConserves(s);
    }
  }

  lemma TakenOneMore(lines: seq<string>, last: string, kind: Kind, kindOf: string -> Kind)
    requires kind == kindOf(last)
    ensures Spaced(TakenLines(lines + [last], kindOf))
            == Spaced(TakenLines(lines, kindOf))
               + (if Taken(ScanFrom(START, lines, kindOf), kind) then last + " " else "")
  {
    assert (lines + [last])[..|lines|] == lines;
    SpacedOneMore(TakenLines(lines, kindOf), last, Taken(ScanFrom(START, lines, kindOf), kind));
  }

  lemma SpacedOneMore(texts: seq<string>, t: string, more: bool)
    ensures Spaced(texts + (if more then [t] else [])) == Spaced(texts) + (if more then t + " " else "")
  {
    if more {
      SpacedOne(texts, t);
      assert Spaced(texts) + (t + " ") == Spaced(texts) + t + " ";
    } else {
      assert texts + [] == texts;
    }
  }

  lemma {:induction false} ScanConserves(lines: seq<string>, kindOf: string -> Kind)
    requires kindOf("") == Noise && forall i :: 0 <= i < |lines| ==> Trimmed(lines[i])
    ensures Tidy(ScanFrom(START, lines, kindOf))
    ensures Spaced(TakenLines(lines, kindOf)) == Held(ScanFrom(START, lines, kindOf))
    decreases |lines|
  {
    if lines != [] {
      var init, last := lines[..|lines| - 1], lines[|lines| - 1];
      ScanConserves(init, kindOf);
      assert lines == init + [last];
      OneMoreLineConserves(init, last, kindOf(last), kindOf);
    }
  }

  lemma ScanOneMore(lines: seq<string>, last: string, kind: Kind, kindOf: string -> Kind)
    requires kind == kindOf(last)
    ensures ScanFrom(START, lines + [last], kindOf) == StepAs(ScanFrom(START, lines, kindOf), last, kind)
  {
    assert (lines + [last])[..|lines|] == lines;
  }

  lemma OneMoreLineConserves(lines: seq<string>, last: string, kind: Kind, kindOf: string -> Kind)
    requires kind == kindOf(last) && Trimmed(last) && kindOf("") == Noise
    requires Tidy(ScanFrom(START, lines, kindOf))
    requires Spaced(TakenLines(lines, kindOf)) == Held(ScanFrom(START, lines, kindOf))
    ensures Tidy(ScanFrom(START, lines + [last], kindOf))
    ensures Spaced(TakenLines(lines + [last], kindOf)) == Held(ScanFrom(START, lines + [last], kindOf))
  {
    var s := ScanFrom(START, lines, kindOf);
    StepConserves(s, last, kind);
    ScanOneMore(lines, last, kind, kindOf);
    TakenOneMore(lines, last, kind, kindOf);
  }

  lemma FlushConserves(s: Scan)
    requires Tidy(s)
    ensures Spaced(Texts(Flush(s).rows)) == Held(s)
  {
    TrimSpec(s.buffer);
    if s.buffer != "" {
      assert Texts(Flush(s).rows) == Texts(s.rows) + [s.buffer];
      SpacedOne(Texts(s.rows), s.buffer);
    }
  }

  /** Every line that belongs to a row ends up in the rows' texts exactly once and in order. */
  lemma RowsConserveLines(rawLines: seq<string>, kindOf: string -> Kind)
    requires kindOf("") == Noise
    ensures Spaced(Texts(Segment(Stripped(rawLines), kindOf))) == Spaced(TakenLines(Stripped(rawLines), kindOf))
  {
    var lines := Stripped(rawLines);
    forall i | 0 <= i < |lines| ensures Trimmed(lines[i]) {
      TrimSpec(rawLines[i]);
    }
    ScanConserves(lines, kindOf);
    FlushConserves(ScanFrom(START, lines, kindOf));
  }

  // ---- exactly when a layout comes back ----

  /** A measure of texts to which every line of a joined row contributes. */
  ghost predicate Measures(w: string -> nat) {
    && (forall a: string, b: string :: w(a + " " + b) == w(a) + w(b))
    && (forall t: string :: t != "" && Trimmed(t) ==> w(t) > 0)
  }

  function Weight(texts: seq<string>, w: string -> nat): nat {
    if texts == [] then 0 else Weight(texts[..|texts| - 1], w) + w(texts[|texts| - 1])
  }

  lemma WeightOneMore(texts: seq<string>, t: string, w: string -> nat)
    ensures Weight(texts + [t], w) == Weight(texts, w) + w(t)
  {
    assert (texts + [t])[..|texts|] == texts;
  }

  lemma {:induction false} WeightConcat(a: seq<string>, b: seq<string>, w: string -> nat)
    ensures Weight(a + b, w) == Weight(a, w) + Weight(b, w)
    decreases |b|
  {
    if b == [] {
      assert a + b == a;
    } else {
      var init, last := b[..|b| - 1], b[|b| - 1];
      WeightConcat(a, init, w);
      WeightOneMore(a + init, last, w);
      assert a + b == (a + init) + [last];
    }
  }

  /** The weight of the rows a scan holds and of the row it is still reading. */
  function HeldWeight(s: Scan, w: string -> nat): nat {
    Weight(Texts(s.rows), w) + (if s.buffer == "" then 0 else w(s.buffer))
  }

  lemma FlushWeighs(s: Scan, w: string -> nat)
    requires Tidy(s)
    ensures Weight(Texts(Flush(s).rows), w) == HeldWeight(s, w) == HeldWeight(Flush(s), w)
  {
    TrimSpec(s.buffer);
    if s.buffer != "" {
      WeightOneMore(Texts(s.rows), s.buffer, w);
      assert Texts(Flush(s).rows) == Texts(s.rows) + [s.buffer];
    }
  }

  lemma StepWeighs(s: Scan, line: string, kind: Kind, w: string -> nat)
    requires Measures(w) && Tidy(s) && line != "" && Trimmed(line)
    ensures Tidy(StepAs(s, line, kind))
    ensures HeldWeight(StepAs(s, line, kind), w) == HeldWeight(s, w) + (if Taken(s, kind) then w(line) else 0)
  {
    FlushWeighs(s, w);
    if s.buffer != "" {
      TrimJoined(s.buffer, line);
    }
  }

  /** Every line became part of some row. */
  predicate AllTaken(s: Scan, lines: seq<string>, kindOf: string -> Kind)
    decreases |lines|
  {
    lines == [] ||
    var init, last := lines[..|lines| - 1], lines[|lines| - 1];
    AllTaken(s, init, kindOf) && Taken(ScanFrom(s, init, kindOf), kindOf(last))
  }

  /** Lines never add more than their weight, and add all of it exactly when every one is taken. */
  lemma {:induction false} LinesWeigh(s: Scan, lines: seq<string>, w: string -> nat, kindOf: string -> Kind)
    requires Measures(w) && Tidy(s) && (lines == [] || NonBlank(lines))
    ensures var r := ScanFrom(s, lines, kindOf);
            && Tidy(r) && HeldWeight(r, w) <= HeldWeight(s, w) + Weight(lines, w)
            && (HeldWeight(r, w) == HeldWeight(s, w) + Weight(lines, w) <==> AllTaken(s, lines, kindOf))
    decreases |lines|
  {
    if lines != [] {
      var init, last := lines[..|lines| - 1], lines[|lines| - 1];
      LinesWeigh(s, init, w, kindOf);
      StepWeighs(ScanFrom(s, init, kindOf), last, kindOf(last), w);
      assert w(last) > 0;
    }
  }

  lemma {:induction false} JoinWeighs(row: seq<string>, w: string -> nat)
    requires Measures(w) && NonBlank(row)
    ensures w(Join(row)) == Weight(row, w) > 0
  {
    if |row| == 1 {
      assert row[..0] == [];
    } else {
      JoinWeighs(row[..|row| - 1], w);
    }
  }

  lemma TakenStep(s: Scan, line: string, kind: Kind, w: string -> nat)
    requires Measures(w) && Tidy(s) && line != "" && Trimmed(line) && Taken(s, kind)
    ensures var r := StepAs(s, line, kind);
            && r.current.Some? && r.buffer != ""
            && w(r.buffer) == (if kind == RowStart then 0 else w(s.buffer)) + w(line)
            && (kind != RowStart ==> w(s.buffer) > 0)
  {
    if kind == Continuation {
      TrimJoined(s.buffer, line);
    }
  }

  lemma WrappedFurther(row: seq<string>, kindOf: string -> Kind)
    requires row != []
    ensures var n := |row| - 1;
            Wrapped(row, kindOf)
            <==> if n == 0 then kindOf(row[0]) == RowStart
                 else Wrapped(row[..n], kindOf) && kindOf(row[n]) == Continuation
  {
    var n := |row| - 1;
    if n > 0 {
      assert forall i :: 0 <= i < n ==> row[..n][i] == row[i];
    }
  }

  /** The row being read after a row's lines weighs what they do only if they are wrapped as they should be. */
  lemma {:induction false} LastRowForced(s: Scan, row: seq<string>, w: string -> nat, kindOf: string -> Kind)
    requires Measures(w) && Tidy(s) && NonBlank(row) && AllTaken(s, row, kindOf)
    ensures var r := ScanFrom(s, row, kindOf);
            r.current.Some? && r.buffer != "" && (Wrapped(row, kindOf) || w(r.buffer) != Weight(row, w))
    decreases |row|
  {
    var init, last := row[..|row| - 1], row[|row| - 1];
    LinesWeigh(s, init, w, kindOf);
    TakenStep(ScanFrom(s, init, kindOf), last, kindOf(last), w);
    WrappedFurther(row, kindOf);
    if init != [] {
      LastRowForced(s, init, w, kindOf);
      JoinWeighs(init, w);
    }
  }

  /** The same number of rows, of the same weights. */
  predicate SameWeights(a: seq<Row>, b: seq<Row>, w: string -> nat) {
    |a| == |b| && forall i :: 0 <= i < |a| ==> w(a[i].text) == w(b[i].text)
  }

  lemma {:induction false} SameWeightsWeigh(a: seq<Row>, b: seq<Row>, w: string -> nat)
    requires SameWeights(a, b, w)
    ensures Weight(Texts(a), w) == Weight(Texts(b), w)
  {
    if a != [] {
      var n := |a| - 1;
      SameWeightsWeigh(a[..n], b[..n], w);
      assert Texts(a)[..n] == Texts(a[..n]) && Texts(b)[..n] == Texts(b[..n]);
    }
  }

  lemma {:induction false} BlockRowsWeigh(section: Section, rows: seq<seq<string>>, w: string -> nat)
    requires Measures(w) && forall i :: 0 <= i < |rows| ==> NonBlank(rows[i])
    ensures Weight(Texts(BlockRows(section, rows)), w) == Weight(RowLines(rows), w)
  {
    if rows != [] {
      var init, last := rows[..|rows| - 1], rows[|rows| - 1];
      BlockRowsWeigh(section, init, w);
      JoinWeighs(last, w);
      WeightConcat(RowLines(init), last, w);
      WeightOneMore(Texts(BlockRows(section, init)), Join(last), w);
      assert Texts(BlockRows(section, rows)) == Texts(BlockRows(section, init)) + [Join(last)];
    }
  }

  lemma {:induction false} RowLinesNonBlank(rows: seq<seq<string>>)
    requires forall i :: 0 <= i < |rows| ==> NonBlank(rows[i])
    ensures RowLines(rows) == [] || NonBlank(RowLines(rows))
  {
    if rows != [] { RowLinesNonBlank(rows[..|rows| - 1]); }
  }

  lemma SameWeightsPush(a: seq<Row>, x: Row, b: seq<Row>, y: Row, w: string -> nat)
    ensures SameWeights(a + [x], b + [y], w) <==> SameWeights(a, b, w) && w(x.text) == w(y.text)
  {
    var more, others := a + [x], b + [y];
    if SameWeights(more, others, w) {
      forall i | 0 <= i < |a| ensures w(a[i].text) == w(b[i].text) {
        assert more[i] == a[i] && others[i] == b[i];
      }
      assert more[|a|] == x && others[|a|] == y;
    }
  }

  lemma FlushPushes(s: Scan)
    requires Tidy(s) && s.buffer != ""
    ensures Flush(s).rows == s.rows + [Row(s.current.value, s.buffer)]
  {
    TrimSpec(s.buffer);
  }

  /** A row of the right weight, after rows no heavier than they should be, takes all of its lines. */
  lemma LastRowTakesAll(
      mid: Scan, last: seq<string>, row: Row, expected: seq<Row>, w: string -> nat, kindOf: string -> Kind)
    requires Measures(w) && Tidy(mid) && NonBlank(last) && w(row.text) == Weight(last, w)
    requires HeldWeight(mid, w) <= Weight(Texts(expected), w)
    requires SameWeights(Flush(ScanFrom(mid, last, kindOf)).rows, expected + [row], w)
    ensures AllTaken(mid, last, kindOf) && Tidy(ScanFrom(mid, last, kindOf))
  {
    var r := ScanFrom(mid, last, kindOf);
    LinesWeigh(mid, last, w, kindOf);
    FlushWeighs(r, w);
    SameWeightsWeigh(Flush(r).rows, expected + [row], w);
    WeightOneMore(Texts(expected), row.text, w);
    assert Texts(expected + [row]) == Texts(expected) + [row.text];
  }

  lemma LastOfRowsForced(
      mid: Scan, last: seq<string>, row: Row, expected: seq<Row>, w: string -> nat, kindOf: string -> Kind)
    requires Measures(w) && Tidy(mid) && NonBlank(last) && w(row.text) == Weight(last, w)
    requires HeldWeight(mid, w) <= Weight(Texts(expected), w)
    requires SameWeights(Flush(ScanFrom(mid, last, kindOf)).rows, expected + [row], w)
    ensures Wrapped(last, kindOf) && SameWeights(Flush(mid).rows, expected, w)
  {
    var r := ScanFrom(mid, last, kindOf);
    LastRowTakesAll(mid, last, row, expected, w, kindOf);
    LastRowForced(mid, last, w, kindOf);
    FlushPushes(r);
    SameWeightsPush(r.rows, Row(r.current.value, r.buffer), expected, row, w);
    WrappedAfter(mid, last, kindOf);
  }

  lemma WrappedAfter(s: Scan, row: seq<string>, kindOf: string -> Kind)
    requires Tidy(s) && NonBlank(row) && Wrapped(row, kindOf) && ScanFrom(s, row, kindOf).current.Some?
    ensures ScanFrom(s, row, kindOf).rows == Flush(s).rows
  {
    CurrentStays(s, row, kindOf);
    WrappedScan(s, row, kindOf);
  }

  lemma {:induction false} CurrentStays(s: Scan, row: seq<string>, kindOf: string -> Kind)
    requires Wrapped(row, kindOf)
    ensures ScanFrom(s, row, kindOf).current == s.current
    decreases |row|
  {
    WrappedFurther(row, kindOf);
    if |row| > 1 {
      CurrentStays(s, row[..|row| - 1], kindOf);
    } else {
      assert row[..0] == [];
    }
  }

  lemma BlockRowsPush(section: Section, init: seq<seq<string>>, last: seq<string>)
    ensures BlockRows(section, init + [last]) == BlockRows(section, init) + [Row(section, Join(last))]
  {
  }

  /** The rows expected up to a point weigh what their lines do. */
  lemma ExpectedWeigh(base: seq<Row>, section: Section, rows: seq<seq<string>>, w: string -> nat)
    requires Measures(w) && forall i :: 0 <= i < |rows| ==> NonBlank(rows[i])
    ensures Weight(Texts(base + BlockRows(section, rows)), w) == Weight(Texts(base), w) + Weight(RowLines(rows), w)
  {
    BlockRowsWeigh(section, rows, w);
    TextsConcat(base, BlockRows(section, rows));
    WeightConcat(Texts(base), Texts(BlockRows(section, rows)), w);
  }

  lemma TextsConcat(a: seq<Row>, b: seq<Row>)
    ensures Texts(a + b) == Texts(a) + Texts(b)
  {
  }

  /** Within a section, rows of the right weights after rows no heavier than they should be come from wrapped lines. */
  lemma {:induction false} RowsForced(
      s: Scan, section: Section, rows: seq<seq<string>>, base: seq<Row>, w: string -> nat, kindOf: string -> Kind)
    requires Measures(w) && Tidy(s) && forall i :: 0 <= i < |rows| ==> NonBlank(rows[i])
    requires s.buffer == "" && HeldWeight(s, w) <= Weight(Texts(base), w)
    requires SameWeights(Flush(ScanFrom(s, RowLines(rows), kindOf)).rows, base + BlockRows(section, rows), w)
    ensures SameWeights(s.rows, base, w) && RowsWrapped(rows, kindOf)
    decreases |rows|
  {
    if rows == [] {
      assert base + BlockRows(section, rows) == base;
    } else {
      var init, last := rows[..|rows| - 1], rows[|rows| - 1];
      var expected := base + BlockRows(section, init);
      ScanConcat(s, RowLines(init), last, kindOf);
      assert rows == init + [last];
      BlockRowsPush(section, init, last);
      assert base + BlockRows(section, rows) == expected + [Row(section, Join(last))];
      RowLinesNonBlank(init);
      LinesWeigh(s, RowLines(init), w, kindOf);
      ExpectedWeigh(base, section, init, w);
      JoinWeighs(last, w);
      LastOfRowsForced(ScanFrom(s, RowLines(init), kindOf), last, Row(section, Join(last)), expected, w, kindOf);
      RowsForced(s, section, init, base, w, kindOf);
    }
  }

  /** A scan never holds more than the rows that were laid out. */
  lemma {:induction false} LinesBound(blocks: seq<Block>, w: string -> nat, kindOf: string -> Kind)
    requires Measures(w) && forall i :: 0 <= i < |blocks| ==> LaidOut(blocks[i], kindOf)
    ensures var r := ScanFrom(START, Lines(blocks), kindOf);
            Tidy(r) && HeldWeight(r, w) <= Weight(Texts(Rows(blocks)), w)
    decreases |blocks|
  {
    if blocks != [] {
      var init, last := blocks[..|blocks| - 1], blocks[|blocks| - 1];
      LinesBound(init, w, kindOf);
      LastBlock(init, last, kindOf);
      var before := ScanFrom(START, Lines(init), kindOf);
      var inside := Flush(before).(current := Some(last.section));
      FlushWeighs(before, w);
      RowLinesNonBlank(last.rows);
      LinesWeigh(inside, RowLines(last.rows), w, kindOf);
      ExpectedWeigh(Rows(init), last.section, last.rows, w);
    }
  }

  lemma LastBlock(init: seq<Block>, last: Block, kindOf: string -> Kind)
    requires LaidOut(last, kindOf)
    ensures var before := ScanFrom(START, Lines(init), kindOf);
            ScanFrom(START, Lines(init) + ([last.header] + RowLines(last.rows)), kindOf)
            == ScanFrom(Flush(before).(current := Some(last.section)), RowLines(last.rows), kindOf)
  {
    var before := ScanFrom(START, Lines(init), kindOf);
    ScanConcat(START, Lines(init), [last.header] + RowLines(last.rows), kindOf);
    ScanConcat(before, [last.header], RowLines(last.rows), kindOf);
    OneLine(before, last.header, kindOf);
  }

  lemma LastBlockForced(init: seq<Block>, last: Block, w: string -> nat, kindOf: string -> Kind)
    requires Measures(w) && LaidOut(last, kindOf) && forall i :: 0 <= i < |init| ==> LaidOut(init[i], kindOf)
    requires var lines := Lines(init) + ([last.header] + RowLines(last.rows));
             SameWeights(Flush(ScanFrom(START, lines, kindOf)).rows, Rows(init) + BlockRows(last.section, last.rows), w)
    ensures RowsWrapped(last.rows, kindOf)
    ensures SameWeights(Flush(ScanFrom(START, Lines(init), kindOf)).rows, Rows(init), w)
  {
    var before := ScanFrom(START, Lines(init), kindOf);
    LinesBound(init, w, kindOf);
    LastBlock(init, last, kindOf);
    FlushWeighs(before, w);
    RowsForced(Flush(before).(current := Some(last.section)), last.section, last.rows, Rows(init), w, kindOf);
  }

  /** Rows of the right weights come from wrapped lines only. */
  lemma {:induction false} LinesForced(blocks: seq<Block>, w: string -> nat, kindOf: string -> Kind)
    requires Measures(w) && forall i :: 0 <= i < |blocks| ==> LaidOut(blocks[i], kindOf)
    requires SameWeights(Flush(ScanFrom(START, Lines(blocks), kindOf)).rows, Rows(blocks), w)
    ensures AllWrapped(blocks, kindOf)
    decreases |blocks|
  {
    if blocks != [] {
      var init, last := blocks[..|blocks| - 1], blocks[|blocks| - 1];
      LastBlockForced(init, last, w, kindOf);
      LinesForced(init, w, kindOf);
      forall i | 0 <= i < |blocks| ensures RowsWrapped(blocks[i].rows, kindOf) {
        assert i < |init| ==> blocks[i] == init[i];
      }
    }
  }

  /**
   * Rows laid out under section headers, broken over lines anywhere and with noise put in anywhere, come
   * back as rows of the same weights exactly when every row begins with a line that looks like a row start
   * and each later line is taken for its continuation: not for another row start, a header or noise. They
   * are then the very rows, in order and with their sections.
   */
  lemma LayoutForced(blocks: seq<Block>, lines: seq<string>, w: string -> nat, kindOf: string -> Kind)
    requires Measures(w) && forall i :: 0 <= i < |blocks| ==> LaidOut(blocks[i], kindOf)
    requires WithoutNoise(lines, kindOf) == WithoutNoise(Lines(blocks), kindOf)
    ensures SameWeights(Segment(lines, kindOf), Rows(blocks), w) <==> AllWrapped(blocks, kindOf)
    ensures AllWrapped(blocks, kindOf) ==> Segment(lines, kindOf) == Rows(blocks)
  {
    NoiseIrrelevant(lines, kindOf);
    NoiseIrrelevant(Lines(blocks), kindOf);
    if AllWrapped(blocks, kindOf) {
      LinesScan(blocks, kindOf);
    }
    if SameWeights(Segment(lines, kindOf), Rows(blocks), w) {
      LinesForced(blocks, w, kindOf);
    }
  }

  lemma LengthMeasures()
    ensures Measures(t => |t| + 1)
  {
  }

  /** Every text, with its section and in its place, comes back exactly under that condition. */
  lemma LayoutRoundTrip(blocks: seq<Block>, lines: seq<string>, kindOf: string -> Kind)
    requires forall i :: 0 <= i < |blocks| ==> LaidOut(blocks[i], kindOf)
    requires WithoutNoise(lines, kindOf) == WithoutNoise(Lines(blocks), kindOf)
    ensures Segment(lines, kindOf) == Rows(blocks) <==> AllWrapped(blocks, kindOf)
  {
    LengthMeasures();
    LayoutForced(blocks, lines, t => |t| + 1, kindOf);
  }
}
