/** `JSON.stringify` on normalised values (ECMA-262, section 25.5.2; RFC 8259, sections 4 to 7). */
module JsonText {
  import opened Ordering
  import opened Encoding
  import opened Json

  /** Normalised values hold no `undefined`. */
  predicate Printable(v: Value) {
    match v
    case Undefined => false
    case Arr(items) => forall i :: 0 <= i < |items| ==> Printable(items[i])
    case Obj(entries) => forall i :: 0 <= i < |entries| ==> Printable(entries[i].value)
    case _ => true
  }

  lemma {:induction false} NormalizePrintable(v: Value)
    requires WellFormed(v)
    ensures Printable(Normalize(v))
    decreases v
  {
    match v
    case Arr(x) =>
      forall i | 0 <= i < |x| ensures Printable(Normalize(x[i])) {
        NormalizePrintable(x[i]);
      }
    case Obj(x) =>
      var r := Arrange(NormalizeEntries(x));
      forall n | 0 <= n < |r| ensures Printable(r[n].value) {
        var i := ArrangedFrom(x, n);
        NormalizePrintable(x[i].value);
      }
    case _ =>
  }

  function Hex(n: int): char
    requires 0 <= n < 16
  {
    if n < 10 then (48 + n) as char else (87 + n) as char
  }

  /** One character inside a quoted string. */
  function Escape(c: char): string {
    var n := c as int;
    if c == '"' then ['\\', '"']
    else if c == '\\' then ['\\', '\\']
    else if n == 8 then ['\\', 'b']
    else if n == 12 then ['\\', 'f']
    else if n == 10 then ['\\', 'n']
    else if n == 13 then ['\\', 'r']
    else if n == 9 then ['\\', 't']
    else if n < 32 then ['\\', 'u', '0', '0', Hex(n / 16), Hex(n % 16)]
    else [c]
  }

  /** The rest of a quoted string, with its closing quote. */
  function QuoteBody(s: string): string {
    if s == "" then ['"'] else Escape(s[0]) + QuoteBody(s[1..])
  }

  function Quote(s: string): string {
    ['"'] + QuoteBody(s)
  }

  function Print(v: Value): (t: string)
    ensures t != ""
    decreases v
  {
    match v
    case Bool(b) => if b then "true" else "false"
    case Str(s) => Quote(s)
    case Arr(items) => ['['] + PrintItems(items, true)
    case Obj(entries) => ['{'] + PrintEntries(entries, true)
    case _ => "null"
  }

  /** What follows the opening bracket, or the previous item when `first` is false. */
  function PrintItems(items: seq<Value>, first: bool): string
    decreases items
  {
    if items == [] then [']']
    else (if first then [] else [',']) + (Print(items[0]) + PrintItems(items[1..], false))
  }

  function PrintEntries(entries: seq<Entry>, first: bool): string
    decreases entries
  {
    if entries == [] then ['}']
    else (if first then [] else [','])
         + (Quote(entries[0].key) + ([':'] + (Print(entries[0].value) + PrintEntries(entries[1..], false))))
  }

  // ---- unique readability ----

  lemma Peel(a: string, x: string, b: string, y: string)
    requires a + x == b + y && |a| == |b|
    ensures a == b && x == y
  {
    assert a == (a + x)[..|a|] && b == (b + y)[..|b|];
    assert x == (a + x)[|a|..] && y == (b + y)[|b|..];
  }

  lemma EscapeHead(c: char, x: string)
    ensures Escape(c) != [] && (Escape(c) + x)[0] == Escape(c)[0] != '"'
    ensures |Escape(c)| > 1 ==> (Escape(c) + x)[1] == Escape(c)[1]
    ensures |Escape(c)| > 1 <==> Escape(c)[0] == '\\'
    ensures |Escape(c)| > 2 ==> Escape(c)[1] == 'u' && |Escape(c)| == 6
    ensures |Escape(c)| == 2 ==> Escape(c)[1] != 'u'
  {
  }

  lemma EscapeInjective(c: char, d: char)
    requires Escape(c) == Escape(d)
    ensures c == d
  {
    if |Escape(c)| == 6 {
      assert Escape(c)[4] == Escape(d)[4] && Escape(c)[5] == Escape(d)[5];
    } else if |Escape(c)| == 2 {
      assert Escape(c)[1] == Escape(d)[1];
    } else {
      assert Escape(c)[0] == c && Escape(d)[0] == d;
    }
  }

  lemma EscapePrefixFree(c: char, x: string, d: char, y: string)
    requires Escape(c) + x == Escape(d) + y
    ensures c == d && x == y
  {
    EscapeHead(c, x);
    EscapeHead(d, y);
    assert |Escape(c)| == |Escape(d)|;
    Peel(Escape(c), x, Escape(d), y);
    EscapeInjective(c, d);
  }

  lemma {:induction false} QuoteBodyUnique(s: string, x: string, t: string, y: string)
    requires QuoteBody(s) + x == QuoteBody(t) + y
    ensures s == t && x == y
  {
    if s != "" { QuoteBodySplit(s, x); }
    if t != "" { QuoteBodySplit(t, y); }
    if s == "" || t == "" {
      assert (['"'] + x)[0] == '"' && (['"'] + y)[0] == '"';
      Peel(['"'], x, ['"'], y);
    } else {
      EscapePrefixFree(s[0], QuoteBody(s[1..]) + x, t[0], QuoteBody(t[1..]) + y);
      QuoteBodyUnique(s[1..], x, t[1..], y);
      assert s == [s[0]] + s[1..] && t == [t[0]] + t[1..];
    }
  }

  lemma QuoteBodySplit(s: string, x: string)
    requires s != ""
    ensures QuoteBody(s) + x == Escape(s[0]) + (QuoteBody(s[1..]) + x)
    ensures (QuoteBody(s) + x)[0] != '"'
  {
    EscapeHead(s[0], QuoteBody(s[1..]) + x);
  }

  lemma QuoteSplit(s: string, x: string)
    ensures Quote(s) + x == ['"'] + (QuoteBody(s) + x)
  {
  }

  lemma QuoteUnique(s: string, x: string, t: string, y: string)
    requires Quote(s) + x == Quote(t) + y
    ensures s == t && x == y
  {
    var a, b := QuoteBody(s) + x, QuoteBody(t) + y;
    QuoteSplit(s, x);
    QuoteSplit(t, y);
    Peel(['"'], a, ['"'], b);
    QuoteBodyUnique(s, x, t, y);
  }

  /** The first character tells the kind of value. */
  lemma PrintHead(v: Value, x: string)
    requires Printable(v)
    ensures (Print(v) + x)[0] == (match v
                                  case Bool(b) => if b then 't' else 'f'
                                  case Str(_) => '"'
                                  case Arr(_) => '['
                                  case Obj(_) => '{'
                                  case _ => 'n')
  {
  }

  lemma BracketSplit(v: Value, x: string)
    ensures v.Arr? ==> Print(v) + x == ['['] + (PrintItems(v.items, true) + x)
    ensures v.Obj? ==> Print(v) + x == ['{'] + (PrintEntries(v.entries, true) + x)
  {
  }

  /** No value's text is the start of another's: text and remainder can be told apart. */
  lemma {:induction false} PrintUnique(v: Value, x: string, w: Value, y: string)
    requires Printable(v) && Printable(w)
    requires Print(v) + x == Print(w) + y
    ensures v == w && x == y
    decreases v, 1
  {
    PrintHead(v, x);
    PrintHead(w, y);
    match v
    case Str(s) => QuoteUnique(s, x, w.s, y);
    case Arr(items) =>
      BracketSplit(v, x);
      BracketSplit(w, y);
      Peel(['['], PrintItems(items, true) + x, ['['], PrintItems(w.items, true) + y);
      PrintItemsUnique(items, x, w.items, y, true);
    case Obj(entries) =>
      BracketSplit(v, x);
      BracketSplit(w, y);
      Peel(['{'], PrintEntries(entries, true) + x, ['{'], PrintEntries(w.entries, true) + y);
      PrintEntriesUnique(entries, x, w.entries, y, true);
    case _ => Peel(Print(v), x, Print(w), y);
  }

  function Comma(first: bool): string {
    if first then [] else [',']
  }

  lemma ItemsHead(items: seq<Value>, x: string, first: bool)
    requires forall i :: 0 <= i < |items| ==> Printable(items[i])
    ensures items == [] ==> PrintItems(items, first) + x == [']'] + x
    ensures items != [] ==>
              PrintItems(items, first) + x == Comma(first) + (Print(items[0]) + (PrintItems(items[1..], false) + x))
    ensures items == [] <==> (PrintItems(items, first) + x)[0] == ']'
  {
    if items != [] { PrintHead(items[0], PrintItems(items[1..], false) + x); }
  }

  lemma {:induction false} PrintItemsUnique(v: seq<Value>, x: string, w: seq<Value>, y: string, first: bool)
    requires forall i :: 0 <= i < |v| ==> Printable(v[i])
    requires forall i :: 0 <= i < |w| ==> Printable(w[i])
    requires PrintItems(v, first) + x == PrintItems(w, first) + y
    ensures v == w && x == y
    decreases v, 0
  {
    ItemsHead(v, x, first);
    ItemsHead(w, y, first);
    if v == [] {
      Peel([']'], x, [']'], y);
    } else {
      Peel(Comma(first), Print(v[0]) + (PrintItems(v[1..], false) + x),
           Comma(first), Print(w[0]) + (PrintItems(w[1..], false) + y));
      PrintUnique(v[0], PrintItems(v[1..], false) + x, w[0], PrintItems(w[1..], false) + y);
      PrintItemsUnique(v[1..], x, w[1..], y, false);
      assert v == [v[0]] + v[1..] && w == [w[0]] + w[1..];
    }
  }

  lemma Regroup(comma: string, key: string, value: string, rest: string, x: string)
    ensures comma + (key + ([':'] + (value + rest))) + x == comma + (key + ([':'] + (value + (rest + x))))
  {
  }

  lemma EntriesHead(e: seq<Entry>, x: string, first: bool)
    ensures e == [] ==> PrintEntries(e, first) + x == ['}'] + x
    ensures e != [] ==> PrintEntries(e, first) + x
                        == Comma(first)
                           + (Quote(e[0].key) + ([':'] + (Print(e[0].value) + (PrintEntries(e[1..], false) + x))))
    ensures e == [] <==> (PrintEntries(e, first) + x)[0] == '}'
  {
    if e != [] {
      Regroup(Comma(first), Quote(e[0].key), Print(e[0].value), PrintEntries(e[1..], false), x);
      assert Quote(e[0].key)[0] == '"';
    }
  }

  lemma {:induction false} PrintEntriesUnique(v: seq<Entry>, x: string, w: seq<Entry>, y: string, first: bool)
    requires forall i :: 0 <= i < |v| ==> Printable(v[i].value)
    requires forall i :: 0 <= i < |w| ==> Printable(w[i].value)
    requires PrintEntries(v, first) + x == PrintEntries(w, first) + y
    ensures v == w && x == y
    decreases v, 0
  {
    EntriesHead(v, x, first);
    EntriesHead(w, y, first);
    if v == [] {
      Peel(['}'], x, ['}'], y);
    } else {
      var vRest, wRest := PrintEntries(v[1..], false) + x, PrintEntries(w[1..], false) + y;
      var vTail, wTail := [':'] + (Print(v[0].value) + vRest), [':'] + (Print(w[0].value) + wRest);
      Peel(Comma(first), Quote(v[0].key) + vTail, Comma(first), Quote(w[0].key) + wTail);
      QuoteUnique(v[0].key, vTail, w[0].key, wTail);
      Peel([':'], Print(v[0].value) + vRest, [':'], Print(w[0].value) + wRest);
      PrintUnique(v[0].value, vRest, w[0].value, wRest);
      PrintEntriesUnique(v[1..], x, w[1..], y, false);
      assert v == [v[0]] + v[1..] && w == [w[0]] + w[1..];
    }
  }

  /** `encodeSegment(normalize(value))`. */
  function Segment(v: Value): string {
    Base64Url(Utf8(Print(Normalize(v))))
  }

  /** Two values share an encoded segment exactly when they differ in nothing but key order and undefined/null. */
  lemma SegmentCanonical(v: Value, w: Value)
    requires WellFormed(v) && WellFormed(w)
    ensures Segment(v) == Segment(w) <==> Equivalent(v, w)
  {
    NormalizeCanonical(v, w);
    if Segment(v) == Segment(w) {
      Base64UrlRoundTrip(Utf8(Print(Normalize(v))));
      Base64UrlRoundTrip(Utf8(Print(Normalize(w))));
      Utf8Injective(Print(Normalize(v)), Print(Normalize(w)));
      NormalizePrintable(v);
      NormalizePrintable(w);
      PrintUnique(Normalize(v), "", Normalize(w), "");
    }
  }
}
