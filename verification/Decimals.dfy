/** Decimal texts: printing, padding, parsing and their order. */
module Decimals {
  import opened Ordering
  import opened Text

  function DigitOf(n: int): char
    requires 0 <= n < 10
  {
    (48 + n) as char
  }

  function ValueOf(c: char): int {
    c as int - 48
  }

  /** `String(n)`. */
  function Decimal(n: nat): string {
    if n < 10 then [DigitOf(n)] else Decimal(n / 10) + [DigitOf(n % 10)]
  }

  /** `s.padStart(width, '0')`. */
  function PadStart(s: string, width: nat): string
    decreases width - |s|
  {
    if |s| >= width then s else PadStart("0" + s, width)
  }

  function Parse(s: string): int {
    if s == "" then 0 else Parse(s[..|s| - 1]) * 10 + ValueOf(s[|s| - 1])
  }

  lemma {:induction false} DecimalRoundTrip(n: nat)
    ensures AllDigits(Decimal(n)) && Decimal(n) != "" && Parse(Decimal(n)) == n
  {
    if n >= 10 {
      DecimalRoundTrip(n / 10);
    }
  }

  lemma {:induction false} PadRoundTrip(s: string, width: nat)
    requires AllDigits(s)
    ensures AllDigits(PadStart(s, width)) && Parse(PadStart(s, width)) == Parse(s)
    ensures |PadStart(s, width)| == if |s| >= width then |s| else width
    decreases width - |s|
  {
    if |s| < width {
      ParseCons('0', s);
      PadRoundTrip("0" + s, width);
    }
  }

  function Pow10(n: nat): nat {
    if n == 0 then 1 else 10 * Pow10(n - 1)
  }

  lemma {:induction false} ParseCons(c: char, s: string)
    requires IsDigit(c)
    ensures Parse([c] + s) == ValueOf(c) * Pow10(|s|) + Parse(s)
  {
    if s == "" {
      assert ([c] + s)[..0] == "";
    } else {
      var init := s[..|s| - 1];
      assert ([c] + s)[..|s|] == [c] + init;
      ParseCons(c, init);
      assert (ValueOf(c) * Pow10(|init|)) * 10 == ValueOf(c) * (10 * Pow10(|init|));
    }
  }

  lemma {:induction false} ParseBound(s: string)
    requires AllDigits(s)
    ensures 0 <= Parse(s) < Pow10(|s|)
  {
    if s != "" {
      ParseBound(s[..|s| - 1]);
    }
  }

  lemma LeadingDigit(a: string)
    requires AllDigits(a) && a != ""
    ensures Parse(a) == ValueOf(a[0]) * Pow10(|a| - 1) + Parse(a[1..])
    ensures 0 <= Parse(a[1..]) < Pow10(|a| - 1)
    ensures IsDigit(a[0]) && AllDigits(a[1..])
  {
    assert a == [a[0]] + a[1..];
    assert IsDigit(a[0]);
    ParseCons(a[0], a[1..]);
    ParseBound(a[1..]);
  }

  /** At one width, string order is numeric order. */
  lemma {:induction false} OrdersAgree(a: string, b: string)
    requires AllDigits(a) && AllDigits(b) && |a| == |b|
    ensures Before(a, b) <==> Parse(a) <= Parse(b)
    ensures Parse(a) == Parse(b) ==> a == b
  {
    if a != "" {
      LeadingDigit(a);
      LeadingDigit(b);
      OrdersAgree(a[1..], b[1..]);
      BeforeStep(a, b);
      LeadFirst(Parse(a), Parse(b), ValueOf(a[0]), ValueOf(b[0]), Parse(a[1..]), Parse(b[1..]), Pow10(|a| - 1));
      SameHeadAndTail(a, b);
    }
  }

  lemma SameHeadAndTail(a: string, b: string)
    requires a != "" && b != ""
    ensures a[0] == b[0] && a[1..] == b[1..] ==> a == b
  {
    assert a == [a[0]] + a[1..] && b == [b[0]] + b[1..];
  }

  /** Of two numbers with equally many digits, the leading digits are compared first. */
  lemma LeadFirst(m: int, n: int, x: int, y: int, r: int, s: int, p: int)
    requires p > 0 && 0 <= r < p && 0 <= s < p && m == x * p + r && n == y * p + s
    ensures m <= n <==> x < y || (x == y && r <= s)
    ensures m == n <==> x == y && r == s
  {
    LeadDecides(x, y, r, s, p);
  }

  lemma LeadDecides(x: int, y: int, r: int, s: int, p: int)
    requires p > 0 && 0 <= r < p && 0 <= s < p
    ensures x < y ==> x * p + r < y * p + s
    ensures y < x ==> y * p + s < x * p + r
  {
    if x < y { assert x * p + p <= y * p by { assert (x + 1) * p <= y * p; } }
    if y < x { assert y * p + p <= x * p by { assert (y + 1) * p <= x * p; } }
  }

  lemma {:induction false} DecimalWidth(n: nat, width: nat)
    requires width >= 1
    ensures |Decimal(n)| <= width <==> n < Pow10(width)
  {
    if width == 1 {
      assert Pow10(1) == 10;
    } else if n >= 10 {
      DecimalWidth(n / 10, width - 1);
    } else {
      Pow10AtLeast(width);
    }
  }

  /** A text of digits without a leading zero, or a lone one, is how its value is printed. */
  lemma PrintedDigits(s: string)
    requires s != "" && AllDigits(s) && (s[0] == '0' ==> s == "0")
    ensures Parse(s) >= 0 && Decimal(Parse(s)) == s
  {
    ParseBound(s);
    PrintedWidth(s, Parse(s));
    DecimalRoundTrip(Parse(s));
    OrdersAgree(Decimal(Parse(s)), s);
  }

  lemma PrintedWidth(s: string, n: nat)
    requires s != "" && AllDigits(s) && (s[0] == '0' ==> s == "0") && n == Parse(s)
    ensures |Decimal(n)| == |s|
  {
    var w := |s|;
    ParseBound(s);
    DecimalWidth(n, w);
    DecimalLeads(n);
    if w > 1 {
      LeadingDigit(s);
      AtLeastOnce(ValueOf(s[0]), Pow10(w - 1));
      DecimalWidth(n, w - 1);
    }
  }

  lemma AtLeastOnce(x: int, p: nat)
    requires x >= 1
    ensures x * p >= p
  {
  }

  lemma {:induction false} DecimalLeads(n: nat)
    ensures Decimal(n)[0] == '0' ==> n == 0
    ensures Decimal(n) != ""
  {
    if n >= 10 { DecimalLeads(n / 10); }
  }

  lemma {:induction false} Pow10AtLeast(width: nat)
    requires width >= 1
    ensures Pow10(width) >= 10
  {
    if width > 1 { Pow10AtLeast(width - 1); }
  }
}
