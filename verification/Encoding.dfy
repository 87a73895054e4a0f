/** UTF-8 (RFC 3629, section 3) and unpadded base64url (RFC 4648, sections 5 and 3.2), both injective. */
module Encoding {
  type Byte = b: int | 0 <= b < 256

  function Utf8Char(c: char): seq<Byte> {
    var n := c as int;
    if n < 0x80 then [n]
    else if n < 0x800 then [0xC0 + n / 64, 0x80 + n % 64]
    else if n < 0x10000 then [0xE0 + n / 64 / 64, 0x80 + n / 64 % 64, 0x80 + n % 64]
    else [0xF0 + n / 64 / 64 / 64, 0x80 + n / 64 / 64 % 64, 0x80 + n / 64 % 64, 0x80 + n % 64]
  }

  function Utf8(s: string): seq<Byte> {
    if s == "" then [] else Utf8Char(s[0]) + Utf8(s[1..])
  }

  /** The first byte tells how many follow. */
  function Utf8Length(first: Byte): nat {
    if first < 0x80 then 1 else if first < 0xE0 then 2 else if first < 0xF0 then 3 else 4
  }

  lemma Utf8LengthRead(c: char)
    ensures |Utf8Char(c)| == Utf8Length(Utf8Char(c)[0])
  {
  }

  lemma Utf8CharInjective(c: char, d: char)
    requires Utf8Char(c) == Utf8Char(d)
    ensures c == d
  {
    Utf8Value(c);
    Utf8Value(d);
  }

  function Utf8Decode(u: seq<int>): int
    requires 1 <= |u| <= 4
  {
    if |u| == 1 then u[0]
    else if |u| == 2 then (u[0] - 0xC0) * 64 + (u[1] - 0x80)
    else if |u| == 3 then (u[0] - 0xE0) * 4096 + (u[1] - 0x80) * 64 + (u[2] - 0x80)
    else (u[0] - 0xF0) * 262144 + (u[1] - 0x80) * 4096 + (u[2] - 0x80) * 64 + (u[3] - 0x80)
  }

  lemma Utf8Value(c: char)
    ensures Utf8Decode(Utf8Char(c)) == c as int
  {
  }

  lemma {:induction false} Utf8Injective(s: string, t: string)
    requires Utf8(s) == Utf8(t)
    ensures s == t
  {
    if s != "" && t != "" {
      var u, v := Utf8Char(s[0]), Utf8Char(t[0]);
      Utf8LengthRead(s[0]);
      Utf8LengthRead(t[0]);
      assert Utf8(s)[0] == u[0] && Utf8(t)[0] == v[0];
      assert u == Utf8(s)[..|u|] && v == Utf8(t)[..|v|];
      Utf8CharInjective(s[0], t[0]);
      assert Utf8(s)[|u|..] == Utf8(s[1..]) && Utf8(t)[|v|..] == Utf8(t[1..]);
      Utf8Injective(s[1..], t[1..]);
      assert s == [s[0]] + s[1..] && t == [t[0]] + t[1..];
    }
  }

  /** Digit `i` of the URL-safe alphabet. */
  function Digit(i: int): char
    requires 0 <= i < 64
  {
    if i < 26 then (65 + i) as char
    else if i < 52 then (71 + i) as char
    else if i < 62 then (i - 4) as char
    else if i == 62 then '-' else '_'
  }

  function DigitValue(c: char): int {
    var n := c as int;
    if 65 <= n <= 90 then n - 65
    else if 97 <= n <= 122 then n - 71
    else if 48 <= n <= 57 then n + 4
    else if c == '-' then 62 else 63
  }

  lemma DigitRoundTrip(i: int)
    requires 0 <= i < 64
    ensures DigitValue(Digit(i)) == i && Digit(i) != ':'
  {
  }

  function Group1(a: Byte): string {
    [Digit(a / 4), Digit(a % 4 * 16)]
  }

  function Group2(a: Byte, b: Byte): string {
    [Digit(a / 4), Digit(a % 4 * 16 + b / 16), Digit(b % 16 * 4)]
  }

  function Group3(a: Byte, b: Byte, c: Byte): string {
    [Digit(a / 4), Digit(a % 4 * 16 + b / 16), Digit(b % 16 * 4 + c / 64), Digit(c % 64)]
  }

  /** `Buffer.toString('base64url')`. */
  function Base64Url(bytes: seq<Byte>): string {
    if |bytes| == 0 then ""
    else if |bytes| == 1 then Group1(bytes[0])
    else if |bytes| == 2 then Group2(bytes[0], bytes[1])
    else Group3(bytes[0], bytes[1], bytes[2]) + Base64Url(bytes[3..])
  }

  function ReadGroup(s: string): seq<int>
    requires 2 <= |s| <= 4
  {
    var v := seq(|s|, i requires 0 <= i < |s| => DigitValue(s[i]));
    if |s| == 2 then [v[0] * 4 + v[1] / 16]
    else if |s| == 3 then [v[0] * 4 + v[1] / 16, v[1] % 16 * 16 + v[2] / 4]
    else [v[0] * 4 + v[1] / 16, v[1] % 16 * 16 + v[2] / 4, v[2] % 4 * 64 + v[3]]
  }

  lemma Group1RoundTrip(a: Byte)
    ensures ReadGroup(Group1(a)) == [a]
  {
    DigitRoundTrip(a / 4);
    DigitRoundTrip(a % 4 * 16);
  }

  lemma Group2RoundTrip(a: Byte, b: Byte)
    ensures ReadGroup(Group2(a, b)) == [a, b]
  {
    DigitRoundTrip(a / 4);
    DigitRoundTrip(a % 4 * 16 + b / 16);
    DigitRoundTrip(b % 16 * 4);
  }

  lemma Group3RoundTrip(a: Byte, b: Byte, c: Byte)
    ensures ReadGroup(Group3(a, b, c)) == [a, b, c]
  {
    var d1, d2, d3, d4 := a / 4, a % 4 * 16 + b / 16, b % 16 * 4 + c / 64, c % 64;
    DigitRoundTrip(d1);
    DigitRoundTrip(d2);
    DigitRoundTrip(d3);
    DigitRoundTrip(d4);
    SixBits(a, b, c, d1, d2, d3, d4);
  }

  lemma SixBits(a: Byte, b: Byte, c: Byte, d1: int, d2: int, d3: int, d4: int)
    requires d1 == a / 4 && d2 == a % 4 * 16 + b / 16 && d3 == b % 16 * 4 + c / 64 && d4 == c % 64
    ensures d1 * 4 + d2 / 16 == a
    ensures d2 % 16 * 16 + d3 / 4 == b
    ensures d3 % 4 * 64 + d4 == c
  {
  }

  function ReadBase64Url(s: string): seq<int> {
    if |s| < 2 then []
    else if |s| < 4 then ReadGroup(s)
    else ReadGroup(s[..4]) + ReadBase64Url(s[4..])
  }

  /** Reading back what was printed gives the bytes again, without any padding to mark the end. */
  lemma {:induction false} Base64UrlRoundTrip(bytes: seq<Byte>)
    ensures ReadBase64Url(Base64Url(bytes)) == bytes
  {
    if |bytes| == 1 {
      Group1RoundTrip(bytes[0]);
    } else if |bytes| == 2 {
      Group2RoundTrip(bytes[0], bytes[1]);
    } else if |bytes| > 2 {
      var text := Base64Url(bytes);
      Group3RoundTrip(bytes[0], bytes[1], bytes[2]);
      Base64UrlRoundTrip(bytes[3..]);
      assert text[..4] == Group3(bytes[0], bytes[1], bytes[2]) && text[4..] == Base64Url(bytes[3..]);
    }
  }

  lemma {:induction false} Base64UrlColonFree(bytes: seq<Byte>)
    ensures ':' !in Base64Url(bytes)
  {
    if |bytes| > 2 {
      Base64UrlColonFree(bytes[3..]);
    }
  }
}
