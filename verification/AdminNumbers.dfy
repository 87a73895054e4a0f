/**
 * Numbering administrators: the largest existing number in string order, plus one. Requests are
 * handled one after the other, and strings are ordered by their characters.
 */
module AdminNumbers {
  import opened Wrappers
  import opened Decimals
  import opened Ordering
  import opened Text

  /** `Number.parseInt(s, 10)`: leading spaces, a sign, then as many digits as there are; `None` is NaN. */
  function ParseInt(s: string): Option<int> {
    var t := TrimStart(s);
    var unsigned := if t != "" && t[0] in "+-" then t[1..] else t;
    var n := LeadingDigits(unsigned, 0);
    if n == 0 then None
    else Some(if t[0] == '-' then -Parse(unsigned[..n]) else Parse(unsigned[..n]))
  }

  function LeadingDigits(s: string, from: nat): (n: nat)
    requires from <= |s|
    ensures from <= n <= |s|
    ensures AllDigits(s[from..]) ==> n == |s|
    decreases |s| - from
  {
    if from < |s| && IsDigit(s[from]) then LeadingDigits(s, from + 1) else from
  }

  lemma {:induction false} TrimStartPast(blanks: string, rest: string)
    requires AllSpaces(blanks) && (rest == "" || !IsSpace(rest[0]))
    ensures TrimStart(blanks + rest) == rest
  {
    if blanks == "" {
      assert blanks + rest == rest;
    } else {
      assert (blanks + rest)[1..] == blanks[1..] + rest;
      TrimStartPast(blanks[1..], rest);
    }
  }

  lemma {:induction false} LeadingDigitsEnd(d: string, rest: string, from: nat)
    requires AllDigits(d) && (rest == "" || !IsDigit(rest[0])) && from <= |d|
    ensures LeadingDigits(d + rest, from) == |d|
    decreases |d| - from
  {
    if from < |d| {
      assert (d + rest)[from] == d[from];
      LeadingDigitsEnd(d, rest, from + 1);
    }
  }

  /** Spaces, one sign at most, then all the digits there are; whatever follows them is ignored. */
  lemma ParseIntReads(blanks: string, sign: string, d: string, rest: string)
    requires AllSpaces(blanks) && sign in ["", "+", "-"]
    requires d != "" && AllDigits(d) && (rest == "" || !IsDigit(rest[0]))
    ensures ParseInt(blanks + (sign + (d + rest))) == Some(if sign == "-" then -Parse(d) else Parse(d))
  {
    var t := sign + (d + rest);
    assert IsDigit(d[0]);
    TrimStartPast(blanks, t);
    LeadingDigitsEnd(d, rest, 0);
    assert (d + rest)[..|d|] == d;
    assert sign != "" ==> t[1..] == d + rest;
    assert sign == "" ==> t == d + rest && t[0] == d[0];
  }

  /** Without a digit in that place there is no number. */
  lemma ParseIntFails(blanks: string, sign: string, rest: string)
    requires AllSpaces(blanks) && sign in ["", "+", "-"] && (rest == "" || !IsDigit(rest[0]))
    requires sign == "" ==> rest == "" || (!IsSpace(rest[0]) && rest[0] !in "+-")
    ensures ParseInt(blanks + (sign + rest)) == None
  {
    var t := sign + rest;
    TrimStartPast(blanks, t);
    assert sign != "" ==> t[1..] == rest;
    assert sign == "" ==> t == rest;
  }

  const PREFIX := "ADM"

  predicate IsAdmin(number: string) {
    PREFIX <= number
  }

  /** `findFirst` with `startsWith: 'ADM'`, `orderBy: desc`. */
  function Latest(numbers: seq<string>): (r: Option<string>)
    ensures r.Some? ==> r.value in numbers && IsAdmin(r.value)
    ensures r.None? ==> forall s :: s in numbers ==> !IsAdmin(s)
  {
    if numbers == [] then None else
    var rest := Latest(numbers[..|numbers| - 1]);
    var s := numbers[|numbers| - 1];
    assert numbers == numbers[..|numbers| - 1] + [s];
    if IsAdmin(s) && (rest.None? || Before(rest.value, s)) then Some(s) else rest
  }

  /** `String(n)` of any integer. */
  function IntegerText(n: int): string {
    if n < 0 then "-" + Decimal(-n) else Decimal(n)
  }

  /** The number after `latestSequence`; `String(NaN)` is what an unreadable latest number leads to. */
  function NumberAfter(latestSequence: Option<int>): string {
    PREFIX + PadStart(match latestSequence case None => "NaN" case Some(n) => IntegerText(n + 1), 6)
  }

  /** `generateAdminAccountNumber`. */
  function Generate(numbers: seq<string>): string {
    match Latest(numbers)
    case None => NumberAfter(Some(0))
    case Some(latest) => NumberAfter(ParseInt(latest[3..]))
  }

  function Number(n: nat): string {
    PREFIX + PadStart(Decimal(n), 6)
  }

  /** A latest number without digits is followed by the same useless one every time. */
  lemma UnreadableLatest(numbers: seq<string>)
    requires Latest(numbers).Some? && ParseInt(Latest(numbers).value[3..]).None?
    ensures Generate(numbers) == "ADM000NaN"
  {
    assert "0" + "NaN" == "0NaN" && "0" + "0NaN" == "00NaN" && "0" + "00NaN" == "000NaN";
    assert PadStart("0NaN", 6) == "000NaN";
  }

  /** A negative latest number, say `ADM-5`, is followed by its successor behind the padding. */
  lemma NegativeLatest(numbers: seq<string>, n: nat)
    requires Latest(numbers).Some? && ParseInt(Latest(numbers).value[3..]) == Some(-(n + 2))
    ensures Generate(numbers) == PREFIX + PadStart("-" + Decimal(n + 1), 6)
  {
  }

  // ---- six-digit stores ----

  /** Every administrator number is the prefix and six digits. */
  predicate SixDigits(numbers: seq<string>) {
    forall i :: 0 <= i < |numbers| && IsAdmin(numbers[i]) ==> |numbers[i]| == 9 && AllDigits(numbers[i][3..])
  }

  function Largest(numbers: seq<string>): nat
    requires SixDigits(numbers)
  {
    if numbers == [] then 0 else
    var rest := Largest(numbers[..|numbers| - 1]);
    var s := numbers[|numbers| - 1];
    if IsAdmin(s) && Parse(s[3..]) > rest then Parse(s[3..]) else rest
  }

  lemma BeforeUnderPrefix(a: string, b: string)
    ensures Before(PREFIX + a, PREFIX + b) <==> Before(a, b)
  {
    var x, y := PREFIX + a, PREFIX + b;
    BeforeStep(x, y);
    BeforeStep(x[1..], y[1..]);
    BeforeStep(x[2..], y[2..]);
    assert x[1..][1..] == x[2..] && x[2..][1..] == a && y[1..][1..] == y[2..] && y[2..][1..] == b;
  }

  lemma AdminOrder(a: string, b: string)
    requires IsAdmin(a) && IsAdmin(b) && |a| == |b| && AllDigits(a[3..]) && AllDigits(b[3..])
    ensures Before(a, b) <==> Parse(a[3..]) <= Parse(b[3..])
  {
    assert a == PREFIX + a[3..] && b == PREFIX + b[3..];
    BeforeUnderPrefix(a[3..], b[3..]);
    OrdersAgree(a[3..], b[3..]);
  }

  /** The largest number as a string is the largest as a number, and nothing stored exceeds it. */
  lemma {:induction false} LatestIsLargest(numbers: seq<string>)
    requires SixDigits(numbers)
    ensures Latest(numbers).Some? ==> |Latest(numbers).value| == 9 && AllDigits(Latest(numbers).value[3..])
                                      && Parse(Latest(numbers).value[3..]) == Largest(numbers)
    ensures Latest(numbers).None? ==> Largest(numbers) == 0
    ensures forall s :: s in numbers && IsAdmin(s) ==> Parse(s[3..]) <= Largest(numbers)
    decreases |numbers|
  {
    if numbers != [] {
      var init, s := numbers[..|numbers| - 1], numbers[|numbers| - 1];
      LatestIsLargest(init);
      assert numbers == init + [s];
      if IsAdmin(s) {
        ParseBound(s[3..]);
        if Latest(init).Some? {
          AdminOrder(Latest(init).value, s);
        }
      }
    }
  }

  lemma ParseIntOfDigits(s: string)
    requires AllDigits(s) && s != ""
    ensures ParseInt(s) == Some(Parse(s))
  {
    assert IsDigit(s[0]) && TrimStart(s) == s;
    assert s[0..] == s && s[..|s|] == s;
  }

  /** With six-digit numbers in store, generation continues after the largest one. */
  lemma GenerateContinues(numbers: seq<string>)
    requires SixDigits(numbers)
    ensures Generate(numbers) == Number(Largest(numbers) + 1)
  {
    LatestIsLargest(numbers);
    if Latest(numbers).Some? {
      ParseIntOfDigits(Latest(numbers).value[3..]);
    }
  }

  const MILLION: int := 1_000_000

  lemma NumberShape(n: nat)
    ensures IsAdmin(Number(n)) && AllDigits(Number(n)[3..]) && Parse(Number(n)[3..]) == n
    ensures |Number(n)| == 9 <==> n < MILLION
  {
    DecimalRoundTrip(n);
    DecimalWidth(n, 6);
    PadRoundTrip(Decimal(n), 6);
    assert Number(n)[3..] == PadStart(Decimal(n), 6);
    assert Pow10(6) == MILLION by { assert Pow10(3) == 1000; }
  }

  /** The generated number is new, and the store stays six-digit until the millionth. */
  lemma GenerateFresh(numbers: seq<string>)
    requires SixDigits(numbers)
    ensures Generate(numbers) !in numbers
    ensures SixDigits(numbers + [Generate(numbers)]) <==> Largest(numbers) + 1 < MILLION
    ensures Largest(numbers) + 1 < MILLION ==> Largest(numbers + [Generate(numbers)]) == Largest(numbers) + 1
  {
    var n := Largest(numbers) + 1;
    GenerateContinues(numbers);
    LatestIsLargest(numbers);
    NumberShape(n);
    var more := numbers + [Number(n)];
    assert more[|numbers|] == Number(n) && more[..|numbers|] == numbers;
  }

  // ---- runs ----

  /** Creating an administrator: the column is unique, so a number already in store is refused. */
  function Created(numbers: seq<string>, next: seq<string> -> string): seq<string> {
    if next(numbers) in numbers then numbers else numbers + [next(numbers)]
  }

  /** The numbers in store after `k` attempts to create an administrator, one after the other. */
  function After(numbers: seq<string>, k: nat, next: seq<string> -> string): seq<string> {
    if k == 0 then numbers else Created(After(numbers, k - 1, next), next)
  }

  /** Numbers stay unique in every run, whatever is generated. */
  lemma {:induction false} StoreStaysDistinct(numbers: seq<string>, k: nat, next: seq<string> -> string)
    requires Distinct(numbers)
    ensures Distinct(After(numbers, k, next))
  {
    if k > 0 { StoreStaysDistinct(numbers, k - 1, next); }
  }

  /** The `k` numbers after `from`. */
  function Following(from: nat, k: nat, number: nat -> string): (r: seq<string>)
    ensures |r| == k
  {
    if k == 0 then [] else Following(from, k - 1, number) + [number(from + k)]
  }

  /** What a run needs to know about one creation: it adds the next number, and the store stays readable. */
  ghost predicate Continues(next: seq<string> -> string, number: nat -> string, good: (seq<string>, nat) -> bool) {
    forall t: seq<string>, n: nat {:trigger next(t), good(t, n)} ::
      good(t, n) && n + 1 < MILLION ==>
        next(t) == number(n + 1) && next(t) !in t && good(t + [next(t)], n + 1)
  }

  lemma {:induction false} RunContinues(
      numbers: seq<string>, from: nat, k: nat,
      next: seq<string> -> string, number: nat -> string, good: (seq<string>, nat) -> bool)
    requires Continues(next, number, good) && good(numbers, from) && from + k < MILLION
    ensures good(After(numbers, k, next), from + k)
    ensures After(numbers, k, next) == numbers + Following(from, k, number)
  {
    if k == 0 {
      assert numbers + [] == numbers;
    } else {
      RunContinues(numbers, from, k - 1, next, number, good);
      var before := After(numbers, k - 1, next);
      assert good(before, from + (k - 1));
      assert numbers + Following(from, k - 1, number) + [number(from + k)]
          == numbers + (Following(from, k - 1, number) + [number(from + k)]);
    }
  }

  predicate GoodStore(numbers: seq<string>, n: nat) {
    SixDigits(numbers) && Largest(numbers) == n
  }

  lemma GenerationContinues()
    ensures Continues(Generate, Number, GoodStore)
  {
    forall t: seq<string>, n: nat | GoodStore(t, n) && n + 1 < MILLION
      ensures Generate(t) == Number(n + 1) && Generate(t) !in t && GoodStore(t + [Generate(t)], n + 1)
    {
      GenerateContinues(t);
      GenerateFresh(t);
    }
  }

  /** A run below the millionth hands out the numbers after the largest in store, one by one. */
  lemma HandedOut(numbers: seq<string>, k: nat)
    requires SixDigits(numbers) && Largest(numbers) + k < MILLION
    ensures After(numbers, k, Generate) == numbers + Following(Largest(numbers), k, Number)
    ensures GoodStore(After(numbers, k, Generate), Largest(numbers) + k)
  {
    GenerationContinues();
    assert GoodStore(numbers, Largest(numbers));
    RunContinues(numbers, Largest(numbers), k, Generate, Number, GoodStore);
  }

  lemma NumbersIncrease(m: nat, n: nat)
    requires m < n < MILLION
    ensures Number(m) != Number(n) && Before(Number(m), Number(n))
  {
    NumberShape(m);
    NumberShape(n);
    AdminOrder(Number(m), Number(n));
  }

  lemma {:induction false} FollowingAt(from: nat, k: nat, i: nat, number: nat -> string)
    requires i < k
    ensures Following(from, k, number)[i] == number(from + i + 1)
  {
    if i < k - 1 { FollowingAt(from, k - 1, i, number); }
  }

  /** Below the millionth, every number handed out is larger, as a string, than those handed out before it. */
  lemma HandedOutIncreases(from: nat, k: nat, i: nat, j: nat)
    requires i < j < k && from + k < MILLION
    ensures var all := Following(from, k, Number); all[i] != all[j] && Before(all[i], all[j])
  {
    FollowingAt(from, k, i, Number);
    FollowingAt(from, k, j, Number);
    NumbersIncrease(from + i + 1, from + j + 1);
  }

  lemma SixDigitBound(numbers: seq<string>)
    requires SixDigits(numbers)
    ensures Largest(numbers) < MILLION
    decreases |numbers|
  {
    if numbers != [] {
      SixDigitBound(numbers[..|numbers| - 1]);
      var s := numbers[|numbers| - 1];
      if IsAdmin(s) {
        ParseBound(s[3..]);
        assert Pow10(6) == MILLION by { assert Pow10(3) == 1000; }
      }
    }
  }

  /** The latest number is `ADM999999`. */
  predicate LatestIsNines(numbers: seq<string>) {
    && Latest(numbers).Some?
    && var latest := Latest(numbers).value;
       |latest| == 9 && AllDigits(latest[3..]) && Parse(latest[3..]) == MILLION - 1
  }

  /** The millionth is smaller, as a string, than `ADM999999`: it is generated from then on. */
  lemma MillionthStays(numbers: seq<string>)
    requires LatestIsNines(numbers)
    ensures Generate(numbers) == Number(MILLION)
    ensures LatestIsNines(numbers + [Generate(numbers)])
  {
    var latest := Latest(numbers).value;
    ParseIntOfDigits(latest[3..]);
    MillionLooksSmall(latest, Number(MILLION));
    assert (numbers + [Generate(numbers)])[..|numbers|] == numbers;
  }

  /** `ADM999999` is the latest number, the millionth is in store, and it is what is generated next. */
  predicate Stuck(store: seq<string>) {
    LatestIsNines(store) && Generate(store) == Number(MILLION) && Number(MILLION) in store
  }

  lemma StuckNext(numbers: seq<string>)
    requires LatestIsNines(numbers)
    ensures LatestIsNines(Created(numbers, Generate)) && Stuck(Created(numbers, Generate))
  {
    MillionthStays(numbers);
    if Generate(numbers) !in numbers {
      MillionthStays(numbers + [Generate(numbers)]);
      assert (numbers + [Generate(numbers)])[|numbers|] == Generate(numbers);
    }
  }

  lemma NinesReached(numbers: seq<string>)
    requires GoodStore(numbers, MILLION - 1)
    ensures LatestIsNines(numbers)
  {
    LatestIsLargest(numbers);
  }

  /** One more creation keeps `reached` and brings about `stuck`. */
  ghost predicate Sticks(next: seq<string> -> string, reached: seq<string> -> bool, stuck: seq<string> -> bool) {
    forall t: seq<string> {:trigger next(t)} :: reached(t) ==> reached(Created(t, next)) && stuck(Created(t, next))
  }

  lemma {:induction false} StaysStuck(
      numbers: seq<string>, from: nat, k: nat,
      next: seq<string> -> string, reached: seq<string> -> bool, stuck: seq<string> -> bool)
    requires Sticks(next, reached, stuck) && from < k && reached(After(numbers, from, next))
    ensures reached(After(numbers, k, next)) && stuck(After(numbers, k, next))
  {
    if from < k - 1 { StaysStuck(numbers, from, k - 1, next, reached, stuck); }
  }

  lemma GenerationSticks()
    ensures Sticks(Generate, LatestIsNines, Stuck)
  {
    forall t: seq<string> | LatestIsNines(t)
      ensures LatestIsNines(Created(t, Generate)) && Stuck(Created(t, Generate))
    {
      StuckNext(t);
    }
  }

  lemma ReachesNines(numbers: seq<string>, from: nat)
    requires SixDigits(numbers) && Largest(numbers) + from == MILLION - 1
    ensures LatestIsNines(After(numbers, from, Generate))
  {
    HandedOut(numbers, from);
    NinesReached(After(numbers, from, Generate));
  }

  lemma MillionthRepeats(numbers: seq<string>, k: nat)
    requires SixDigits(numbers) && Largest(numbers) + k >= MILLION
    ensures Stuck(After(numbers, k, Generate))
  {
    SixDigitBound(numbers);
    var from := MILLION - 1 - Largest(numbers);
    ReachesNines(numbers, from);
    GenerationSticks();
    StaysStuck(numbers, from, k, Generate, LatestIsNines, Stuck);
  }

  /**
   * Numbering works exactly for the first million: the next number is new as long as fewer have been
   * given out, and afterwards `ADM999999` stays the largest string and the millionth comes up again.
   */
  lemma FreshExactlyBelowMillion(numbers: seq<string>, k: nat)
    requires SixDigits(numbers)
    ensures var store := After(numbers, k, Generate); Generate(store) !in store <==> Largest(numbers) + k < MILLION
  {
    if Largest(numbers) + k < MILLION {
      HandedOut(numbers, k);
      GenerateFresh(After(numbers, k, Generate));
    } else {
      MillionthRepeats(numbers, k);
    }
  }

  lemma MillionLooksSmall(latest: string, last: string)
    requires IsAdmin(latest) && |latest| == 9 && AllDigits(latest[3..]) && Parse(latest[3..]) == MILLION - 1
    requires last == Number(MILLION)
    ensures !Before(latest, last)
  {
    NumberShape(MILLION);
    var a, b := latest[3..], last[3..];
    assert latest == PREFIX + a && last == PREFIX + b;
    BeforeUnderPrefix(a, b);
    FirstDigit(a, MILLION - 1);
    FirstDigitOfMillion(b);
  }

  /** Six digits worth 999999 begin with a nine. */
  lemma FirstDigit(a: string, n: nat)
    requires AllDigits(a) && |a| == 6 && Parse(a) == n == MILLION - 1
    ensures a[0] == '9'
  {
    assert a == [a[0]] + a[1..];
    ParseCons(a[0], a[1..]);
    ParseBound(a[1..]);
    assert Pow10(5) == 100_000 by { assert Pow10(3) == 1000; }
  }

  lemma FirstDigitOfMillion(b: string)
    requires b == PadStart(Decimal(MILLION), 6)
    ensures b != "" && b[0] == '1'
  {
    assert Decimal(10) == "10" && Decimal(100) == "100";
    assert Decimal(1000) == "1000" && Decimal(10000) == "10000";
    assert Decimal(100000) == "100000";
    assert Decimal(MILLION) == "1000000";
  }

  /** Users without an administrator number do not influence the numbering. */
  lemma OthersIrrelevant(numbers: seq<string>, other: string)
    requires !IsAdmin(other)
    ensures Generate(numbers + [other]) == Generate(numbers)
  {
    assert (numbers + [other])[..|numbers|] == numbers;
  }
}
