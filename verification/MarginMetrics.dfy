/**
 * Profit, equity and margin of an account, as the backend reports them and as the terminal recomputes
 * them from live quotes. Every amount is an integer count of units of the eighth decimal; a product of
 * three amounts counts units of the twenty-fourth.
 */
module MarginMetrics {
  import opened Wrappers

  const UNIT: int := 100_000_000

  function Abs(x: int): int {
    if x < 0 then -x else x
  }

  // ---- the two roundings ----

  /** decimal.js `toDecimalPlaces` with its default mode: the quotient, one further from zero from half a unit on. */
  function RoundHalfUp(x: int, unit: int): int
    requires unit > 0
  {
    var q, r := Abs(x) / unit, Abs(x) % unit;
    var n := if 2 * r >= unit then q + 1 else q;
    if x < 0 then -n else n
  }

  /** The integer `n` for which `n * unit` is closest to `x >= 0`, the larger one of two. */
  function Closest(x: int, unit: int): int
    requires unit > 0 && x >= 0
  {
    (2 * x + unit) / (2 * unit)
  }

  /** `Number.prototype.toFixed` (ECMA-262, section 21.1.3.3): the sign is put aside first. */
  function ToFixed(x: int, unit: int): int
    requires unit > 0
  {
    if x < 0 then -Closest(-x, unit) else Closest(x, unit)
  }

  /** Division is determined by its remainder bounds. */
  lemma DivUnique(a: int, b: int, q: int)
    requires b > 0 && q * b <= a < q * b + b
    ensures a / b == q
  {
    var k := a / b;
    assert (q - k) * b == q * b - k * b && (k - q) * b == k * b - q * b;
    FewerThanOne(q - k, b);
    FewerThanOne(k - q, b);
  }

  lemma FewerThanOne(x: int, b: int)
    requires b > 0 && x * b < b
    ensures x <= 0
  {
    assert (x - 1) * b == x * b - b;
  }

  lemma ClosestIsHalfUp(x: int, unit: int)
    requires unit > 0 && x >= 0
    ensures Closest(x, unit) == RoundHalfUp(x, unit)
  {
    var q, r := x / unit, x % unit;
    assert x == q * unit + r;
    var n := if 2 * r >= unit then q + 1 else q;
    assert n * (2 * unit) == 2 * (n * unit);
    assert (q + 1) * unit == q * unit + unit;
    DivUnique(2 * x + unit, 2 * unit, n);
  }

  /** The two runtimes round alike. */
  lemma RoundingsAgree(x: int, unit: int)
    requires unit > 0
    ensures ToFixed(x, unit) == RoundHalfUp(x, unit)
  {
    ClosestIsHalfUp(Abs(x), unit);
  }

  /** Rounding errs by at most half a unit. */
  lemma RoundError(x: int, unit: int)
    requires unit > 0
    ensures 2 * Abs(RoundHalfUp(x, unit) * unit - x) <= unit
  {
    var q, r := Abs(x) / unit, Abs(x) % unit;
    assert Abs(x) == q * unit + r;
    assert (q + 1) * unit == q * unit + unit;
    assert (-q) * unit == -(q * unit) && (-(q + 1)) * unit == -((q + 1) * unit);
  }

  lemma RoundOdd(x: int, unit: int)
    requires unit > 0
    ensures RoundHalfUp(-x, unit) == -RoundHalfUp(x, unit)
  {
    assert Abs(-x) == Abs(x);
    if x == 0 { assert Abs(x) / unit == 0 && Abs(x) % unit == 0; }
  }

  // ---- the backend ----

  datatype Side = Buy | Sell

  datatype Quote = Quote(bid: int, ask: int)

  datatype Position = Position(
    symbol: string,
    side: Side,
    entryPrice: int,
    volume: int,
    contractSize: int,
    marginUsed: int)

  /** Profit before rounding, in units of the twenty-fourth decimal. */
  function ExactPnl(p: Position, q: Quote): int {
    (if p.side.Buy? then q.bid - p.entryPrice else p.entryPrice - q.ask) * p.volume * p.contractSize
  }

  const PRODUCT_UNIT: int := UNIT * UNIT

  /** A position without a quote counts as flat. */
  function PositionPnl(p: Position, quotes: map<string, Quote>): int {
    if p.symbol in quotes then RoundHalfUp(ExactPnl(p, quotes[p.symbol]), PRODUCT_UNIT) else 0
  }

  function Sum(xs: seq<int>): int {
    if xs == [] then 0 else Sum(xs[..|xs| - 1]) + xs[|xs| - 1]
  }

  function Pnls(ps: seq<Position>, quotes: map<string, Quote>): seq<int> {
    seq(|ps|, i requires 0 <= i < |ps| => PositionPnl(ps[i], quotes))
  }

  function Margins(ps: seq<Position>): seq<int> {
    seq(|ps|, i requires 0 <= i < |ps| => ps[i].marginUsed)
  }

  datatype Metrics = Metrics(
    balance: int,
    equity: int,
    unrealizedPnl: int,
    usedMargin: int,
    freeMargin: int,
    marginLevel: Option<int>)

  /** `equity / usedMargin * 100` at eight decimals, absent without used margin. */
  function MarginLevel(equity: int, usedMargin: int): Option<int> {
    if usedMargin <= 0 then None else Some(RoundHalfUp(equity * 100 * UNIT, usedMargin))
  }

  /** `getAccountMetrics` up to its write; every total is rounded to the eighth decimal once more. */
  function AccountMetrics(balance: int, ps: seq<Position>, quotes: map<string, Quote>): Metrics {
    var unrealizedPnl := RoundHalfUp(Sum(Pnls(ps, quotes)), 1);
    var usedMargin := RoundHalfUp(Sum(Margins(ps)), 1);
    var equity := RoundHalfUp(balance + unrealizedPnl, 1);
    var freeMargin := RoundHalfUp(equity - usedMargin, 1);
    Metrics(balance, equity, unrealizedPnl, usedMargin, freeMargin, MarginLevel(equity, usedMargin))
  }

  /** Rounding the totals again loses nothing, so the reported amounts balance. */
  lemma MetricsBalance(balance: int, ps: seq<Position>, quotes: map<string, Quote>)
    ensures var m := AccountMetrics(balance, ps, quotes);
            && m.unrealizedPnl == Sum(Pnls(ps, quotes)) && m.usedMargin == Sum(Margins(ps))
            && balance + m.unrealizedPnl == m.equity == m.usedMargin + m.freeMargin
  {
    forall x: int ensures RoundHalfUp(x, 1) == x {
      RoundError(x, 1);
    }
  }

  /** The profit an account would show were nothing rounded, in units of the twenty-fourth decimal. */
  function ExactSum(ps: seq<Position>, quotes: map<string, Quote>): int
    requires forall i :: 0 <= i < |ps| ==> ps[i].symbol in quotes
  {
    if ps == [] then 0
    else ExactSum(ps[..|ps| - 1], quotes) + ExactPnl(ps[|ps| - 1], quotes[ps[|ps| - 1].symbol])
  }

  lemma {:induction false} SumErrorBound(ps: seq<Position>, quotes: map<string, Quote>)
    requires forall i :: 0 <= i < |ps| ==> ps[i].symbol in quotes
    ensures 2 * Abs(Sum(Pnls(ps, quotes)) * PRODUCT_UNIT - ExactSum(ps, quotes)) <= |ps| * PRODUCT_UNIT
    decreases |ps|
  {
    if ps != [] {
      var init, last := ps[..|ps| - 1], ps[|ps| - 1];
      SumErrorBound(init, quotes);
      RoundError(ExactPnl(last, quotes[last.symbol]), PRODUCT_UNIT);
      assert Pnls(ps, quotes)[..|ps| - 1] == Pnls(init, quotes);
      assert Pnls(ps, quotes)[|ps| - 1] == PositionPnl(last, quotes);
    }
  }

  /** The reported profit over `n` quoted positions is within `n` half units of the exact one. */
  lemma UnrealizedPnlError(balance: int, ps: seq<Position>, quotes: map<string, Quote>)
    requires forall i :: 0 <= i < |ps| ==> ps[i].symbol in quotes
    ensures var m := AccountMetrics(balance, ps, quotes);
            2 * Abs(m.unrealizedPnl * PRODUCT_UNIT - ExactSum(ps, quotes)) <= |ps| * PRODUCT_UNIT
  {
    MetricsBalance(balance, ps, quotes);
    SumErrorBound(ps, quotes);
  }

  /** The margin level errs by at most half a unit of its last decimal. */
  lemma MarginLevelError(equity: int, usedMargin: int)
    ensures MarginLevel(equity, usedMargin).None? <==> usedMargin <= 0
    ensures usedMargin > 0 ==>
              2 * Abs(MarginLevel(equity, usedMargin).value * usedMargin - equity * 100 * UNIT) <= usedMargin
  {
    if usedMargin > 0 {
      RoundError(equity * 100 * UNIT, usedMargin);
    }
  }

  /** The level reported is that of the equity and margin reported: absent without margin, else within half a unit. */
  lemma MetricsLevel(balance: int, ps: seq<Position>, quotes: map<string, Quote>)
    ensures var m := AccountMetrics(balance, ps, quotes);
            && m.balance == balance
            && (m.marginLevel.None? <==> m.usedMargin <= 0)
            && (m.usedMargin > 0 ==>
                  2 * Abs(m.marginLevel.value * m.usedMargin - m.equity * 100 * UNIT) <= m.usedMargin)
  {
    var m := AccountMetrics(balance, ps, quotes);
    MarginLevelError(m.equity, m.usedMargin);
  }

  // ---- order and batching do not matter ----

  lemma {:induction false} SumConcat(a: seq<int>, b: seq<int>)
    ensures Sum(a + b) == Sum(a) + Sum(b)
    decreases |b|
  {
    if b == [] {
      assert a + b == a;
    } else {
      assert (a + b)[..|a + b| - 1] == a + b[..|b| - 1];
      SumConcat(a, b[..|b| - 1]);
    }
  }

  /** Where the last element of one listing stands in another listing of the same elements. */
  lemma TakeOut(ps: seq<Position>, qs: seq<Position>) returns (i: nat)
    requires multiset(ps) == multiset(qs) && ps != []
    ensures i < |qs| && qs[i] == ps[|ps| - 1]
    ensures multiset(ps[..|ps| - 1]) == multiset(qs[..i] + qs[i + 1..])
  {
    var n := |ps| - 1;
    var p := ps[n];
    assert p in multiset(qs);
    i :| 0 <= i < |qs| && qs[i] == p;
    assert ps == ps[..n] + [p];
    assert qs == qs[..i] + [p] + qs[i + 1..];
    assert multiset(ps[..n]) == multiset(ps) - multiset{p};
    assert multiset(qs[..i] + qs[i + 1..]) == multiset(qs) - multiset{p};
  }

  lemma LastOut(ps: seq<Position>, quotes: map<string, Quote>)
    requires ps != []
    ensures var n := |ps| - 1;
            && Sum(Pnls(ps, quotes)) == Sum(Pnls(ps[..n], quotes)) + PositionPnl(ps[n], quotes)
            && Sum(Margins(ps)) == Sum(Margins(ps[..n])) + ps[n].marginUsed
  {
    var n := |ps| - 1;
    assert Pnls(ps, quotes)[..n] == Pnls(ps[..n], quotes);
    assert Margins(ps)[..n] == Margins(ps[..n]);
  }

  /** The account does not depend on the order in which its positions are listed. */
  lemma {:induction false} PnlOrderIrrelevant(ps: seq<Position>, qs: seq<Position>, quotes: map<string, Quote>)
    requires multiset(ps) == multiset(qs)
    ensures Sum(Pnls(ps, quotes)) == Sum(Pnls(qs, quotes)) && Sum(Margins(ps)) == Sum(Margins(qs))
    decreases |ps|
  {
    if ps == [] {
      assert |multiset(qs)| == |multiset(ps)| == 0;
    } else {
      var n := |ps| - 1;
      var i := TakeOut(ps, qs);
      var before, p, after := qs[..i], qs[i], qs[i + 1..];
      PnlOrderIrrelevant(ps[..n], before + after, quotes);
      assert qs == before + ([p] + after);
      PulledOut(before, p, after, quotes);
      LastOut(ps, quotes);
    }
  }

  lemma PulledOut(before: seq<Position>, p: Position, after: seq<Position>, quotes: map<string, Quote>)
    ensures Sum(Pnls(before + ([p] + after), quotes)) == Sum(Pnls(before + after, quotes)) + PositionPnl(p, quotes)
    ensures Sum(Margins(before + ([p] + after))) == Sum(Margins(before + after)) + p.marginUsed
  {
    var x, m := [PositionPnl(p, quotes)], [p.marginUsed];
    assert x[..0] == [] && m[..0] == [];
    assert Pnls(before + ([p] + after), quotes) == Pnls(before, quotes) + (x + Pnls(after, quotes));
    assert Pnls(before + after, quotes) == Pnls(before, quotes) + Pnls(after, quotes);
    assert Margins(before + ([p] + after)) == Margins(before) + (m + Margins(after));
    assert Margins(before + after) == Margins(before) + Margins(after);
    SumConcat(Pnls(before, quotes), x + Pnls(after, quotes));
    SumConcat(x, Pnls(after, quotes));
    SumConcat(Pnls(before, quotes), Pnls(after, quotes));
    SumConcat(Margins(before), m + Margins(after));
    SumConcat(m, Margins(after));
    SumConcat(Margins(before), Margins(after));
  }

  lemma MetricsOrderIrrelevant(balance: int, ps: seq<Position>, qs: seq<Position>, quotes: map<string, Quote>)
    requires multiset(ps) == multiset(qs)
    ensures AccountMetrics(balance, ps, quotes) == AccountMetrics(balance, qs, quotes)
  {
    PnlOrderIrrelevant(ps, qs, quotes);
  }

  /** The map from each distinct symbol to its latest quote, without the symbols that have none. */
  function Batch(symbols: seq<string>, latest: string -> Option<Quote>): (m: map<string, Quote>)
    ensures forall s :: s in m <==> s in symbols && latest(s).Some?
    ensures forall s :: s in m ==> m[s] == latest(s).value
  {
    if symbols == [] then map[] else
    var rest := Batch(symbols[..|symbols| - 1], latest);
    var s := symbols[|symbols| - 1];
    if latest(s).Some? then rest[s := latest(s).value] else rest
  }

  /** Fetching one quote per distinct symbol first gives each position what asking for its own would. */
  lemma BatchingIrrelevant(ps: seq<Position>, unique: seq<string>, latest: string -> Option<Quote>, p: Position)
    requires forall i :: 0 <= i < |ps| ==> ps[i].symbol in unique
    requires p in ps
    ensures PositionPnl(p, Batch(unique, latest))
            == match latest(p.symbol) case None => 0 case Some(q) => RoundHalfUp(ExactPnl(p, q), PRODUCT_UNIT)
  {
    var quotes := Batch(unique, latest);
    assert p.symbol in unique;
    assert p.symbol in quotes <==> latest(p.symbol).Some?;
  }

  // ---- the terminal ----

  /** The position as the browser holds it: the backend's, with optional extras of its own. */
  datatype PositionRecord = PositionRecord(
    symbol: string,
    side: Side,
    entryPrice: int,
    volume: int,
    contractSize: Option<int>,
    currentBid: Option<int>,
    currentAsk: Option<int>,
    currentPrice: Option<int>,
    unrealizedPnl: Option<int>,
    pnl: int)

  /** `getLivePositionMark`. */
  function LiveMark(p: PositionRecord, quote: Option<Quote>): Option<int> {
    if quote.Some? then Some(if p.side.Buy? then quote.value.bid else quote.value.ask)
    else if p.side.Buy? && p.currentBid.Some? then p.currentBid
    else if p.side.Sell? && p.currentAsk.Some? then p.currentAsk
    else if p.currentPrice.Some? && p.currentPrice.value > 0 then p.currentPrice
    else None
  }

  function Direction(side: Side): int {
    if side.Buy? then 1 else -1
  }

  /** `calculateLivePositionPnl`; a size of one is `UNIT` in units of the eighth decimal. */
  function LivePnl(p: PositionRecord, quote: Option<Quote>): int {
    match LiveMark(p, quote)
    case None => if p.unrealizedPnl.Some? then p.unrealizedPnl.value else p.pnl
    case Some(mark) =>
      var size := if p.contractSize.Some? && p.contractSize.value > 0 then p.contractSize.value else UNIT;
      ToFixed((mark - p.entryPrice) * Direction(p.side) * p.volume * size, PRODUCT_UNIT)
  }

  function LivePnls(ps: seq<PositionRecord>, quotes: map<string, Quote>): seq<int> {
    seq(|ps|, i requires 0 <= i < |ps| => LivePnl(ps[i], QuoteFor(ps[i].symbol, quotes)))
  }

  function QuoteFor(symbol: string, quotes: map<string, Quote>): Option<Quote> {
    if symbol in quotes then Some(quotes[symbol]) else None
  }

  /** The record shows this position. */
  predicate Shows(r: PositionRecord, p: Position) {
    r.symbol == p.symbol && r.side == p.side && r.entryPrice == p.entryPrice && r.volume == p.volume
    && r.contractSize == Some(p.contractSize)
  }

  lemma SignedProduct(a: int, b: int, volume: int, size: int)
    ensures (a - b) * -1 * volume * size == (b - a) * volume * size
  {
    assert (a - b) * -1 == b - a;
  }

  /** Per position and for the same quote, the terminal and the backend show the same profit. */
  lemma LivePnlAgrees(r: PositionRecord, p: Position, quotes: map<string, Quote>)
    requires Shows(r, p) && p.contractSize > 0 && p.symbol in quotes
    ensures LivePnl(r, QuoteFor(r.symbol, quotes)) == PositionPnl(p, quotes)
  {
    var q := quotes[p.symbol];
    RoundingsAgree(ExactPnl(p, q), PRODUCT_UNIT);
    SignedProduct(q.ask, p.entryPrice, p.volume, p.contractSize);
    assert (q.bid - p.entryPrice) * 1 == q.bid - p.entryPrice;
  }

  /** The terminal's live equity and free margin are the backend's, for any list of quoted positions. */
  lemma LiveEquityAgrees(balance: int, rs: seq<PositionRecord>, ps: seq<Position>, quotes: map<string, Quote>)
    requires |rs| == |ps|
    requires forall i :: 0 <= i < |ps| ==> Shows(rs[i], ps[i]) && ps[i].contractSize > 0 && ps[i].symbol in quotes
    ensures var m, live := AccountMetrics(balance, ps, quotes), balance + Sum(LivePnls(rs, quotes));
            live == m.equity && live - m.usedMargin == m.freeMargin
  {
    MetricsBalance(balance, ps, quotes);
    forall i | 0 <= i < |ps| ensures LivePnls(rs, quotes)[i] == Pnls(ps, quotes)[i] {
      LivePnlAgrees(rs[i], ps[i], quotes);
    }
    assert LivePnls(rs, quotes) == Pnls(ps, quotes);
  }

  /** The mark the position itself carries for its side. */
  function OwnMark(r: PositionRecord): Option<int> {
    if r.side.Buy? then r.currentBid else r.currentAsk
  }

  /**
   * Without a quote, the bid of a purchase or the ask of a sale that came with the position stands in for
   * it; failing that, a positive last price does for both; failing all, the profit the server sent is shown.
   */
  lemma WithoutQuote(r: PositionRecord, q: Quote)
    ensures OwnMark(r) == Some(if r.side.Buy? then q.bid else q.ask) ==> LivePnl(r, None) == LivePnl(r, Some(q))
    ensures OwnMark(r).None? && r.currentPrice.Some? && r.currentPrice.value > 0 ==>
              LivePnl(r, None) == LivePnl(r, Some(Quote(r.currentPrice.value, r.currentPrice.value)))
    ensures OwnMark(r).None? && (r.currentPrice.Some? ==> r.currentPrice.value <= 0) ==>
              LivePnl(r, None) == if r.unrealizedPnl.Some? then r.unrealizedPnl.value else r.pnl
  {
  }

  /** A position without a size is shown as one of size one. */
  lemma MissingSize(r: PositionRecord, quote: Option<Quote>)
    requires r.contractSize.None?
    ensures LivePnl(r, quote) == LivePnl(r.(contractSize := Some(UNIT)), quote)
  {
  }

  /** For any other size the terminal shows what the backend would report for a size of one. */
  lemma NonPositiveSizeShown(r: PositionRecord, p: Position, quotes: map<string, Quote>)
    requires Shows(r, p) && p.contractSize <= 0 && p.symbol in quotes
    ensures LivePnl(r, QuoteFor(r.symbol, quotes)) == PositionPnl(p.(contractSize := UNIT), quotes)
  {
    LivePnlAgrees(r.(contractSize := Some(UNIT)), p.(contractSize := UNIT), quotes);
  }

  /** An amount is rounded away exactly when it is less than half a unit. */
  predicate Negligible(x: int) {
    2 * Abs(x) < PRODUCT_UNIT
  }

  lemma RoundSigns(x: int, unit: int)
    requires unit > 0
    ensures x >= 0 ==> RoundHalfUp(x, unit) >= 0
    ensures x <= 0 ==> RoundHalfUp(x, unit) <= 0
    ensures RoundHalfUp(x, unit) == 0 <==> 2 * Abs(x) < unit
  {
    RoundMagnitude(Abs(x), unit);
  }

  lemma RoundMagnitude(a: int, unit: int)
    requires unit > 0 && a >= 0
    ensures var n := if 2 * (a % unit) >= unit then a / unit + 1 else a / unit;
            n >= 0 && (n == 0 <==> 2 * a < unit)
  {
    if a < unit {
      DivUnique(a, unit, 0);
    } else {
      FewerThanOne(1 - a / unit, unit);
      assert (1 - a / unit) * unit == unit - a / unit * unit;
    }
  }

  lemma OppositeSigns(x: int, size: int)
    requires size <= 0
    ensures x >= 0 ==> x * size <= 0 <= x * UNIT
    ensures x <= 0 ==> x * UNIT <= 0 <= x * size
  {
  }

  /** Profit per unit of size. */
  function PerSize(p: Position, q: Quote): int {
    (if p.side.Buy? then q.bid - p.entryPrice else p.entryPrice - q.ask) * p.volume
  }

  /**
   * Why sizes must be positive: for any other stored size the two figures agree exactly when both the
   * profit at that size and the profit at a size of one are too small to be shown.
   */
  lemma NonPositiveSizeAgreement(r: PositionRecord, p: Position, quotes: map<string, Quote>)
    requires Shows(r, p) && p.contractSize <= 0 && p.symbol in quotes
    ensures LivePnl(r, QuoteFor(r.symbol, quotes)) == PositionPnl(p, quotes)
            <==> Negligible(ExactPnl(p, quotes[p.symbol]))
                 && Negligible(ExactPnl(p.(contractSize := UNIT), quotes[p.symbol]))
  {
    var q := quotes[p.symbol];
    var one := p.(contractSize := UNIT);
    NonPositiveSizeShown(r, p, quotes);
    RoundSigns(ExactPnl(p, q), PRODUCT_UNIT);
    RoundSigns(ExactPnl(one, q), PRODUCT_UNIT);
    OppositeSigns(PerSize(p, q), p.contractSize);
    assert ExactPnl(p, q) == PerSize(p, q) * p.contractSize;
    assert ExactPnl(one, q) == PerSize(p, q) * UNIT;
  }
}
