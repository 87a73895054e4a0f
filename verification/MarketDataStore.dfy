/** The browser's quote and candle store: each action computes the next state from the current one. */
module MarketDataStore {
  import opened Text
  import opened Wrappers

  datatype Candle = Candle(timestamp: string, open: real, high: real, low: real, close: real)

  datatype Update = Update(symbol: string, resolution: string, candle: Candle)

  const CAPACITY: nat := 500

  /** `list.slice(-CAPACITY)`. */
  function Newest<T>(list: seq<T>): seq<T> {
    if |list| <= CAPACITY then list else list[|list| - CAPACITY..]
  }

  predicate SameBar(list: seq<Candle>, c: Candle) {
    list != [] && list[|list| - 1].timestamp == c.timestamp
  }

  /** The stored list after one update. */
  function Stored(existing: seq<Candle>, c: Candle): seq<Candle> {
    if SameBar(existing, c) then existing[..|existing| - 1] + [c] else Newest(existing + [c])
  }

  function Key(u: Update): string {
    u.symbol + ":" + u.resolution
  }

  type Candles = map<string, seq<Candle>>

  function ListFor(candles: Candles, key: string): seq<Candle> {
    if key in candles then candles[key] else []
  }

  function UpsertCandle(candles: Candles, u: Update): Candles {
    candles[Key(u) := Stored(ListFor(candles, Key(u)), u.candle)]
  }

  function AfterAll(updates: seq<Update>): Candles {
    if updates == [] then map[] else UpsertCandle(AfterAll(updates[..|updates| - 1]), updates[|updates| - 1])
  }

  /** The candles of one key without any bound: a repeated last timestamp replaces, anything else is appended. */
  function History(updates: seq<Update>, key: string): seq<Candle> {
    if updates == [] then [] else
    var before := History(updates[..|updates| - 1], key);
    var u := updates[|updates| - 1];
    if Key(u) != key then before
    else if SameBar(before, u.candle) then before[..|before| - 1] + [u.candle]
    else before + [u.candle]
  }

  lemma StoredIsNewest(history: seq<Candle>, c: Candle)
    ensures SameBar(Newest(history), c) <==> SameBar(history, c)
    ensures Stored(Newest(history), c)
            == Newest(if SameBar(history, c) then history[..|history| - 1] + [c] else history + [c])
  {
  }

  /** For any stream of updates the bounded list is the newest part of the unbounded history. */
  lemma {:induction false} StoreKeepsNewest(updates: seq<Update>, key: string)
    ensures ListFor(AfterAll(updates), key) == Newest(History(updates, key))
    decreases |updates|
  {
    if updates != [] {
      var init, u := updates[..|updates| - 1], updates[|updates| - 1];
      StoreKeepsNewest(init, key);
      StoredIsNewest(History(init, key), u.candle);
    }
  }

  predicate NoRepeats(list: seq<Candle>) {
    forall i :: 0 <= i < |list| - 1 ==> list[i].timestamp != list[i + 1].timestamp
  }

  lemma {:induction false} HistoryNoRepeats(updates: seq<Update>, key: string)
    ensures NoRepeats(History(updates, key))
    decreases |updates|
  {
    if updates != [] {
      HistoryNoRepeats(updates[..|updates| - 1], key);
    }
  }

  /** The stored list is cut at 500 candles only, and never holds the same bar twice in a row. */
  lemma StoredListShape(updates: seq<Update>, key: string)
    ensures |ListFor(AfterAll(updates), key)| == if |History(updates, key)| <= 500 then |History(updates, key)| else 500
    ensures NoRepeats(ListFor(AfterAll(updates), key))
  {
    StoreKeepsNewest(updates, key);
    HistoryNoRepeats(updates, key);
  }

  // ---- which candles those are ----

  /** The candles received for one symbol and resolution, in order. */
  function Received(updates: seq<Update>, symbol: string, resolution: string): seq<Candle> {
    if updates == [] then [] else
    var before := Received(updates[..|updates| - 1], symbol, resolution);
    var u := updates[|updates| - 1];
    if u.symbol == symbol && u.resolution == resolution then before + [u.candle] else before
  }

  /** Of candles that follow one another with the same timestamp, the last. */
  function LastOfEach(candles: seq<Candle>): seq<Candle> {
    if |candles| <= 1 then candles
    else if candles[0].timestamp == candles[1].timestamp then LastOfEach(candles[1..])
    else [candles[0]] + LastOfEach(candles[1..])
  }

  lemma {:induction false} LastOfEachEnds(candles: seq<Candle>)
    ensures candles == [] <==> LastOfEach(candles) == []
    ensures candles != [] ==> LastOfEach(candles)[|LastOfEach(candles)| - 1] == candles[|candles| - 1]
    decreases |candles|
  {
    if |candles| > 1 { LastOfEachEnds(candles[1..]); }
  }

  /** A kept list with one more candle: replacing the last one of its timestamp, or added. */
  function WithOneMore(kept: seq<Candle>, c: Candle): seq<Candle> {
    if SameBar(kept, c) then kept[..|kept| - 1] + [c] else kept + [c]
  }

  lemma WithOneMoreBehind(first: Candle, kept: seq<Candle>, c: Candle)
    requires kept != []
    ensures WithOneMore([first] + kept, c) == [first] + WithOneMore(kept, c)
  {
    assert ([first] + kept)[..|kept|] == [first] + kept[..|kept| - 1];
  }

  lemma {:induction false} LastOfEachMore(candles: seq<Candle>, c: Candle)
    ensures LastOfEach(candles + [c]) == WithOneMore(LastOfEach(candles), c)
    decreases |candles|
  {
    if |candles| == 1 {
      assert (candles + [c])[1..] == [c];
    } else if |candles| > 1 {
      var rest := candles[1..];
      LastOfEachMore(rest, c);
      LastOfEachEnds(rest);
      assert (candles + [c])[1..] == rest + [c];
      WithOneMoreBehind(candles[0], LastOfEach(rest), c);
    }
  }

  /** Symbols hold no colon, so every symbol and resolution has a list of its own. */
  predicate ColonFree(updates: seq<Update>) {
    forall i :: 0 <= i < |updates| ==> ':' !in updates[i].symbol
  }

  lemma KeysApart(symbol1: string, resolution1: string, symbol2: string, resolution2: string, c: Candle)
    requires ':' !in symbol1 && ':' !in symbol2
    ensures Key(Update(symbol1, resolution1, c)) == Key(Update(symbol2, resolution2, c))
            <==> symbol1 == symbol2 && resolution1 == resolution2
  {
    if Key(Update(symbol1, resolution1, c)) == Key(Update(symbol2, resolution2, c)) {
      CutAtColon(symbol1, resolution1, symbol2, resolution2);
    }
  }

  lemma {:induction false} HistoryIsLastOfEach(updates: seq<Update>, symbol: string, resolution: string, key: string)
    requires ColonFree(updates) && ':' !in symbol && key == symbol + ":" + resolution
    ensures History(updates, key) == LastOfEach(Received(updates, symbol, resolution))
    decreases |updates|
  {
    if updates != [] {
      var init, u := updates[..|updates| - 1], updates[|updates| - 1];
      HistoryIsLastOfEach(init, symbol, resolution, key);
      KeysApart(u.symbol, u.resolution, symbol, resolution, u.candle);
      LastOfEachMore(Received(init, symbol, resolution), u.candle);
    }
  }

  /**
   * For any stream of updates, what is stored for a symbol and resolution are the newest of its own
   * candles, counting the last one of each timestamp.
   */
  lemma StoredAreOwnCandles(updates: seq<Update>, symbol: string, resolution: string, c: Candle)
    requires ColonFree(updates) && ':' !in symbol
    ensures ListFor(AfterAll(updates), Key(Update(symbol, resolution, c)))
            == Newest(LastOfEach(Received(updates, symbol, resolution)))
  {
    var key := Key(Update(symbol, resolution, c));
    StoreKeepsNewest(updates, key);
    HistoryIsLastOfEach(updates, symbol, resolution, key);
  }

  /** The store's candle lists; `log` records the updates received, for specification only. */
  class CandleStore {
    var candles: Candles
    ghost var log: seq<Update>

    ghost predicate Valid()
      reads this
    {
      candles == AfterAll(log)
    }

    constructor ()
      ensures Valid() && log == []
    {
      candles, log := map[], [];
    }

    method Upsert(u: Update)
      requires Valid()
      modifies this
      ensures Valid() && log == old(log) + [u]
      ensures forall key :: ListFor(candles, key) == Newest(History(log, key))
    {
      var key := Key(u);
      var existing := ListFor(candles, key);
      var next: seq<Candle>;
      if existing != [] && existing[|existing| - 1].timestamp == u.candle.timestamp {
        next := existing[..|existing| - 1] + [u.candle];
      } else {
        next := Newest(existing + [u.candle]);
      }
      candles := candles[key := next];
      assert (log + [u])[..|log|] == log;
      log := log + [u];
      forall k ensures ListFor(candles, k) == Newest(History(log, k)) {
        StoreKeepsNewest(log, k);
      }
    }
  }

  // ---- quotes ----

  /** A quote as its own properties; a property can be present and hold `undefined`. */
  type Quote = map<string, Option<string>>

  /** Reading a property that is absent gives `undefined` too. */
  function Read(q: Quote, property: string): Option<string> {
    if property in q then q[property] else None
  }

  /** `hasQuotePatchChanges`. */
  predicate HasPatchChanges(current: Option<Quote>, next: Quote) {
    current.None? || exists k | k in next :: Read(current.value, k) != next[k]
  }

  /** The quote stored after an update: the patch is merged unless it changes nothing. */
  function UpsertQuote(current: Option<Quote>, next: Quote): Option<Quote> {
    if !HasPatchChanges(current, next) then current
    else Some(if current.Some? then current.value + next else next)
  }

  /** No reader can tell the two quotes apart. */
  ghost predicate ReadsAlike(a: Quote, b: Quote) {
    forall k :: Read(a, k) == Read(b, k)
  }

  /** An update is skipped exactly when there is a quote and merging would change nothing that can be read. */
  lemma SkipsExactlyNoChange(current: Option<Quote>, next: Quote)
    ensures !HasPatchChanges(current, next) <==> current.Some? && ReadsAlike(current.value + next, current.value)
  {
    if current.Some? && HasPatchChanges(current, next) {
      var k :| k in next && Read(current.value, k) != next[k];
      assert Read(current.value + next, k) == next[k];
    }
  }

  /** Skipping costs nothing: every property reads as the last update that had it says, else as before. */
  lemma PatchIsMerged(current: Option<Quote>, next: Quote, property: string)
    ensures var r := UpsertQuote(current, next);
            r.Some? && Read(r.value, property)
                       == if property in next then next[property]
                          else if current.Some? then Read(current.value, property) else None
  {
  }
}
