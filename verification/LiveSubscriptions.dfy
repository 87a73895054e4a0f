/**
 * The whole subscription system: mounted price hooks, charts and chart-library bar subscribers all
 * calling one socket manager, while the connection comes and goes.
 */
module LiveSubscriptions {
  import opened Wrappers
  import opened Text
  import opened CandleKey
  import opened SocketProtocol
  import Ordering

  // ---- counting the holders recorded in a map ----

  ghost function Holding<K(!new), V>(m: map<K, V>, holds: V -> bool): nat {
    |set k | k in m && holds(m[k])|
  }

  lemma OneElementApart<K>(before: set<K>, after: set<K>, k: K)
    requires before - {k} == after - {k}
    ensures |after| + Bit(k in before) == |before| + Bit(k in after)
  {
    var others := before - {k};
    assert before == if k in before then others + {k} else others;
    assert after == if k in after then others + {k} else others;
  }

  lemma HoldingUpdate<K(!new), V>(m: map<K, V>, k: K, v: V, holds: V -> bool)
    ensures Holding(m[k := v], holds) + Bit(k in m && holds(m[k])) == Holding(m, holds) + Bit(holds(v))
  {
    var m' := m[k := v];
    var before := set x | x in m && holds(m[x]);
    var after := set x | x in m' && holds(m'[x]);
    assert before - {k} == after - {k};
    OneElementApart(before, after, k);
  }

  lemma HoldingRemove<K(!new), V>(m: map<K, V>, k: K, holds: V -> bool)
    ensures Holding(m - {k}, holds) + Bit(k in m && holds(m[k])) == Holding(m, holds)
  {
    var before := set x | x in m && holds(m[x]);
    var m' := m - {k};
    var after := set x | x in m' && holds(m'[x]);
    assert after == before - {k};
  }

  lemma HoldingPositive<K(!new), V>(m: map<K, V>, k: K, holds: V -> bool)
    requires k in m && holds(m[k])
    ensures Holding(m, holds) > 0
  {
    var s := set x | x in m && holds(m[x]);
    assert k in s;
  }

  lemma HoldingWitness<K(!new), V>(m: map<K, V>, holds: V -> bool) returns (k: K)
    requires Holding(m, holds) > 0
    ensures k in m && holds(m[k])
  {
    var s := set x | x in m && holds(m[x]);
    k :| k in s;
  }

  lemma HoldingIs<K(!new), V>(m: map<K, V>, holds: V -> bool, holders: set<K>)
    requires forall k :: k in holders <==> k in m && holds(m[k])
    ensures Holding(m, holds) == |holders|
  {
    assert holders == set k | k in m && holds(m[k]);
  }

  // ---- the price hook ----

  function Normalized(symbols: seq<string>): (r: seq<string>)
    ensures |r| == |symbols|
    ensures forall i :: 0 <= i < |r| ==> r[i] == NormalizeSymbol(symbols[i])
  {
    seq(|symbols|, i requires 0 <= i < |symbols| => NormalizeSymbol(symbols[i]))
  }

  /** `[...new Set(list.filter(Boolean))]`: the first occurrence of each non-empty entry. */
  function Deduplicate(symbols: seq<string>): (r: seq<string>)
    ensures Ordering.Distinct(r)
    ensures forall s :: s in r <==> s in symbols && s != ""
  {
    if symbols == [] then [] else
    var rest := Deduplicate(symbols[..|symbols| - 1]);
    var last := symbols[|symbols| - 1];
    assert symbols == symbols[..|symbols| - 1] + [last];
    if last == "" || last in rest then rest else rest + [last]
  }

  /** A list an effect may leave in `activeSymbolsRef`: distinct, non-empty, already normalised. */
  ghost predicate HookList(list: seq<string>) {
    && Ordering.Distinct(list)
    && forall i :: 0 <= i < |list| ==> list[i] != "" && NormalizeSymbol(list[i]) == list[i]
  }

  lemma HookListIntro(list: seq<string>)
    requires Ordering.Distinct(list)
    requires forall s :: s in list ==> s != "" && NormalizeSymbol(s) == s
    ensures HookList(list)
  {
    forall i | 0 <= i < |list| ensures list[i] != "" && NormalizeSymbol(list[i]) == list[i] {
      assert list[i] in list;
    }
  }

  lemma NormalizedMembers(symbols: seq<string>)
    ensures forall s :: s in Normalized(symbols) ==> NormalizeSymbol(s) == s
  {
    forall s | s in Normalized(symbols) ensures NormalizeSymbol(s) == s {
      var i :| 0 <= i < |symbols| && s == NormalizeSymbol(symbols[i]);
      NormalizeSymbolIdempotent(symbols[i]);
    }
  }

  /** `useNormalizedSymbols`: trim and upper-case, drop blanks and repeats, sort. */
  function NormalizedSymbols(symbols: seq<string>): (r: seq<string>)
    ensures HookList(r) && Ordering.Ordered(r)
    ensures forall s :: s in r <==> s != "" && s in Normalized(symbols)
  {
    var unsorted := Deduplicate(Normalized(symbols));
    Ordering.SortSpec(unsorted);
    NormalizedMembers(symbols);
    HookListIntro(Ordering.Sort(unsorted));
    Ordering.Sort(unsorted)
  }

  function Without(list: seq<string>, other: seq<string>): (r: seq<string>)
    ensures forall s :: s in r <==> s in list && s !in other
    ensures Ordering.Distinct(list) ==> Ordering.Distinct(r)
  {
    if list == [] then [] else
    var rest := Without(list[..|list| - 1], other);
    var last := list[|list| - 1];
    assert list == list[..|list| - 1] + [last];
    if last in other then rest else rest + [last]
  }

  lemma WithoutHookList(list: seq<string>, other: seq<string>)
    requires HookList(list)
    ensures HookList(Without(list, other))
  {
    forall s | s in Without(list, other) ensures s != "" && NormalizeSymbol(s) == s {
      var i :| 0 <= i < |list| && list[i] == s;
    }
    HookListIntro(Without(list, other));
  }

  function SubscribeEach(c: Client, symbols: seq<string>): Client
    decreases |symbols|
  {
    if symbols == [] then c
    else SubscribePrice(SubscribeEach(c, symbols[..|symbols| - 1]), symbols[|symbols| - 1])
  }

  function UnsubscribeEach(c: Client, symbols: seq<string>): Client
    decreases |symbols|
  {
    if symbols == [] then c
    else UnsubscribePrice(UnsubscribeEach(c, symbols[..|symbols| - 1]), symbols[|symbols| - 1])
  }

  /** The first effect of the hook: connect, take the new symbols, let go of the dropped ones. */
  function RunEffect(c: Client, active: seq<string>, next: seq<string>): Client {
    UnsubscribeEach(SubscribeEach(Connect(c), Without(next, active)), Without(active, next))
  }

  /** One call for a normalised symbol changes that symbol's count by one and nothing else. */
  lemma PriceCallEffect(c: Client, s: string)
    requires Inv(c) && s != "" && NormalizeSymbol(s) == s
    ensures var c' := SubscribePrice(c, s);
            && Inv(c') && c'.candles == c.candles
            && forall x :: Count(c'.prices, x) == Count(c.prices, x) + Bit(x == s)
    ensures var c' := UnsubscribePrice(c, s);
            && Inv(c') && c'.candles == c.candles
            && forall x :: Count(c.prices, x) >= Bit(x == s) ==> Count(c'.prices, x) == Count(c.prices, x) - Bit(x == s)
  {
    PriceCallsKeepInv(c, s);
    NormalizedCall(c, s, NormalizeSymbol(s));
  }

  lemma NormalizedCall(c: Client, s: string, normal: string)
    requires normal == NormalizeSymbol(s) == s != ""
    ensures SubscribePrice(c, s) == HoldPrice(c, s) && UnsubscribePrice(c, s) == ReleasePrice(c, s)
  {
  }

  lemma HookListSplit(list: seq<string>)
    requires HookList(list) && list != []
    ensures var init, last := list[..|list| - 1], list[|list| - 1];
            && HookList(init) && last != "" && NormalizeSymbol(last) == last
            && (forall x :: Bit(x in list) == Bit(x in init) + Bit(x == last))
  {
    var init, last := list[..|list| - 1], list[|list| - 1];
    assert list == init + [last];
  }

  lemma {:induction false} SubscribeEachEffect(c: Client, symbols: seq<string>)
    requires Inv(c) && HookList(symbols)
    ensures var c' := SubscribeEach(c, symbols);
            && Inv(c') && c'.candles == c.candles
            && forall s :: Count(c'.prices, s) == Count(c.prices, s) + Bit(s in symbols)
    decreases |symbols|
  {
    if symbols != [] {
      var init := symbols[..|symbols| - 1];
      HookListSplit(symbols);
      SubscribeEachEffect(c, init);
      PriceCallEffect(SubscribeEach(c, init), symbols[|symbols| - 1]);
    }
  }

  lemma {:induction false} UnsubscribeEachEffect(c: Client, symbols: seq<string>)
    requires Inv(c) && HookList(symbols)
    ensures var c' := UnsubscribeEach(c, symbols);
            && Inv(c') && c'.candles == c.candles
            && forall s :: Count(c.prices, s) >= Bit(s in symbols) ==>
                 Count(c'.prices, s) == Count(c.prices, s) - Bit(s in symbols)
    decreases |symbols|
  {
    if symbols != [] {
      var init := symbols[..|symbols| - 1];
      HookListSplit(symbols);
      UnsubscribeEachEffect(c, init);
      PriceCallEffect(UnsubscribeEach(c, init), symbols[|symbols| - 1]);
    }
  }

  // ---- the system ----

  /** A chart mount or a bar subscriber holds one (symbol, resolution) pair, as the caller wrote it. */
  datatype Pair = Pair(symbol: string, resolution: string)

  datatype System = System(
    client: Client,
    hooks: map<nat, seq<string>>,
    charts: map<nat, Pair>,
    bars: map<string, Pair>)

  const START := System(INITIAL, map[], map[], map[])

  datatype Event =
    | Socket(e: SocketEvent)
    | Login
    | Logout
    | HookEffect(hook: nat, symbols: seq<string>)
    | HookCleanup(hook: nat)
    | ChartMount(chart: nat, pair: Pair)
    | ChartUnmount(chart: nat)
    | SubscribeBars(uid: string, pair: Pair)
    | UnsubscribeBars(uid: string)

  function ActiveSymbols(sys: System, hook: nat): seq<string> {
    if hook in sys.hooks then sys.hooks[hook] else []
  }

  /** React runs a chart's cleanup before its next mount and never cleans up an unmounted one. */
  ghost predicate Enabled(sys: System, ev: Event) {
    match ev
    case Socket(e) => Possible(sys.client, e)
    case ChartMount(id, _) => id !in sys.charts
    case ChartUnmount(id) => id in sys.charts
    case _ => true
  }

  ghost function Next(sys: System, ev: Event): System
    requires Enabled(sys, ev)
  {
    match ev
    case Socket(e) => sys.(client := Happen(sys.client, e))
    case Login => sys.(client := Connect(sys.client))
    case Logout => sys.(client := Disconnect(sys.client))
    case HookEffect(id, symbols) =>
      var next := NormalizedSymbols(symbols);
      sys.(client := RunEffect(sys.client, ActiveSymbols(sys, id), next), hooks := sys.hooks[id := next])
    case HookCleanup(id) =>
      sys.(client := UnsubscribeEach(sys.client, ActiveSymbols(sys, id)), hooks := sys.hooks[id := []])
    case ChartMount(id, p) =>
      sys.(client := SubscribeCandles(Connect(sys.client), p.symbol, p.resolution), charts := sys.charts[id := p])
    case ChartUnmount(id) =>
      var p := sys.charts[id];
      sys.(client := UnsubscribeCandles(sys.client, p.symbol, p.resolution), charts := sys.charts - {id})
    case SubscribeBars(uid, p) =>
      sys.(client := SubscribeCandles(Connect(sys.client), p.symbol, p.resolution), bars := sys.bars[uid := p])
    case UnsubscribeBars(uid) =>
      if uid !in sys.bars then sys else
      var p := sys.bars[uid];
      sys.(client := UnsubscribeCandles(sys.client, p.symbol, p.resolution), bars := sys.bars - {uid})
  }

  ghost predicate CleanPair(p: Pair) {
    Clean(NormalizeSymbol(p.symbol), p.resolution)
  }

  /** What the callers owe: pairs that survive the key, and a subscriber id that is not in use. */
  ghost predicate Careful(sys: System, ev: Event) {
    match ev
    case ChartMount(_, p) => CleanPair(p)
    case SubscribeBars(uid, p) => uid !in sys.bars && CleanPair(p)
    case _ => true
  }

  function KeyOf(p: Pair): Option<string> {
    var symbol := NormalizeSymbol(p.symbol);
    if symbol == "" then None else Some(BuildKey(symbol, p.resolution))
  }

  function HoldsSymbol(s: string): seq<string> -> bool {
    list => s in list
  }

  function HoldsKey(key: string): Pair -> bool {
    p => KeyOf(p) == Some(key)
  }

  ghost function PriceHolders(sys: System, s: string): nat {
    Holding(sys.hooks, HoldsSymbol(s))
  }

  ghost function CandleHolders(sys: System, key: string): nat {
    Holding(sys.charts, HoldsKey(key)) + Holding(sys.bars, HoldsKey(key))
  }

  ghost predicate PricesCounted(sys: System) {
    forall s :: Count(sys.client.prices, s) == PriceHolders(sys, s)
  }

  ghost predicate CandlesCounted(sys: System) {
    forall key :: Count(sys.client.candles, key) == CandleHolders(sys, key)
  }

  ghost predicate AllHookLists(hooks: map<nat, seq<string>>) {
    forall id :: id in hooks ==> HookList(hooks[id])
  }

  ghost predicate AllClean<K(!new)>(pairs: map<K, Pair>) {
    forall k :: k in pairs ==> CleanPair(pairs[k])
  }

  ghost predicate SysInv(sys: System) {
    && Inv(sys.client)
    && PricesCounted(sys)
    && CandlesCounted(sys)
    && AllHookLists(sys.hooks)
    && AllClean(sys.charts)
    && AllClean(sys.bars)
  }

  /** Taking what is new and letting go of what is gone moves every count by what the list changed. */
  lemma HookDiffCounts(c: Client, active: seq<string>, next: seq<string>)
    requires Inv(c) && HookList(active) && HookList(next)
    ensures var c' := UnsubscribeEach(SubscribeEach(c, Without(next, active)), Without(active, next));
            && Inv(c') && c'.candles == c.candles
            && forall s :: Count(c.prices, s) >= Bit(s in active) ==>
                 Count(c'.prices, s) + Bit(s in active) == Count(c.prices, s) + Bit(s in next)
  {
    WithoutHookList(next, active);
    WithoutHookList(active, next);
    SubscribeEachEffect(c, Without(next, active));
    UnsubscribeEachEffect(SubscribeEach(c, Without(next, active)), Without(active, next));
  }

  lemma HookSteps(sys: System, hook: nat, next: seq<string>, c: Client)
    requires SysInv(sys) && Inv(c) && c.prices == sys.client.prices && c.candles == sys.client.candles
    requires HookList(next)
    ensures var active := ActiveSymbols(sys, hook);
            var c' := UnsubscribeEach(SubscribeEach(c, Without(next, active)), Without(active, next));
            SysInv(sys.(client := c', hooks := sys.hooks[hook := next]))
  {
    var active := ActiveSymbols(sys, hook);
    HookDiffCounts(c, active, next);
    HookReplaced(sys, hook, next, UnsubscribeEach(SubscribeEach(c, Without(next, active)), Without(active, next)));
  }

  lemma HookReplaced(sys: System, hook: nat, next: seq<string>, c': Client)
    requires SysInv(sys) && Inv(c') && HookList(next) && c'.candles == sys.client.candles
    requires forall s :: Count(sys.client.prices, s) >= Bit(s in ActiveSymbols(sys, hook)) ==>
               Count(c'.prices, s) + Bit(s in ActiveSymbols(sys, hook)) == Count(sys.client.prices, s) + Bit(s in next)
    ensures SysInv(sys.(client := c', hooks := sys.hooks[hook := next]))
  {
    var active := ActiveSymbols(sys, hook);
    var sys' := sys.(client := c', hooks := sys.hooks[hook := next]);
    forall s ensures Count(sys'.client.prices, s) == PriceHolders(sys', s) {
      HoldingUpdate(sys.hooks, hook, next, HoldsSymbol(s));
      if s in active {
        HoldingPositive(sys.hooks, hook, HoldsSymbol(s));
      }
    }
    forall key ensures CandleHolders(sys', key) == CandleHolders(sys, key) {}
  }

  lemma HookCleanupKeeps(sys: System, hook: nat)
    requires SysInv(sys)
    ensures SysInv(sys.(
              client := UnsubscribeEach(sys.client, ActiveSymbols(sys, hook)), hooks := sys.hooks[hook := []]))
  {
    var active := ActiveSymbols(sys, hook);
    HookSteps(sys, hook, [], sys.client);
    WithoutNothing(active);
  }

  lemma {:induction false} WithoutNothing(list: seq<string>)
    ensures Without(list, []) == list
  {
    if list != [] {
      var init, last := list[..|list| - 1], list[|list| - 1];
      WithoutNothing(init);
      assert list == init + [last];
      assert Without(list, []) == Without(init, []) + [last];
    }
  }

  lemma CandleCallCounts(c: Client, p: Pair, key: string)
    ensures Count(SubscribeCandles(c, p.symbol, p.resolution).candles, key)
            == Count(c.candles, key) + Bit(KeyOf(p) == Some(key))
    ensures Count(c.candles, key) >= Bit(KeyOf(p) == Some(key)) ==>
              Count(UnsubscribeCandles(c, p.symbol, p.resolution).candles, key)
              == Count(c.candles, key) - Bit(KeyOf(p) == Some(key))
  {
  }

  lemma CandleCallsLeavePrices(c: Client, p: Pair)
    ensures SubscribeCandles(c, p.symbol, p.resolution).prices == c.prices
    ensures UnsubscribeCandles(c, p.symbol, p.resolution).prices == c.prices
  {
  }

  lemma BarsAdded(sys: System, uid: string, p: Pair)
    requires SysInv(sys) && uid !in sys.bars && CleanPair(p)
    ensures SysInv(sys.(client := SubscribeCandles(sys.client, p.symbol, p.resolution), bars := sys.bars[uid := p]))
  {
    var c' := SubscribeCandles(sys.client, p.symbol, p.resolution);
    var sys' := sys.(client := c', bars := sys.bars[uid := p]);
    CandleCallsKeepInv(sys.client, p.symbol, p.resolution);
    CandleCallsLeavePrices(sys.client, p);
    forall key ensures Count(c'.candles, key) == CandleHolders(sys', key) {
      CandleCallCounts(sys.client, p, key);
      HoldingUpdate(sys.bars, uid, p, HoldsKey(key));
    }
    forall s ensures PriceHolders(sys', s) == PriceHolders(sys, s) {}
  }

  lemma ChartAdded(sys: System, id: nat, p: Pair)
    requires SysInv(sys) && id !in sys.charts && CleanPair(p)
    ensures SysInv(sys.(client := SubscribeCandles(sys.client, p.symbol, p.resolution), charts := sys.charts[id := p]))
  {
    var c' := SubscribeCandles(sys.client, p.symbol, p.resolution);
    var sys' := sys.(client := c', charts := sys.charts[id := p]);
    CandleCallsKeepInv(sys.client, p.symbol, p.resolution);
    CandleCallsLeavePrices(sys.client, p);
    forall key ensures Count(c'.candles, key) == CandleHolders(sys', key) {
      CandleCallCounts(sys.client, p, key);
      HoldingUpdate(sys.charts, id, p, HoldsKey(key));
    }
    forall s ensures PriceHolders(sys', s) == PriceHolders(sys, s) {}
  }

  lemma BarsRemoved(sys: System, uid: string, p: Pair)
    requires SysInv(sys) && uid in sys.bars && p == sys.bars[uid]
    ensures SysInv(sys.(client := UnsubscribeCandles(sys.client, p.symbol, p.resolution), bars := sys.bars - {uid}))
  {
    var c' := UnsubscribeCandles(sys.client, p.symbol, p.resolution);
    var sys' := sys.(client := c', bars := sys.bars - {uid});
    CandleCallsKeepInv(sys.client, p.symbol, p.resolution);
    CandleCallsLeavePrices(sys.client, p);
    forall key ensures Count(c'.candles, key) == CandleHolders(sys', key) {
      HoldingRemove(sys.bars, uid, HoldsKey(key));
      CandleCallCounts(sys.client, p, key);
    }
    forall s ensures PriceHolders(sys', s) == PriceHolders(sys, s) {}
  }

  lemma ChartRemoved(sys: System, id: nat, p: Pair)
    requires SysInv(sys) && id in sys.charts && p == sys.charts[id]
    ensures SysInv(sys.(client := UnsubscribeCandles(sys.client, p.symbol, p.resolution), charts := sys.charts - {id}))
  {
    var c' := UnsubscribeCandles(sys.client, p.symbol, p.resolution);
    var sys' := sys.(client := c', charts := sys.charts - {id});
    CandleCallsKeepInv(sys.client, p.symbol, p.resolution);
    CandleCallsLeavePrices(sys.client, p);
    forall key ensures Count(c'.candles, key) == CandleHolders(sys', key) {
      HoldingRemove(sys.charts, id, HoldsKey(key));
      CandleCallCounts(sys.client, p, key);
    }
    forall s ensures PriceHolders(sys', s) == PriceHolders(sys, s) {}
  }

  lemma ClientOnlyKeeps(sys: System, c: Client)
    requires SysInv(sys) && Inv(c) && c.prices == sys.client.prices && c.candles == sys.client.candles
    ensures SysInv(sys.(client := c))
  {
    var sys' := sys.(client := c);
    forall s ensures PriceHolders(sys', s) == PriceHolders(sys, s) {}
    forall key ensures CandleHolders(sys', key) == CandleHolders(sys, key) {}
  }

  lemma ConnectLeavesMaps(c: Client)
    ensures Connect(c).prices == c.prices && Connect(c).candles == c.candles
  {
  }

  lemma ConnectKeeps(sys: System)
    requires SysInv(sys)
    ensures SysInv(sys.(client := Connect(sys.client)))
  {
    var c := Connect(sys.client);
    ConnectInv(sys.client);
    ConnectLeavesMaps(sys.client);
    ClientOnlyKeeps(sys, c);
  }

  lemma NextKeepsInv(sys: System, ev: Event)
    requires SysInv(sys) && Enabled(sys, ev) && Careful(sys, ev)
    ensures SysInv(Next(sys, ev))
  {
    var online := sys.(client := Connect(sys.client));
    ConnectKeeps(sys);
    ConnectLeavesMaps(sys.client);
    match ev
    case Socket(e) =>
      HappenInv(sys.client, e);
      ClientOnlyKeeps(sys, Happen(sys.client, e));
    case Login =>
    case Logout =>
      ClientOnlyKeeps(sys, Disconnect(sys.client));
    case HookEffect(id, symbols) => HookSteps(sys, id, NormalizedSymbols(symbols), online.client);
    case HookCleanup(id) => HookCleanupKeeps(sys, id);
    case ChartMount(id, p) => ChartAdded(online, id, p);
    case ChartUnmount(id) => ChartRemoved(sys, id, sys.charts[id]);
    case SubscribeBars(uid, p) => BarsAdded(online, uid, p);
    case UnsubscribeBars(uid) =>
      if uid in sys.bars { BarsRemoved(sys, uid, sys.bars[uid]); }
  }

  // ---- runs ----

  /** `states` is what the system goes through while `events` happen one after the other. */
  ghost predicate Run(states: seq<System>, events: seq<Event>) {
    && |states| == |events| + 1
    && states[0] == START
    && forall i :: 0 <= i < |events| ==>
         Enabled(states[i], events[i]) && Careful(states[i], events[i])
         && states[i + 1] == Next(states[i], events[i])
  }

  lemma {:induction false} RunKeepsInv(states: seq<System>, events: seq<Event>, i: nat)
    requires Run(states, events) && i < |states|
    ensures SysInv(states[i])
  {
    if i > 0 {
      RunKeepsInv(states, events, i - 1);
      NextKeepsInv(states[i - 1], events[i - 1]);
    }
  }

  predicate Asks(p: Pair, s: string, r: string) {
    NormalizeSymbol(p.symbol) == s && p.resolution == r
  }

  /** The topics some mounted consumer is holding right now. */
  ghost predicate Held(sys: System, t: Topic) {
    match t
    case Price(s) => exists id :: id in sys.hooks && s in sys.hooks[id]
    case Candles(s, r) =>
      s != "" &&
      (|| (exists id :: id in sys.charts && Asks(sys.charts[id], s, r))
       || (exists uid :: uid in sys.bars && Asks(sys.bars[uid], s, r)))
  }

  lemma PriceWantedIffHeld(sys: System, s: string)
    requires SysInv(sys)
    ensures s in sys.client.prices <==> Held(sys, Price(s))
  {
    assert Count(sys.client.prices, s) == PriceHolders(sys, s);
    if s in sys.client.prices {
      var id := HoldingWitness(sys.hooks, HoldsSymbol(s));
    }
    if id :| id in sys.hooks && s in sys.hooks[id] {
      HoldingPositive(sys.hooks, id, HoldsSymbol(s));
    }
  }

  lemma PairTopic(p: Pair, key: string)
    requires CleanPair(p) && KeyOf(p) == Some(key)
    ensures TopicOf(key) == Candles(NormalizeSymbol(p.symbol), p.resolution) && NormalizeSymbol(p.symbol) != ""
  {
    CleanPairsAreFaithful(NormalizeSymbol(p.symbol), p.resolution);
  }

  lemma CandleKeyHeld(sys: System, key: string)
    requires SysInv(sys) && key in sys.client.candles
    ensures Held(sys, TopicOf(key))
  {
    assert Count(sys.client.candles, key) == CandleHolders(sys, key);
    if Holding(sys.charts, HoldsKey(key)) > 0 {
      var id := HoldingWitness(sys.charts, HoldsKey(key));
      PairTopic(sys.charts[id], key);
    } else {
      var uid := HoldingWitness(sys.bars, HoldsKey(key));
      PairTopic(sys.bars[uid], key);
    }
  }

  lemma HeldPairCounted(sys: System, p: Pair, key: string)
    requires SysInv(sys) && KeyOf(p) == Some(key)
    requires || (exists id :: id in sys.charts && sys.charts[id] == p)
             || (exists uid :: uid in sys.bars && sys.bars[uid] == p)
    ensures key in sys.client.candles
  {
    assert Count(sys.client.candles, key) == CandleHolders(sys, key);
    if id :| id in sys.charts && sys.charts[id] == p {
      HoldingPositive(sys.charts, id, HoldsKey(key));
    } else {
      var uid :| uid in sys.bars && sys.bars[uid] == p;
      HoldingPositive(sys.bars, uid, HoldsKey(key));
    }
  }

  lemma CandleWantedIffHeld(sys: System, s: string, r: string)
    requires SysInv(sys)
    ensures Candles(s, r) in Image(sys.client.candles.Keys, TopicOf) <==> Held(sys, Candles(s, r))
  {
    if key :| key in sys.client.candles.Keys && TopicOf(key) == Candles(s, r) {
      CandleKeyHeld(sys, key);
    }
    if Held(sys, Candles(s, r)) {
      var p: Pair;
      if id :| id in sys.charts && Asks(sys.charts[id], s, r) {
        p := sys.charts[id];
      } else {
        var uid :| uid in sys.bars && Asks(sys.bars[uid], s, r);
        p := sys.bars[uid];
      }
      PairTopic(p, BuildKey(s, r));
      HeldPairCounted(sys, p, BuildKey(s, r));
    }
  }

  /**
   * In every reachable state with a live connection, the gateway's session, once the messages in
   * flight have arrived, contains exactly the topics some mounted consumer holds.
   */
  lemma SessionFollowsHolders(states: seq<System>, events: seq<Event>, i: nat, t: Topic)
    requires Run(states, events) && i < |states|
    requires states[i].client.link.Some? && states[i].client.link.value.connected
    ensures t in Eventually(states[i].client.link.value) <==> Held(states[i], t)
  {
    var sys := states[i];
    RunKeepsInv(states, events, i);
    match t
    case Price(s) =>
      PriceWantedIffHeld(sys, s);
      assert PriceTopic(s) == t;
    case Candles(s, r) =>
      CandleWantedIffHeld(sys, s, r);
  }

  // ---- what the events mean for holders and connection ----

  /** Some hook other than this one holds the symbol. */
  ghost predicate OthersHold(sys: System, hook: nat, s: string) {
    exists id :: id in sys.hooks && id != hook && s in sys.hooks[id]
  }

  /** After its effect a hook holds the non-blank symbols of its list, normalised; other holders are not touched. */
  lemma HookHolds(sys: System, hook: nat, symbols: seq<string>, t: Topic)
    ensures Held(Next(sys, HookEffect(hook, symbols)), t) <==>
              match t
              case Price(s) =>
                || OthersHold(sys, hook, s)
                || (s != "" && exists i :: 0 <= i < |symbols| && NormalizeSymbol(symbols[i]) == s)
              case Candles(_, _) => Held(sys, t)
  {
    var sys' := Next(sys, HookEffect(hook, symbols));
    if t.Price? {
      var s := t.symbol;
      assert s in sys'.hooks[hook] <==> s != "" && exists i :: 0 <= i < |symbols| && NormalizeSymbol(symbols[i]) == s;
      if id :| id in sys'.hooks && id != hook && s in sys'.hooks[id] {
        assert sys'.hooks[id] == sys.hooks[id];
      }
      if id :| id in sys.hooks && id != hook && s in sys.hooks[id] {
        assert sys'.hooks[id] == sys.hooks[id];
      }
    }
  }

  /** After its cleanup a hook holds nothing. */
  lemma HookReleases(sys: System, hook: nat, t: Topic)
    ensures Held(Next(sys, HookCleanup(hook)), t) <==>
              match t
              case Price(s) => OthersHold(sys, hook, s)
              case Candles(_, _) => Held(sys, t)
  {
    var sys' := Next(sys, HookCleanup(hook));
    if t.Price? {
      if id :| id in sys'.hooks && t.symbol in sys'.hooks[id] {
        assert id != hook && sys'.hooks[id] == sys.hooks[id];
      }
      if id :| id in sys.hooks && id != hook && t.symbol in sys.hooks[id] {
        assert sys'.hooks[id] == sys.hooks[id];
      }
    }
  }

  /** The topic a pair asks for, unless its symbol is blank. */
  predicate PairAsks(p: Pair, t: Topic) {
    NormalizeSymbol(p.symbol) != "" && t == Candles(NormalizeSymbol(p.symbol), p.resolution)
  }

  /** Charts and bar subscribers hold their pair from mount to unmount; what others hold does not change. */
  lemma PairsHeld(sys: System, ev: Event, t: Topic)
    requires Enabled(sys, ev)
    ensures ev.ChartMount? || (ev.SubscribeBars? && ev.uid !in sys.bars) ==>
              (Held(Next(sys, ev), t) <==> Held(sys, t) || PairAsks(ev.pair, t))
    ensures ev.ChartUnmount? ==> ev.chart !in Next(sys, ev).charts
    ensures ev.UnsubscribeBars? ==> ev.uid !in Next(sys, ev).bars
    ensures ev.ChartUnmount? ==> Held(Next(sys, ev), t) ==> Held(sys, t)
    ensures ev.ChartUnmount? ==> Held(sys, t) ==> Held(Next(sys, ev), t) || PairAsks(sys.charts[ev.chart], t)
    ensures ev.UnsubscribeBars? ==> Held(Next(sys, ev), t) ==> Held(sys, t)
    ensures ev.UnsubscribeBars? && Held(sys, t) && !Held(Next(sys, ev), t) ==>
              ev.uid in sys.bars && PairAsks(sys.bars[ev.uid], t)
  {
    var sys' := Next(sys, ev);
    if t.Candles? {
      var s, r := t.candleSymbol, t.resolution;
      if ev.ChartMount? {
        assert sys'.charts[ev.chart] == ev.pair;
        if id :| id in sys.charts && Asks(sys.charts[id], s, r) { assert Asks(sys'.charts[id], s, r); }
      }
      if ev.SubscribeBars? {
        assert sys'.bars[ev.uid] == ev.pair;
        if uid :| uid in sys.bars && uid != ev.uid && Asks(sys.bars[uid], s, r) { assert Asks(sys'.bars[uid], s, r); }
      }
      if ev.ChartUnmount? {
        if id :| id in sys.charts && id != ev.chart && Asks(sys.charts[id], s, r) {
          assert Asks(sys'.charts[id], s, r);
        }
      }
      if ev.UnsubscribeBars? {
        if uid :| uid in sys.bars && uid != ev.uid && Asks(sys.bars[uid], s, r) { assert Asks(sys'.bars[uid], s, r); }
      }
    }
  }

  /** The events whose handlers call `connect`. */
  predicate Connects(ev: Event) {
    ev.Login? || ev.HookEffect? || ev.ChartMount? || ev.SubscribeBars?
  }

  /** The two states differ in subscriptions and messages in flight only. */
  predicate SameSocket(c: Client, c': Client) {
    && c'.status == c.status && c'.manual == c.manual
    && match c.link
       case None => c'.link.None?
       case Some(l) => c'.link.Some? && c'.link.value.(outbox := l.outbox) == l
  }

  lemma CallsKeepSocket(c: Client, raw: string, resolution: string)
    ensures SameSocket(c, SubscribePrice(c, raw)) && SameSocket(c, UnsubscribePrice(c, raw))
    ensures SameSocket(c, SubscribeCandles(c, raw, resolution)) && SameSocket(c, UnsubscribeCandles(c, raw, resolution))
  {
  }

  lemma {:induction false} EachKeepsSocket(c: Client, symbols: seq<string>)
    ensures SameSocket(c, SubscribeEach(c, symbols)) && SameSocket(c, UnsubscribeEach(c, symbols))
    decreases |symbols|
  {
    if symbols != [] {
      var init, last := symbols[..|symbols| - 1], symbols[|symbols| - 1];
      EachKeepsSocket(c, init);
      CallsKeepSocket(SubscribeEach(c, init), last, "");
      CallsKeepSocket(UnsubscribeEach(c, init), last, "");
    }
  }

  /** Letting go never touches the socket, and ending an unknown bar subscription does nothing at all. */
  lemma ReleasesLeaveSocket(sys: System, ev: Event)
    requires Enabled(sys, ev) && (ev.HookCleanup? || ev.ChartUnmount? || ev.UnsubscribeBars?)
    ensures SameSocket(sys.client, Next(sys, ev).client)
    ensures ev.UnsubscribeBars? && ev.uid !in sys.bars ==> Next(sys, ev) == sys
  {
    match ev
    case HookCleanup(id) => EachKeepsSocket(sys.client, ActiveSymbols(sys, id));
    case ChartUnmount(id) => CallsKeepSocket(sys.client, sys.charts[id].symbol, sys.charts[id].resolution);
    case UnsubscribeBars(uid) =>
      if uid in sys.bars { CallsKeepSocket(sys.client, sys.bars[uid].symbol, sys.bars[uid].resolution); }
  }

  /** A login, a hook effect, a chart mount or a bar subscription gets the socket going, whatever state it was in. */
  lemma ConsumersConnect(sys: System, ev: Event)
    requires Enabled(sys, ev) && Connects(ev)
    ensures Trying(Next(sys, ev).client) && SameSocket(Connect(sys.client), Next(sys, ev).client)
  {
    ConnectSpec(sys.client);
    match ev
    case Login =>
    case HookEffect(id, symbols) =>
      var active, next := ActiveSymbols(sys, id), NormalizedSymbols(symbols);
      EachKeepsSocket(Connect(sys.client), Without(next, active));
      EachKeepsSocket(SubscribeEach(Connect(sys.client), Without(next, active)), Without(active, next));
    case ChartMount(_, p) => CallsKeepSocket(Connect(sys.client), p.symbol, p.resolution);
    case SubscribeBars(_, p) => CallsKeepSocket(Connect(sys.client), p.symbol, p.resolution);
  }

  /** A logout leaves no socket, keeps every holder, and the next login asks for all they hold again. */
  lemma LogoutSpec(sys: System)
    ensures var out := Next(sys, Logout);
            && out.client.link.None? && out.client.status == Disconnected
            && out.hooks == sys.hooks && out.charts == sys.charts && out.bars == sys.bars
            && forall t :: Held(out, t) <==> Held(sys, t)
  {
    DisconnectSpec(sys.client);
  }

  /**
   * So in every run the session follows the holders again after one further step: whenever a consumer
   * has just connected and the socket is not live, it can become live next, and then holds exactly what
   * mounted consumers hold.
   */
  lemma ReconnectRestores(states: seq<System>, events: seq<Event>) returns (states': seq<System>, e: SocketEvent)
    requires Run(states, events) && events != [] && Connects(events[|events| - 1])
    requires var c := states[|events|].client; c.link.Some? ==> !c.link.value.connected
    ensures Run(states', events + [Socket(e)]) && e.Established? && states'[..|states|] == states
    ensures var sys := states'[|states|];
            && sys.client.link.Some? && sys.client.link.value.connected && sys.client.status == Connected
            && forall t :: t in Eventually(sys.client.link.value) <==> Held(states[|events|], t)
  {
    var n := |events|;
    var last := states[n];
    assert states[n - 1 + 1] == Next(states[n - 1], events[n - 1]);
    ConsumersConnect(states[n - 1], events[n - 1]);
    var po, co := EstablishedIsNext(last.client);
    e := Established(po, co);
    var sys := Next(last, Socket(e));
    states' := states + [sys];
    var events' := events + [Socket(e)];
    forall i | 0 <= i < |events'|
      ensures Enabled(states'[i], events'[i]) && Careful(states'[i], events'[i])
              && states'[i + 1] == Next(states'[i], events'[i])
    {
      if i < n {
        assert states'[i] == states[i] && states'[i + 1] == states[i + 1] && events'[i] == events[i];
      }
    }
    forall t ensures t in Eventually(sys.client.link.value) <==> Held(last, t) {
      SessionFollowsHolders(states', events', n + 1, t);
      SameHolders(last, sys, t);
    }
  }

  lemma SameHolders(a: System, b: System, t: Topic)
    requires a.hooks == b.hooks && a.charts == b.charts && a.bars == b.bars
    ensures Held(a, t) <==> Held(b, t)
  {
  }

  /** The status shown is the state of the socket: none, live, or trying. */
  lemma StatusFollowsSocket(states: seq<System>, events: seq<Event>, i: nat)
    requires Run(states, events) && i < |states|
    ensures states[i].client.status == StatusOf(states[i].client.link)
  {
    RunKeepsInv(states, events, i);
  }

  /** The reference count of a symbol is the number of mounted hook instances holding it, in every reachable state. */
  lemma PriceCountIsHolderCount(states: seq<System>, events: seq<Event>, i: nat, s: string)
    requires Run(states, events) && i < |states|
    ensures Count(states[i].client.prices, s) == |set id | id in states[i].hooks && s in states[i].hooks[id]|
    ensures s in states[i].client.prices <==> exists id :: id in states[i].hooks && s in states[i].hooks[id]
  {
    var sys := states[i];
    RunKeepsInv(states, events, i);
    PriceWantedIffHeld(sys, s);
    var holds := HoldsSymbol(s);
    var holding := set id | id in sys.hooks && holds(sys.hooks[id]);
    assert holding == set id | id in sys.hooks && s in sys.hooks[id];
    HoldingIs(sys.hooks, holds, holding);
  }

  /**
   * Why bar subscribers need fresh ids: subscribing keeps every candle count equal to its number of
   * holders exactly when the id is free or its present record was never counted (a blank symbol).
   */
  lemma BarCountsNeedFreshIds(sys: System, uid: string, p: Pair)
    requires SysInv(sys)
    ensures CandlesCounted(Next(sys, SubscribeBars(uid, p)))
            <==> uid !in sys.bars || KeyOf(sys.bars[uid]) == None
  {
    var c := Connect(sys.client);
    ConnectLeavesMaps(sys.client);
    var sys' := Next(sys, SubscribeBars(uid, p));
    forall key
      ensures Count(sys'.client.candles, key)
              == CandleHolders(sys', key) + Bit(uid in sys.bars && KeyOf(sys.bars[uid]) == Some(key))
    {
      CandleCallCounts(c, p, key);
      HoldingUpdate(sys.bars, uid, p, HoldsKey(key));
    }
    if uid in sys.bars && KeyOf(sys.bars[uid]).Some? {
      var key := KeyOf(sys.bars[uid]).value;
      assert Count(sys'.client.candles, key) == CandleHolders(sys', key) + 1;
    }
  }
}
