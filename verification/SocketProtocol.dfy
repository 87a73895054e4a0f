/**
 * The socket manager's client state, mirrored onto a remote session.
 *
 * The gateway is not part of this model. A session starts empty, a subscribe message inserts its
 * topic, an unsubscribe message removes it, messages arrive in order while the socket is connected,
 * and a drop loses both the messages in flight and the session.
 */
module SocketProtocol {
  import opened Wrappers
  import opened Text
  import opened CandleKey

  datatype Topic = Price(symbol: string) | Candles(candleSymbol: string, resolution: string)

  datatype Message = Subscribe(topic: Topic) | Unsubscribe(topic: Topic)

  datatype Status = Connected | Reconnecting | Disconnected

  /** `outbox` holds the emitted messages the gateway has not yet seen; `session` is the gateway's set. */
  datatype Link = Link(connected: bool, active: bool, outbox: seq<Message>, session: set<Topic>)

  datatype Client = Client(
    link: Option<Link>,
    prices: map<string, nat>,
    candles: map<string, nat>,
    status: Status,
    manual: bool)

  const INITIAL := Client(None, map[], map[], Disconnected, false)

  function Receive(session: set<Topic>, m: Message): set<Topic> {
    match m
    case Subscribe(t) => session + {t}
    case Unsubscribe(t) => session - {t}
  }

  function ReceiveAll(session: set<Topic>, queue: seq<Message>): set<Topic>
    decreases |queue|
  {
    if queue == [] then session else ReceiveAll(Receive(session, queue[0]), queue[1..])
  }

  lemma {:induction false} ReceiveAllAppend(session: set<Topic>, queue: seq<Message>, m: Message)
    ensures ReceiveAll(session, queue + [m]) == Receive(ReceiveAll(session, queue), m)
    decreases |queue|
  {
    if queue == [] {
      assert queue + [m] == [m];
    } else {
      ReceiveAllAppend(Receive(session, queue[0]), queue[1..], m);
      assert (queue + [m])[1..] == queue[1..] + [m];
    }
  }

  // ---- reference counts ----

  function Count<K>(counts: map<K, nat>, k: K): nat {
    if k in counts then counts[k] else 0
  }

  function Increment<K>(counts: map<K, nat>, k: K): map<K, nat> {
    counts[k := Count(counts, k) + 1]
  }

  function Decrement<K>(counts: map<K, nat>, k: K): map<K, nat> {
    if Count(counts, k) <= 1 then counts - {k} else counts[k := counts[k] - 1]
  }

  ghost predicate Positive<K(!new)>(counts: map<K, nat>) {
    forall k :: k in counts ==> counts[k] > 0
  }

  lemma CountKeys<K(!new)>(counts: map<K, nat>, k: K)
    requires Positive(counts)
    ensures Positive(Increment(counts, k)) && Positive(Decrement(counts, k))
    ensures Increment(counts, k).Keys == counts.Keys + {k}
    ensures Decrement(counts, k).Keys == if Count(counts, k) <= 1 then counts.Keys - {k} else counts.Keys
    ensures Count(counts, k) > 0 ==> k in counts.Keys
  {
  }

  // ---- the manager's operations ----

  function EmitWhenConnected(c: Client, m: Message): Client {
    if c.link.Some? && c.link.value.connected then
      c.(link := Some(c.link.value.(outbox := c.link.value.outbox + [m])))
    else
      c
  }

  function HoldPrice(c: Client, symbol: string): Client {
    var c' := c.(prices := Increment(c.prices, symbol));
    if Count(c.prices, symbol) == 0 then EmitWhenConnected(c', Subscribe(Price(symbol))) else c'
  }

  function ReleasePrice(c: Client, symbol: string): Client {
    var c' := c.(prices := Decrement(c.prices, symbol));
    if Count(c.prices, symbol) <= 1 then EmitWhenConnected(c', Unsubscribe(Price(symbol))) else c'
  }

  function HoldCandles(c: Client, key: string, topic: Topic): Client {
    var c' := c.(candles := Increment(c.candles, key));
    if Count(c.candles, key) == 0 then EmitWhenConnected(c', Subscribe(topic)) else c'
  }

  function ReleaseCandles(c: Client, key: string, topic: Topic): Client {
    var c' := c.(candles := Decrement(c.candles, key));
    if Count(c.candles, key) <= 1 then EmitWhenConnected(c', Unsubscribe(topic)) else c'
  }

  function SubscribePrice(c: Client, raw: string): Client {
    var symbol := NormalizeSymbol(raw);
    if symbol == "" then c else HoldPrice(c, symbol)
  }

  function UnsubscribePrice(c: Client, raw: string): Client {
    var symbol := NormalizeSymbol(raw);
    if symbol == "" then c else ReleasePrice(c, symbol)
  }

  function SubscribeCandles(c: Client, raw: string, resolution: string): Client {
    var symbol := NormalizeSymbol(raw);
    if symbol == "" then c else HoldCandles(c, BuildKey(symbol, resolution), Candles(symbol, resolution))
  }

  function UnsubscribeCandles(c: Client, raw: string, resolution: string): Client {
    var symbol := NormalizeSymbol(raw);
    if symbol == "" then c else ReleaseCandles(c, BuildKey(symbol, resolution), Candles(symbol, resolution))
  }

  /** `connect(token)`; the token only travels in the handshake and is not modelled. */
  function Connect(c: Client): Client {
    match c.link
    case None =>
      c.(link := Some(Link(false, true, [], {})), manual := false, status := Reconnecting)
    case Some(l) =>
      if !l.connected && !l.active then
        c.(link := Some(l.(active := true)), manual := false, status := Reconnecting)
      else
        c.(manual := false)
  }

  function Disconnect(c: Client): Client {
    c.(link := None, manual := true, status := Disconnected)
  }

  function PriceTopic(symbol: string): Topic {
    Price(symbol)
  }

  function TopicOf(key: string): Topic {
    var (symbol, resolution) := ParseKey(key);
    Candles(symbol, resolution)
  }

  /**
   * The messages a replay emits when the two maps enumerate their keys in these orders, with `topic`
   * saying how a candle key reads back. The protocol runs with `TopicOf`; keeping the reading abstract
   * keeps string splitting out of the proofs below.
   */
  function Replay(priceOrder: seq<string>, candleOrder: seq<string>, topic: string -> Topic): seq<Message> {
    seq(|priceOrder|, i requires 0 <= i < |priceOrder| => Subscribe(Price(priceOrder[i]))) +
    seq(|candleOrder|, i requires 0 <= i < |candleOrder| => Subscribe(topic(candleOrder[i])))
  }

  lemma ReplaySteps(po: seq<string>, co: seq<string>, k: string, topic: string -> Topic)
    ensures Replay(po + [k], [], topic) == Replay(po, [], topic) + [Subscribe(Price(k))]
    ensures Replay(po, co + [k], topic) == Replay(po, co, topic) + [Subscribe(topic(k))]
  {
  }

  ghost predicate Enumerates<K(!new)>(order: seq<K>, counts: map<K, nat>) {
    && |order| == |counts|
    && forall k :: k in order <==> k in counts
  }

  /** What the socket library and the network can do, besides calls into the manager. */
  datatype SocketEvent =
    | Established(priceOrder: seq<string>, candleOrder: seq<string>)
    | Dropped(willRetry: bool)
    | Refused(willRetry: bool)
    | Delivered

  ghost predicate Possible(c: Client, e: SocketEvent) {
    && c.link.Some?
    && match e
       case Established(po, co) =>
         !c.link.value.connected && c.link.value.active && Enumerates(po, c.prices) && Enumerates(co, c.candles)
       case Dropped(_) => c.link.value.connected
       case Refused(_) => !c.link.value.connected && c.link.value.active
       case Delivered => c.link.value.connected && c.link.value.outbox != []
  }

  ghost function Happen(c: Client, e: SocketEvent): Client
    requires Possible(c, e)
  {
    var l := c.link.value;
    match e
    case Established(po, co) =>
      c.(link := Some(Link(true, true, Replay(po, co, TopicOf), {})), status := Connected)
    case Dropped(willRetry) =>
      c.(link := Some(Link(false, willRetry, [], {})), status := if c.manual then Disconnected else Reconnecting)
    case Refused(willRetry) =>
      c.(link := Some(l.(active := willRetry)), status := Reconnecting)
    case Delivered =>
      c.(link := Some(l.(outbox := l.outbox[1..], session := Receive(l.session, l.outbox[0]))))
  }

  // ---- the mirror invariant ----

  ghost function Image(keys: set<string>, topic: string -> Topic): set<Topic> {
    set k | k in keys :: topic(k)
  }

  /** Every topic the client's maps ask for. */
  ghost function Wanted(c: Client, topic: string -> Topic): set<Topic> {
    Image(c.prices.Keys, PriceTopic) + Image(c.candles.Keys, topic)
  }

  /** What the gateway's session becomes once everything in flight has arrived. */
  function Eventually(l: Link): set<Topic> {
    ReceiveAll(l.session, l.outbox)
  }

  ghost predicate Mirrored(c: Client, topic: string -> Topic) {
    c.link.Some? ==>
      if c.link.value.connected then Eventually(c.link.value) == Wanted(c, topic)
      else c.link.value.outbox == [] && c.link.value.session == {}
  }

  function StatusOf(link: Option<Link>): Status {
    match link
    case None => Disconnected
    case Some(l) => if l.connected then Connected else Reconnecting
  }

  ghost predicate FaithfulKeys(keys: set<string>) {
    forall k :: k in keys ==> Faithful(k)
  }

  ghost predicate Inv(c: Client) {
    && Mirrored(c, TopicOf)
    && c.status == StatusOf(c.link)
    && (c.manual ==> c.link.None?)
    && Positive(c.prices) && Positive(c.candles)
    && FaithfulKeys(c.candles.Keys)
  }

  /** Changing the maps by one topic and sending the matching message keeps the mirror. */
  lemma EmitMirrors(c: Client, c': Client, m: Message, topic: string -> Topic)
    requires Mirrored(c, topic) && c'.link == c.link
    requires Wanted(c', topic) == Receive(Wanted(c, topic), m)
    ensures Mirrored(EmitWhenConnected(c', m), topic)
  {
    var sent := EmitWhenConnected(c', m);
    assert Wanted(sent, topic) == Wanted(c', topic);
    if c.link.Some? && c.link.value.connected {
      ReceiveAllAppend(c.link.value.session, c.link.value.outbox, m);
    }
  }

  lemma ImageChange(keys: set<string>, key: string, topic: string -> Topic)
    requires forall k :: k in keys && topic(k) == topic(key) ==> k == key
    ensures Image(keys + {key}, topic) == Image(keys, topic) + {topic(key)}
    ensures Image(keys - {key}, topic) == Image(keys, topic) - {topic(key)}
  {
    assert key in keys + {key};
    forall t | t in Image(keys, topic) && t != topic(key) ensures t in Image(keys - {key}, topic) {
      var k :| k in keys && t == topic(k);
      assert k in keys - {key};
    }
  }

  lemma HoldPriceMirrors(c: Client, symbol: string, topic: string -> Topic)
    requires Mirrored(c, topic) && Positive(c.prices)
    ensures Mirrored(HoldPrice(c, symbol), topic)
  {
    var c' := c.(prices := Increment(c.prices, symbol));
    CountKeys(c.prices, symbol);
    ImageChange(c.prices.Keys, symbol, PriceTopic);
    if Count(c.prices, symbol) == 0 {
      EmitMirrors(c, c', Subscribe(Price(symbol)), topic);
    } else {
      assert c'.prices.Keys == c.prices.Keys;
    }
  }

  lemma ReleasePriceMirrors(c: Client, symbol: string, topic: string -> Topic)
    requires Mirrored(c, topic) && Positive(c.prices)
    requires forall k :: topic(k).Candles?
    ensures Mirrored(ReleasePrice(c, symbol), topic)
  {
    var c' := c.(prices := Decrement(c.prices, symbol));
    CountKeys(c.prices, symbol);
    ImageChange(c.prices.Keys, symbol, PriceTopic);
    if Count(c.prices, symbol) <= 1 {
      assert Price(symbol) !in Image(c.candles.Keys, topic);
      EmitMirrors(c, c', Unsubscribe(Price(symbol)), topic);
    }
  }

  lemma HoldCandlesMirrors(c: Client, key: string, topic: string -> Topic)
    requires Mirrored(c, topic) && Positive(c.candles)
    requires forall k :: k in c.candles.Keys && topic(k) == topic(key) ==> k == key
    ensures Mirrored(HoldCandles(c, key, topic(key)), topic)
  {
    var c' := c.(candles := Increment(c.candles, key));
    CountKeys(c.candles, key);
    ImageChange(c.candles.Keys, key, topic);
    if Count(c.candles, key) == 0 {
      EmitMirrors(c, c', Subscribe(topic(key)), topic);
    } else {
      assert c'.candles.Keys == c.candles.Keys;
    }
  }

  lemma ReleaseCandlesMirrors(c: Client, key: string, topic: string -> Topic)
    requires Mirrored(c, topic) && Positive(c.candles)
    requires topic(key).Candles? && forall k :: k in c.candles.Keys && topic(k) == topic(key) ==> k == key
    ensures Mirrored(ReleaseCandles(c, key, topic(key)), topic)
  {
    var c' := c.(candles := Decrement(c.candles, key));
    CountKeys(c.candles, key);
    ImageChange(c.candles.Keys, key, topic);
    if Count(c.candles, key) <= 1 {
      assert topic(key) !in Image(c.prices.Keys, PriceTopic);
      EmitMirrors(c, c', Unsubscribe(topic(key)), topic);
    }
  }

  lemma FaithfulTopics(keys: set<string>, key: string)
    requires FaithfulKeys(keys) && Faithful(key)
    ensures forall k :: k in keys && TopicOf(k) == TopicOf(key) ==> k == key
  {
    forall k | k in keys && TopicOf(k) == TopicOf(key) ensures k == key {
      FaithfulInjective(k, key);
    }
  }

  lemma CleanPairsAreFaithful(symbol: string, resolution: string)
    requires Clean(symbol, resolution)
    ensures Faithful(BuildKey(symbol, resolution))
    ensures TopicOf(BuildKey(symbol, resolution)) == Candles(symbol, resolution)
  {
    KeyRoundTrip(symbol, resolution);
  }

  lemma PriceCallsKeepInv(c: Client, raw: string)
    requires Inv(c)
    ensures Inv(SubscribePrice(c, raw)) && Inv(UnsubscribePrice(c, raw))
  {
    var symbol := NormalizeSymbol(raw);
    CountKeys(c.prices, symbol);
    HoldPriceMirrors(c, symbol, TopicOf);
    ReleasePriceMirrors(c, symbol, TopicOf);
  }

  /** Between the two states the message was sent once if what is wanted changed, and nothing was sent otherwise. */
  ghost predicate SentOnChange(c: Client, c': Client, m: Message, topic: string -> Topic) {
    && c.link.Some? && c'.link.Some?
    && c'.link.value.outbox == c.link.value.outbox + (if Wanted(c', topic) == Wanted(c, topic) then [] else [m])
  }

  /** On a live connection a price call sends one message exactly when it changes what is wanted. */
  lemma PriceMessagesAreChanges(c: Client, symbol: string)
    requires Inv(c) && c.link.Some? && c.link.value.connected
    ensures SentOnChange(c, HoldPrice(c, symbol), Subscribe(Price(symbol)), TopicOf)
    ensures symbol in c.prices ==> SentOnChange(c, ReleasePrice(c, symbol), Unsubscribe(Price(symbol)), TopicOf)
  {
    var topic := Price(symbol);
    CountKeys(c.prices, symbol);
    ImageChange(c.prices.Keys, symbol, PriceTopic);
    assert symbol in c.prices.Keys <==> topic in Wanted(c, TopicOf) by {
      assert topic !in Image(c.candles.Keys, TopicOf);
      assert symbol in c.prices.Keys ==> PriceTopic(symbol) in Image(c.prices.Keys, PriceTopic);
    }
    assert topic in Wanted(HoldPrice(c, symbol), TopicOf);
    WantedAfterRelease(c, symbol);
  }

  lemma WantedAfterRelease(c: Client, symbol: string)
    requires Inv(c)
    ensures Price(symbol) in Wanted(ReleasePrice(c, symbol), TopicOf) <==> Count(c.prices, symbol) > 1
  {
    var released := ReleasePrice(c, symbol);
    CountKeys(c.prices, symbol);
    assert Price(symbol) !in Image(released.candles.Keys, TopicOf);
    assert symbol in released.prices.Keys ==> PriceTopic(symbol) in Image(released.prices.Keys, PriceTopic);
  }

  /** So does a candle call, as long as no other key reads back as the same pair. */
  lemma CandleMessagesAreChanges(c: Client, key: string, topic: string -> Topic)
    requires Positive(c.candles) && c.link.Some? && c.link.value.connected
    requires topic(key).Candles? && forall k :: k in c.candles.Keys && topic(k) == topic(key) ==> k == key
    ensures SentOnChange(c, HoldCandles(c, key, topic(key)), Subscribe(topic(key)), topic)
    ensures key in c.candles ==>
              SentOnChange(c, ReleaseCandles(c, key, topic(key)), Unsubscribe(topic(key)), topic)
  {
    var held, released := HoldCandles(c, key, topic(key)), ReleaseCandles(c, key, topic(key));
    CountKeys(c.candles, key);
    CandleWanted(c, key, topic);
    CandleWanted(held, key, topic);
    CandleWanted(released, key, topic);
    if key in c.candles && Count(c.candles, key) > 1 {
      assert released.candles.Keys == c.candles.Keys;
    }
    if key in c.candles {
      assert held.candles.Keys == c.candles.Keys;
    }
  }

  lemma CandleWanted(c: Client, key: string, topic: string -> Topic)
    requires topic(key).Candles? && forall k :: k in c.candles.Keys && topic(k) == topic(key) ==> k == key
    ensures topic(key) in Wanted(c, topic) <==> key in c.candles
  {
    assert topic(key) !in Image(c.prices.Keys, PriceTopic);
    assert key in c.candles.Keys ==> topic(key) in Image(c.candles.Keys, topic);
  }

  lemma CandleCallsKeepInv(c: Client, raw: string, resolution: string)
    requires Inv(c) && Clean(NormalizeSymbol(raw), resolution)
    ensures Inv(SubscribeCandles(c, raw, resolution)) && Inv(UnsubscribeCandles(c, raw, resolution))
  {
    var symbol := NormalizeSymbol(raw);
    var key := BuildKey(symbol, resolution);
    CleanPairsAreFaithful(symbol, resolution);
    FaithfulTopics(c.candles.Keys, key);
    CountKeys(c.candles, key);
    HoldCandlesMirrors(c, key, TopicOf);
    ReleaseCandlesMirrors(c, key, TopicOf);
  }

  lemma {:induction false} ReceiveSubscribes(session: set<Topic>, queue: seq<Message>)
    requires forall m :: m in queue ==> m.Subscribe?
    ensures forall t :: t in ReceiveAll(session, queue) <==> t in session || Subscribe(t) in queue
    decreases |queue|
  {
    if queue != [] {
      var rest := queue[1..];
      ReceiveSubscribes(Receive(session, queue[0]), rest);
      assert forall m :: m in queue <==> m == queue[0] || m in rest;
    }
  }

  /** A replay over an empty session rebuilds exactly the wanted topics, whatever order the maps enumerate in. */
  lemma ReplayRebuilds(c: Client, priceOrder: seq<string>, candleOrder: seq<string>, topic: string -> Topic)
    requires Enumerates(priceOrder, c.prices) && Enumerates(candleOrder, c.candles)
    ensures ReceiveAll({}, Replay(priceOrder, candleOrder, topic)) == Wanted(c, topic)
    ensures |Replay(priceOrder, candleOrder, topic)| == |c.prices| + |c.candles|
  {
    var queue := Replay(priceOrder, candleOrder, topic);
    ReceiveSubscribes({}, queue);
    forall t | t in Wanted(c, topic) ensures Subscribe(t) in queue {
      if t in Image(c.prices.Keys, PriceTopic) {
        var i :| 0 <= i < |priceOrder| && priceOrder[i] == t.symbol;
        assert queue[i] == Subscribe(t);
      } else {
        var k :| k in c.candles.Keys && t == topic(k);
        var i :| 0 <= i < |candleOrder| && candleOrder[i] == k;
        assert queue[|priceOrder| + i] == Subscribe(t);
      }
    }
    forall t | Subscribe(t) in queue ensures t in Wanted(c, topic) {
      var i :| 0 <= i < |queue| && queue[i] == Subscribe(t);
      if i < |priceOrder| {
        assert priceOrder[i] in priceOrder;
      } else {
        assert candleOrder[i - |priceOrder|] in candleOrder;
      }
    }
  }

  lemma HappenInv(c: Client, e: SocketEvent)
    requires Inv(c) && Possible(c, e)
    ensures Inv(Happen(c, e))
  {
    assert Wanted(Happen(c, e), TopicOf) == Wanted(c, TopicOf);
    if e.Established? {
      ReplayRebuilds(c, e.priceOrder, e.candleOrder, TopicOf);
    }
  }

  lemma ConnectInv(c: Client)
    requires Inv(c)
    ensures Inv(Connect(c))
  {
    assert Wanted(Connect(c), TopicOf) == Wanted(c, TopicOf);
  }

  /** Blank symbols are ignored by every call. */
  lemma BlankSymbolsIgnored(c: Client, raw: string, resolution: string)
    requires NormalizeSymbol(raw) == ""
    ensures SubscribePrice(c, raw) == UnsubscribePrice(c, raw) == c
    ensures SubscribeCandles(c, raw, resolution) == UnsubscribeCandles(c, raw, resolution) == c
  {
  }

  /** Letting go of something not held sends one message on a live connection, and changes nothing else. */
  lemma StrayReleaseOnlySends(c: Client, symbol: string, key: string, topic: Topic)
    requires c.link.Some? && c.link.value.connected
    ensures symbol !in c.prices ==>
              && ReleasePrice(c, symbol).link.value.outbox == c.link.value.outbox + [Unsubscribe(Price(symbol))]
              && ReleasePrice(c, symbol).(link := c.link) == c
    ensures key !in c.candles ==>
              && ReleaseCandles(c, key, topic).link.value.outbox == c.link.value.outbox + [Unsubscribe(topic)]
              && ReleaseCandles(c, key, topic).(link := c.link) == c
  {
    assert symbol !in c.prices ==> c.prices - {symbol} == c.prices;
    assert key !in c.candles ==> c.candles - {key} == c.candles;
  }

  // ---- getting connected ----

  /** The socket is live, or the library is trying to make it so. */
  predicate Trying(c: Client) {
    c.link.Some? && (c.link.value.connected || c.link.value.active)
  }

  /**
   * `connect` always gets things going: an absent socket is created, an idle one woken, any other left as
   * it is. It forgets a manual disconnect and keeps every subscription.
   */
  lemma ConnectSpec(c: Client)
    ensures var c' := Connect(c);
            && Trying(c') && !c'.manual && c'.prices == c.prices && c'.candles == c.candles
            && (Trying(c) ==> c'.link == c.link && c'.status == c.status)
            && (!Trying(c) ==> c'.status == Reconnecting && !c'.link.value.connected)
  {
  }

  /** A manual disconnect ends with no socket and keeps every subscription for the next one. */
  lemma DisconnectSpec(c: Client)
    ensures var c' := Disconnect(c);
            && c'.link.None? && c'.status == Disconnected && c'.manual
            && c'.prices == c.prices && c'.candles == c.candles
  {
  }

  /** The keys of a map in some order. */
  lemma SomeOrder<K(!new)>(counts: map<K, nat>) returns (order: seq<K>)
    ensures Enumerates(order, counts)
    decreases |counts|
  {
    if counts == map[] {
      order := [];
    } else {
      var k :| k in counts;
      var fewer := counts - {k};
      assert counts.Keys == fewer.Keys + {k};
      assert |counts| == |fewer| + 1;
      var rest := SomeOrder(fewer);
      order := rest + [k];
    }
  }

  /** While the library is trying, the next thing it can do is to establish the connection. */
  lemma EstablishedIsNext(c: Client) returns (priceOrder: seq<string>, candleOrder: seq<string>)
    requires Trying(c) && !c.link.value.connected
    ensures Possible(c, Established(priceOrder, candleOrder))
    ensures var c' := Happen(c, Established(priceOrder, candleOrder));
            c'.link.Some? && c'.link.value.connected && c'.status == Connected
  {
    priceOrder := SomeOrder(c.prices);
    candleOrder := SomeOrder(c.candles);
  }

  /** Keys in the map were built from a pair, so they hold a separator. */
  ghost predicate BuiltKeys(keys: set<string>) {
    forall k :: k in keys ==> Contains(k, "::")
  }

  /**
   * Why candle subscriptions must be clean: whatever else is subscribed and in whatever order the maps
   * enumerate, dropping and re-establishing a connection after a subscription asks the gateway for that
   * pair again exactly when the pair is clean.
   */
  lemma ReplayKeepsExactlyCleanPairs(
      c: Client, raw: string, resolution: string, priceOrder: seq<string>, candleOrder: seq<string>)
    requires c.link.Some? && c.link.value.connected && BuiltKeys(c.candles.Keys)
    requires NormalizeSymbol(raw) != ""
    requires var dropped := Happen(SubscribeCandles(c, raw, resolution), Dropped(true));
             Possible(dropped, Established(priceOrder, candleOrder))
    ensures var dropped := Happen(SubscribeCandles(c, raw, resolution), Dropped(true));
            var again := Happen(dropped, Established(priceOrder, candleOrder));
            Candles(NormalizeSymbol(raw), resolution) in Eventually(again.link.value)
            <==> Clean(NormalizeSymbol(raw), resolution)
  {
    var symbol := NormalizeSymbol(raw);
    var key := BuildKey(symbol, resolution);
    var dropped := Happen(SubscribeCandles(c, raw, resolution), Dropped(true));
    assert dropped.candles.Keys == c.candles.Keys + {key};
    assert OccursAt(key, "::", |symbol|);
    ReplayRebuilds(dropped, priceOrder, candleOrder, TopicOf);
    WantedPairs(dropped, key, symbol, resolution);
  }

  lemma WantedPairs(c: Client, key: string, symbol: string, resolution: string)
    requires BuiltKeys(c.candles.Keys) && key in c.candles.Keys && key == BuildKey(symbol, resolution)
    ensures Candles(symbol, resolution) in Wanted(c, TopicOf) <==> Clean(symbol, resolution)
  {
    var t := Candles(symbol, resolution);
    assert t !in Image(c.prices.Keys, PriceTopic);
    KeyRoundTrip(symbol, resolution);
    if Clean(symbol, resolution) {
      assert TopicOf(key) == t;
    }
    if k :| k in c.candles.Keys && TopicOf(k) == t {
      ParsedIsClean(k);
    }
  }
}
