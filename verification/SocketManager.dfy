/**
 * The socket manager and its callers as objects. Each method is tied to the protocol's function of
 * the same name, about which the run theorems of `LiveSubscriptions` are proved.
 */
module SocketManagerClasses {
  import opened Wrappers
  import opened Text
  import opened CandleKey
  import opened P = SocketProtocol
  import L = LiveSubscriptions

  /** The socket library's object together with the far end it is talking to. */
  class RemoteSocket {
    var connected: bool
    var active: bool
    var outbox: seq<Message>
    var session: set<Topic>

    function View(): Link
      reads this
    {
      Link(connected, active, outbox, session)
    }

    constructor ()
      ensures View() == Link(false, true, [], {})
    {
      connected, active, outbox, session := false, true, [], {};
    }
  }

  class SocketManager {
    var socket: RemoteSocket?
    var priceSubscriptions: map<string, nat>
    var candleSubscriptions: map<string, nat>
    var connectionStatus: Status
    var manualDisconnect: bool

    function State(): Client
      reads this, socket
    {
      Client(if socket == null then None else Some(socket.View()),
             priceSubscriptions, candleSubscriptions, connectionStatus, manualDisconnect)
    }

    constructor ()
      ensures State() == INITIAL
    {
      socket, priceSubscriptions, candleSubscriptions := null, map[], map[];
      connectionStatus, manualDisconnect := Disconnected, false;
    }

    method ConnectSocket()
      modifies this, socket
      ensures State() == P.Connect(old(State()))
      ensures if old(socket) == null then fresh(socket) else socket == old(socket)
    {
      if socket != null {
        manualDisconnect := false;
        if !socket.connected && !socket.active {
          connectionStatus := Reconnecting;
          socket.active := true;
        }
        return;
      }
      manualDisconnect := false;
      socket := new RemoteSocket();
      connectionStatus := Reconnecting;
    }

    /** The library reports the close while the socket is still the current one. */
    method DisconnectSocket()
      modifies this, socket
      ensures State() == P.Disconnect(old(State())) && socket == null
    {
      manualDisconnect := true;
      connectionStatus := Disconnected;
      if socket != null && socket.connected {
        OnDisconnect(false);
      }
      socket := null;
    }

    method Emit(m: Message)
      modifies socket
      ensures socket != null ==> socket.View() == old(socket.View()).(outbox := old(socket.outbox) + [m])
    {
      if socket != null {
        socket.outbox := socket.outbox + [m];
      }
    }

    method EmitIfConnected(m: Message)
      modifies socket
      ensures State() == P.EmitWhenConnected(old(State()), m)
    {
      if socket == null || !socket.connected {
        return;
      }
      Emit(m);
    }

    method SubscribePrice(symbol: string)
      modifies this`priceSubscriptions, socket
      ensures State() == P.SubscribePrice(old(State()), symbol)
    {
      var normalizedSymbol := NormalizeSymbol(symbol);
      if normalizedSymbol == "" {
        return;
      }
      var nextCount := Count(priceSubscriptions, normalizedSymbol) + 1;
      priceSubscriptions := priceSubscriptions[normalizedSymbol := nextCount];
      if nextCount == 1 {
        EmitIfConnected(Subscribe(Price(normalizedSymbol)));
      }
    }

    method UnsubscribePrice(symbol: string)
      modifies this`priceSubscriptions, socket
      ensures State() == P.UnsubscribePrice(old(State()), symbol)
    {
      var normalizedSymbol := NormalizeSymbol(symbol);
      if normalizedSymbol == "" {
        return;
      }
      var currentCount := Count(priceSubscriptions, normalizedSymbol);
      if currentCount <= 1 {
        priceSubscriptions := priceSubscriptions - {normalizedSymbol};
        EmitIfConnected(Unsubscribe(Price(normalizedSymbol)));
        return;
      }
      priceSubscriptions := priceSubscriptions[normalizedSymbol := currentCount - 1];
    }

    method SubscribeCandles(symbol: string, resolution: string)
      modifies this`candleSubscriptions, socket
      ensures State() == P.SubscribeCandles(old(State()), symbol, resolution)
    {
      var normalizedSymbol := NormalizeSymbol(symbol);
      if normalizedSymbol == "" {
        return;
      }
      var key := BuildKey(normalizedSymbol, resolution);
      var nextCount := Count(candleSubscriptions, key) + 1;
      candleSubscriptions := candleSubscriptions[key := nextCount];
      if nextCount == 1 {
        EmitIfConnected(Subscribe(Candles(normalizedSymbol, resolution)));
      }
    }

    method UnsubscribeCandles(symbol: string, resolution: string)
      modifies this`candleSubscriptions, socket
      ensures State() == P.UnsubscribeCandles(old(State()), symbol, resolution)
    {
      var normalizedSymbol := NormalizeSymbol(symbol);
      if normalizedSymbol == "" {
        return;
      }
      var key := BuildKey(normalizedSymbol, resolution);
      var currentCount := Count(candleSubscriptions, key);
      if currentCount <= 1 {
        candleSubscriptions := candleSubscriptions - {key};
        EmitIfConnected(Unsubscribe(Candles(normalizedSymbol, resolution)));
        return;
      }
      candleSubscriptions := candleSubscriptions[key := currentCount - 1];
    }

    /** The library opens a session and fires `connect`: the handler replays every subscription. */
    method OnConnect() returns (ghost priceOrder: seq<string>, ghost candleOrder: seq<string>)
      requires socket != null && !socket.connected && socket.active
      modifies this`connectionStatus, socket
      ensures Possible(old(State()), Established(priceOrder, candleOrder))
      ensures State() == Happen(old(State()), Established(priceOrder, candleOrder))
    {
      socket.connected, socket.outbox, socket.session := true, [], {};
      connectionStatus := Connected;
      priceOrder, candleOrder := ReplaySubscriptions();
    }

    method ReplaySubscriptions() returns (ghost priceOrder: seq<string>, ghost candleOrder: seq<string>)
      requires socket != null && socket.outbox == []
      modifies socket
      ensures Enumerates(priceOrder, priceSubscriptions) && Enumerates(candleOrder, candleSubscriptions)
      ensures socket.View() == old(socket.View()).(outbox := Replay(priceOrder, candleOrder, TopicOf))
    {
      priceOrder := ReplayPrices();
      candleOrder := ReplayCandles(priceOrder);
    }

    method ReplayPrices() returns (ghost order: seq<string>)
      requires socket != null && socket.outbox == []
      modifies socket
      ensures Enumerates(order, priceSubscriptions)
      ensures socket.View() == old(socket.View()).(outbox := Replay(order, [], TopicOf))
    {
      order := [];
      var symbols := priceSubscriptions.Keys;
      while symbols != {}
        invariant |order| + |symbols| == |priceSubscriptions|
        invariant forall k :: k in priceSubscriptions <==> k in order || k in symbols
        invariant socket.View() == old(socket.View()).(outbox := Replay(order, [], TopicOf))
        decreases symbols
      {
        var symbol :| symbol in symbols;
        Emit(Subscribe(Price(symbol)));
        ReplaySteps(order, [], symbol, TopicOf);
        symbols := symbols - {symbol};
        order := order + [symbol];
      }
    }

    method ReplayCandles(ghost priceOrder: seq<string>) returns (ghost order: seq<string>)
      requires socket != null && socket.outbox == Replay(priceOrder, [], TopicOf)
      modifies socket
      ensures Enumerates(order, candleSubscriptions)
      ensures socket.View() == old(socket.View()).(outbox := Replay(priceOrder, order, TopicOf))
    {
      order := [];
      var keys := candleSubscriptions.Keys;
      while keys != {}
        invariant |order| + |keys| == |candleSubscriptions|
        invariant forall k :: k in candleSubscriptions <==> k in order || k in keys
        invariant socket.View() == old(socket.View()).(outbox := Replay(priceOrder, order, TopicOf))
        decreases keys
      {
        var key :| key in keys;
        Emit(Subscribe(TopicOf(key)));
        ReplaySteps(priceOrder, order, key, TopicOf);
        keys := keys - {key};
        order := order + [key];
      }
    }

    /** A dropped connection, or the tail of a manual disconnect. */
    method OnDisconnect(willRetry: bool)
      requires socket != null && socket.connected
      modifies this`connectionStatus, socket
      ensures State() == Happen(old(State()), Dropped(willRetry))
    {
      socket.connected, socket.active, socket.outbox, socket.session := false, willRetry, [], {};
      connectionStatus := if manualDisconnect then Disconnected else Reconnecting;
    }

    method OnConnectError(willRetry: bool)
      requires socket != null && !socket.connected && socket.active
      modifies this`connectionStatus, socket
      ensures State() == Happen(old(State()), Refused(willRetry))
    {
      socket.active := willRetry;
      connectionStatus := Reconnecting;
    }
  }

  /** One mounted instance of the live-price hook. */
  class LivePriceHook {
    var activeSymbols: seq<string>

    constructor ()
      ensures activeSymbols == []
    {
      activeSymbols := [];
    }

    method RunEffect(manager: SocketManager, symbols: seq<string>)
      modifies this, manager, manager.socket
      ensures activeSymbols == L.NormalizedSymbols(symbols)
      ensures manager.State() == L.RunEffect(old(manager.State()), old(activeSymbols), activeSymbols)
    {
      manager.ConnectSocket();
      var next := L.NormalizedSymbols(symbols);
      SubscribeNew(manager, next);
      UnsubscribeGone(manager, next);
      activeSymbols := next;
    }

    method SubscribeNew(manager: SocketManager, next: seq<string>)
      modifies manager, manager.socket
      ensures manager.socket == old(manager.socket)
      ensures manager.State() == L.SubscribeEach(old(manager.State()), L.Without(next, activeSymbols))
    {
      for i := 0 to |next|
        invariant manager.socket == old(manager.socket)
        invariant manager.State() == L.SubscribeEach(old(manager.State()), L.Without(next[..i], activeSymbols))
      {
        assert next[..i + 1][..i] == next[..i];
        if next[i] !in activeSymbols {
          manager.SubscribePrice(next[i]);
        }
      }
      assert next[..|next|] == next;
    }

    method UnsubscribeGone(manager: SocketManager, next: seq<string>)
      modifies manager, manager.socket
      ensures manager.socket == old(manager.socket)
      ensures manager.State() == L.UnsubscribeEach(old(manager.State()), L.Without(activeSymbols, next))
    {
      for i := 0 to |activeSymbols|
        invariant manager.socket == old(manager.socket)
        invariant manager.State() == L.UnsubscribeEach(old(manager.State()), L.Without(activeSymbols[..i], next))
      {
        assert activeSymbols[..i + 1][..i] == activeSymbols[..i];
        if activeSymbols[i] !in next {
          manager.UnsubscribePrice(activeSymbols[i]);
        }
      }
      assert activeSymbols[..|activeSymbols|] == activeSymbols;
    }

    method Cleanup(manager: SocketManager)
      modifies this, manager, manager.socket
      ensures activeSymbols == []
      ensures manager.State() == L.UnsubscribeEach(old(manager.State()), old(activeSymbols))
    {
      for i := 0 to |activeSymbols|
        invariant activeSymbols == old(activeSymbols) && manager.socket == old(manager.socket)
        invariant manager.State() == L.UnsubscribeEach(old(manager.State()), activeSymbols[..i])
      {
        assert activeSymbols[..i + 1][..i] == activeSymbols[..i];
        manager.UnsubscribePrice(activeSymbols[i]);
      }
      assert activeSymbols[..|activeSymbols|] == activeSymbols;
      activeSymbols := [];
    }
  }

  /** The chart library's datafeed: one record per bar subscriber. */
  class UdfDatafeed {
    var subscriptions: map<string, L.Pair>

    constructor ()
      ensures subscriptions == map[]
    {
      subscriptions := map[];
    }

    method SubscribeBars(manager: SocketManager, uid: string, pair: L.Pair)
      modifies this, manager, manager.socket
      ensures subscriptions == old(subscriptions)[uid := pair]
      ensures manager.State() == P.SubscribeCandles(P.Connect(old(manager.State())), pair.symbol, pair.resolution)
    {
      manager.ConnectSocket();
      manager.SubscribeCandles(pair.symbol, pair.resolution);
      subscriptions := subscriptions[uid := pair];
    }

    method UnsubscribeBars(manager: SocketManager, uid: string)
      modifies this, manager, manager.socket
      ensures subscriptions == old(subscriptions) - {uid}
      ensures manager.State() ==
              if uid !in old(subscriptions) then old(manager.State())
              else P.UnsubscribeCandles(old(manager.State()),
                                        old(subscriptions)[uid].symbol, old(subscriptions)[uid].resolution)
    {
      if uid !in subscriptions {
        return;
      }
      manager.UnsubscribeCandles(subscriptions[uid].symbol, subscriptions[uid].resolution);
      subscriptions := subscriptions - {uid};
    }
  }
}
