/**
 * The fixed-window rate limiter over Redis INCR and EXPIRE.
 *
 * A trace lists the commands Redis executes, in order, with the time of each. Requests for the same
 * key interleave freely: only the request that read 1 owes an EXPIRE, and anything may happen first.
 */
module RateLimit {
  import opened Wrappers
  import opened Text

  datatype Event = Incr(key: string, time: int) | Expire(key: string, time: int)

  datatype Counter = Absent | Live(count: nat, deadline: Option<int>)

  /** `expireOwed`: some request read 1 from this key and has not executed its EXPIRE yet. */
  datatype KeyState = KeyState(counter: Counter, expireOwed: bool)

  /** The counter as a command at time `now` finds it. */
  function At(c: Counter, now: int): Counter {
    if c.Live? && c.deadline.Some? && c.deadline.value <= now then Absent else c
  }

  function AfterIncr(c: Counter, now: int): Counter {
    match At(c, now)
    case Absent => Live(1, None)
    case Live(n, d) => Live(n + 1, d)
  }

  function AfterExpire(c: Counter, now: int, ttl: int): Counter {
    match At(c, now)
    case Absent => Absent
    case Live(n, _) => Live(n, Some(now + ttl))
  }

  function Step(s: KeyState, e: Event, ttl: int): KeyState {
    match e
    case Incr(_, t) =>
      var c := AfterIncr(s.counter, t);
      KeyState(c, s.expireOwed || c.count == 1)
    case Expire(_, t) => KeyState(AfterExpire(s.counter, t, ttl), false)
  }

  /** One key's state after a trace; commands on other keys do not touch it. */
  function After(trace: seq<Event>, key: string, ttl: int): KeyState {
    if trace == [] then KeyState(Absent, false) else
    var before := After(trace[..|trace| - 1], key, ttl);
    var e := trace[|trace| - 1];
    if e.key == key then Step(before, e, ttl) else before
  }

  /** Nothing in the trace is later than `now`. */
  predicate NotAfter(trace: seq<Event>, now: int) {
    trace == [] || trace[|trace| - 1].time <= now
  }

  /** Time never runs backwards and an EXPIRE comes only from a request that owes one. */
  predicate Legal(trace: seq<Event>, ttl: int) {
    trace == [] ||
    var n := |trace| - 1;
    && Legal(trace[..n], ttl)
    && NotAfter(trace[..n], trace[n].time)
    && (trace[n].Expire? ==> After(trace[..n], trace[n].key, ttl).expireOwed)
  }

  lemma {:induction false} LegalPrefix(trace: seq<Event>, ttl: int, n: nat)
    requires Legal(trace, ttl) && n <= |trace|
    ensures Legal(trace[..n], ttl)
  {
    if n == |trace| {
      assert trace[..n] == trace;
    } else {
      LegalPrefix(trace[..|trace| - 1], ttl, n);
      assert trace[..|trace| - 1][..n] == trace[..n];
    }
  }

  /** The number the request of command `i` reads back. */
  function Reading(trace: seq<Event>, i: nat, ttl: int): nat
    requires i < |trace| && trace[i].Incr?
  {
    AfterIncr(After(trace[..i], trace[i].key, ttl).counter, trace[i].time).count
  }

  predicate Admitted(trace: seq<Event>, i: nat, ttl: int, limit: nat)
    requires i < |trace| && trace[i].Incr?
  {
    Reading(trace, i, ttl) <= limit
  }

  /** How many requests on `key` with an INCR in `[from, from + ttl)` are admitted. */
  function AdmittedIn(trace: seq<Event>, key: string, from: int, ttl: int, limit: nat): nat {
    if trace == [] then 0 else
    var n := |trace| - 1;
    AdmittedIn(trace[..n], key, from, ttl, limit)
    + Bit(trace[n].Incr? && trace[n].key == key && from <= trace[n].time < from + ttl && Admitted(trace, n, ttl, limit))
  }

  function Min(a: int, b: int): int {
    if a < b then a else b
  }

  function CountOf(c: Counter): nat {
    if c.Live? then c.count else 0
  }

  /**
   * While the window is open, either the running lifetime began before it, so its first request lies
   * outside, or exactly one lifetime began inside it, and that one outlives the window.
   */
  predicate WindowInv(s: KeyState, admitted: nat, last: int, from: int, ttl: int, limit: nat) {
    var c := s.counter;
    && (c.Live? ==> c.count >= 1)
    && (s.expireOwed ==> c.Live? && c.deadline.None?)
    && (|| admitted == 0
        || (last >= from && admitted <= Min(CountOf(c), limit) - 1)
        || (&& last >= from && c.Live?
            && (c.deadline.Some? ==> c.deadline.value >= from + ttl)
            && admitted <= limit - 1 + Min(c.count, limit)))
  }

  lemma StepKeepsWindowInv(s: KeyState, e: Event, admitted: nat, last: int, from: int, ttl: int, limit: nat)
    requires limit >= 1 && ttl > 0
    requires WindowInv(s, admitted, last, from, ttl, limit)
    requires last <= e.time < from + ttl && (e.Expire? ==> s.expireOwed)
    ensures
      var admits := e.Incr? && from <= e.time && AfterIncr(s.counter, e.time).count <= limit;
      WindowInv(Step(s, e, ttl), admitted + Bit(admits), e.time, from, ttl, limit)
  {
  }

  lemma {:induction false} WindowBound(trace: seq<Event>, key: string, from: int, ttl: int, limit: nat)
    requires Legal(trace, ttl) && limit >= 1 && ttl > 0
    ensures AdmittedIn(trace, key, from, ttl, limit) <= 2 * limit - 1
    ensures trace == [] || trace[|trace| - 1].time < from + ttl ==>
              WindowInv(After(trace, key, ttl), AdmittedIn(trace, key, from, ttl, limit),
                        if trace == [] then from - 1 else trace[|trace| - 1].time, from, ttl, limit)
  {
    if trace != [] {
      var n := |trace| - 1;
      var e := trace[n];
      WindowBound(trace[..n], key, from, ttl, limit);
      var last := if n == 0 then from - 1 else trace[n - 1].time;
      if e.time < from + ttl && e.key == key {
        var s := After(trace[..n], key, ttl);
        StepKeepsWindowInv(s, e, AdmittedIn(trace[..n], key, from, ttl, limit), Min(last, e.time), from, ttl, limit);
      }
    }
  }

  lemma {:induction false} ZeroLimitAdmitsNone(trace: seq<Event>, key: string, from: int, ttl: int)
    ensures AdmittedIn(trace, key, from, ttl, 0) == 0
  {
    if trace != [] {
      ZeroLimitAdmitsNone(trace[..|trace| - 1], key, from, ttl);
    }
  }

  /** What one key can admit in any half-open interval of one window's length. */
  function MostPerWindow(limit: nat): nat {
    if limit == 0 then 0 else 2 * limit - 1
  }

  /**
   * Any half-open interval of length `ttl` admits fewer than twice the limit for one key, however
   * requests interleave and however late an EXPIRE comes.
   */
  lemma SlidingWindowBound(trace: seq<Event>, key: string, from: int, ttl: int, limit: nat)
    requires Legal(trace, ttl) && ttl > 0
    ensures AdmittedIn(trace, key, from, ttl, limit) <= MostPerWindow(limit)
  {
    if limit == 0 {
      ZeroLimitAdmitsNone(trace, key, from, ttl);
    } else {
      WindowBound(trace, key, from, ttl, limit);
    }
  }

  // ---- the bound is reached ----

  lemma Append(trace: seq<Event>, e: Event, from: int, ttl: int, limit: nat)
    requires Legal(trace, ttl)
    requires NotAfter(trace, e.time)
    requires e.Expire? ==> After(trace, e.key, ttl).expireOwed
    ensures Legal(trace + [e], ttl)
    ensures After(trace + [e], e.key, ttl) == Step(After(trace, e.key, ttl), e, ttl)
    ensures AdmittedIn(trace + [e], e.key, from, ttl, limit)
            == AdmittedIn(trace, e.key, from, ttl, limit)
               + Bit(e.Incr? && from <= e.time < from + ttl
                     && AfterIncr(After(trace, e.key, ttl).counter, e.time).count <= limit)
  {
    assert (trace + [e])[..|trace|] == trace;
  }

  function Burst(key: string, time: int, n: nat): seq<Event> {
    if n == 0 then [] else Burst(key, time, n - 1) + [Incr(key, time)]
  }

  /** A legal trace up to `now` that leaves the key's counter at `c` and has admitted this many in the window. */
  predicate Reaches(
    trace: seq<Event>, key: string, now: int, c: Counter, admitted: nat, from: int, ttl: int, limit: nat)
  {
    && Legal(trace, ttl) && NotAfter(trace, now)
    && After(trace, key, ttl).counter == c
    && AdmittedIn(trace, key, from, ttl, limit) == admitted
  }

  lemma OneMore(trace: seq<Event>, key: string, now: int, c: Counter, admitted: nat, from: int, ttl: int, limit: nat)
    requires Reaches(trace, key, now, c, admitted, from, ttl, limit)
    requires from <= now < from + ttl && AfterIncr(c, now).count <= limit
    ensures Reaches(trace + [Incr(key, now)], key, now, AfterIncr(c, now), admitted + 1, from, ttl, limit)
  {
    Append(trace, Incr(key, now), from, ttl, limit);
  }

  lemma {:induction false} BurstAdmitted(
      trace: seq<Event>, key: string, time: int, c: Counter, admitted: nat, n: nat, from: int, ttl: int, limit: nat)
    requires Reaches(trace, key, time, c, admitted, from, ttl, limit) && from <= time < from + ttl
    requires c.Live? && At(c, time) == c && c.count + n <= limit
    ensures Reaches(trace + Burst(key, time, n), key, time, Live(c.count + n, c.deadline), admitted + n,
                    from, ttl, limit)
  {
    if n == 0 {
      assert trace + [] == trace;
    } else {
      var shorter := trace + Burst(key, time, n - 1);
      BurstAdmitted(trace, key, time, c, admitted, n - 1, from, ttl, limit);
      OneMore(shorter, key, time, Live(c.count + n - 1, c.deadline), admitted + n - 1, from, ttl, limit);
      assert trace + Burst(key, time, n) == shorter + [Incr(key, time)];
    }
  }

  /** One request opens a window, the rest of its quota comes at the very end, and the next quota right after. */
  function WorstTrace(key: string, ttl: int, limit: nat): seq<Event>
    requires limit >= 1
  {
    [Incr(key, 0), Expire(key, 0)] + Burst(key, ttl - 1, limit - 1) + [Incr(key, ttl)] + Burst(key, ttl, limit - 1)
  }

  lemma WorstTraceOpens(key: string, from: int, ttl: int, limit: nat)
    requires limit >= 1 && ttl >= 2 && from >= 1
    ensures var trace := [Incr(key, 0), Expire(key, 0)];
            && Legal(trace, ttl) && After(trace, key, ttl) == KeyState(Live(1, Some(ttl)), false)
            && AdmittedIn(trace, key, from, ttl, limit) == 0
  {
    var one := [] + [Incr(key, 0)];
    Append([], Incr(key, 0), from, ttl, limit);
    Append(one, Expire(key, 0), from, ttl, limit);
    assert one + [Expire(key, 0)] == [Incr(key, 0), Expire(key, 0)];
  }

  /** The bound cannot be improved for any limit: some legal trace admits exactly that many. */
  lemma BoundIsReached(key: string, ttl: int, limit: nat)
    requires limit >= 1 && ttl >= 2
    ensures Legal(WorstTrace(key, ttl, limit), ttl)
    ensures AdmittedIn(WorstTrace(key, ttl, limit), key, ttl - 1, ttl, limit) == MostPerWindow(limit)
  {
    var from := ttl - 1;
    var begun := [Incr(key, 0), Expire(key, 0)];
    var late := begun + Burst(key, ttl - 1, limit - 1);
    var again := late + [Incr(key, ttl)];
    WorstTraceOpens(key, from, ttl, limit);
    assert Reaches(begun, key, ttl - 1, Live(1, Some(ttl)), 0, from, ttl, limit);
    BurstAdmitted(begun, key, ttl - 1, Live(1, Some(ttl)), 0, limit - 1, from, ttl, limit);
    assert Reaches(late, key, ttl, Live(limit, Some(ttl)), limit - 1, from, ttl, limit);
    OneMore(late, key, ttl, Live(limit, Some(ttl)), limit - 1, from, ttl, limit);
    assert Reaches(again, key, ttl, Live(1, None), limit, from, ttl, limit);
    BurstAdmitted(again, key, ttl, Live(1, None), limit, limit - 1, from, ttl, limit);
    assert again + Burst(key, ttl, limit - 1) == WorstTrace(key, ttl, limit);
  }

  // ---- lifetimes ----

  /** Command `i` finds no live counter and so begins a lifetime of its key. */
  predicate Starts(trace: seq<Event>, i: nat, key: string, ttl: int)
    requires i < |trace|
  {
    trace[i].Incr? && trace[i].key == key && At(After(trace[..i], key, ttl).counter, trace[i].time).Absent?
  }

  function Requests(trace: seq<Event>, key: string): nat {
    if trace == [] then 0 else
    Requests(trace[..|trace| - 1], key) + Bit(trace[|trace| - 1].Incr? && trace[|trace| - 1].key == key)
  }

  predicate Counted(s: KeyState) {
    && (s.counter.Live? ==> s.counter.count >= 1)
    && (s.expireOwed ==> s.counter.Live? && s.counter.deadline.None?)
  }

  lemma {:induction false} OwedMeansNoDeadline(trace: seq<Event>, key: string, ttl: int)
    requires Legal(trace, ttl)
    ensures Counted(After(trace, key, ttl))
  {
    if trace != [] {
      OwedMeansNoDeadline(trace[..|trace| - 1], key, ttl);
    }
  }

  /** Within a lifetime the reading is the position of the request: nothing resets or skips the count. */
  lemma {:induction false} LifetimeCounts(trace: seq<Event>, key: string, start: nat, end: nat, ttl: int)
    requires start < end <= |trace| && Legal(trace[..end], ttl) && Starts(trace, start, key, ttl)
    requires forall i :: start < i < end ==> !Starts(trace, i, key, ttl)
    ensures trace[start].time <= trace[end - 1].time
    ensures var c := After(trace[..end], key, ttl).counter;
            && c.Live? && c.count == Requests(trace[start..end], key) >= 1
            && (c.deadline.Some? ==> c.deadline.value >= trace[start].time + ttl)
  {
    var e := trace[end - 1];
    assert trace[..end][..end - 1] == trace[..end - 1];
    assert trace[start..end][..end - 1 - start] == trace[start..end - 1];
    assert Requests(trace[start..end], key) == Requests(trace[start..end - 1], key) + Bit(e.Incr? && e.key == key);
    OwedMeansNoDeadline(trace[..end - 1], key, ttl);
    if end - 1 > start {
      assert !Starts(trace, end - 1, key, ttl);
      LifetimeCounts(trace, key, start, end - 1, ttl);
    } else {
      assert Requests(trace[start..start], key) == 0;
    }
  }

  /** A lifetime admits exactly its first `limit` requests. */
  lemma LifetimeAdmitsFirst(trace: seq<Event>, key: string, start: nat, i: nat, ttl: int, limit: nat)
    requires Legal(trace, ttl) && start <= i < |trace| && Starts(trace, start, key, ttl)
    requires trace[i].Incr? && trace[i].key == key
    requires forall j :: start < j <= i ==> !Starts(trace, j, key, ttl)
    ensures Admitted(trace, i, ttl, limit) <==> Requests(trace[start..i + 1], key) <= limit
  {
    LegalPrefix(trace, ttl, i + 1);
    LifetimeCounts(trace, key, start, i + 1, ttl);
    assert trace[..i + 1][..i] == trace[..i];
  }

  /** Two lifetimes of one key begin at least one window apart. */
  lemma LifetimesAreApart(trace: seq<Event>, key: string, start: nat, next: nat, ttl: int)
    requires Legal(trace, ttl) && start < next < |trace|
    requires Starts(trace, start, key, ttl) && Starts(trace, next, key, ttl)
    requires forall i :: start < i < next ==> !Starts(trace, i, key, ttl)
    ensures trace[next].time >= trace[start].time + ttl
  {
    LegalPrefix(trace, ttl, next + 1);
    assert trace[..next + 1][..next] == trace[..next];
    LifetimeCounts(trace, key, start, next, ttl);
  }

  lemma {:induction false} DeadlineStays(trace: seq<Event>, key: string, j: nat, i: nat, ttl: int)
    requires ttl > 0 && j < i <= |trace| && Legal(trace[..i], ttl) && trace[j] == Expire(key, trace[j].time)
    requires forall k :: j < k < i ==> !Starts(trace, k, key, ttl)
    ensures var s := After(trace[..i], key, ttl);
            s.counter.Live? && s.counter.deadline == Some(trace[j].time + ttl) && !s.expireOwed
  {
    var e := trace[i - 1];
    assert trace[..i][..i - 1] == trace[..i - 1];
    OwedMeansNoDeadline(trace[..i - 1], key, ttl);
    if j < i - 1 {
      assert !Starts(trace, i - 1, key, ttl);
      DeadlineStays(trace, key, j, i - 1, ttl);
    }
  }

  /** A quota comes back: one window after an EXPIRE the key is on a new lifetime, whatever happened in between. */
  lemma QuotaComesBack(trace: seq<Event>, key: string, j: nat, i: nat, ttl: int)
    requires Legal(trace, ttl) && ttl > 0 && j < i < |trace|
    requires trace[j] == Expire(key, trace[j].time) && trace[i] == Incr(key, trace[i].time)
    requires trace[i].time >= trace[j].time + ttl
    ensures exists k :: j < k <= i && Starts(trace, k, key, ttl)
  {
    if forall k :: j < k < i ==> !Starts(trace, k, key, ttl) {
      LegalPrefix(trace, ttl, i);
      DeadlineStays(trace, key, j, i, ttl);
      assert Starts(trace, i, key, ttl);
    }
  }

  /** Should the process die before its EXPIRE, the key never expires and only the first `limit` requests ever pass. */
  lemma {:induction false} LostExpireLocksOut(trace: seq<Event>, key: string, i: nat, ttl: int, limit: nat)
    requires i < |trace| && trace[i] == Incr(key, trace[i].time)
    requires forall j :: 0 <= j < i ==> trace[j].key == key ==> trace[j].Incr?
    ensures Admitted(trace, i, ttl, limit) <==> Requests(trace[..i + 1], key) <= limit
  {
    NeverExpires(trace[..i], key, ttl);
    assert trace[..i + 1][..i] == trace[..i];
  }

  lemma {:induction false} NeverExpires(trace: seq<Event>, key: string, ttl: int)
    requires forall j :: 0 <= j < |trace| ==> trace[j].key == key ==> trace[j].Incr?
    ensures After(trace, key, ttl).counter
            == if Requests(trace, key) == 0 then Absent else Live(Requests(trace, key), None)
  {
    if trace != [] {
      NeverExpires(trace[..|trace| - 1], key, ttl);
    }
  }

  // ---- keys ----

  /** What a request carries to tell whose it is. */
  datatype Caller = Caller(user: Option<string>, ip: Option<string>, forwardedFor: Option<string>)

  /** `request.user?.id ?? request.ip ?? <first forwarded address> ?? 'anonymous'`. */
  function Identifier(c: Caller): string {
    if c.user.Some? then c.user.value
    else if c.ip.Some? then c.ip.value
    else if c.forwardedFor.Some? then Trim(Split(c.forwardedFor.value, ",")[0])
    else "anonymous"
  }

  function KeyFor(prefix: string, identifier: string): string {
    "rate-limit:" + prefix + ":" + identifier
  }

  /** Colon-free prefixes keep the limiters of different routes apart, even for identifiers with colons (IPv6). */
  lemma KeysSeparate(prefix1: string, identifier1: string, prefix2: string, identifier2: string)
    requires ':' !in prefix1 && ':' !in prefix2
    requires KeyFor(prefix1, identifier1) == KeyFor(prefix2, identifier2)
    ensures prefix1 == prefix2 && identifier1 == identifier2
  {
    assert KeyFor(prefix1, identifier1)[11..] == prefix1 + ":" + identifier1;
    assert KeyFor(prefix2, identifier2)[11..] == prefix2 + ":" + identifier2;
    CutAtColon(prefix1, identifier1, prefix2, identifier2);
  }

  /**
   * A signed-in user is known by its id wherever it comes from, anyone else by its address, and only
   * without one by the first entry of the forwarding header, without its outer spaces.
   */
  lemma IdentifierPrecedence(c: Caller)
    ensures c.user.Some? ==> Identifier(c) == c.user.value
    ensures c.user.None? && c.ip.Some? ==> Identifier(c) == c.ip.value
    ensures c.user.None? && c.ip.None? && c.forwardedFor.Some? ==>
              exists first, rest ::
                && c.forwardedFor.value == first + rest && ',' !in first && (rest == "" || rest[0] == ',')
                && Identifier(c) == Trim(first)
    ensures c == Caller(None, None, None) ==> Identifier(c) == "anonymous"
  {
    if c.forwardedFor.Some? {
      FirstEntry(c.forwardedFor.value);
    }
  }

  lemma FirstEntry(s: string)
    ensures exists first, rest ::
              && s == first + rest && ',' !in first && (rest == "" || rest[0] == ',')
              && Split(s, ",")[0] == first
  {
    match Find(s, ",", 0)
    case None =>
      CharFree(s, ',', |s|);
      assert s == s + "";
    case Some(i) =>
      CharFree(s, ',', i);
      assert s[i..i + 1][0] == ',';
      assert s == s[..i] + s[i..] && s[i..][0] == ',';
  }

  /** Signed-in requests share a counter exactly when route prefix and user agree, whatever their addresses. */
  lemma UsersHaveOwnQuotas(prefix1: string, a: Caller, prefix2: string, b: Caller)
    requires ':' !in prefix1 && ':' !in prefix2 && a.user.Some? && b.user.Some?
    ensures KeyFor(prefix1, Identifier(a)) == KeyFor(prefix2, Identifier(b)) <==> prefix1 == prefix2 && a.user == b.user
  {
    if KeyFor(prefix1, Identifier(a)) == KeyFor(prefix2, Identifier(b)) {
      KeysSeparate(prefix1, Identifier(a), prefix2, Identifier(b));
    }
  }

  /** So do anonymous requests with an address, exactly when prefix and address agree, whatever their headers say. */
  lemma AddressesHaveOwnQuotas(prefix1: string, a: Caller, prefix2: string, b: Caller)
    requires ':' !in prefix1 && ':' !in prefix2
    requires a.user.None? && a.ip.Some? && b.user.None? && b.ip.Some?
    ensures KeyFor(prefix1, Identifier(a)) == KeyFor(prefix2, Identifier(b)) <==> prefix1 == prefix2 && a.ip == b.ip
  {
    if KeyFor(prefix1, Identifier(a)) == KeyFor(prefix2, Identifier(b)) {
      KeysSeparate(prefix1, Identifier(a), prefix2, Identifier(b));
    }
  }

  // ---- the guard as an object ----

  /** The Redis counters a guard works on; `log` records the commands executed, for specification only. */
  class RedisCounters {
    var store: map<string, Counter>
    const ttl: int
    ghost var log: seq<Event>

    ghost predicate Valid()
      reads this
    {
      && Legal(log, ttl)
      && forall key :: Lookup(key) == After(log, key, ttl).counter
    }

    function Lookup(key: string): Counter
      reads this
    {
      if key in store then store[key] else Absent
    }

    constructor (ttl: int)
      ensures Valid() && this.ttl == ttl && log == []
    {
      this.ttl := ttl;
      store, log := map[], [];
    }

    method Increment(key: string, now: int) returns (counter: nat)
      requires Valid() && NotAfter(log, now)
      modifies this
      ensures Valid() && log == old(log) + [Incr(key, now)]
      ensures counter == Reading(log, |old(log)|, ttl)
    {
      Append(log, Incr(key, now), 0, ttl, 0);
      assert (log + [Incr(key, now)])[..|log|] == log;
      var next := AfterIncr(Lookup(key), now);
      counter := next.count;
      store := store[key := next];
      log := log + [Incr(key, now)];
    }

    method SetExpiry(key: string, now: int)
      requires Valid() && NotAfter(log, now)
      requires After(log, key, ttl).expireOwed
      modifies this
      ensures Valid() && log == old(log) + [Expire(key, now)]
    {
      Append(log, Expire(key, now), 0, ttl, 0);
      assert (log + [Expire(key, now)])[..|log|] == log;
      store := store[key := AfterExpire(Lookup(key), now, ttl)];
      log := log + [Expire(key, now)];
    }
  }

  /** `canActivate` up to its first await, and from there on: other requests run in between. */
  class RateLimitGuard {
    const redis: RedisCounters
    const prefix: string
    const limit: nat

    constructor (redis: RedisCounters, prefix: string, limit: nat)
      ensures this.redis == redis && this.prefix == prefix && this.limit == limit
    {
      this.redis, this.prefix, this.limit := redis, prefix, limit;
    }

    method Begin(caller: Caller, now: int) returns (key: string, counter: nat)
      requires redis.Valid() && NotAfter(redis.log, now)
      modifies redis
      ensures key == KeyFor(prefix, Identifier(caller))
      ensures caller.user.Some? ==> key == KeyFor(prefix, caller.user.value)
      ensures redis.Valid() && redis.log == old(redis.log) + [Incr(key, now)]
      ensures counter == Reading(redis.log, |old(redis.log)|, redis.ttl)
      ensures counter == 1 ==> After(redis.log, key, redis.ttl).expireOwed
    {
      key := KeyFor(prefix, Identifier(caller));
      counter := redis.Increment(key, now);
    }

    /** `position` is where this request's INCR stands in the log. */
    method Finish(key: string, counter: nat, now: int, ghost position: nat) returns (allowed: bool)
      requires redis.Valid() && NotAfter(redis.log, now)
      requires position < |redis.log| && redis.log[position].Incr?
      requires counter == Reading(redis.log, position, redis.ttl)
      requires counter == 1 ==> After(redis.log, key, redis.ttl).expireOwed
      modifies redis
      ensures redis.Valid()
      ensures redis.log == if counter == 1 then old(redis.log) + [Expire(key, now)] else old(redis.log)
      ensures allowed <==> Admitted(old(redis.log), position, redis.ttl, limit)
    {
      if counter == 1 {
        redis.SetExpiry(key, now);
      }
      allowed := counter <= limit;
    }
  }
}
