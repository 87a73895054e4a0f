/** The response cache over Redis: filling, serving, and pattern-based invalidation. */
module CacheStore {
  import opened Wrappers
  import opened Text
  import opened Json
  import opened CacheKey

  // ---- Redis glob patterns ----

  /** Glob matching with `*`, `?` and backslash escapes. Bracket classes are not part of this model. */
  predicate Matches(pattern: string, s: string)
    decreases |pattern| + |s|
  {
    if pattern == "" then s == ""
    else if pattern[0] == '*' then Matches(pattern[1..], s) || (s != "" && Matches(pattern, s[1..]))
    else if pattern[0] == '?' then s != "" && Matches(pattern[1..], s[1..])
    else if pattern[0] == '\\' && |pattern| > 1 then s != "" && s[0] == pattern[1] && Matches(pattern[2..], s[1..])
    else s != "" && s[0] == pattern[0] && Matches(pattern[1..], s[1..])
  }

  predicate GlobFree(s: string) {
    forall i :: 0 <= i < |s| ==> s[i] !in ['*', '?', '[', ']', '\\']
  }

  lemma {:induction false} StarMatchesAll(s: string)
    ensures Matches("*", s)
    decreases |s|
  {
    if s != "" { StarMatchesAll(s[1..]); }
  }

  /** A literal followed by a star matches exactly the texts that begin with the literal. */
  lemma {:induction false} LiteralStar(literal: string, s: string)
    requires GlobFree(literal)
    ensures Matches(literal + "*", s) <==> literal <= s
  {
    var pattern := literal + "*";
    if literal == "" {
      assert pattern == "*";
      StarMatchesAll(s);
    } else {
      assert pattern[0] == literal[0] && pattern[1..] == literal[1..] + "*";
      if s != "" {
        LiteralStar(literal[1..], s[1..]);
        assert literal <= s <==> literal[0] == s[0] && literal[1..] <= s[1..];
      }
    }
  }

  // ---- the patterns ----

  function UserPrefix(resource: string, userId: string): string {
    "response-cache:" + (resource + ":" + ("user:" + (userId + ":")))
  }

  function AccountPrefix(resource: string, userId: string, accountId: string): string {
    UserPrefix(resource, userId) + "account:" + accountId + ":"
  }

  function PublicPrefix(resource: string): string {
    "response-cache:" + (resource + ":" + "public:")
  }

  function Each(resources: seq<string>, prefix: string -> string): (patterns: seq<string>)
    ensures |patterns| == |resources|
    ensures forall i :: 0 <= i < |resources| ==> patterns[i] == prefix(resources[i]) + "*"
  {
    seq(|resources|, i requires 0 <= i < |resources| => prefix(resources[i]) + "*")
  }

  function UserPatterns(userId: string, resources: seq<string>): seq<string> {
    Each(resources, r => UserPrefix(r, userId))
  }

  function AccountPatterns(userId: string, accountId: string, resources: seq<string>): seq<string> {
    Each(resources, r => AccountPrefix(r, userId, accountId))
    + Each(resources, r => AccountPrefix(r, userId, "default"))
    + UserPatterns(userId, resources)
  }

  ghost predicate MatchesAny(patterns: seq<string>, key: string) {
    exists i :: 0 <= i < |patterns| && Matches(patterns[i], key)
  }

  lemma PrefixUnder(p: string, x: string, y: string)
    ensures p + x <= p + y <==> x <= y
  {
    assert x == (p + x)[|p|..] && y == (p + y)[|p|..];
    if p + x <= p + y {
      assert (p + y)[..|p + x|] == p + x;
      assert y[..|x|] == (p + y)[|p|..|p + x|];
    }
  }

  /** One colon-terminated segment at a time. */
  lemma SegmentPrefix(a: string, x: string, b: string, y: string)
    requires ':' !in a && ':' !in b
    ensures a + ":" + x <= b + ":" + y <==> a == b && x <= y
  {
    if a + ":" + x <= b + ":" + y {
      var z := (b + ":" + y)[|a + ":" + x|..];
      assert a + ":" + (x + z) == b + ":" + y;
      CutAtColon(a, x + z, b, y);
    }
    if a == b {
      PrefixUnder(a + ":", x, y);
    }
  }

  function Tail(r: Request): string {
    "params" + ":" + JsonText.Segment(Obj(r.params)) + ":query" + ":" + JsonText.Segment(Obj(r.query))
  }

  /** The second colon-free word of the key, and what follows it. */
  function Kind(r: Request): string {
    if r.scope == Public then "public" else "user"
  }

  function AfterKind(r: Request): string {
    match r.scope
    case Public => Tail(r)
    case User => r.userId + ":" + Tail(r)
    case Account => r.userId + ":" + ("account:" + AccountId(r.query) + ":" + Tail(r))
  }

  lemma KeyShape(r: Request)
    ensures KeyOf(r) == "response-cache:" + (r.resource + ":" + (Kind(r) + ":" + AfterKind(r)))
  {
    KeyShapeText(r.resource, ScopePart(r), JsonText.Segment(Obj(r.params)), JsonText.Segment(Obj(r.query)));
    ScopeShapeText(r.userId, AccountId(r.query), Tail(r));
  }

  lemma ScopeShapeText(user: string, account: string, tail: string)
    ensures "public" + (":" + tail) == "public" + ":" + tail
    ensures "user:" + user + (":" + tail) == "user" + ":" + (user + ":" + tail)
    ensures "user:" + (user + ":" + ("account:" + account)) + (":" + tail)
            == "user" + ":" + (user + ":" + ("account:" + account + ":" + tail))
  {
  }

  lemma KeyShapeText(resource: string, scope: string, p: string, q: string)
    ensures "response-cache:" + (resource + ":" + scope) + ":params" + ":" + p + ":query" + ":" + q
         == "response-cache:" + (resource + ":" + (scope + (":" + ("params" + ":" + p + ":query" + ":" + q))))
  {
  }

  /** A two-segment prefix of a key is decided segment by segment. */
  lemma TwoSegmentPrefix(p: string, a: string, b: string, c: string, x: string, y: string, z: string)
    requires ':' !in a && ':' !in b && ':' !in x && ':' !in y
    ensures p + (a + ":" + (b + ":" + c)) <= p + (x + ":" + (y + ":" + z)) <==> a == x && b == y && c <= z
  {
    PrefixUnder(p, a + ":" + (b + ":" + c), x + ":" + (y + ":" + z));
    SegmentPrefix(a, b + ":" + c, x, y + ":" + z);
    SegmentPrefix(b, c, y, z);
  }

  lemma PrefixShapes(resource: string, userId: string)
    ensures UserPrefix(resource, userId) == "response-cache:" + (resource + ":" + ("user" + ":" + (userId + ":" + "")))
    ensures PublicPrefix(resource) == "response-cache:" + (resource + ":" + ("public" + ":" + ""))
  {
    assert "user:" + (userId + ":") == "user" + ":" + (userId + ":" + "");
    assert "public:" == "public" + ":" + "";
  }

  /** A user pattern catches a built key exactly when it is that user's, for that resource, in either private scope. */
  lemma UserPrefixCatches(resource: string, userId: string, r: Request)
    requires ':' !in resource && ':' !in userId && Proper(r)
    ensures UserPrefix(resource, userId) <= KeyOf(r)
            <==> r.resource == resource && r.scope != Public && r.userId == userId
  {
    KeyShape(r);
    PrefixShapes(resource, userId);
    TwoSegmentPrefix("response-cache:", resource, "user", userId + ":" + "", r.resource, Kind(r), AfterKind(r));
    assert "user" != "public";
    SegmentPrefix(userId, "", r.userId, Tail(r));
    SegmentPrefix(userId, "", r.userId, "account:" + AccountId(r.query) + ":" + Tail(r));
  }

  lemma PublicPrefixCatches(resource: string, r: Request)
    requires ':' !in resource && Proper(r)
    ensures PublicPrefix(resource) <= KeyOf(r) <==> r.resource == resource && r.scope == Public
  {
    KeyShape(r);
    PrefixShapes(resource, "");
    TwoSegmentPrefix("response-cache:", resource, "public", "", r.resource, Kind(r), AfterKind(r));
    assert "user" != "public";
  }

  lemma ColonEnds(id: string, account: string, tail: string)
    requires ':' !in id
    ensures id + ":" <= account + ":" + tail <==> account == id || id + ":" <= account
  {
    var whole := account + ":" + tail;
    if |id| < |account| {
      assert whole[..|id| + 1] == account[..|id| + 1];
    } else if |id| > |account| {
      assert whole[|account|] == ':' && id[|account|] in id;
    } else {
      assert whole[..|id|] == account && whole[..|id| + 1] == account + ":";
      assert (id + ":")[..|id|] == id;
    }
  }

  lemma BehindUser(r: Request, userId: string, accountId: string)
    requires ':' !in userId && ':' !in accountId && Proper(r) && r.scope != Public
    ensures userId + ":" + ("account:" + (accountId + ":")) <= AfterKind(r)
            <==> && r.scope == Account && r.userId == userId
                 && (AccountId(r.query) == accountId || accountId + ":" <= AccountId(r.query))
  {
    if r.scope == User {
      BehindOwnUser(userId, accountId, r.userId, Tail(r));
    } else {
      BehindAccountUser(userId, accountId, r.userId, AccountId(r.query), Tail(r));
    }
  }

  lemma BehindOwnUser(userId: string, accountId: string, user: string, tail: string)
    requires ':' !in userId && ':' !in user && tail != "" && tail[0] != 'a'
    ensures !(userId + ":" + ("account:" + (accountId + ":")) <= user + ":" + tail)
  {
    var part := "account:" + (accountId + ":");
    SegmentPrefix(userId, part, user, tail);
    assert part[0] == 'a';
  }

  lemma BehindAccountUser(userId: string, accountId: string, user: string, account: string, tail: string)
    requires ':' !in userId && ':' !in accountId && ':' !in user
    ensures userId + ":" + ("account:" + (accountId + ":")) <= user + ":" + ("account:" + account + ":" + tail)
            <==> user == userId && (account == accountId || accountId + ":" <= account)
  {
    SegmentPrefix(userId, "account:" + (accountId + ":"), user, "account:" + account + ":" + tail);
    assert "account:" + account + ":" + tail == "account:" + (account + ":" + tail);
    PrefixUnder("account:", accountId + ":", account + ":" + tail);
    ColonEnds(accountId, account, tail);
  }

  /**
   * An account pattern catches a built key exactly when it is that user's, for that resource, for an
   * account with that id or an id that goes on after it with a colon.
   */
  lemma AccountPrefixCatches(resource: string, userId: string, accountId: string, r: Request)
    requires ':' !in resource && ':' !in userId && ':' !in accountId && Proper(r)
    ensures AccountPrefix(resource, userId, accountId) <= KeyOf(r)
            <==> && r.resource == resource && r.scope == Account && r.userId == userId
                 && (AccountId(r.query) == accountId || accountId + ":" <= AccountId(r.query))
  {
    KeyShape(r);
    AccountPrefixShape(resource, userId, accountId);
    var behind := userId + ":" + ("account:" + (accountId + ":"));
    TwoSegmentPrefix("response-cache:", resource, "user", behind, r.resource, Kind(r), AfterKind(r));
    assert "user" != "public";
    if r.scope != Public {
      BehindUser(r, userId, accountId);
    }
  }

  lemma AccountPrefixShape(resource: string, userId: string, accountId: string)
    ensures AccountPrefix(resource, userId, accountId)
            == "response-cache:" + (resource + ":" + ("user" + ":" + (userId + ":" + ("account:" + (accountId + ":")))))
  {
    var u, a := "user" + ":" + (userId + ":"), "account:" + (accountId + ":");
    assert UserPrefix(resource, userId) == "response-cache:" + (resource + ":" + u);
    assert "account:" + accountId + ":" == a;
    assert u + a == "user" + ":" + (userId + ":" + a);
  }

  predicate ProperIds(userId: string, resources: seq<string>) {
    && ':' !in userId && GlobFree(userId)
    && forall i :: 0 <= i < |resources| ==> ':' !in resources[i] && GlobFree(resources[i])
  }

  lemma GlobFreePrefix(resource: string, userId: string)
    requires GlobFree(resource) && GlobFree(userId)
    ensures GlobFree(UserPrefix(resource, userId))
  {
  }

  /** Invalidating a user's resources touches exactly that user's private entries for those resources. */
  lemma UserPatternsCatch(userId: string, resources: seq<string>, r: Request)
    requires ProperIds(userId, resources) && Proper(r)
    ensures MatchesAny(UserPatterns(userId, resources), KeyOf(r))
            <==> r.resource in resources && r.scope != Public && r.userId == userId
  {
    var patterns := UserPatterns(userId, resources);
    forall i | 0 <= i < |resources|
      ensures Matches(patterns[i], KeyOf(r))
              <==> r.resource == resources[i] && r.scope != Public && r.userId == userId
    {
      GlobFreePrefix(resources[i], userId);
      LiteralStar(UserPrefix(resources[i], userId), KeyOf(r));
      UserPrefixCatches(resources[i], userId, r);
    }
    if r.resource in resources {
      var i :| 0 <= i < |resources| && resources[i] == r.resource;
      assert Matches(patterns[i], KeyOf(r)) <==> r.scope != Public && r.userId == userId;
    }
  }

  ghost predicate HitsAny(patterns: seq<string>, hit: string -> bool) {
    exists i :: 0 <= i < |patterns| && hit(patterns[i])
  }

  lemma HitsAnyConcat(a: seq<string>, b: seq<string>, hit: string -> bool)
    ensures HitsAny(a + b, hit) <==> HitsAny(a, hit) || HitsAny(b, hit)
  {
    var c := a + b;
    if i :| 0 <= i < |a| && hit(a[i]) { assert c[i] == a[i]; }
    if i :| 0 <= i < |b| && hit(b[i]) { assert c[|a| + i] == b[i]; }
  }

  lemma HitsAnyWeaker(a: seq<string>, b: seq<string>, hit: string -> bool)
    requires |a| == |b| && forall i :: 0 <= i < |a| ==> (hit(a[i]) ==> hit(b[i]))
    ensures HitsAny(a, hit) ==> HitsAny(b, hit)
  {
  }

  /** Invalidating an account drops the very same keys: the third family of patterns subsumes the other two. */
  lemma AccountPatternsSubsumed(userId: string, accountId: string, resources: seq<string>, key: string)
    requires ProperIds(userId, resources) && GlobFree(accountId)
    ensures MatchesAny(AccountPatterns(userId, accountId, resources), key)
            <==> MatchesAny(UserPatterns(userId, resources), key)
  {
    var own := Each(resources, r => AccountPrefix(r, userId, accountId));
    var default := Each(resources, r => AccountPrefix(r, userId, "default"));
    var users := UserPatterns(userId, resources);
    var hit := p => Matches(p, key);
    AccountFamilyWithin(userId, accountId, resources, key);
    AccountFamilyWithin(userId, "default", resources, key);
    HitsAnyWeaker(own, users, hit);
    HitsAnyWeaker(default, users, hit);
    HitsAnyConcat(own, default, hit);
    HitsAnyConcat(own + default, users, hit);
    MatchesAnyIsHitsAny(users, key);
    MatchesAnyIsHitsAny(AccountPatterns(userId, accountId, resources), key);
  }

  lemma MatchesAnyIsHitsAny(patterns: seq<string>, key: string)
    ensures MatchesAny(patterns, key) <==> HitsAny(patterns, p => Matches(p, key))
  {
  }

  lemma AccountFamilyWithin(userId: string, accountId: string, resources: seq<string>, key: string)
    requires ProperIds(userId, resources) && GlobFree(accountId)
    ensures var family := Each(resources, r => AccountPrefix(r, userId, accountId));
            var users := UserPatterns(userId, resources);
            forall i :: 0 <= i < |family| ==> (Matches(family[i], key) ==> Matches(users[i], key))
  {
    forall i | 0 <= i < |resources|
      ensures Matches(AccountPrefix(resources[i], userId, accountId) + "*", key)
              ==> Matches(UserPrefix(resources[i], userId) + "*", key)
    {
      AccountPatternWithin(resources[i], userId, accountId, key);
    }
  }

  lemma AccountPatternWithin(resource: string, userId: string, accountId: string, key: string)
    requires GlobFree(resource) && GlobFree(userId) && GlobFree(accountId)
    ensures Matches(AccountPrefix(resource, userId, accountId) + "*", key)
            ==> Matches(UserPrefix(resource, userId) + "*", key)
  {
    GlobFreePrefix(resource, userId);
    LiteralStar(UserPrefix(resource, userId), key);
    LiteralStar(AccountPrefix(resource, userId, accountId), key);
    assert UserPrefix(resource, userId) <= AccountPrefix(resource, userId, accountId);
  }

  // ---- the store ----

  /** What a handler answers; the text `null` is stored like any other but reads back as a miss. */
  datatype Response = NullBody | Body(text: string)

  datatype Stored = Json(response: Response) | Garbled

  /** A response together with the request it answered. */
  datatype Fill = Fill(request: Request, response: Response)

  class Redis {
    var data: map<string, Stored>
    /** The buckets a SCAN walks through; a key may be met more than once but is never missed. */
    var layout: seq<seq<string>>

    ghost predicate Valid()
      reads this
    {
      layout != [] && forall k :: k in data <==> exists b :: 0 <= b < |layout| && k in layout[b]
    }

    constructor ()
      ensures Valid() && data == map[]
    {
      data, layout := map[], [[]];
    }

    ghost function Matching(pattern: string): set<string>
      reads this
    {
      set k | k in data && Matches(pattern, k)
    }

    /** The matching keys an iteration that has come to this cursor may not have met yet. */
    ghost function Unreported(cursor: nat, pattern: string): set<string>
      reads this
    {
      set k | k in data && Matches(pattern, k) && exists b :: cursor <= b < |layout| && k in layout[b]
    }

    /**
     * One SCAN call with MATCH: together with what an iteration going on from `next` still reports, the
     * keys of this call are all that was unreported; nothing is when the cursor is back at 0.
     */
    method Scan(cursor: nat, pattern: string) returns (next: nat, matched: set<string>)
      requires Valid() && cursor < |layout|
      ensures next == 0 || cursor < next < |layout|
      ensures matched + (if next == 0 then {} else Unreported(next, pattern)) == Unreported(cursor, pattern)
      ensures cursor == 0 ==> Unreported(cursor, pattern) == Matching(pattern)
    {
      next := if cursor + 1 < |layout| then cursor + 1 else 0;
      matched := set k | k in layout[cursor] && Matches(pattern, k);
    }

    method Set(key: string, value: Stored)
      requires Valid()
      modifies this
      ensures Valid() && data == old(data)[key := value]
    {
      if key !in data {
        layout := layout[0 := layout[0] + [key]];
        assert forall b :: 0 < b < |layout| ==> layout[b] == old(layout)[b];
        assert key in layout[0];
      }
      data := data[key := value];
    }

    method Del(keys: set<string>)
      requires Valid()
      modifies this
      ensures Valid() && data == old(data) - keys
    {
      var before := layout;
      data := data - keys;
      layout := seq(|before|, b requires 0 <= b < |before| => Remaining(before[b], keys));
      forall k | k in data ensures exists b :: 0 <= b < |layout| && k in layout[b] {
        var b :| 0 <= b < |before| && k in before[b];
        assert k in layout[b];
      }
      forall b, k | 0 <= b < |layout| && k in layout[b] ensures k in data {
        assert k in before[b];
      }
    }

    static function Remaining(bucket: seq<string>, keys: set<string>): (r: seq<string>)
      ensures forall k :: k in r <==> k in bucket && k !in keys
    {
      if bucket == [] then []
      else if bucket[0] in keys then Remaining(bucket[1..], keys)
      else [bucket[0]] + Remaining(bucket[1..], keys)
    }
  }

  predicate HasBody(data: map<string, Stored>, key: string) {
    key in data && data[key].Json? && data[key].response.Body?
  }

  predicate Unreadable(data: map<string, Stored>, key: string) {
    key in data && data[key].Garbled?
  }

  /** `response` was once a handler's answer to a request with this key. */
  ghost predicate Explains(fills: seq<Fill>, key: string, response: Response, keyOf: Request -> string) {
    exists i :: 0 <= i < |fills| && keyOf(fills[i].request) == key && fills[i].response == response
  }

  /** `response` was once a handler's answer to this request, up to the order of its parameters. */
  ghost predicate Answered(fills: seq<Fill>, request: Request, response: Response) {
    exists i :: 0 <= i < |fills| && SameRequest(fills[i].request, request) && fills[i].response == response
  }

  ghost predicate AllProper(fills: seq<Fill>) {
    forall i :: 0 <= i < |fills| ==> Proper(fills[i].request)
  }

  ghost predicate Explained(fills: seq<Fill>, data: map<string, Stored>, keyOf: Request -> string) {
    forall k :: k in data && data[k].Json? ==> Explains(fills, k, data[k].response, keyOf)
  }

  lemma ExplainedAnswer(fills: seq<Fill>, data: map<string, Stored>, request: Request, key: string)
    requires AllProper(fills) && Explained(fills, data, KeyOf) && Proper(request) && key == KeyOf(request)
    requires key in data && data[key].Json?
    ensures Answered(fills, request, data[key].response)
  {
    assert Explains(fills, key, data[key].response, KeyOf);
    var i :| 0 <= i < |fills| && KeyOf(fills[i].request) == key && fills[i].response == data[key].response;
    ProperKeyIdentifiesRequest(fills[i].request, request);
  }

  lemma ExplainedFill(fills: seq<Fill>, data: map<string, Stored>, fill: Fill, keyOf: Request -> string)
    requires Explained(fills, data, keyOf)
    ensures Explained(fills + [fill], data[keyOf(fill.request) := Json(fill.response)], keyOf)
  {
    var data' := data[keyOf(fill.request) := Json(fill.response)];
    var more := fills + [fill];
    forall k | k in data' && data'[k].Json? ensures Explains(more, k, data'[k].response, keyOf) {
      if k == keyOf(fill.request) {
        assert more[|fills|] == fill;
      } else {
        var i :| 0 <= i < |fills| && keyOf(fills[i].request) == k && fills[i].response == data[k].response;
        assert more[i] == fills[i];
      }
    }
  }

  lemma DropThenSet(data: map<string, Stored>, key: string, value: Stored)
    ensures (data - {key})[key := value] == data[key := value]
  {
  }

  class ResponseCache {
    const redis: Redis
    /** Every response ever stored, with its request; for specification only. */
    ghost var fills: seq<Fill>

    /** Whatever the store can answer was once the answer to a request with that very key. */
    ghost predicate Valid()
      reads this, redis
    {
      redis.Valid() && AllProper(fills) && Explained(fills, redis.data, KeyOf)
    }

    constructor (redis: Redis)
      requires redis.Valid() && redis.data == map[]
      ensures Valid() && this.redis == redis && fills == []
    {
      this.redis, fills := redis, [];
    }

    /** `get`: a miss for an absent key and for the text `null`; an unreadable entry is dropped. */
    method Get(key: string) returns (cached: Option<Response>)
      requires Valid()
      modifies redis
      ensures Valid()
      ensures redis.data == if Unreadable(old(redis.data), key) then old(redis.data) - {key} else old(redis.data)
      ensures cached == if HasBody(old(redis.data), key) then Some(old(redis.data)[key].response) else None
    {
      if key !in redis.data {
        return None;
      }
      if redis.data[key].Garbled? {
        redis.Del({key});
        return None;
      }
      var response := redis.data[key].response;
      cached := if response.Body? then Some(response) else None;
    }

    /**
     * `intercept` up to the cache's answer: `cached` is served, or the handler has to run. An answer from
     * the cache was a handler's answer to an equivalent request, of the same user unless public, and a
     * request is answered from the cache whenever its entry holds a body.
     */
    method Begin(request: Request, cacheable: bool) returns (cached: Option<Response>)
      requires Valid() && Proper(request)
      modifies redis
      ensures Valid()
      ensures cached.Some? ==> Answered(fills, request, cached.value)
      ensures cached.Some? <==> cacheable && HasBody(old(redis.data), KeyOf(request))
      ensures redis.data == if cacheable && Unreadable(old(redis.data), KeyOf(request))
                            then old(redis.data) - {KeyOf(request)} else old(redis.data)
    {
      if !cacheable {
        return None;
      }
      var cacheKey := KeyOf(request);
      cached := Get(cacheKey);
      if cached.Some? {
        ExplainedAnswer(fills, redis.data, request, cacheKey);
      }
    }

    /**
     * Once the handler has answered: the answer is passed on and stored. Any number of other requests,
     * invalidations and expiries may have come in between, for this key too.
     */
    method Finish(request: Request, cacheable: bool, handler: Response) returns (answer: Response)
      requires Valid() && Proper(request)
      modifies this, redis
      ensures Valid() && answer == handler
      ensures fills == if cacheable then old(fills) + [Fill(request, handler)] else old(fills)
      ensures redis.data == if cacheable then old(redis.data)[KeyOf(request) := Json(handler)] else old(redis.data)
    {
      answer := handler;
      if cacheable {
        Store(request, KeyOf(request), handler);
      }
    }

    /** `intercept` with nothing in between: what was stored for the request stays its entry. */
    method Intercept(request: Request, cacheable: bool, handler: Response) returns (answer: Response, ran: bool)
      requires Valid() && Proper(request)
      modifies this, redis
      ensures Valid()
      ensures !ran ==> Answered(fills, request, answer)
      ensures ran ==> answer == handler
      ensures ran <==> !(cacheable && HasBody(old(redis.data), KeyOf(request)))
      ensures ran && cacheable ==>
                && fills == old(fills) + [Fill(request, handler)]
                && redis.data == old(redis.data)[KeyOf(request) := Json(handler)]
      ensures !(ran && cacheable) ==> redis.data == old(redis.data) && fills == old(fills)
    {
      var cached := Begin(request, cacheable);
      if cached.Some? {
        return cached.value, false;
      }
      DropThenSet(old(redis.data), KeyOf(request), Json(handler));
      answer := Finish(request, cacheable, handler);
      ran := true;
    }

    method Store(request: Request, cacheKey: string, response: Response)
      requires Valid() && Proper(request) && cacheKey == KeyOf(request)
      modifies this, redis
      ensures Valid()
      ensures fills == old(fills) + [Fill(request, response)]
      ensures redis.data == old(redis.data)[cacheKey := Json(response)]
    {
      ExplainedFill(fills, redis.data, Fill(request, response), KeyOf);
      redis.Set(cacheKey, Json(response));
      fills := fills + [Fill(request, response)];
    }

    /** The TTL runs out, or Redis evicts the key. */
    method Expire(key: string)
      requires Valid()
      modifies redis
      ensures Valid() && redis.data == old(redis.data) - {key}
    {
      redis.Del({key});
    }

    /** Every matching key of one SCAN iteration, from cursor 0 until the cursor returns to 0. */
    method ScanAll(pattern: string) returns (keys: set<string>)
      requires Valid()
      ensures keys == redis.Matching(pattern)
    {
      keys := {};
      var cursor, done := 0, false;
      while !done
        invariant done ==> keys == redis.Matching(pattern)
        invariant !done ==> cursor < |redis.layout|
        invariant !done ==> keys + redis.Unreported(cursor, pattern) == redis.Matching(pattern)
        decreases !done, |redis.layout| - cursor
      {
        var next, matched := redis.Scan(cursor, pattern);
        keys := keys + matched;
        cursor := next;
        done := next == 0;
      }
    }

    method DeleteByPatterns(patterns: seq<string>)
      requires Valid()
      modifies redis
      ensures Valid()
      ensures redis.data == map k | k in old(redis.data) && !MatchesAny(patterns, k) :: old(redis.data)[k]
    {
      var keys: set<string> := {};
      for i := 0 to |patterns|
        invariant Valid() && redis.data == old(redis.data)
        invariant forall k :: k in keys <==> k in redis.data && MatchesAny(patterns[..i], k)
      {
        var matched := ScanAll(patterns[i]);
        keys := keys + matched;
        forall k ensures MatchesAny(patterns[..i + 1], k) <==> MatchesAny(patterns[..i], k) || Matches(patterns[i], k) {
          MatchesOneMore(patterns, i, k);
        }
      }
      assert patterns[..|patterns|] == patterns;
      if keys != {} {
        redis.Del(keys);
      }
    }

    /** Deletes exactly the built keys of that user and those resources, and nothing that is not theirs. */
    method InvalidateUserResources(userId: string, resources: seq<string>)
      requires Valid() && ProperIds(userId, resources)
      modifies redis
      ensures Valid()
      ensures forall r :: Proper(r) && KeyOf(r) in old(redis.data) ==>
                (KeyOf(r) !in redis.data <==> r.resource in resources && r.scope != Public && r.userId == userId)
      ensures redis.data
              == map k | k in old(redis.data) && !MatchesAny(UserPatterns(userId, resources), k) :: old(redis.data)[k]
    {
      DeleteByPatterns(UserPatterns(userId, resources));
      forall r | Proper(r) && KeyOf(r) in old(redis.data)
        ensures KeyOf(r) !in redis.data <==> r.resource in resources && r.scope != Public && r.userId == userId
      {
        UserPatternsCatch(userId, resources, r);
      }
    }

    /** Same effect as invalidating the user's resources. */
    method InvalidateAccountResources(userId: string, accountId: string, resources: seq<string>)
      requires Valid() && ProperIds(userId, resources) && GlobFree(accountId)
      modifies redis
      ensures Valid()
      ensures redis.data
              == map k | k in old(redis.data) && !MatchesAny(UserPatterns(userId, resources), k) :: old(redis.data)[k]
    {
      DeleteByPatterns(AccountPatterns(userId, accountId, resources));
      forall k ensures MatchesAny(AccountPatterns(userId, accountId, resources), k)
                       <==> MatchesAny(UserPatterns(userId, resources), k)
      {
        AccountPatternsSubsumed(userId, accountId, resources, k);
      }
    }

    method InvalidatePublicResource(resource: string)
      requires Valid() && ':' !in resource && GlobFree(resource)
      modifies redis
      ensures Valid()
      ensures redis.data == map k | k in old(redis.data) && !(PublicPrefix(resource) <= k) :: old(redis.data)[k]
      ensures forall r :: Proper(r) && KeyOf(r) in old(redis.data) ==>
                (KeyOf(r) !in redis.data <==> r.resource == resource && r.scope == Public)
    {
      var patterns := [PublicPrefix(resource) + "*"];
      DeleteByPatterns(patterns);
      forall k ensures MatchesAny(patterns, k) <==> PublicPrefix(resource) <= k {
        LiteralStar(PublicPrefix(resource), k);
        assert Matches(patterns[0], k) ==> MatchesAny(patterns, k);
      }
      forall r | Proper(r) && KeyOf(r) in old(redis.data)
        ensures KeyOf(r) !in redis.data <==> r.resource == resource && r.scope == Public
      {
        PublicPrefixCatches(resource, r);
      }
    }
  }

  lemma MatchesOneMore(patterns: seq<string>, i: nat, k: string)
    requires i < |patterns|
    ensures MatchesAny(patterns[..i + 1], k) <==> MatchesAny(patterns[..i], k) || Matches(patterns[i], k)
  {
    var more, fewer := patterns[..i + 1], patterns[..i];
    assert more[i] == patterns[i];
    if j :| 0 <= j < |fewer| && Matches(fewer[j], k) {
      assert more[j] == fewer[j];
    }
    if j :| 0 <= j < |more| && Matches(more[j], k) {
      assert j < i ==> fewer[j] == more[j];
    }
  }
}
