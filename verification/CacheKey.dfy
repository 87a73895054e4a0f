/** The key under which a response is cached, and what it identifies. */
module CacheKey {
  import opened Text
  import opened Ordering
  import opened Encoding
  import opened Json
  import opened JsonText

  datatype Scope = Public | User | Account

  datatype Request = Request(resource: string, scope: Scope, userId: string, params: seq<Entry>, query: seq<Entry>)

  /** `readString(query.accountId) ?? 'default'`. */
  function AccountId(query: seq<Entry>): string {
    var v := Lookup(query, "accountId");
    if v.Str? && v.s != "" then v.s else "default"
  }

  /** The account is the query's own text, wherever in the query it stands; anything else counts as none. */
  lemma AccountIdSpec(query: seq<Entry>, account: Value)
    requires Distinct(Keys(query))
    ensures (exists i :: 0 <= i < |query| && query[i] == Entry("accountId", account)) ==>
              AccountId(query) == match account case Str(s) => (if s == "" then "default" else s) case _ => "default"
    ensures "accountId" !in Keys(query) ==> AccountId(query) == "default"
  {
    if i :| 0 <= i < |query| && query[i] == Entry("accountId", account) {
      assert Lookup(query, "accountId") == account;
    }
  }

  function ScopePart(r: Request): string {
    match r.scope
    case Public => "public"
    case User => "user:" + r.userId
    case Account => "user:" + (r.userId + ":" + ("account:" + AccountId(r.query)))
  }

  /** The part of the key before the encoded segments. */
  function Head(r: Request): string {
    "response-cache:" + (r.resource + ":" + ScopePart(r))
  }

  function KeyOf(r: Request): string {
    Head(r) + ":params" + ":" + Segment(Obj(r.params)) + ":query" + ":" + Segment(Obj(r.query))
  }

  /** Resource names never contain a colon; parsed parameters never repeat a key. */
  predicate Formed(r: Request) {
    && ':' !in r.resource
    && WellFormed(Obj(r.params)) && WellFormed(Obj(r.query))
  }

  /** User ids contain no colon either: they are generated. */
  predicate Proper(r: Request) {
    Formed(r) && ':' !in r.userId
  }

  /** The same resource, and parameters that differ only in key order. */
  ghost predicate SameTarget(a: Request, b: Request) {
    a.resource == b.resource && Equivalent(Obj(a.params), Obj(b.params)) && Equivalent(Obj(a.query), Obj(b.query))
  }

  /** The same scope and, unless public, the same user. */
  predicate SameHolder(a: Request, b: Request) {
    a.scope == b.scope && (a.scope != Public ==> a.userId == b.userId)
  }

  ghost predicate SameRequest(a: Request, b: Request) {
    SameTarget(a, b) && SameHolder(a, b)
  }

  lemma SameSuffix(a: string, b: string, s: string)
    requires a + s == b + s
    ensures a == b
  {
    assert a == (a + s)[..|a + s| - |s|] && b == (b + s)[..|b + s| - |s|];
  }

  lemma SamePrefix(p: string, a: string, b: string)
    requires p + a == p + b
    ensures a == b
  {
    assert a == (p + a)[|p|..] && b == (p + b)[|p|..];
  }

  lemma SegmentColonFree(v: Value)
    ensures ':' !in Segment(v)
  {
    Base64UrlColonFree(Utf8(Print(Normalize(v))));
  }

  /** Reading a key from the right recovers both segments and the head, whatever the account id contains. */
  lemma ReadFromRight(h1: string, p1: string, q1: string, h2: string, p2: string, q2: string)
    requires ':' !in p1 && ':' !in q1 && ':' !in p2 && ':' !in q2
    requires h1 + ":params" + ":" + p1 + ":query" + ":" + q1 == h2 + ":params" + ":" + p2 + ":query" + ":" + q2
    ensures h1 == h2 && p1 == p2 && q1 == q2
  {
    var x1, x2 := h1 + ":params" + ":" + p1, h2 + ":params" + ":" + p2;
    CutAtLast(':', x1 + ":query", q1, x2 + ":query", q2);
    SameSuffix(x1, x2, ":query");
    CutAtLast(':', h1 + ":params", p1, h2 + ":params", p2);
    SameSuffix(h1, h2, ":params");
  }

  /** What follows `user:` in a private key. */
  function UserPart(r: Request): string {
    if r.scope == Account then AccountUser(r.userId, AccountId(r.query)) else r.userId
  }

  /** A user and an account, written as one user id might be. */
  function AccountUser(user: string, account: string): string {
    user + (":account:" + account)
  }

  lemma ScopePartText(user: string, account: string)
    ensures "user:" + (user + ":" + ("account:" + account)) == "user:" + AccountUser(user, account)
  {
    assert user + ":" + ("account:" + account) == user + (":account:" + account);
  }

  /** Scope parts agree exactly when both are public, or both private with the same text after `user:`. */
  lemma ScopePartsAgree(a: Request, b: Request)
    ensures ScopePart(a) == ScopePart(b)
            <==> (a.scope == Public <==> b.scope == Public) && (a.scope != Public ==> UserPart(a) == UserPart(b))
  {
    ScopePartText(a.userId, AccountId(a.query));
    ScopePartText(b.userId, AccountId(b.query));
    assert ScopePart(a) == if a.scope == Public then "public" else "user:" + UserPart(a);
    assert ScopePart(b) == if b.scope == Public then "public" else "user:" + UserPart(b);
    assert "public"[0] != ("user:" + UserPart(a))[0] && "public"[0] != ("user:" + UserPart(b))[0];
    if ScopePart(a) == ScopePart(b) && a.scope != Public && b.scope != Public {
      SamePrefix("user:", UserPart(a), UserPart(b));
    }
  }

  lemma LookupEquivalent(a: seq<Entry>, b: seq<Entry>, k: string)
    requires Distinct(Keys(a)) && Distinct(Keys(b)) && Equivalent(Obj(a), Obj(b)) && k != PROTO
    ensures Equivalent(Lookup(a, k), Lookup(b, k))
  {
    if k in Keys(a) {
      var i :| 0 <= i < |a| && Keys(a)[i] == k;
      assert k in Keys(b);
      var j :| 0 <= j < |b| && Keys(b)[j] == k;
      assert Lookup(a, k) == a[i].value && Lookup(b, k) == b[j].value;
    } else {
      assert k !in Keys(b);
    }
  }

  lemma EquivalentQueriesSameAccount(a: seq<Entry>, b: seq<Entry>)
    requires WellFormed(Obj(a)) && WellFormed(Obj(b)) && Equivalent(Obj(a), Obj(b))
    ensures AccountId(a) == AccountId(b)
  {
    assert "accountId" != PROTO by { assert "accountId"[0] != PROTO[0]; }
    LookupEquivalent(a, b, "accountId");
  }

  lemma SameAccountUser(user1: string, user2: string, account: string)
    ensures AccountUser(user1, account) == AccountUser(user2, account) <==> user1 == user2
  {
    if AccountUser(user1, account) == AccountUser(user2, account) {
      SameSuffix(user1, user2, ":account:" + account);
    }
  }

  /** The second request's user id spells the first one's user and account. */
  predicate Spells(a: Request, b: Request) {
    a.scope == Account && b.scope == User && b.userId == AccountUser(a.userId, AccountId(a.query))
  }

  lemma ScopePartsMean(a: Request, b: Request)
    requires AccountId(a.query) == AccountId(b.query)
    ensures ScopePart(a) == ScopePart(b) <==> SameHolder(a, b) || Spells(a, b) || Spells(b, a)
  {
    ScopePartsAgree(a, b);
    SameAccountUser(a.userId, b.userId, AccountId(a.query));
  }

  /** Two keys are equal exactly when target and scope part agree, whatever the ids contain. */
  lemma KeysAgree(a: Request, b: Request)
    requires Formed(a) && Formed(b)
    ensures KeyOf(a) == KeyOf(b) <==> SameTarget(a, b) && ScopePart(a) == ScopePart(b)
  {
    SegmentCanonical(Obj(a.params), Obj(b.params));
    SegmentCanonical(Obj(a.query), Obj(b.query));
    if KeyOf(a) == KeyOf(b) {
      SegmentColonFree(Obj(a.params));
      SegmentColonFree(Obj(b.params));
      SegmentColonFree(Obj(a.query));
      SegmentColonFree(Obj(b.query));
      ReadFromRight(Head(a), Segment(Obj(a.params)), Segment(Obj(a.query)),
                    Head(b), Segment(Obj(b.params)), Segment(Obj(b.query)));
      SamePrefix("response-cache:", a.resource + ":" + ScopePart(a), b.resource + ":" + ScopePart(b));
      CutAtColon(a.resource, ScopePart(a), b.resource, ScopePart(b));
    }
  }

  /**
   * What a key identifies, whatever the user ids contain: two requests share a cache entry exactly when
   * resource and parameters agree and the holders are the same, or one is an account and the other a
   * user whose id spells the first one's user and account.
   */
  lemma KeyIdentifiesRequest(a: Request, b: Request)
    requires Formed(a) && Formed(b)
    ensures KeyOf(a) == KeyOf(b) <==> SameTarget(a, b) && (SameHolder(a, b) || Spells(a, b) || Spells(b, a))
  {
    KeysAgree(a, b);
    if SameTarget(a, b) {
      EquivalentQueriesSameAccount(a.query, b.query);
      ScopePartsMean(a, b);
    }
  }

  /** Generated user ids spell no account, so a key identifies its request. */
  lemma ProperKeyIdentifiesRequest(a: Request, b: Request)
    requires Proper(a) && Proper(b)
    ensures KeyOf(a) == KeyOf(b) <==> SameRequest(a, b)
  {
    KeyIdentifiesRequest(a, b);
    assert AccountUser(a.userId, AccountId(a.query))[|a.userId|] == ':';
    assert AccountUser(b.userId, AccountId(b.query))[|b.userId|] == ':';
  }

  /** An id that does spell one shares the key of that account's entry. */
  lemma ColonInUserIdCollides(resource: string, user: string, params: seq<Entry>, query: seq<Entry>)
    ensures var a := Request(resource, Account, user, params, query);
            var b := Request(resource, User, AccountUser(user, AccountId(query)), params, query);
            KeyOf(a) == KeyOf(b) && Spells(a, b) && !SameRequest(a, b)
  {
    ScopePartText(user, AccountId(query));
  }

  // ---- building the key ----

  /** `parts.join(':')`. */
  function Join(parts: seq<string>): string {
    JoinWith(parts, ":")
  }

  method PushScope(r: Request) returns (keyParts: seq<string>)
    ensures keyParts != [] && Join(keyParts) == Head(r)
  {
    keyParts := ["response-cache"];
    JoinPush(keyParts, r.resource, ":");
    keyParts := keyParts + [r.resource];
    match r.scope {
      case Public =>
        JoinPush(keyParts, "public", ":");
        keyParts := keyParts + ["public"];
      case User =>
        keyParts := PushUser(keyParts, r.userId);
      case Account =>
        keyParts := PushUser(keyParts, r.userId);
        JoinPush(keyParts, "account", ":");
        keyParts := keyParts + ["account"];
        JoinPush(keyParts, AccountId(r.query), ":");
        keyParts := keyParts + [AccountId(r.query)];
    }
    HeadText(r.resource, r.userId, AccountId(r.query));
  }

  lemma HeadText(resource: string, user: string, account: string)
    ensures "response-cache" + ":" + resource + ":" + "public" == "response-cache:" + (resource + ":" + "public")
    ensures "response-cache" + ":" + resource + ":" + "user" + ":" + user
            == "response-cache:" + (resource + ":" + ("user:" + user))
    ensures "response-cache" + ":" + resource + ":" + "user" + ":" + user + ":" + "account" + ":" + account
            == "response-cache:" + (resource + ":" + ("user:" + (user + ":" + ("account:" + account))))
  {
  }

  method PushUser(keyParts: seq<string>, userId: string) returns (more: seq<string>)
    requires keyParts != []
    ensures more != [] && Join(more) == Join(keyParts) + ":" + "user" + ":" + userId
  {
    JoinPush(keyParts, "user", ":");
    more := keyParts + ["user"];
    JoinPush(more, userId, ":");
    more := more + [userId];
  }

  /** `buildCacheKey`. */
  method BuildCacheKey(r: Request) returns (key: string)
    ensures key == KeyOf(r)
  {
    var keyParts := PushScope(r);
    JoinPush(keyParts, "params", ":");
    keyParts := keyParts + ["params"];
    JoinPush(keyParts, Segment(Obj(r.params)), ":");
    keyParts := keyParts + [Segment(Obj(r.params))];
    JoinPush(keyParts, "query", ":");
    keyParts := keyParts + ["query"];
    JoinPush(keyParts, Segment(Obj(r.query)), ":");
    keyParts := keyParts + [Segment(Obj(r.query))];
    TailText(Head(r), Segment(Obj(r.params)), Segment(Obj(r.query)));
    key := Join(keyParts);
  }

  lemma TailText(head: string, p: string, q: string)
    ensures head + ":" + "params" + ":" + p + ":" + "query" + ":" + q == head + ":params" + ":" + p + ":query" + ":" + q
  {
  }
}
