# Verified model of the trading platform's stateful cores

A trading platform keeps many small pieces of state in step with one another: a browser's subscriptions
with a gateway session that forgets everything on a reconnect, counters in Redis with limits, cached
responses with the requests they answered, a queue with the connection behind it, accounts with their
default flag, and numbers shown in the browser with numbers computed on the server. This project models
those pieces in Dafny and proves what they promise over every input, every run and every interleaving.
Where a promise fails for some inputs, the exact condition under which it holds is proved instead.

`dafny verify dfyconfig.toml` checks the whole project.

## Contents

**Live subscriptions.** `SocketProtocol` is the manager's state (socket, two reference-count maps, status,
manual flag) with the messages in flight and the gateway's set. `LiveSubscriptions` puts mounted hooks,
charts and bar subscribers around it as one transition system. `SocketManagerClasses` is the imperative
form: objects whose methods are tied to the functions of the protocol. The main result,
`LiveSubscriptions.SessionFollowsHolders`, says that in every reachable state with a live connection the
gateway's session, once the messages in flight have arrived, is exactly what mounted consumers hold;
`ReconnectRestores` says that whenever a consumer connects, such a state is one step away.
`CandleKey.KeyRoundTrip`, `SocketProtocol.ReplayKeepsExactlyCleanPairs` and
`LiveSubscriptions.BarCountsNeedFreshIds` give the exact conditions on what callers pass in, and
`CandleKey.CollidesExactly` says which pairs share a counter with another. The gateway is assumed to start a session empty, to treat subscribe and unsubscribe as set insertion and removal, to
receive messages in order while connected, and to lose messages in flight and session on a drop.

**Rate limiter.** `RateLimit` works on traces of timed INCR and EXPIRE commands, interleaved freely.
`SlidingWindowBound` bounds what any interval of one window's length admits by 2 * limit - 1 (for a limit
of at least one), `BoundIsReached` shows that this cannot be improved, and `LifetimeAdmitsFirst` says that
a lifetime of a key admits exactly its first `limit` requests. A trace in which an EXPIRE never comes is
allowed; `LostExpireLocksOut` says what that means.

**Response cache.** `Json`, `JsonText` and `Encoding` define normalisation, JSON text, UTF-8 and base64url.
Normalisation ignores key order, undefined versus null, and properties named `__proto__`.
`CacheKey.KeyIdentifiesRequest` says which requests share a key, for any user ids; for the ids that are
generated, exactly the equivalent ones (`ProperKeyIdentifiesRequest`). `CacheStore` has Redis glob
matching, SCAN over buckets, and the service as a class: an answer from the cache was a handler's answer
to an equivalent request, of the same user unless it is public, whatever happened while handlers ran, and
invalidation deletes exactly the keys it should.

**Contract specifications.** `Segmentation` is the line machine, `RowGrammar` the row pattern with its two
lazy groups, `SpecificationParser` both together. A document whose rows are broken over lines at any token
parses back to those rows exactly when no row lets a lazy group stop early and each row is broken so that
its first line looks like a row start and every later line is taken for a continuation
(`SpecificationParser.DocumentRoundTrip`); rows broken before their margins always continue
(`MarginBreakRoundTrip`).

**Queue recovery.** `QueueRecovery` takes every await as a step boundary. One recovery at a time, at most two
attempts for each operation, each retired queue closed once, no caller left waiting for nothing, and
a shutdown that waits if it must and then closes the current queue, and everything closed after it exactly
when no recovery has begun since. A retry may go back to the
very queue that failed: exactly when that queue was current at the failure and no recovery began from
there to the retry (`RetryOnSameQueue`).

**Accounts and money.** `Accounts` is the default-account state machine. `DefaultLostExactly` finds the one
request after which a user with open accounts has no default: closing it while the others are suspended;
`StrandingRun` reaches it. `MarginMetrics` computes in units of the eighth decimal, bounds the rounding
error, and proves that the terminal's figures equal the backend's for positive contract sizes.

**Administrators.** `AdminNumbers` (over `Decimals`) proves numbering by string order correct exactly for the
first million; `SuperAdmins` proves that only the last super administrator's own demotion can leave none.

**Browser stores and navigation.** `MarketDataStore`, `PositionsStore` and `Navigation` relate the bounded,
in-place or loop form to its simple meaning.

`Text`, `Ordering` and `Wrappers` hold the string operations, JavaScript's string sort and the option and
result types.

## What the proofs show of the code

* The third pattern family of an account invalidation subsumes the other two, so an account invalidation
  deletes the same keys as a user invalidation (`CacheStore.AccountPatternsSubsumed`).
* A closed default account is replaced by an *active* account only, although lookup accepts any open one;
  a user can therefore be without a default until the next lookup (`Accounts.DefaultLostExactly`).
* Two bare-digit swap columns shift every later column of a row, although the row still matches
  (`RowGrammar.BareDigitSwapsShift`).
* A row broken before `10 CHF per 0.0001` or `Euro vs US Dollar` is split in two, because any word and a
  space look like a row start
  (`Segmentation.WordLooksLikeRowStart`, `SpecificationParser.DocumentRoundTrip`).
* A failure reported after the shutdown creates a queue that nobody closes
  (`QueueRecovery.LateFailureOutlivesShutdown`).
* A sole super administrator may demote itself; a configured one returns at its next lookup
  (`SuperAdmins.SelfDemotionAccepted`).

## Model

| member | source | states |
|---|---|---|
| `CandleKey.FirstSeparator` | frontend/lib/socket-manager.ts:180-187 | The first `::` of a key stands right after the symbol exactly when the symbol has no `::` and does not end in `:` |
| `CandleKey.KeyRoundTrip` | frontend/lib/socket-manager.ts:180-187 | A candle key splits back into the pair that built it exactly when the pair is clean |
| `CandleKey.KeyInjective` | frontend/lib/socket-manager.ts:185-187 | Clean pairs never share a counter |
| `CandleKey.CollidesExactly` | frontend/lib/socket-manager.ts:185-187 | A pair shares its counter with a different pair exactly when it is not clean or its resolution begins with a colon |
| `CandleKey.ParsedIsClean` | frontend/lib/socket-manager.ts:179-187 | What a replay reads back from a key is always a clean pair |
| `Text.TrimSpec` | frontend/lib/socket-manager.ts:197-199 | Trimming leaves no space at either end and leaves a trimmed text alone |
| `Text.TrimCuts` | frontend/lib/socket-manager.ts:197-199 | Trimming takes spaces from both ends and nothing else |
| `Text.NormalizeSymbolIdempotent` | frontend/hooks/use-live-prices.ts:10-22 | The hook's normalisation followed by the manager's own is the same as one of them |
| `Text.UpperSpec` | frontend/lib/socket-manager.ts:197-199 | Upper case holds no small letter, differs from the text in case only, and makes two texts equal exactly when they differ in case only |
| `Text.SplitJoins` | frontend/lib/socket-manager.ts:180 | The pieces of a split, joined by the separator, are the text again |
| `Text.SplitPieces` | frontend/lib/socket-manager.ts:180 | No piece of a split holds the separator |
| `Ordering.SortSpec` | src/common/cache/response-cache.interceptor.ts:107-109 | JavaScript's default sort gives ascending UTF-16 order and adds no repeats |
| `Ordering.SortCanonical` | src/common/cache/response-cache.interceptor.ts:107-109 | The sorted list depends on the set of keys only, not on their order |
| `Ordering.Utf16Injective` | src/common/cache/response-cache.interceptor.ts:107-109 | Different strings have different code units, so the sort order is total on strings |
| `SocketProtocol.ReceiveAllAppend` | frontend/lib/socket-manager.ts:92-94 | A message emitted last takes effect last at the gateway |
| `SocketProtocol.EmitMirrors` | frontend/lib/socket-manager.ts:189-195 | A change of the maps together with its message keeps client and eventual session equal |
| `SocketProtocol.PriceCallsKeepInv` | frontend/lib/socket-manager.ts:96-125 | Price calls keep the mirror between maps and session, positive counts and the status |
| `SocketProtocol.CandleCallsKeepInv` | frontend/lib/socket-manager.ts:127-164 | Candle calls for clean pairs keep the same invariant |
| `SocketProtocol.PriceMessagesAreChanges` | frontend/lib/socket-manager.ts:102-124 | On a live connection exactly one message is sent when the wanted topics change and none otherwise |
| `SocketProtocol.CandleMessagesAreChanges` | frontend/lib/socket-manager.ts:134-163 | The same for candle calls, as long as no other key reads back as the same pair |
| `SocketProtocol.StrayReleaseOnlySends` | frontend/lib/socket-manager.ts:110-164 | Letting go of something not held sends one message on a live connection and changes nothing else |
| `SocketProtocol.BlankSymbolsIgnored` | frontend/lib/socket-manager.ts:96-149 | Every call with a blank symbol is ignored |
| `SocketProtocol.ReplayRebuilds` | frontend/lib/socket-manager.ts:174-183 | A replay over an empty session rebuilds exactly the wanted topics with one message each, in any enumeration order |
| `SocketProtocol.HappenInv` | frontend/lib/socket-manager.ts:54-62 | Connecting, dropping, refusing and delivering keep the mirror |
| `SocketProtocol.ConnectInv` | frontend/lib/socket-manager.ts:19-39 | Calling connect, with or without a socket, keeps the mirror |
| `SocketProtocol.ConnectSpec` | frontend/lib/socket-manager.ts:19-39 | After connect the socket is live or being tried, whatever it was before; a live or trying one is left alone and every subscription kept |
| `SocketProtocol.DisconnectSpec` | frontend/lib/socket-manager.ts:71-76 | A manual disconnect ends with no socket and keeps every subscription |
| `SocketProtocol.EstablishedIsNext` | frontend/lib/socket-manager.ts:54-57 | While the socket is being tried, establishing the connection is possible next |
| `SocketProtocol.ReplayKeepsExactlyCleanPairs` | frontend/lib/socket-manager.ts:127-187 | Whatever else is subscribed, a reconnect asks again for a subscribed pair exactly when it is clean |
| `LiveSubscriptions.NormalizedSymbols` | frontend/hooks/use-live-prices.ts:10-22 | The hook's list holds each non-blank normalised symbol once, in order, already in the manager's form |
| `LiveSubscriptions.SubscribeEachEffect` | frontend/hooks/use-live-prices.ts:34-36 | Subscribing a list adds one to exactly its symbols' counts |
| `LiveSubscriptions.UnsubscribeEachEffect` | frontend/hooks/use-live-prices.ts:37-39 | Unsubscribing a held list takes one from exactly its symbols' counts |
| `LiveSubscriptions.HookSteps` | frontend/hooks/use-live-prices.ts:29-42 | Diffing the old list against the new one keeps every count equal to its number of holders |
| `LiveSubscriptions.HookCleanupKeeps` | frontend/hooks/use-live-prices.ts:44-50 | So does the cleanup on unmount |
| `LiveSubscriptions.HookHolds` | frontend/hooks/use-live-prices.ts:29-42 | After its effect a hook holds exactly the non-blank symbols of its list, normalised; other holders are untouched |
| `LiveSubscriptions.HookReleases` | frontend/hooks/use-live-prices.ts:44-50 | After its cleanup it holds nothing |
| `LiveSubscriptions.PairsHeld` | frontend/lib/tradingview/udf-datafeed.ts:127-180 | Charts and bar subscribers hold their pair from mount to unmount, and nobody else's holdings change |
| `LiveSubscriptions.ChartAdded` | frontend/components/trade/lightweight-chart.tsx:101-129 | So does mounting a chart |
| `LiveSubscriptions.ChartRemoved` | frontend/components/trade/lightweight-chart.tsx:162-166 | So does unmounting it |
| `LiveSubscriptions.BarsAdded` | frontend/lib/tradingview/udf-datafeed.ts:127-169 | So does a bar subscription under a fresh id |
| `LiveSubscriptions.BarsRemoved` | frontend/lib/tradingview/udf-datafeed.ts:170-180 | So does ending it |
| `LiveSubscriptions.NextKeepsInv` | frontend/lib/socket-manager.ts:19-195 | Every step of the whole system keeps the mirror and both families of counts |
| `LiveSubscriptions.RunKeepsInv` | frontend/lib/socket-manager.ts:19-195 | They hold in every state of every run |
| `LiveSubscriptions.SessionFollowsHolders` | frontend/lib/socket-manager.ts:96-195 | While connected, the session after all messages in flight contains a topic exactly when a mounted consumer holds it |
| `LiveSubscriptions.ConsumersConnect` | frontend/lib/socket-manager.ts:19-39 | A login, hook effect, chart mount or bar subscription leaves the socket live or being tried |
| `LiveSubscriptions.ReleasesLeaveSocket` | frontend/hooks/use-live-prices.ts:44-50 | Letting go never touches the socket, and ending an unknown bar subscription does nothing |
| `LiveSubscriptions.ReconnectRestores` | frontend/lib/socket-manager.ts:19-69 | After any of these, in every run, one further step can make the connection live, and the session is then what mounted consumers hold |
| `LiveSubscriptions.LogoutSpec` | frontend/lib/socket-manager.ts:71-76 | A logout leaves no socket and every holder |
| `LiveSubscriptions.PriceCountIsHolderCount` | frontend/hooks/use-live-prices.ts:24-51 | In every run a symbol's count is the number of mounted hooks holding it, and it is in the map exactly when one does |
| `LiveSubscriptions.CandleWantedIffHeld` | frontend/lib/socket-manager.ts:127-187 | A pair is wanted from the gateway exactly when a chart or bar subscriber holds it |
| `LiveSubscriptions.StatusFollowsSocket` | frontend/lib/socket-manager.ts:54-76 | In every run the status is disconnected without a socket, connected when live, and reconnecting otherwise |
| `LiveSubscriptions.BarCountsNeedFreshIds` | frontend/lib/tradingview/udf-datafeed.ts:127-180 | Candle counts survive a bar subscription exactly when its id is free or its old record never counted |
| `SocketManagerClasses.SocketManager.ConnectSocket` | frontend/lib/socket-manager.ts:19-69 | Creates the socket, or wakes an idle one, and clears the manual flag |
| `SocketManagerClasses.SocketManager.DisconnectSocket` | frontend/lib/socket-manager.ts:71-76 | Drops the socket, keeps both maps, and reports a manual disconnect |
| `SocketManagerClasses.SocketManager.EmitIfConnected` | frontend/lib/socket-manager.ts:189-195 | Appends the message exactly when the socket is connected |
| `SocketManagerClasses.SocketManager.SubscribePrice` | frontend/lib/socket-manager.ts:96-108 | Refines the protocol step of the same name |
| `SocketManagerClasses.SocketManager.UnsubscribePrice` | frontend/lib/socket-manager.ts:110-125 | Refines the protocol step of the same name |
| `SocketManagerClasses.SocketManager.SubscribeCandles` | frontend/lib/socket-manager.ts:127-143 | Refines the protocol step of the same name |
| `SocketManagerClasses.SocketManager.UnsubscribeCandles` | frontend/lib/socket-manager.ts:145-164 | Refines the protocol step of the same name |
| `SocketManagerClasses.SocketManager.OnConnect` | frontend/lib/socket-manager.ts:55-57 | Marks the manager connected and replays every key of both maps into a fresh session |
| `SocketManagerClasses.SocketManager.ReplaySubscriptions` | frontend/lib/socket-manager.ts:174-183 | The two loops emit one subscribe message for each key, prices first |
| `SocketManagerClasses.SocketManager.OnDisconnect` | frontend/lib/socket-manager.ts:58-59 | Loses messages and session; the status depends on the manual flag |
| `SocketManagerClasses.SocketManager.OnConnectError` | frontend/lib/socket-manager.ts:60-61 | Reports reconnecting and keeps the rest |
| `SocketManagerClasses.LivePriceHook.RunEffect` | frontend/hooks/use-live-prices.ts:29-42 | The effect's loops refine the protocol's diff and leave the new list active |
| `SocketManagerClasses.LivePriceHook.Cleanup` | frontend/hooks/use-live-prices.ts:44-50 | The cleanup loop lets go of every active symbol |
| `SocketManagerClasses.UdfDatafeed.SubscribeBars` | frontend/lib/tradingview/udf-datafeed.ts:127-169 | Connects, subscribes and records the pair under the subscriber's id |
| `SocketManagerClasses.UdfDatafeed.UnsubscribeBars` | frontend/lib/tradingview/udf-datafeed.ts:170-180 | Lets go of the recorded pair, or does nothing for an unknown id |
| `RateLimit.StepKeepsWindowInv` | src/common/guards/rate-limit.guard.ts:44-50 | One command keeps the account of what the open window can still admit |
| `RateLimit.WindowBound` | src/common/guards/rate-limit.guard.ts:42-55 | The bound and the account hold after every legal trace |
| `RateLimit.SlidingWindowBound` | src/common/guards/rate-limit.guard.ts:42-55 | Any half-open interval of one window's length admits at most 2 * limit - 1 requests of a key (none for a zero limit), however late an EXPIRE comes |
| `RateLimit.BoundIsReached` | src/common/guards/rate-limit.guard.ts:42-55 | For every limit some legal trace admits exactly that many |
| `RateLimit.OwedMeansNoDeadline` | src/common/guards/rate-limit.guard.ts:46-48 | While an EXPIRE is owed the counter is live and has no deadline |
| `RateLimit.LifetimeCounts` | src/common/guards/rate-limit.guard.ts:44-48 | Within a lifetime the counter is the number of requests so far and the deadline is at least a window after the start |
| `RateLimit.LifetimeAdmitsFirst` | src/common/guards/rate-limit.guard.ts:44-55 | A lifetime of a key admits exactly its first `limit` requests |
| `RateLimit.LifetimesAreApart` | src/common/guards/rate-limit.guard.ts:44-48 | Consecutive lifetimes of a key begin at least one window apart |
| `RateLimit.QuotaComesBack` | src/common/guards/rate-limit.guard.ts:46-48 | One window after an EXPIRE the key is on a new lifetime, whatever happened in between |
| `RateLimit.LostExpireLocksOut` | src/common/guards/rate-limit.guard.ts:44-48 | If no EXPIRE ever comes only the first `limit` requests pass, for all time |
| `RateLimit.KeysSeparate` | src/common/guards/rate-limit.guard.ts:42 | With colon-free prefixes a key determines its prefix and identifier |
| `RateLimit.IdentifierPrecedence` | src/common/guards/rate-limit.guard.ts:37-41 | The user id comes before the address, the address before the first forwarded entry, trimmed, and `anonymous` stands for none |
| `RateLimit.UsersHaveOwnQuotas` | src/common/guards/rate-limit.guard.ts:37-42 | Signed-in requests share a counter exactly when prefix and user agree, whatever their addresses |
| `RateLimit.AddressesHaveOwnQuotas` | src/common/guards/rate-limit.guard.ts:37-42 | Anonymous requests with an address share one exactly when prefix and address agree |
| `RateLimit.RedisCounters.Increment` | src/common/guards/rate-limit.guard.ts:44 | INCR on the stored counters returns the reading that the trace semantics assigns |
| `RateLimit.RedisCounters.SetExpiry` | src/common/guards/rate-limit.guard.ts:47 | EXPIRE on the stored counters is the trace's next command |
| `RateLimit.RateLimitGuard.Begin` | src/common/guards/rate-limit.guard.ts:37-44 | Up to the first await: the caller's own key, the user's id when signed in, one INCR, and an owed EXPIRE when the reading is one |
| `RateLimit.RateLimitGuard.Finish` | src/common/guards/rate-limit.guard.ts:46-57 | From there on: the EXPIRE if owed, and admission exactly when this request's own reading is within the limit |
| `Encoding.Utf8Injective` | src/common/cache/response-cache.interceptor.ts:119-121 | Different texts have different UTF-8 bytes |
| `Encoding.Base64UrlRoundTrip` | src/common/cache/response-cache.interceptor.ts:119-121 | Unpadded base64url reads back as the same bytes |
| `Encoding.Base64UrlColonFree` | src/common/cache/response-cache.interceptor.ts:119-121 | Encoded segments contain no colon |
| `Json.NormalizeReflects` | src/common/cache/response-cache.interceptor.ts:102-117 | Equal normal forms come only from values that differ in key order, undefined versus null, or properties named `__proto__` |
| `Json.NormalizeRespects` | src/common/cache/response-cache.interceptor.ts:102-117 | Values that differ in no more than that have equal normal forms |
| `Json.NormalizeCanonical` | src/common/cache/response-cache.interceptor.ts:102-117 | Both directions: normal forms are equal exactly for equivalent values |
| `Json.NormalizeIdempotent` | src/common/cache/response-cache.interceptor.ts:102-117 | Normalising twice changes nothing |
| `Json.NormalizeEquivalent` | src/common/cache/response-cache.interceptor.ts:102-117 | A value is equivalent to its normal form |
| `Json.NormalizeWellFormed` | src/common/cache/response-cache.interceptor.ts:106-113 | Normal forms never repeat an object key |
| `Json.OwnKeyOrderDistinct` | src/common/cache/response-cache.interceptor.ts:107-113 | Enumerating integer-like keys first loses and repeats no key |
| `Json.ArrayIndexExactly` | src/common/cache/response-cache.interceptor.ts:107-113 | The keys enumerated first are the printed numbers below 2^32 - 1 |
| `JsonText.NormalizePrintable` | src/common/cache/response-cache.interceptor.ts:116 | A normal form holds no undefined at any depth |
| `JsonText.QuoteUnique` | src/common/cache/response-cache.interceptor.ts:120 | A quoted string followed by anything determines the string and what follows |
| `JsonText.PrintUnique` | src/common/cache/response-cache.interceptor.ts:120 | JSON text followed by anything determines the value and what follows |
| `JsonText.SegmentCanonical` | src/common/cache/response-cache.interceptor.ts:102-121 | Encoded segments are equal exactly for equivalent values |
| `CacheKey.ReadFromRight` | src/common/cache/response-cache.interceptor.ts:92-99 | Read from the right, a key gives back both segments and its head, whatever the account id contains |
| `CacheKey.AccountIdSpec` | src/common/cache/response-cache.interceptor.ts:88-89 | The account is the query's own non-empty text, wherever it stands, and `default` otherwise |
| `CacheKey.ScopePartsAgree` | src/common/cache/response-cache.interceptor.ts:83-90 | Scope parts are equal exactly when both are public, or both private with the same text after `user:` |
| `CacheKey.ScopePartsMean` | src/common/cache/response-cache.interceptor.ts:83-90 | With the same account, that is the same holder, or a user id that spells the other's user and account |
| `CacheKey.KeysAgree` | src/common/cache/response-cache.interceptor.ts:74-125 | Keys are equal exactly when resource, equivalent parameters and scope part agree |
| `CacheKey.EquivalentQueriesSameAccount` | src/common/cache/response-cache.interceptor.ts:88-89 | Equivalent queries name the same account |
| `CacheKey.KeyIdentifiesRequest` | src/common/cache/response-cache.interceptor.ts:74-125 | For any user ids, keys are equal exactly for the same resource and equivalent parameters, with the same scope and user (unless public) or a user id that spells the other request's user and account |
| `CacheKey.ProperKeyIdentifiesRequest` | src/common/cache/response-cache.interceptor.ts:74-125 | For colon-free user ids the second case cannot occur |
| `CacheKey.ColonInUserIdCollides` | src/common/cache/response-cache.interceptor.ts:83-90 | Every account entry shares its key with the user entry of the id that spells it |
| `CacheKey.BuildCacheKey` | src/common/cache/response-cache.interceptor.ts:74-100 | Pushing the parts one by one and joining them gives the key the theorems are about |
| `CacheStore.LiteralStar` | src/common/cache/response-cache.service.ts:37-61 | A glob-free prefix and a star match exactly the texts with that prefix |
| `CacheStore.UserPrefixCatches` | src/common/cache/response-cache.service.ts:37-41 | A user prefix begins a built key exactly for that user's private entries of that resource |
| `CacheStore.AccountPrefixCatches` | src/common/cache/response-cache.service.ts:49-54 | An account prefix begins a built key exactly for that user's entries of that account, or of one whose id goes on after it with a colon |
| `CacheStore.PublicPrefixCatches` | src/common/cache/response-cache.service.ts:59-61 | A public prefix begins a built key exactly for the public entries of that resource |
| `CacheStore.UserPatternsCatch` | src/common/cache/response-cache.service.ts:37-41 | Some user pattern matches a built key exactly when it belongs to the user and one of the resources |
| `CacheStore.AccountPatternsSubsumed` | src/common/cache/response-cache.service.ts:43-57 | The account patterns match exactly the keys the user patterns match |
| `CacheStore.ExplainedAnswer` | src/common/cache/response-cache.interceptor.ts:51-56 | What is stored under a request's key once answered an equivalent request |
| `CacheStore.Redis.Scan` | src/common/cache/response-cache.service.ts:71-77 | What a SCAN call reports, with what going on from its cursor still reports, is all that was unreported before; from cursor zero that is every stored matching key |
| `CacheStore.ResponseCache.Get` | src/common/cache/response-cache.service.ts:11-29 | A miss for absent, unreadable and null entries; an unreadable one is dropped |
| `CacheStore.ResponseCache.Begin` | src/common/cache/response-cache.interceptor.ts:43-57 | Up to the cache's answer: a cached answer once answered an equivalent request, and there is one exactly when the entry holds a body |
| `CacheStore.ResponseCache.Finish` | src/common/cache/response-cache.interceptor.ts:59-63 | After the handler, with anything in between: its answer is passed on and becomes the entry, which the request explains |
| `CacheStore.ResponseCache.Intercept` | src/common/cache/response-cache.interceptor.ts:26-67 | With nothing in between, the handler runs exactly when no cached answer exists, and then its answer is stored |
| `CacheStore.ResponseCache.Store` | src/common/cache/response-cache.service.ts:31-35 | Stores the answer under the request's key and nothing else |
| `CacheStore.ResponseCache.ScanAll` | src/common/cache/response-cache.service.ts:68-80 | Iterating from cursor zero until it returns to zero collects exactly the matching keys |
| `CacheStore.ResponseCache.DeleteByPatterns` | src/common/cache/response-cache.service.ts:63-86 | Deletes exactly the keys that match some pattern |
| `CacheStore.ResponseCache.InvalidateUserResources` | src/common/cache/response-cache.service.ts:37-41 | Deletes a built key exactly when it is private, of that user, and of one of the resources |
| `CacheStore.ResponseCache.InvalidateAccountResources` | src/common/cache/response-cache.service.ts:43-57 | Deletes exactly what invalidating the user's resources deletes |
| `CacheStore.ResponseCache.InvalidatePublicResource` | src/common/cache/response-cache.service.ts:59-61 | Deletes a built key exactly when it is public and of that resource |
| `Segmentation.SegmentLines` | app/parsing/contract_specifications_parser.py:80-112 | The loop computes the segmentation of the stripped lines |
| `Segmentation.ReadLine` | app/parsing/contract_specifications_parser.py:91-110 | One turn of the loop is one step of the machine over classified lines |
| `Segmentation.FlushBuffer` | app/parsing/contract_specifications_parser.py:85-89 | Emits the buffered row if a section is open, and empties the buffer |
| `Segmentation.NoiseIrrelevant` | app/parsing/contract_specifications_parser.py:101-102 | Noise lines change nothing wherever they stand |
| `Segmentation.SegmentAtHeader` | app/parsing/contract_specifications_parser.py:91-112 | A text can be cut at any section header and its parts segmented separately |
| `Segmentation.WrappedScan` | app/parsing/contract_specifications_parser.py:104-110 | A row start and its continuation lines are joined into one buffer |
| `Segmentation.RowStartExactly` | app/parsing/contract_specifications_parser.py:143-144 | A line looks like a row start exactly when it begins with a word of symbol characters and a space |
| `Segmentation.WordLooksLikeRowStart` | app/parsing/contract_specifications_parser.py:143-144 | So any such word and a space do, whatever follows |
| `Segmentation.OtherWordIsNoRowStart` | app/parsing/contract_specifications_parser.py:143-144 | A first word with any other character does not |
| `Segmentation.PageMarkerExactly` | app/parsing/contract_specifications_parser.py:149 | A page marker is two numbers between its fixed parts, and nothing else |
| `Segmentation.NoiseExactly` | app/parsing/contract_specifications_parser.py:146-161 | Noise is a blank line, a page marker, a line that begins like a column heading, or a bare line of days |
| `Segmentation.SectionExactly` | app/parsing/contract_specifications_parser.py:92-95 | A section is found exactly when its pattern begins the line: no pattern begins another, so the order of definitions does not matter |
| `Segmentation.SectionTable` | app/parsing/contract_specifications_parser.py:40-71 | Class, subtype and region of every section follow from its name |
| `Segmentation.PercentLineContinues` | app/parsing/contract_specifications_parser.py:91-110 | A line that begins with a percentage is always a continuation |
| `Segmentation.MinusLineContinues` | app/parsing/contract_specifications_parser.py:91-110 | So is a line that begins with a minus sign, unless it is a page marker |
| `Segmentation.NoRowsBeforeHeader` | app/parsing/contract_specifications_parser.py:101-102 | Lines before the first header are never part of a row |
| `Segmentation.LayoutForced` | app/parsing/contract_specifications_parser.py:77-114 | Rows laid out under headers, broken anywhere and with noise anywhere, come back with the same length (words, or any measure that adds up over joined lines) exactly when each row's first line is taken as a row start and its later ones as continuations |
| `Segmentation.LayoutRoundTrip` | app/parsing/contract_specifications_parser.py:77-114 | They come back as they were, in order and with their sections, exactly under that condition |
| `Segmentation.RowsConserveLines` | app/parsing/contract_specifications_parser.py:91-112 | Every line that belongs to a row is in the rows' texts exactly once, in order, and no other text is |
| `RowGrammar.FindMargins` | app/parsing/contract_specifications_parser.py:14-17 | The lazy description stops at the first margins from which the rest can match |
| `RowGrammar.PipEnd` | app/parsing/contract_specifications_parser.py:18-19 | A pip value takes tokens if it can, and is blank only in a wide gap when it cannot |
| `RowGrammar.FindNumbers` | app/parsing/contract_specifications_parser.py:18-25 | The lazy pip value stops at the first six numbers with trading hours behind them |
| `RowGrammar.DecimalExactly` | app/parsing/contract_specifications_parser.py:19-24 | A decimal is digits, or digits on both sides of one point |
| `RowGrammar.SignedExactly` | app/parsing/contract_specifications_parser.py:19-20 | A swap is a decimal with at most a minus sign before it |
| `RowGrammar.PercentExactly` | app/parsing/contract_specifications_parser.py:15-16 | A margin is a decimal and a percent sign |
| `RowGrammar.LotExactly` | app/parsing/contract_specifications_parser.py:17 | A lot size is digits between commas, in groups of any size |
| `RowGrammar.MatchSound` | app/parsing/contract_specifications_parser.py:12-26 | What is matched is a reading of the whole row with every column in its shape, and blank only where a gap is wide enough |
| `RowGrammar.MatchExactlyReadable` | app/parsing/contract_specifications_parser.py:12-26 | Matching succeeds exactly on the rows that can be read in some way, blank fields in wide gaps included |
| `RowGrammar.FullReadingWins` | app/parsing/contract_specifications_parser.py:12-26 | A row that can be read with nothing blank is read so |
| `RowGrammar.MarginsFound` | app/parsing/contract_specifications_parser.py:14-17 | In a printed row the margins are found where they were put exactly when the description holds none |
| `RowGrammar.NumbersFound` | app/parsing/contract_specifications_parser.py:18-25 | The same for the six numbers and the pip value |
| `RowGrammar.RowRoundTrip` | app/parsing/contract_specifications_parser.py:12-26 | Whatever the gaps, printing and matching recovers every field exactly when neither lazy group can stop early |
| `RowGrammar.SignedSwapRowsRoundTrip` | app/parsing/contract_specifications_parser.py:12-26 | A check on single tokens that is enough for the round trip |
| `RowGrammar.BareDigitSwapsShift` | app/parsing/contract_specifications_parser.py:18-25 | Bare-digit swaps after a pip value ending in a number are misread |
| `SpecificationParser.WordsOfJoin` | app/parsing/contract_specifications_parser.py:109-110 | Joining wrapped lines with spaces keeps their tokens in order |
| `SpecificationParser.WordsOfTokens` | app/parsing/contract_specifications_parser.py:12-26 | Tokens joined by single spaces are read back one by one |
| `SpecificationParser.GapsOfTwoWords` | app/parsing/contract_specifications_parser.py:12-26 | A gap can stand for a blank field exactly when it has three or more spaces |
| `SpecificationParser.ParseRowsPointwise` | app/parsing/contract_specifications_parser.py:114-119 | A parse succeeds with these assets exactly when each row parses to its own |
| `SpecificationParser.ParseFailsOnUnreadableRow` | app/parsing/contract_specifications_parser.py:116-119 | The parse fails exactly when some row cannot be read in any way |
| `SpecificationParser.ParseErrorNamesRow` | app/parsing/contract_specifications_parser.py:114-119 | It then names the first such row |
| `SpecificationParser.PrintedRowParses` | app/parsing/contract_specifications_parser.py:116-141 | A wrapped row parses to its section and fields exactly when it is free of early matches |
| `SpecificationParser.DocumentRoundTrip` | app/parsing/contract_specifications_parser.py:77-141 | A document whose rows are broken at any token, with noise anywhere, parses back to its rows exactly when each row's first line looks like a row start, each later line continues it, and no lazy group can stop early |
| `SpecificationParser.FirstLineStarts` | app/parsing/contract_specifications_parser.py:143-161 | A row's first line starts a row exactly when its symbol is a symbol word and the line is no header and no noise |
| `SpecificationParser.MarginBreakRoundTrip` | app/parsing/contract_specifications_parser.py:77-141 | Documents whose rows are all broken before their margins come back exactly when each first line starts a row and no lazy group can stop early |
| `SpecificationParser.Parse` | app/parsing/contract_specifications_parser.py:77-114 | The imperative parse computes the parse the theorems are about |
| `QueueRecovery.NextKeepsInv` | src/common/queue/order-queue.service.ts:204-237 | Every step keeps single flight, the closing accounts and the order of queue generations |
| `QueueRecovery.RunKeepsInv` | src/common/queue/order-queue.service.ts:204-237 | They hold in every state of every interleaving |
| `QueueRecovery.OneRecoveryInFlight` | src/common/queue/order-queue.service.ts:219-237 | At most one caller is recovering the queue |
| `QueueRecovery.RetiredQueuesClosedOnce` | src/common/queue/order-queue.service.ts:225-230 | Each queue is closed once when retired, and once more only if the shutdown closed it too |
| `QueueRecovery.ShutdownAdvances` | src/common/queue/order-queue.service.ts:134-140 | A shutdown waits exactly when a recovery is under way, goes on by closing the queue current then, and never goes back |
| `QueueRecovery.ShutdownNotStuck` | src/common/queue/order-queue.service.ts:134-140 | A shutdown asked for and not over can always be taken further |
| `QueueRecovery.ShutdownClosesItsQueue` | src/common/queue/order-queue.service.ts:134-140 | In every run a shutdown that is over has closed the queue that was current when it went on, once |
| `QueueRecovery.ShutdownClosesEverything` | src/common/queue/order-queue.service.ts:134-140 | After shutdown, with no recovery in flight, every queue is closed exactly when none was created after the one shut down |
| `QueueRecovery.LateFailureOutlivesShutdown` | src/common/queue/order-queue.service.ts:134-140 | A run of one caller in which a failure after the shutdown leaves a queue open |
| `QueueRecovery.InvocationsAreAttempts` | src/common/queue/order-queue.service.ts:204-217 | A caller's place in the protocol tells how often its operation was invoked |
| `QueueRecovery.AtMostTwoAttempts` | src/common/queue/order-queue.service.ts:204-217 | No operation is invoked more than twice, and never on an older queue the second time |
| `QueueRecovery.FirstAttempt` | src/common/queue/order-queue.service.ts:204-208 | The first attempt runs on the queue that was current when the call began |
| `QueueRecovery.OutcomeIsLastAttempts` | src/common/queue/order-queue.service.ts:204-217 | A call is settled with the outcome of its last attempt |
| `QueueRecovery.RetryAfterClosing` | src/common/queue/order-queue.service.ts:214-230 | Nobody retries before the queue its recovery replaced is closed |
| `QueueRecovery.FailurePoint` | src/common/queue/order-queue.service.ts:210-222 | A caller waits for the recovery under way when its first attempt failed, or for its own |
| `QueueRecovery.RetryPoint` | src/common/queue/order-queue.service.ts:214-215 | The second attempt is given the queue current at the retry |
| `QueueRecovery.QueueStays` | src/common/queue/order-queue.service.ts:219-230 | Over a stretch of a run the queue stays the same exactly when no recovery begins in it |
| `QueueRecovery.RetryOnSameQueue` | src/common/queue/order-queue.service.ts:204-237 | A retry returns to the failed queue exactly when that queue was current at the failure and no recovery began from the failure up to the retry |
| `QueueRecovery.QueuesBoundedByFailures` | src/common/queue/order-queue.service.ts:219-230 | No more queues are created than first attempts failed |
| `QueueRecovery.CallersAdvance` | src/common/queue/order-queue.service.ts:204-217 | A caller's own steps only take it further and others' steps leave it where it is |
| `QueueRecovery.NoCallerStuck` | src/common/queue/order-queue.service.ts:204-237 | An unfinished caller can always be taken further, at worst after the closing it waits for |
| `QueueRecovery.JoinerRetriesFailedQueue` | src/common/queue/order-queue.service.ts:219-223 | A joiner whose queue the recovery itself created is sent back to it |
| `QueueRecovery.LateFailureRetiresCurrentQueue` | src/common/queue/order-queue.service.ts:225-230 | A late failure on an old queue retires the current one and leaves the old one alone |
| `QueueRecovery.OrderQueueService.WithRecoveredQueue` | src/common/queue/order-queue.service.ts:204-208 | A call begins with the queue current at that moment |
| `QueueRecovery.OrderQueueService.FirstAttemptRejects` | src/common/queue/order-queue.service.ts:209-215 | An unrecoverable error ends the call; any other joins or begins a recovery |
| `QueueRecovery.OrderQueueService.RecoverQueue` | src/common/queue/order-queue.service.ts:219-230 | Joins the recovery under way, or replaces the queue, starts closing the old one and sets the promise |
| `QueueRecovery.OrderQueueService.LeaderResumesAfterRecovery` | src/common/queue/order-queue.service.ts:232-236 | The leader clears the promise |
| `QueueRecovery.OrderQueueService.RetryOperation` | src/common/queue/order-queue.service.ts:214-215 | The second attempt takes the queue current then, not the one that failed |
| `QueueRecovery.OrderQueueService.OnModuleDestroy` | src/common/queue/order-queue.service.ts:134-140 | Waits for a recovery under way, otherwise closes the current queue |
| `QueueRecovery.OrderQueueService.ShutdownGoesOn` | src/common/queue/order-queue.service.ts:134-140 | After the recovery it waited for, one close call on the queue current then |
| `Accounts.CreateKeepsInv` | src/modules/accounts/accounts.service.ts:60-86 | A new account keeps ids and numbers distinct and at most one default |
| `Accounts.SetDefaultKeepsInv` | src/modules/accounts/accounts.service.ts:115-131 | Clearing all and setting one keeps at most one default, and it is open |
| `Accounts.CloseKeepsInv` | src/modules/accounts/accounts.service.ts:230-275 | Closing with a fallback keeps the same |
| `Accounts.LookupKeepsInv` | src/modules/accounts/accounts.service.ts:302-342 | Promotion during lookup keeps the same |
| `Accounts.ApplyExtends` | src/modules/accounts/accounts.service.ts:60-342 | No request removes or reorders rows, reopens a closed account or touches another user's rows |
| `Accounts.RunKeepsInv` | src/modules/accounts/accounts.service.ts:60-342 | In every sequential run at most one account per user is default and no default is closed |
| `Accounts.ClosedForGood` | src/modules/accounts/accounts.service.ts:230-275 | A closed account stays closed, in place and with its owner, for the rest of every run |
| `Accounts.LookupSpec` | src/modules/accounts/accounts.service.ts:302-342 | Lookup succeeds exactly when an open account exists, leaves exactly one default, and finds it again |
| `Accounts.LookupChanges` | src/modules/accounts/accounts.service.ts:302-342 | Lookup changes one flag at most: a marked account is returned as it is, otherwise the oldest open one is marked |
| `Accounts.CloseStrands` | src/modules/accounts/accounts.service.ts:248-275 | Closing leaves open accounts without a default exactly when the others are all suspended or closed and one is suspended |
| `Accounts.DefaultLostExactly` | src/modules/accounts/accounts.service.ts:60-342 | Over all requests, that close is the only one after which an open account has no default |
| `Accounts.StrandingRun` | src/modules/accounts/accounts.service.ts:60-275 | A run of four requests, for any user, after which an open account has no default |
| `Accounts.DefaultWhileNoneSuspended` | src/modules/admin/admin.service.ts:989-999 | In runs without suspensions a user with an open account has a default |
| `Accounts.ExactlyOneDefault` | src/modules/accounts/accounts.service.ts:60-342 | In such runs a user has exactly one, open, default exactly when any account is open |
| `Accounts.CreateSpec` | src/modules/accounts/accounts.service.ts:60-86 | Creation fails exactly when every candidate number is taken; otherwise one row is added as asked: active, with the first free number, default exactly when the user has no open account, and money only for a demo |
| `Accounts.SetDefaultSpec` | src/modules/accounts/accounts.service.ts:115-131 | Succeeds exactly for the user's active accounts, tells missing from inactive ones, makes that one the only default and changes nothing but the user's flags |
| `Accounts.ResetSpec` | src/modules/accounts/accounts.service.ts:155-184 | Succeeds exactly for the user's demo accounts, tells missing from live ones, and changes that balance alone |
| `Accounts.CloseSpec` | src/modules/accounts/accounts.service.ts:230-275 | Succeeds exactly for accounts closed already, which changes nothing, or without positions; only that status and flags change, and a default hands the flag to the oldest other active account |
| `Accounts.StatusSpec` | src/modules/admin/admin.service.ts:989-999 | Exactly the user's open accounts take the status, nothing else changes, and suspending then reactivating restores the table exactly when none was suspended |
| `Accounts.FreeNumberSpec` | src/modules/accounts/accounts.service.ts:522-539 | The first free candidate is drawn, and none exactly when every candidate is taken |
| `Accounts.AccountsService.GenerateAccountNo` | src/modules/accounts/accounts.service.ts:522-539 | Returns the first candidate nobody carries, or fails |
| `Accounts.AccountsService.Create` | src/modules/accounts/accounts.service.ts:60-86 | Appends an active account, default exactly when the user had no open one |
| `Accounts.AccountsService.SetDefaultAccount` | src/modules/accounts/accounts.service.ts:115-131 | Refuses missing and inactive accounts, otherwise makes this the only default |
| `Accounts.AccountsService.Close` | src/modules/accounts/accounts.service.ts:230-275 | Refuses missing accounts and open positions, otherwise closes and hands the default on |
| `Accounts.AccountsService.ResetDemoBalance` | src/modules/accounts/accounts.service.ts:155-184 | Refuses missing and live accounts, otherwise sets the balance |
| `Accounts.AccountsService.GetDefaultAccount` | src/modules/accounts/accounts.service.ts:302-342 | Returns an open default account, promoting the oldest open one if none is marked |
| `MarginMetrics.RoundingsAgree` | frontend/lib/trade-live-metrics.ts:45-52 | `toFixed` and decimal.js rounding agree on every input |
| `MarginMetrics.RoundError` | src/modules/accounts/accounts.service.ts:440-453 | Rounding errs by at most half a unit |
| `MarginMetrics.RoundOdd` | src/modules/accounts/accounts.service.ts:440-453 | Losses round like gains |
| `MarginMetrics.MetricsBalance` | src/modules/accounts/accounts.service.ts:456-466 | Balance plus unrealized profit is equity, which is used plus free margin; the second roundings lose nothing |
| `MarginMetrics.UnrealizedPnlError` | src/modules/accounts/accounts.service.ts:432-459 | The reported profit of n quoted positions is within n half units of the exact sum |
| `MarginMetrics.MarginLevelError` | src/modules/accounts/accounts.service.ts:467-470 | The margin level is absent exactly without used margin and otherwise errs by at most half a unit |
| `MarginMetrics.MetricsLevel` | src/modules/accounts/accounts.service.ts:464-470 | The reported level is that of the reported equity and margin, and the balance is the account's |
| `MarginMetrics.PnlOrderIrrelevant` | src/modules/accounts/accounts.service.ts:432-463 | Profit and margin do not depend on the order of positions |
| `MarginMetrics.MetricsOrderIrrelevant` | src/modules/accounts/accounts.service.ts:403-470 | Neither does any other reported amount |
| `MarginMetrics.BatchingIrrelevant` | src/modules/accounts/accounts.service.ts:425-434 | One quote per distinct symbol gives each position what asking for its own would |
| `MarginMetrics.LivePnlAgrees` | frontend/lib/trade-live-metrics.ts:29-53 | For the same quote and a positive size, terminal and backend show the same profit on either side |
| `MarginMetrics.LiveEquityAgrees` | frontend/components/trade/trade-terminal-page.tsx:410-421 | The terminal's equity and free margin are the backend's for any list of quoted positions |
| `MarginMetrics.NonPositiveSizeShown` | frontend/lib/trade-live-metrics.ts:39-42 | For any other size the terminal shows what the backend would for a size of one |
| `MarginMetrics.NonPositiveSizeAgreement` | frontend/lib/trade-live-metrics.ts:39-42 | The two figures then agree exactly when both profits are less than half a unit |
| `MarginMetrics.WithoutQuote` | frontend/lib/trade-live-metrics.ts:6-37 | Without a quote the position's own bid or ask stands in, then a positive last price, and else the profit the server sent is shown |
| `MarginMetrics.MissingSize` | frontend/lib/trade-live-metrics.ts:39-42 | A position without a size is shown as one of size one |
| `Decimals.DecimalRoundTrip` | src/modules/admin-users/admin-users.service.ts:583-587 | Printing a number and parsing it gives it back |
| `Decimals.PadRoundTrip` | src/modules/admin-users/admin-users.service.ts:583-587 | Zero padding keeps the value and fixes the width |
| `Decimals.OrdersAgree` | src/modules/admin-users/admin-users.service.ts:569-578 | At one width string order is numeric order |
| `AdminNumbers.LatestIsLargest` | src/modules/admin-users/admin-users.service.ts:569-585 | Among six-digit numbers the largest string is the largest number |
| `AdminNumbers.GenerateContinues` | src/modules/admin-users/admin-users.service.ts:568-588 | The next number is one more than the largest in store |
| `AdminNumbers.GenerateFresh` | src/modules/admin-users/admin-users.service.ts:568-588 | It is new, and six digits long exactly below the millionth |
| `AdminNumbers.HandedOut` | src/modules/admin-users/admin-users.service.ts:568-588 | A run hands out the numbers after the largest one by one |
| `AdminNumbers.HandedOutIncreases` | src/modules/admin-users/admin-users.service.ts:568-588 | They are pairwise distinct and increase as strings |
| `AdminNumbers.NumberShape` | src/modules/admin-users/admin-users.service.ts:587 | A number reads back from its text, which has nine characters exactly below a million |
| `AdminNumbers.MillionthRepeats` | src/modules/admin-users/admin-users.service.ts:568-588 | From the millionth on, the same number is generated, and refused, for ever |
| `AdminNumbers.FreshExactlyBelowMillion` | prisma/seed.ts:16-36 | After any number of attempts, the next number is new exactly while the largest and the attempts stay below a million together |
| `AdminNumbers.OthersIrrelevant` | prisma/seed.ts:17-28 | Users without an administrator number do not influence numbering |
| `AdminNumbers.ParseIntReads` | src/modules/admin-users/admin-users.service.ts:583-585 | Parsing skips spaces, takes one sign at most, and reads all the digits there |
| `AdminNumbers.ParseIntFails` | src/modules/admin-users/admin-users.service.ts:583-585 | Without a digit there it gives no number |
| `AdminNumbers.UnreadableLatest` | src/modules/admin-users/admin-users.service.ts:583-587 | An unreadable latest number is followed by `ADM000NaN` |
| `AdminNumbers.NegativeLatest` | src/modules/admin-users/admin-users.service.ts:583-587 | A negative one is followed by its successor behind the padding |
| `AdminNumbers.StoreStaysDistinct` | src/modules/admin-users/admin-users.service.ts:194-202 | Numbers stay unique in every run |
| `SuperAdmins.LoadKeepsSupers` | src/modules/admin-users/admin-users.service.ts:628-734 | A lookup takes rank or activity from nobody and changes no other row |
| `SuperAdmins.LookupHeals` | src/modules/admin-users/admin-users.service.ts:628-734 | After a lookup a configured administrator is an active super administrator |
| `SuperAdmins.LoadSpec` | src/modules/admin-users/admin-users.service.ts:628-734 | A lookup makes a configured administrator a full super administrator created by nobody, provisions only configured users, and leaves any other row |
| `SuperAdmins.OnlySelfDemotionEmpties` | src/modules/admin-users/admin-users.service.ts:241-293 | An accepted change by an active actor leaves no active super administrator exactly when the last one demotes itself |
| `SuperAdmins.SelfDemotionAccepted` | src/modules/admin-users/admin-users.service.ts:241-293 | Such a demotion is accepted and reached from an empty table by two requests; the next lookup heals it |
| `SuperAdmins.OnlySeededRemovesAnother` | src/modules/admin-users/admin-users.service.ts:742-770 | Only the seeded super administrator takes rank or activity from another |
| `SuperAdmins.UpdateSpec` | src/modules/admin-users/admin-users.service.ts:241-293 | A change is accepted exactly from a super administrator that does not deactivate itself and, to depose another, is the seeded one; it takes effect as asked, and a refusal leaves only the lookups |
| `SuperAdmins.CreateSpec` | src/modules/admin-users/admin-users.service.ts:168-192 | Creation is for super administrators and gives the new one its email, role, activity and creator |
| `SuperAdmins.ApplyKeepsSome` | src/modules/admin-users/admin-users.service.ts:168-293 | Lookups, creations and changes by active actors without that demotion keep some active super administrator |
| `SuperAdmins.AlwaysSomeActiveSuper` | src/modules/admin-users/admin-users.service.ts:168-293 | So there is one in every state of every such run |
| `SuperAdmins.AdminUsersService.FindById` | src/modules/admin-users/admin-users.service.ts:628-734 | Reconciles a row found, provisions a configured user, and returns the row stored |
| `SuperAdmins.AdminUsersService.UpdateAdmin` | src/modules/admin-users/admin-users.service.ts:241-273 | The request as the theorems have it; only a seeded actor takes rank or activity from another |
| `MarketDataStore.StoredIsNewest` | frontend/store/market-data-store.ts:110-115 | Updating the bounded list is updating the unbounded one and bounding it |
| `MarketDataStore.StoreKeepsNewest` | frontend/store/market-data-store.ts:107-124 | For any stream of updates each stored list is the newest 500 of its unbounded history |
| `MarketDataStore.StoredAreOwnCandles` | frontend/store/market-data-store.ts:107-124 | For colon-free symbols, each symbol and resolution has the newest 500 of its own candles, the last of each timestamp |
| `MarketDataStore.StoredListShape` | frontend/store/market-data-store.ts:110-115 | It is cut at 500 only and never repeats a timestamp in a row |
| `MarketDataStore.CandleStore.Upsert` | frontend/store/market-data-store.ts:107-124 | One update keeps every key's list equal to its bounded history |
| `MarketDataStore.SkipsExactlyNoChange` | frontend/store/market-data-store.ts:63-69 | A quote update is skipped exactly when there is a quote and merging would change nothing that can be read |
| `MarketDataStore.PatchIsMerged` | frontend/store/market-data-store.ts:90-106 | Skipped or not, every property reads as the update says, or as before |
| `PositionsStore.MergePositions` | frontend/store/positions-store.ts:29-49 | The loop over a copy computes the merge the theorems are about |
| `PositionsStore.MergeIsLastWriterWins` | frontend/store/positions-store.ts:37-45 | Ids stay unique and for every id the last incoming position wins over the stored one |
| `PositionsStore.MergeKeepsPlaces` | frontend/store/positions-store.ts:37-45 | Positions already listed keep their relative places at the end |
| `PositionsStore.UpsertAgreesWithMerge` | frontend/store/positions-store.ts:19-28 | Upserting one position gives the same set of positions as merging it |
| `PositionsStore.UpsertMovesToFront` | frontend/store/positions-store.ts:19-28 | Upserting puts the position first and leaves the others in their order |
| `Navigation.GetNavMatchScore` | frontend/components/navigation/navigation.utils.ts:32-66 | The early-return loop scores an item, or returns -1 exactly when path or some parameter does not match |
| `Navigation.NormalizePathSpec` | frontend/components/navigation/navigation.utils.ts:7-13 | Normalising takes trailing slashes off and nothing else, and gives `/` when nothing is left |
| `Navigation.SegmentsArePieces` | frontend/components/navigation/navigation.utils.ts:15-17 | The depth counts the non-empty pieces between slashes |
| `Navigation.MatchExactly` | frontend/components/navigation/navigation.utils.ts:19-57 | An item has a score exactly when its path leads to the current one and every parameter it names is there |
| `Navigation.LongerIsDeeper` | frontend/components/navigation/navigation.utils.ts:15-25 | Of two paths leading to the current one the longer is at least one segment deeper |
| `Navigation.DeepestSectionWins` | frontend/components/navigation/navigation.utils.ts:32-66 | With equally many parameters the longer matching path scores strictly higher, exact or not |
| `Navigation.SamePathRanking` | frontend/components/navigation/navigation.utils.ts:59-65 | For one path, more expected parameters score higher, and between equals exactly the exact-mode item does |
| `Navigation.OneMoreParameter` | frontend/components/navigation/navigation.utils.ts:53-60 | One more parameter the location has is worth a thousand, one it lacks costs the match |
| `Navigation.ExactPathLeads` | frontend/components/navigation/navigation.utils.ts:59-65 | The item for the very page leads any shorter one with as many parameters by at least 127, an exact one by 132 |
| `Navigation.ResolveActiveNav` | frontend/components/navigation/navigation.utils.ts:68-94 | Returns the first item of maximal score, or none when nothing matches |
| `Navigation.FirstBestUnique` | frontend/components/navigation/navigation.utils.ts:79-91 | That item and score are determined by the navigation and the location |

## Left out

- The gateway, socket.io, Redis, BullMQ, Prisma and React themselves; each appears only through the behaviour its callers rely on.
- Authentication tokens, event-handler registration, message payload handlers and the emission of messages other than subscriptions.
- Text: white space is the six ASCII spaces, upper-casing is ASCII, digits are ASCII, and lone surrogates do not occur; lengths count characters.
- JSON numbers and values with `toJSON` as request parameters; parameters come from URLs, so they are strings, arrays and objects.
- Redis glob bracket classes, because the invalidation theorems are about glob-free identifiers.
- Cache coherence: a read that misses before an invalidation can fill the cache after it, so only what deletion removes is stated, not what a later read finds. The store's write is immediate, keys do not move between SCAN buckets during a scan, and every cached entry comes from the interceptor.
- CacheStore.ResponseCache.Intercept: stated for a request with nothing in between; interleavings are covered by `Begin` and `Finish`. Handlers that return `undefined` and the lifetime given to an entry are not modelled; an entry may disappear at any time through `Expire`.
- The rate limiter's routes without options (always admitted) and the process dying between INCR and EXPIRE other than as a trace without that EXPIRE.
- RowGrammar.RowRoundTrip: a field of several words is its sequence of words, so the number of spaces between them inside a recovered description or pip value is not part of the statement; conversion of the columns to numbers and the symbol's normalised key are not part of this model.
- PDF extraction, the alias catalogue, resolvers and import reports.
- QueueRecovery: a failing `new Queue` inside a recovery, job identifiers, failed-job listing and retrying, queue metrics and the limit-order sweep, which add single calls under the same recovery.
- Accounts: concurrent requests, account names, audit, transactions, wallet snapshots, the equity column, credit by an administrator; random account-number candidates, record ids and the number of open positions are parameters.
- MarginMetrics: binary floating point, the limited precision of decimal.js, and the equity write-back; amounts are exact integers in units of the eighth decimal.
- AdminNumbers: the database's collation, taken to order these numbers by their characters; numbers beyond the exact range of JavaScript integers, and concurrent creations.
- SuperAdmins: permission lists (only whether they are the role's defaults) and the refusal of unknown permissions, duplicate emails, passwords, two-factor settings, audit and mail; emails are taken as already trimmed and lower-cased.
- MarketDataStore: quotes hold opaque values that are equal when `===` says so; a NaN value, which never is, is not modelled.
- PositionsStore and MarketDataStore setters that overwrite a field.
- Navigation: splitting an href at its question mark and reading its query; an item comes with path and parameters.
