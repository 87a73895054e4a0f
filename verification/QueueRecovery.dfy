/**
 * Recreating the order queue when its connection is found closed.
 *
 * Every await is a step boundary: callers run one operation each, any number at a time, and their
 * steps interleave freely. Queues are numbered in creation order.
 */
module QueueRecovery {
  import opened Wrappers

  /** Where a call of `withRecoveredQueue` stands; `first` is the queue its first attempt used. */
  datatype Pc =
    | Running(first: nat)
    | Leading(first: nat, rec: nat)
    | Waiting(first: nat, rec: nat)
    | Recovered(first: nat, rec: nat)
    | Retrying(first: nat, rec: nat, second: nat)
    | Done(attempts: nat, ok: bool)

  /** The recovery behind `queueRecoveryPromise`: it replaced `stale` by `renewed`. */
  datatype Flight = Flight(stale: nat, renewed: nat, leader: nat, resolved: bool)

  datatype Shutdown = NotAsked | Awaiting(rec: nat) | Closing(queue: nat) | Finished(queue: nat)

  /** `closeCalls[q]` counts the calls of `close()` on queue `q`; `closed` holds the queues whose close has settled. */
  datatype Service = Service(
    queue: nat,
    promise: Option<Flight>,
    closeCalls: seq<nat>,
    closed: set<nat>,
    callers: map<nat, Pc>,
    shutdown: Shutdown)

  const START := Service(0, None, [0], {}, map[], NotAsked)

  datatype Event =
    | Begin(caller: nat)
    | FirstSucceeds(caller: nat)
    | FirstFails(caller: nat)
    | FirstFindsClosed(caller: nat)
    | StaleClosed
    | LeaderResumes(caller: nat)
    | WaiterResumes(caller: nat)
    | Retry(caller: nat)
    | SecondSettles(caller: nat, ok: bool)
    | AskShutdown
    | ShutdownResumes
    | ShutdownCloses

  /** The recovery that created queue `rec` has settled. */
  predicate Settled(s: Service, rec: nat) {
    !(s.promise.Some? && s.promise.value.renewed == rec && !s.promise.value.resolved)
  }

  predicate Enabled(s: Service, e: Event) {
    match e
    case Begin(c) => c !in s.callers
    case FirstSucceeds(c) => c in s.callers && s.callers[c].Running?
    case FirstFails(c) => c in s.callers && s.callers[c].Running?
    case FirstFindsClosed(c) => c in s.callers && s.callers[c].Running?
    case StaleClosed => s.promise.Some? && !s.promise.value.resolved
    case LeaderResumes(c) => c in s.callers && s.callers[c].Leading? && Settled(s, s.callers[c].rec)
    case WaiterResumes(c) => c in s.callers && s.callers[c].Waiting? && Settled(s, s.callers[c].rec)
    case Retry(c) => c in s.callers && s.callers[c].Recovered?
    case SecondSettles(c, _) => c in s.callers && s.callers[c].Retrying?
    case AskShutdown => s.shutdown.NotAsked?
    case ShutdownResumes => s.shutdown.Awaiting? && Settled(s, s.shutdown.rec)
    case ShutdownCloses => s.shutdown.Closing?
  }

  function Move(s: Service, c: nat, p: Pc): Service {
    s.(callers := s.callers[c := p])
  }

  function CallClose(calls: seq<nat>, q: nat): seq<nat> {
    if q < |calls| then calls[q := calls[q] + 1] else calls
  }

  /**
   * `recoverQueue` up to its first await: join the recovery under way, or create a queue and start
   * closing the old one.
   */
  function Recover(s: Service, c: nat, first: nat): Service {
    match s.promise
    case Some(f) => Move(s, c, Waiting(first, f.renewed))
    case None =>
      var renewed := |s.closeCalls|;
      Move(s, c, Leading(first, renewed)).(
        queue := renewed,
        closeCalls := CallClose(s.closeCalls, s.queue) + [0],
        promise := Some(Flight(s.queue, renewed, c, false)))
  }

  function CloseCurrent(s: Service): Service {
    s.(closeCalls := CallClose(s.closeCalls, s.queue), shutdown := Closing(s.queue))
  }

  function Next(s: Service, e: Event): Service
    requires Enabled(s, e)
  {
    match e
    case Begin(c) => Move(s, c, Running(s.queue))
    case FirstSucceeds(c) => Move(s, c, Done(1, true))
    case FirstFails(c) => Move(s, c, Done(1, false))
    case FirstFindsClosed(c) => Recover(s, c, s.callers[c].first)
    case StaleClosed =>
      s.(promise := Some(s.promise.value.(resolved := true)), closed := s.closed + {s.promise.value.stale})
    case LeaderResumes(c) =>
      Move(s, c, Recovered(s.callers[c].first, s.callers[c].rec)).(promise := None)
    case WaiterResumes(c) => Move(s, c, Recovered(s.callers[c].first, s.callers[c].rec))
    case Retry(c) => Move(s, c, Retrying(s.callers[c].first, s.callers[c].rec, s.queue))
    case SecondSettles(c, ok) => Move(s, c, Done(2, ok))
    case AskShutdown => if s.promise.Some? then s.(shutdown := Awaiting(s.promise.value.renewed)) else CloseCurrent(s)
    case ShutdownResumes => CloseCurrent(s)
    case ShutdownCloses => s.(shutdown := Finished(s.shutdown.queue), closed := s.closed + {s.shutdown.queue})
  }

  // ---- the invariant ----

  /** The queue the shutdown has called `close()` on, if it has come that far. */
  predicate ShutBy(shutdown: Shutdown, q: nat) {
    (shutdown.Closing? || shutdown.Finished?) && shutdown.queue == q
  }

  /** Every queue but the current one was retired, and was closed once for that. */
  predicate Retirement(s: Service) {
    && |s.closeCalls| == s.queue + 1
    && (forall q :: 0 <= q <= s.queue ==> s.closeCalls[q] == Bit(q < s.queue) + Bit(ShutBy(s.shutdown, q)))
    && ((s.shutdown.Closing? || s.shutdown.Finished?) ==> s.shutdown.queue <= s.queue)
  }

  predicate Closure(s: Service) {
    && (forall q :: 0 <= q < s.queue ==>
          q in s.closed || (s.promise.Some? && s.promise.value.stale == q && !s.promise.value.resolved))
    && (forall q :: q in s.closed ==> q < s.queue || (s.shutdown.Finished? && q == s.shutdown.queue))
    && (s.shutdown.Finished? ==> s.shutdown.queue in s.closed)
  }

  /** The promise is set exactly while its one leader waits for it. */
  predicate SingleFlight(s: Service) {
    && (s.promise.Some? ==>
          var f := s.promise.value;
          && f.renewed == s.queue && f.stale + 1 == f.renewed
          && f.leader in s.callers && s.callers[f.leader].Leading?)
    && (forall c :: c in s.callers && s.callers[c].Leading? ==>
          s.promise.Some? && s.promise.value.leader == c && s.promise.value.renewed == s.callers[c].rec)
  }

  predicate PcOk(p: Pc, queue: nat) {
    match p
    case Running(first) => first <= queue
    case Leading(first, rec) => first < rec <= queue
    case Waiting(first, rec) => first <= rec <= queue
    case Recovered(first, rec) => first <= rec <= queue
    case Retrying(first, rec, second) => first <= rec <= second <= queue
    case Done(attempts, _) => 1 <= attempts <= 2
  }

  predicate PcsOk(s: Service) {
    forall c :: c in s.callers ==> PcOk(s.callers[c], s.queue)
  }

  predicate Inv(s: Service) {
    Retirement(s) && Closure(s) && SingleFlight(s) && PcsOk(s)
  }

  lemma RetirementKept(s: Service, e: Event)
    requires Inv(s) && Enabled(s, e)
    ensures Retirement(Next(s, e))
  {
  }

  lemma ClosureKept(s: Service, e: Event)
    requires Inv(s) && Enabled(s, e)
    ensures Closure(Next(s, e))
  {
  }

  lemma SingleFlightKept(s: Service, e: Event)
    requires Inv(s) && Enabled(s, e)
    ensures SingleFlight(Next(s, e))
  {
  }

  lemma PcsKept(s: Service, e: Event)
    requires Inv(s) && Enabled(s, e)
    ensures PcsOk(Next(s, e))
  {
    var s' := Next(s, e);
    assert s.queue <= s'.queue;
    forall c | c in s'.callers ensures PcOk(s'.callers[c], s'.queue) {
      assert c in s.callers ==> PcOk(s.callers[c], s.queue);
    }
  }

  lemma NextKeepsInv(s: Service, e: Event)
    requires Inv(s) && Enabled(s, e)
    ensures Inv(Next(s, e))
  {
    RetirementKept(s, e);
    ClosureKept(s, e);
    SingleFlightKept(s, e);
    PcsKept(s, e);
  }

  // ---- runs ----

  ghost predicate Run(states: seq<Service>, events: seq<Event>) {
    && |states| == |events| + 1
    && states[0] == START
    && forall i :: 0 <= i < |events| ==> Enabled(states[i], events[i]) && states[i + 1] == Next(states[i], events[i])
  }

  lemma {:induction false} RunKeepsInv(states: seq<Service>, events: seq<Event>, i: nat)
    requires Run(states, events) && i < |states|
    ensures Inv(states[i])
  {
    if i > 0 {
      RunKeepsInv(states, events, i - 1);
      NextKeepsInv(states[i - 1], events[i - 1]);
    }
  }

  /** However callers interleave, at most one of them is recovering the queue. */
  lemma OneRecoveryInFlight(states: seq<Service>, events: seq<Event>, i: nat, c: nat, d: nat)
    requires Run(states, events) && i < |states|
    requires c in states[i].callers && states[i].callers[c].Leading?
    requires d in states[i].callers && states[i].callers[d].Leading?
    ensures c == d
  {
    RunKeepsInv(states, events, i);
  }

  /** Each queue is closed once when it is retired, and once more only if the shutdown closed it too. */
  lemma RetiredQueuesClosedOnce(states: seq<Service>, events: seq<Event>, i: nat, q: nat)
    requires Run(states, events) && i < |states| && q <= states[i].queue
    ensures q < |states[i].closeCalls|
    ensures states[i].closeCalls[q] == Bit(q < states[i].queue) + Bit(ShutBy(states[i].shutdown, q))
  {
    RunKeepsInv(states, events, i);
  }

  /**
   * Once the shutdown is over and no recovery is under way, every queue ever created is closed exactly
   * when no recovery has begun since the shutdown closed its queue.
   */
  lemma ShutdownClosesEverything(states: seq<Service>, events: seq<Event>, i: nat)
    requires Run(states, events) && i < |states|
    requires states[i].shutdown.Finished? && (states[i].promise.Some? ==> states[i].promise.value.resolved)
    ensures (forall q :: 0 <= q <= states[i].queue ==> q in states[i].closed)
            <==> states[i].shutdown.queue == states[i].queue
  {
    RunKeepsInv(states, events, i);
    var s := states[i];
    assert s.queue in s.closed <==> s.shutdown.queue == s.queue;
  }

  /** A failure reported after the shutdown leaves a queue open for good: one caller is enough. */
  lemma LateFailureOutlivesShutdown(c: nat) returns (states: seq<Service>, events: seq<Event>)
    ensures Run(states, events)
    ensures var s := states[|events|];
            s.shutdown.Finished? && s.promise.Some? && s.promise.value.resolved && s.queue !in s.closed
  {
    events := [Begin(c), AskShutdown, ShutdownCloses, FirstFindsClosed(c), StaleClosed];
    var s1 := Next(START, events[0]);
    var s2 := Next(s1, events[1]);
    var s3 := Next(s2, events[2]);
    var s4 := Next(s3, events[3]);
    states := [START, s1, s2, s3, s4, Next(s4, events[4])];
  }

  // ---- attempts ----

  predicate Invokes(e: Event, c: nat) {
    e == Begin(c) || e == Retry(c)
  }

  /** How often a run has invoked the caller's operation. */
  function Invocations(events: seq<Event>, c: nat): nat {
    if events == [] then 0
    else Invocations(events[..|events| - 1], c) + Bit(Invokes(events[|events| - 1], c))
  }

  function Attempts(s: Service, c: nat): nat {
    if c !in s.callers then 0 else
    match s.callers[c]
    case Retrying(_, _, _) => 2
    case Done(n, _) => n
    case _ => 1
  }

  lemma {:induction false} InvocationsAreAttempts(states: seq<Service>, events: seq<Event>, i: nat, c: nat)
    requires Run(states, events) && i < |states|
    ensures Invocations(events[..i], c) == Attempts(states[i], c)
  {
    if i > 0 {
      InvocationsAreAttempts(states, events, i - 1, c);
      assert events[..i][..i - 1] == events[..i - 1];
      var s, e := states[i - 1], events[i - 1];
      assert states[i] == Next(s, e);
    }
  }

  /** No operation runs more than twice, and the second time only on a queue that is at least as new. */
  lemma AtMostTwoAttempts(states: seq<Service>, events: seq<Event>, i: nat, c: nat)
    requires Run(states, events) && i < |states|
    ensures Invocations(events[..i], c) <= 2
    ensures c in states[i].callers && states[i].callers[c].Retrying? ==>
              states[i].callers[c].first <= states[i].callers[c].second
  {
    InvocationsAreAttempts(states, events, i, c);
    RunKeepsInv(states, events, i);
    if c in states[i].callers {
      assert PcOk(states[i].callers[c], states[i].queue);
    }
  }

  predicate WaitsOrRetries(p: Pc) {
    p.Leading? || p.Waiting? || p.Recovered? || p.Retrying?
  }

  predicate HasFailedOnce(s: Service, c: nat) {
    c in s.callers && WaitsOrRetries(s.callers[c])
  }

  /** The event at which the caller fails for the first time, as state and event just before show it. */
  predicate FailsAt(s: Service, e: Event, c: nat, p: Pc)
    requires WaitsOrRetries(p)
  {
    && e == FirstFindsClosed(c)
    && c in s.callers && s.callers[c] == Running(p.first) && p.rec == s.queue + Bit(s.promise.None?)
  }

  lemma FailedStep(s: Service, e: Event, s': Service, c: nat)
    requires Inv(s) && Enabled(s, e) && s' == Next(s, e) && HasFailedOnce(s', c)
    ensures || FailsAt(s, e, c, s'.callers[c])
            || (HasFailedOnce(s, c) && s.callers[c].first == s'.callers[c].first
                && s.callers[c].rec == s'.callers[c].rec)
  {
  }

  /** The step at which the caller's first attempt failed: it waits for the recovery then under way, or for its own. */
  lemma {:induction false} FailurePoint(states: seq<Service>, events: seq<Event>, i: nat, c: nat) returns (j: nat)
    requires Run(states, events) && i < |states| && HasFailedOnce(states[i], c)
    ensures j < i && FailsAt(states[j], events[j], c, states[i].callers[c])
  {
    FailedBefore(states, events, i, c);
    if HasFailedOnce(states[i - 1], c) && !FailsAt(states[i - 1], events[i - 1], c, states[i].callers[c]) {
      j := FailurePoint(states, events, i - 1, c);
    } else {
      j := i - 1;
    }
  }

  lemma FailedBefore(states: seq<Service>, events: seq<Event>, i: nat, c: nat)
    requires Run(states, events) && i < |states| && HasFailedOnce(states[i], c)
    ensures i > 0
    ensures var s, p := states[i - 1], states[i].callers[c];
            || FailsAt(s, events[i - 1], c, p)
            || (HasFailedOnce(s, c) && s.callers[c].first == p.first && s.callers[c].rec == p.rec)
  {
    assert i > 0;
    RunKeepsInv(states, events, i - 1);
    assert states[i] == Next(states[i - 1], events[i - 1]);
    FailedStep(states[i - 1], events[i - 1], states[i], c);
  }

  /** The step at which the caller's second attempt began, and the queue it was given. */
  lemma {:induction false} RetryPoint(states: seq<Service>, events: seq<Event>, i: nat, c: nat) returns (r: nat)
    requires Run(states, events) && i < |states| && c in states[i].callers && states[i].callers[c].Retrying?
    ensures r < i && events[r] == Retry(c) && HasFailedOnce(states[r], c)
    ensures states[r].callers[c].first == states[i].callers[c].first
    ensures states[i].callers[c].second == states[r].queue
  {
    var s, e := states[i - 1], events[i - 1];
    assert states[i] == Next(s, e);
    if e == Retry(c) {
      r := i - 1;
    } else {
      r := RetryPoint(states, events, i - 1, c);
    }
  }

  /** The step replaces the queue. */
  predicate BeginsRecovery(s: Service, e: Event) {
    e.FirstFindsClosed? && s.promise.None?
  }

  lemma QueueStep(s: Service, e: Event)
    requires Inv(s) && Enabled(s, e)
    ensures Next(s, e).queue == if BeginsRecovery(s, e) then s.queue + 1 else s.queue
  {
  }

  /** The queue stays the same over a stretch of a run exactly when no recovery begins in it. */
  lemma {:induction false} QueueStays(states: seq<Service>, events: seq<Event>, j: nat, r: nat)
    requires Run(states, events) && j <= r < |states|
    ensures states[j].queue <= states[r].queue
    ensures states[j].queue == states[r].queue <==> forall k :: j <= k < r ==> !BeginsRecovery(states[k], events[k])
  {
    if j < r {
      QueueStays(states, events, j, r - 1);
      RunKeepsInv(states, events, r - 1);
      QueueStep(states[r - 1], events[r - 1]);
      assert states[r] == Next(states[r - 1], events[r - 1]);
    }
  }

  /**
   * A retry goes back to the very queue that failed exactly when that queue was the current one at the
   * failure and no recovery began from the failure up to the retry: not at the failure itself, which
   * then joined the recovery that had created the queue, nor later.
   */
  lemma RetryOnSameQueue(states: seq<Service>, events: seq<Event>, i: nat, c: nat) returns (j: nat, r: nat)
    requires Run(states, events) && i < |states| && c in states[i].callers && states[i].callers[c].Retrying?
    ensures j < r < i && events[j] == FirstFindsClosed(c) && events[r] == Retry(c)
    ensures var p := states[i].callers[c];
            p.second == p.first
            <==> p.first == states[j].queue && forall k :: j <= k < r ==> !BeginsRecovery(states[k], events[k])
  {
    r := RetryPoint(states, events, i, c);
    j := FailurePoint(states, events, r, c);
    QueueStays(states, events, j, r);
    RunKeepsInv(states, events, j);
    assert PcOk(states[j].callers[c], states[j].queue);
  }

  /** Queues are created by recoveries only, and a recovery needs a failed first attempt. */
  function Failures(events: seq<Event>): nat {
    if events == [] then 0
    else Failures(events[..|events| - 1]) + Bit(events[|events| - 1].FirstFindsClosed?)
  }

  lemma {:induction false} QueuesBoundedByFailures(states: seq<Service>, events: seq<Event>, i: nat)
    requires Run(states, events) && i < |states|
    ensures states[i].queue <= Failures(events[..i])
  {
    if i > 0 {
      QueuesBoundedByFailures(states, events, i - 1);
      assert events[..i][..i - 1] == events[..i - 1];
      RunKeepsInv(states, events, i - 1);
      assert states[i] == Next(states[i - 1], events[i - 1]);
    }
  }

  // ---- progress ----

  function Depth(s: Service, c: nat): nat {
    if c !in s.callers then 0 else
    match s.callers[c]
    case Running(_) => 1
    case Leading(_, _) => 2
    case Waiting(_, _) => 2
    case Recovered(_, _) => 3
    case Retrying(_, _, _) => 4
    case Done(_, _) => 5
  }

  predicate Moves(e: Event, c: nat) {
    match e
    case StaleClosed => false
    case AskShutdown => false
    case ShutdownResumes => false
    case ShutdownCloses => false
    case _ => e.caller == c
  }

  /** A caller's own steps only ever take it further: no caller loops. */
  lemma CallersAdvance(s: Service, e: Event, c: nat)
    requires Enabled(s, e)
    ensures Moves(e, c) ==> Depth(Next(s, e), c) > Depth(s, c)
    ensures !Moves(e, c) ==> Depth(Next(s, e), c) == Depth(s, c)
  {
  }

  /** No caller waits for nothing: while one is unfinished, a step that is not a new call is possible. */
  lemma NoCallerStuck(states: seq<Service>, events: seq<Event>, i: nat, c: nat)
    requires Run(states, events) && i < |states| && (c in states[i].callers && !states[i].callers[c].Done?)
    ensures exists e :: Enabled(states[i], e) && (Moves(e, c) || e.StaleClosed?)
  {
    RunKeepsInv(states, events, i);
    var s := states[i];
    match s.callers[c]
    case Running(_) => assert Enabled(s, FirstSucceeds(c)) && Moves(FirstSucceeds(c), c);
    case Leading(_, rec) =>
      assert Enabled(s, if Settled(s, rec) then LeaderResumes(c) else StaleClosed);
      assert Moves(LeaderResumes(c), c);
    case Waiting(_, rec) =>
      assert Enabled(s, if Settled(s, rec) then WaiterResumes(c) else StaleClosed);
      assert Moves(WaiterResumes(c), c);
    case Recovered(_, _) => assert Enabled(s, Retry(c)) && Moves(Retry(c), c);
    case Retrying(_, _, _) => assert Enabled(s, SecondSettles(c, true)) && Moves(SecondSettles(c, true), c);
  }

  // ---- what callers are told ----

  /** A caller's first attempt runs on the queue that was current when it began. */
  lemma {:induction false} FirstAttempt(states: seq<Service>, events: seq<Event>, i: nat, c: nat) returns (j: nat)
    requires Run(states, events) && i < |states| && c in states[i].callers && !states[i].callers[c].Done?
    ensures j < i && events[j] == Begin(c) && states[i].callers[c].first == states[j].queue
  {
    var s, e := states[i - 1], events[i - 1];
    assert states[i] == Next(s, e);
    if e == Begin(c) {
      j := i - 1;
    } else {
      j := FirstAttempt(states, events, i - 1, c);
    }
  }

  /** The event that settled a call with this outcome: the first attempt's own, or the second's. */
  predicate Settles(e: Event, c: nat, attempts: nat, ok: bool) {
    || (e == FirstSucceeds(c) && attempts == 1 && ok)
    || (e == FirstFails(c) && attempts == 1 && !ok)
    || (e == SecondSettles(c, ok) && attempts == 2)
  }

  /** A call is settled with the outcome of its last attempt. */
  lemma {:induction false} OutcomeIsLastAttempts(states: seq<Service>, events: seq<Event>, i: nat, c: nat)
    returns (j: nat)
    requires Run(states, events) && i < |states| && c in states[i].callers && states[i].callers[c].Done?
    ensures j < i && Settles(events[j], c, states[i].callers[c].attempts, states[i].callers[c].ok)
  {
    var s, e := states[i - 1], events[i - 1];
    assert states[i] == Next(s, e);
    if c in s.callers && s.callers[c] == states[i].callers[c] {
      j := OutcomeIsLastAttempts(states, events, i - 1, c);
    } else {
      j := i - 1;
    }
  }

  /** A caller past its recovery finds the queue it replaced closed. */
  predicate RecoveredOk(p: Pc, closed: set<nat>) {
    && (WaitsOrRetries(p) ==> p.rec >= 1)
    && (p.Recovered? || p.Retrying? ==> p.rec - 1 in closed)
  }

  predicate RetriesSettled(s: Service) {
    forall c :: c in s.callers ==> RecoveredOk(s.callers[c], s.closed)
  }

  lemma SettledMeansClosed(s: Service, rec: nat)
    requires Inv(s) && Settled(s, rec) && 1 <= rec <= s.queue
    ensures rec - 1 in s.closed
  {
  }

  lemma RetriesStaySettled(s: Service, e: Event)
    requires Inv(s) && Enabled(s, e) && RetriesSettled(s)
    ensures RetriesSettled(Next(s, e))
  {
    var s' := Next(s, e);
    assert s.closed <= s'.closed;
    if e.LeaderResumes? || e.WaiterResumes? {
      assert PcOk(s.callers[e.caller], s.queue) && RecoveredOk(s.callers[e.caller], s.closed);
      SettledMeansClosed(s, s.callers[e.caller].rec);
    }
    forall c | c in s'.callers ensures RecoveredOk(s'.callers[c], s'.closed) {
      assert c in s.callers ==> RecoveredOk(s.callers[c], s.closed);
      assert c in s.callers ==> PcOk(s.callers[c], s.queue);
    }
  }

  lemma {:induction false} RetriesAreSettled(states: seq<Service>, events: seq<Event>, i: nat)
    requires Run(states, events) && i < |states|
    ensures RetriesSettled(states[i])
  {
    if i > 0 {
      RetriesAreSettled(states, events, i - 1);
      RunKeepsInv(states, events, i - 1);
      RetriesStaySettled(states[i - 1], events[i - 1]);
      assert states[i] == Next(states[i - 1], events[i - 1]);
    }
  }

  /** Nobody retries before the queue its recovery replaced is closed. */
  lemma RetryAfterClosing(states: seq<Service>, events: seq<Event>, i: nat, c: nat)
    requires Run(states, events) && i < |states| && c in states[i].callers && states[i].callers[c].Retrying?
    ensures states[i].callers[c].rec >= 1 && states[i].callers[c].rec - 1 in states[i].closed
  {
    RetriesAreSettled(states, events, i);
    assert RecoveredOk(states[i].callers[c], states[i].closed);
  }

  // ---- the shutdown ----

  predicate ShutdownMoves(e: Event) {
    e.AskShutdown? || e.ShutdownResumes? || e.ShutdownCloses?
  }

  function ShutdownDepth(s: Service): nat {
    match s.shutdown
    case NotAsked => 0
    case Awaiting(_) => 1
    case Closing(_) => 2
    case Finished(_) => 3
  }

  /**
   * The shutdown waits for a recovery exactly when one is under way as it is asked for, and goes on by
   * closing the queue that is current then. It never goes back, and no other step moves it.
   */
  lemma ShutdownAdvances(s: Service, e: Event)
    requires Inv(s) && Enabled(s, e)
    ensures ShutdownMoves(e) ==> ShutdownDepth(Next(s, e)) > ShutdownDepth(s)
    ensures !ShutdownMoves(e) ==> Next(s, e).shutdown == s.shutdown
    ensures e.AskShutdown? ==> (Next(s, e).shutdown.Awaiting? <==> s.promise.Some?)
    ensures e.AskShutdown? && s.promise.Some? ==> Next(s, e).shutdown == Awaiting(s.promise.value.renewed)
    ensures e.ShutdownResumes? || (e.AskShutdown? && s.promise.None?) ==>
              && Next(s, e).shutdown == Closing(s.queue)
              && Next(s, e).closeCalls == s.closeCalls[s.queue := s.closeCalls[s.queue] + 1]
    ensures e.ShutdownCloses? ==>
              Next(s, e).shutdown == Finished(s.shutdown.queue) && s.shutdown.queue in Next(s, e).closed
  {
  }

  /** A shutdown that has been asked for and is not over can always be taken further, at worst after a closing. */
  lemma ShutdownNotStuck(s: Service)
    requires !s.shutdown.NotAsked? && !s.shutdown.Finished?
    ensures exists e :: Enabled(s, e) && (ShutdownMoves(e) || e.StaleClosed?)
  {
    if s.shutdown.Closing? {
      assert Enabled(s, ShutdownCloses);
    } else if Settled(s, s.shutdown.rec) {
      assert Enabled(s, ShutdownResumes);
    } else {
      assert Enabled(s, StaleClosed);
    }
  }

  predicate ClosedOnce(s: Service, q: nat) {
    q < |s.closeCalls| && s.closeCalls[q] == 1
  }

  /** Where a shutdown began to close: with nothing to wait for, or once the recovery it awaited had settled. */
  lemma {:induction false} ClosingPoint(states: seq<Service>, events: seq<Event>, i: nat) returns (j: nat)
    requires Run(states, events) && i < |states| && (states[i].shutdown.Closing? || states[i].shutdown.Finished?)
    ensures j < i && states[i].shutdown.queue == states[j].queue
    ensures || (events[j] == AskShutdown && states[j].promise.None?)
            || (events[j] == ShutdownResumes && states[j].shutdown.Awaiting?
                && Settled(states[j], states[j].shutdown.rec))
    ensures ClosedOnce(states[j + 1], states[j].queue)
  {
    RunKeepsInv(states, events, i - 1);
    ShutdownAdvances(states[i - 1], events[i - 1]);
    assert states[i] == Next(states[i - 1], events[i - 1]);
    if states[i - 1].shutdown.Closing? || states[i - 1].shutdown.Finished? {
      j := ClosingPoint(states, events, i - 1);
    } else {
      j := i - 1;
      assert states[j].closeCalls[states[j].queue] == 0;
    }
  }

  /**
   * In every run a shutdown that is over has closed the queue that was current when it went on, whether
   * it had waited for a recovery or not, and that queue stays closed.
   */
  lemma ShutdownClosesItsQueue(states: seq<Service>, events: seq<Event>, i: nat) returns (j: nat)
    requires Run(states, events) && i < |states| && states[i].shutdown.Finished?
    ensures j < i && (events[j] == AskShutdown || events[j] == ShutdownResumes)
    ensures states[j].queue in states[i].closed && ClosedOnce(states[j + 1], states[j].queue)
  {
    j := ClosingPoint(states, events, i);
    RunKeepsInv(states, events, i);
  }

  // ---- what the protocol does not promise ----

  /** A caller whose queue was created by the recovery still under way joins it and is sent back to that same queue. */
  lemma JoinerRetriesFailedQueue(s: Service, c: nat)
    requires Inv(s) && s.promise.Some? && !s.promise.value.resolved
    requires c in s.callers && s.callers[c] == Running(s.queue)
    ensures var joined := Next(s, FirstFindsClosed(c));
            && Enabled(joined, StaleClosed)
            && var settled := Next(joined, StaleClosed);
               && Enabled(settled, WaiterResumes(c))
               && var resumed := Next(settled, WaiterResumes(c));
                  && Enabled(resumed, Retry(c))
                  && Next(resumed, Retry(c)).callers[c] == Retrying(s.queue, s.queue, s.queue)
  {
    var joined := Next(s, FirstFindsClosed(c));
    assert joined.callers[c] == Waiting(s.queue, s.queue);
    var settled := Next(joined, StaleClosed);
    assert Settled(settled, s.queue);
    var resumed := Next(settled, WaiterResumes(c));
    assert resumed.callers[c] == Recovered(s.queue, s.queue);
  }

  /**
   * A failure reported once no recovery is under way retires the current queue, even if the failed
   * attempt ran on an older one that was replaced long ago.
   */
  lemma LateFailureRetiresCurrentQueue(s: Service, c: nat)
    requires Inv(s) && s.promise.None? && c in s.callers && s.callers[c].Running?
    ensures var s' := Next(s, FirstFindsClosed(c));
            && s'.queue == s.queue + 1
            && s'.closeCalls[s.queue] == s.closeCalls[s.queue] + 1
            && (s.callers[c].first < s.queue ==> s'.closeCalls[s.callers[c].first] == s.closeCalls[s.callers[c].first])
  {
    assert PcOk(s.callers[c], s.queue);
  }

  // ---- the service as an object ----

  /** The service's own two fields, with the state of its queues and of the calls suspended in it. */
  class OrderQueueService {
    var queue: nat
    var queueRecoveryPromise: Option<Flight>
    var closeCalls: seq<nat>
    var closed: set<nat>
    var callers: map<nat, Pc>
    var shutdown: Shutdown

    function State(): Service
      reads this
    {
      Service(queue, queueRecoveryPromise, closeCalls, closed, callers, shutdown)
    }

    constructor ()
      ensures State() == START
    {
      queue, queueRecoveryPromise, closeCalls, closed, callers, shutdown := 0, None, [0], {}, map[], NotAsked;
    }

    method CreateQueue() returns (q: nat)
      modifies this`closeCalls
      ensures q == |old(closeCalls)| && closeCalls == old(closeCalls) + [0]
    {
      q := |closeCalls|;
      closeCalls := closeCalls + [0];
    }

    /** `closeQueueQuietly` up to its await. */
    method StartClosing(q: nat)
      modifies this`closeCalls
      ensures closeCalls == CallClose(old(closeCalls), q)
    {
      if q < |closeCalls| {
        closeCalls := closeCalls[q := closeCalls[q] + 1];
      }
    }

    method WithRecoveredQueue(c: nat)
      requires Enabled(State(), Begin(c))
      modifies this`callers
      ensures State() == Next(old(State()), Begin(c))
    {
      callers := callers[c := Running(queue)];
    }

    /** The first attempt rejects; `recoverable` is `isRecoverableQueueError`. */
    method FirstAttemptRejects(c: nat, recoverable: bool)
      requires c in callers && callers[c].Running? && queue < |closeCalls|
      modifies this
      ensures State() == Next(old(State()), if recoverable then FirstFindsClosed(c) else FirstFails(c))
    {
      if !recoverable {
        callers := callers[c := Done(1, false)];
        return;
      }
      RecoverQueue(c);
    }

    method RecoverQueue(c: nat)
      requires c in callers && callers[c].Running? && queue < |closeCalls|
      modifies this
      ensures State() == Recover(old(State()), c, old(callers)[c].first)
    {
      var first := callers[c].first;
      if queueRecoveryPromise.Some? {
        callers := callers[c := Waiting(first, queueRecoveryPromise.value.renewed)];
        return;
      }
      var staleQueue := queue;
      queue := CreateQueue();
      StartClosing(staleQueue);
      assert closeCalls == CallClose(old(closeCalls), staleQueue) + [0];
      queueRecoveryPromise := Some(Flight(staleQueue, queue, c, false));
      callers := callers[c := Leading(first, queue)];
    }

    /** The `finally` of the leader, which then returns to its caller. */
    method LeaderResumesAfterRecovery(c: nat)
      requires Enabled(State(), LeaderResumes(c))
      modifies this`queueRecoveryPromise, this`callers
      ensures State() == Next(old(State()), LeaderResumes(c))
    {
      queueRecoveryPromise := None;
      callers := callers[c := Recovered(callers[c].first, callers[c].rec)];
    }

    method RetryOperation(c: nat)
      requires Enabled(State(), Retry(c))
      modifies this`callers
      ensures State() == Next(old(State()), Retry(c))
    {
      callers := callers[c := Retrying(callers[c].first, callers[c].rec, queue)];
    }

    method OnModuleDestroy()
      requires Enabled(State(), AskShutdown)
      modifies this`shutdown, this`closeCalls
      ensures State() == Next(old(State()), AskShutdown)
    {
      if queueRecoveryPromise.Some? {
        shutdown := Awaiting(queueRecoveryPromise.value.renewed);
        return;
      }
      CloseQueueAtShutdown();
    }

    /** `onModuleDestroy` after the recovery it waited for. */
    method ShutdownGoesOn()
      requires Enabled(State(), ShutdownResumes) && queue < |closeCalls|
      modifies this`shutdown, this`closeCalls
      ensures State() == Next(old(State()), ShutdownResumes)
      ensures closeCalls == old(closeCalls)[queue := old(closeCalls)[queue] + 1]
    {
      CloseQueueAtShutdown();
    }

    method CloseQueueAtShutdown()
      modifies this`shutdown, this`closeCalls
      ensures State() == CloseCurrent(old(State()))
    {
      StartClosing(queue);
      shutdown := Closing(queue);
    }
  }
}
