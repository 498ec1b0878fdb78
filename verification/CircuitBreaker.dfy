/**
 The circuit breaker, driven by `execute` and by the gateway's proxy on the same
 object.  Actions are asynchronous, so a call is a start and a finish, and calls
 overlap freely.  Times are in milliseconds.
 */
module CircuitBreaker {
  import opened Wrappers

  datatype State = Closed | Open | HalfOpen

  datatype Config = Config(failureThreshold: nat, successThreshold: nat, openTimeoutMs: nat)
  {
    /** Every option falls back to a positive default. */
    predicate Valid() {
      failureThreshold >= 1 && successThreshold >= 1 && openTimeoutMs >= 1
    }
  }

  const MAX_HISTORY := 50

  datatype Transition = Transition(from: State, to: State, at: int)

  datatype Stats = Stats(
    total: nat, successful: nat, failed: nat, failFast: nat, recoveries: nat, transitions: nat)

  datatype Breaker = Breaker(
    state: State,
    consecutiveFailures: nat,
    halfOpenSuccesses: nat,
    openedAt: Option<int>,
    stats: Stats,
    history: seq<Transition>)

  const FRESH := Breaker(Closed, 0, 0, None, Stats(0, 0, 0, 0, 0, 0), [])

  /** `_transitionTo`. */
  function Move(b: Breaker, to: State, now: int): Breaker {
    if b.state == to then b
    else
      var moved := b.(
        state := to,
        stats := b.stats.(transitions := b.stats.transitions + 1),
        history := Last(b.history + [Transition(b.state, to, now)], MAX_HISTORY),
        halfOpenSuccesses := 0);
      match to
      case Open => moved.(openedAt := Some(now))
      case HalfOpen => moved
      case Closed => moved.(consecutiveFailures := 0, openedAt := None)
  }

  function OpenFor(b: Breaker, now: int): int {
    now - if b.openedAt.Some? then b.openedAt.value else 0
  }

  /** The gate both drivers begin with: the breaker after it, and the seconds to wait if it refuses. */
  function Gate(cfg: Config, b: Breaker, now: int): (Breaker, Option<int>) {
    if b.state != Open then (b, None)
    else if OpenFor(b, now) >= cfg.openTimeoutMs then (Move(b, HalfOpen, now), None)
    else
      var wait := CeilDiv(cfg.openTimeoutMs - OpenFor(b, now), 1000);
      (b.(stats := b.stats.(failFast := b.stats.failFast + 1)), Some(if wait < 1 then 1 else wait))
  }

  function OnSuccess(cfg: Config, b: Breaker, now: int): Breaker {
    var counted := b.(stats := b.stats.(successful := b.stats.successful + 1));
    match b.state
    case HalfOpen =>
      var probed := counted.(halfOpenSuccesses := b.halfOpenSuccesses + 1);
      if probed.halfOpenSuccesses >= cfg.successThreshold
      then Move(probed.(stats := probed.stats.(recoveries := probed.stats.recoveries + 1)), Closed, now)
      else probed
    case Closed => counted.(consecutiveFailures := 0)
    case Open => counted
  }

  function OnFailure(cfg: Config, b: Breaker, now: int): Breaker {
    var counted := b.(stats := b.stats.(failed := b.stats.failed + 1));
    match b.state
    case HalfOpen => Move(counted, Open, now)
    case Closed =>
      var failed := counted.(consecutiveFailures := b.consecutiveFailures + 1);
      if failed.consecutiveFailures >= cfg.failureThreshold then Move(failed, Open, now) else failed
    case Open => counted
  }

  /** Client errors other than 408 and 429 do not count against the service. */
  predicate IsFailure(statusCode: Option<int>) {
    !(statusCode.Some? && 400 <= statusCode.value < 500 && statusCode.value != 408 && statusCode.value != 429)
  }

  function ResetBreaker(b: Breaker, now: int): Breaker {
    Move(b, Closed, now).(consecutiveFailures := 0, halfOpenSuccesses := 0, openedAt := None)
  }

  // ---------------------------------------------------------------- overlapping calls

  datatype Event =
    | ExecuteStart(now: int)
    | ExecuteSuccess(now: int)
    | ExecuteError(now: int, statusCode: Option<int>)
    | ProxyGate(now: int, request: nat, isGet: bool)
    | ProxyUnavailable(now: int, request: nat)
    | ProxyError(now: int, request: nat, retryable: bool)
    | ProxyFinish(now: int, request: nat, status: int)
    | Reset(now: int)

  datatype Via = Execute | Proxy | Retry

  /** An action sent downstream, with the number of trips there had been. */
  datatype Start = Start(at: int, via: Via, trips: nat)

  /** A request the proxy has let through. */
  datatype Request = Request(isGet: bool, retried: bool, attempts: nat)

  /** `log` is every transition ever made, `starts` every action started. */
  datatype World = World(b: Breaker, requests: map<nat, Request>, log: seq<Transition>, starts: seq<Start>, now: int)

  const START := World(FRESH, map[], [], [], 0)

  function Logged(w: World, b: Breaker, now: int): World {
    w.(b := b, now := now,
       log := if b.state == w.b.state then w.log else w.log + [Transition(w.b.state, b.state, now)])
  }

  function Started(w: World, via: Via): World {
    w.(starts := w.starts + [Start(w.now, via, |Trips(w.log)|)])
  }

  /** The one retry of a GET: straight to the proxy, past the gate. */
  function Retried(w: World, request: nat): World
    requires request in w.requests
  {
    var r := w.requests[request];
    if r.isGet && !r.retried
    then Started(w.(requests := w.requests[request := r.(retried := true, attempts := r.attempts + 1)]), Retry)
    else w
  }

  /** What an event does to the breaker. */
  function NextBreaker(cfg: Config, b: Breaker, e: Event): Breaker {
    match e
    case ExecuteStart(now) => Gate(cfg, b.(stats := b.stats.(total := b.stats.total + 1)), now).0
    case ExecuteSuccess(now) => OnSuccess(cfg, b, now)
    case ExecuteError(now, status) => if IsFailure(status) then OnFailure(cfg, b, now) else b
    case ProxyGate(now, _, _) => Gate(cfg, b, now).0
    case ProxyUnavailable(_, _) => b
    case ProxyError(now, _, _) => OnFailure(cfg, b, now)
    case ProxyFinish(now, _, status) => if 200 <= status < 500 then OnSuccess(cfg, b, now) else b
    case Reset(now) => ResetBreaker(b, now)
  }

  function Step(cfg: Config, w: World, e: Event): World {
    var next := Logged(w, NextBreaker(cfg, w.b, e), e.now);
    match e
    case ExecuteStart(now) => if Gate(cfg, w.b, now).1.Some? then next else Started(next, Execute)
    case ProxyGate(now, id, isGet) =>
      if Gate(cfg, w.b, now).1.Some? || id in w.requests then next
      else Started(next.(requests := w.requests[id := Request(isGet, false, 1)]), Proxy)
    // A 503 answer to a GET, and a retryable connection error
    case ProxyUnavailable(_, id) => if id in w.requests then Retried(next, id) else next
    case ProxyError(_, id, retryable) => if id in w.requests && retryable then Retried(next, id) else next
    case _ => next
  }

  function Run(cfg: Config, es: seq<Event>): World
    decreases |es|
  {
    if es == [] then START else Step(cfg, Run(cfg, es[..|es| - 1]), es[|es| - 1])
  }

  /** The instants at which the breaker opened. */
  function Trips(log: seq<Transition>): seq<int>
    decreases |log|
  {
    if log == [] then []
    else Trips(log[..|log| - 1]) + if log[|log| - 1].to == Open then [log[|log| - 1].at] else []
  }

  // ---------------------------------------------------------------- invariants

  ghost predicate CountersOk(cfg: Config, b: Breaker) {
    && (b.state == Closed ==> b.consecutiveFailures < cfg.failureThreshold && b.halfOpenSuccesses == 0)
    && (b.state != Closed ==> b.consecutiveFailures == cfg.failureThreshold)
    && (b.state == HalfOpen ==> b.halfOpenSuccesses < cfg.successThreshold)
    && (b.state == Open ==> b.halfOpenSuccesses == 0)
    && (b.openedAt.None? <==> b.state == Closed)
  }

  /** Each transition starts where the one before it ended, the first in CLOSED, which only opens. */
  ghost predicate Linked(log: seq<Transition>, state: State)
    decreases |log|
  {
    if log == [] then state == Closed
    else
      var last := log[|log| - 1];
      && last.to == state && last.from != last.to
      && (last.from == Closed ==> last.to == Open)
      && Linked(log[..|log| - 1], last.from)
  }

  ghost predicate Inv(cfg: Config, w: World) {
    && CountersOk(cfg, w.b)
    && Linked(w.log, w.b.state)
    && w.b.history == Last(w.log, MAX_HISTORY)
    && w.b.stats.transitions == |w.log|
    && RequestsOk(w.requests)
  }

  /** One attempt, and one more only for a GET. */
  ghost predicate RequestsOk(requests: map<nat, Request>) {
    forall id :: id in requests ==>
      && requests[id].attempts == (if requests[id].retried then 2 else 1)
      && (requests[id].retried ==> requests[id].isGet)
  }

  lemma LastAppend<T>(s: seq<T>, x: T, n: nat)
    requires n >= 1
    ensures Last(Last(s, n) + [x], n) == Last(s + [x], n)
  {
  }

  /** How one event may change the breaker. */
  ghost predicate Changes(cfg: Config, b: Breaker, b': Breaker, e: Event) {
    if b'.state == b.state then
      b'.history == b.history && b'.stats.transitions == b.stats.transitions && b'.openedAt == b.openedAt
    else
      && b'.history == Last(b.history + [Transition(b.state, b'.state, e.now)], MAX_HISTORY)
      && b'.stats.transitions == b.stats.transitions + 1
      && (b.state == Closed ==> b'.state == Open)
      && (b'.state == Open ==> b'.openedAt == Some(e.now))
      && (b'.state == HalfOpen ==> b'.openedAt == b.openedAt)
      && (b.state == Open && !e.Reset? ==> b'.state == HalfOpen && OpenFor(b, e.now) >= cfg.openTimeoutMs)
  }

  lemma NextBreakerChanges(cfg: Config, b: Breaker, e: Event)
    requires cfg.Valid() && CountersOk(cfg, b)
    ensures CountersOk(cfg, NextBreaker(cfg, b, e)) && Changes(cfg, b, NextBreaker(cfg, b, e), e)
  {
  }

  /** The parts of a step that the breaker decides. */
  lemma StepShape(cfg: Config, w: World, e: Event)
    ensures var next, logged := Step(cfg, w, e), Logged(w, NextBreaker(cfg, w.b, e), e.now);
            next.b == logged.b && next.log == logged.log && next.now == e.now
  {
  }

  lemma StepKeepsRequests(cfg: Config, w: World, e: Event)
    requires RequestsOk(w.requests)
    ensures RequestsOk(Step(cfg, w, e).requests)
  {
  }

  lemma StepKeepsInv(cfg: Config, w: World, e: Event)
    requires cfg.Valid() && Inv(cfg, w)
    ensures Inv(cfg, Step(cfg, w, e))
  {
    NextBreakerChanges(cfg, w.b, e);
    StepShape(cfg, w, e);
    StepKeepsRequests(cfg, w, e);
    var t := Transition(w.b.state, NextBreaker(cfg, w.b, e).state, e.now);
    LastAppend(w.log, t, MAX_HISTORY);
    assert (w.log + [t])[..|w.log|] == w.log;
  }

  /**
   For every interleaving of both drivers' starts, finishes and retries, and resets:
   the counters sit within their thresholds, `openedAt` is set exactly outside
   CLOSED, the retained history is the last 50 of a linked log that ends in the
   current state, and no request is sent more than twice, or twice unless a GET.
   */
  lemma {:induction false} BreakerInvariants(cfg: Config, es: seq<Event>)
    requires cfg.Valid()
    ensures Inv(cfg, Run(cfg, es))
    ensures var w := Run(cfg, es);
            w.b.history == if |w.log| > 50 then w.log[|w.log| - 50..] else w.log
  {
    if es != [] {
      BreakerInvariants(cfg, es[..|es| - 1]);
      StepKeepsInv(cfg, Run(cfg, es[..|es| - 1]), es[|es| - 1]);
    }
  }

  // ---------------------------------------------------------------- trip spacing

  predicate Monotone(es: seq<Event>) {
    && (forall i :: 0 <= i < |es| ==> 0 <= es[i].now)
    && (forall i, j :: 0 <= i <= j < |es| ==> es[i].now <= es[j].now)
  }

  predicate NoReset(es: seq<Event>) {
    forall i :: 0 <= i < |es| ==> !es[i].Reset?
  }

  ghost predicate Spaced(trips: seq<int>, gap: nat) {
    forall i :: 0 < i < |trips| ==> trips[i - 1] + gap <= trips[i]
  }

  /** Outside OPEN the last trip is a timeout old; an open or probing breaker remembers it. */
  ghost predicate TripInv(cfg: Config, w: World) {
    var trips := Trips(w.log);
    && Spaced(trips, cfg.openTimeoutMs)
    && (w.b.state != Closed ==> trips != [] && w.b.openedAt == Some(trips[|trips| - 1]))
    && (w.b.state != Open && trips != [] ==> trips[|trips| - 1] + cfg.openTimeoutMs <= w.now)
    && (trips != [] ==> trips[|trips| - 1] <= w.now)
  }

  /** Actions that pass a gate start a timeout after every trip before them. */
  ghost predicate StartsOk(cfg: Config, w: World) {
    StartsWait(cfg, Trips(w.log), w.starts)
  }

  lemma TripsAppend(log: seq<Transition>, t: Transition)
    ensures Trips(log + [t]) == Trips(log) + if t.to == Open then [t.at] else []
  {
    assert (log + [t])[..|log|] == log;
  }

  lemma StepKeepsTrips(cfg: Config, w: World, e: Event)
    requires cfg.Valid() && CountersOk(cfg, w.b) && TripInv(cfg, w) && w.now <= e.now && !e.Reset?
    ensures TripInv(cfg, Step(cfg, w, e))
    ensures |Trips(w.log)| <= |Trips(Step(cfg, w, e).log)|
    ensures Trips(w.log) == Trips(Step(cfg, w, e).log)[..|Trips(w.log)|]
    ensures Step(cfg, w, e).now == e.now
  {
    NextBreakerChanges(cfg, w.b, e);
    StepShape(cfg, w, e);
    TripsAppend(w.log, Transition(w.b.state, NextBreaker(cfg, w.b, e).state, e.now));
  }

  lemma {:induction false} SpacedApart(trips: seq<int>, gap: nat, i: nat, j: nat)
    requires Spaced(trips, gap) && i <= j < |trips|
    ensures trips[i] + (j - i) * gap <= trips[j] && trips[i] <= trips[j]
    decreases j
  {
    if i < j {
      SpacedApart(trips, gap, i, j - 1);
      assert (j - i) * gap == (j - 1 - i) * gap + gap;
    }
  }

  ghost predicate OneStart(w: World, next: World) {
    || next.starts == w.starts
    || exists via :: next.starts == w.starts + [Start(next.now, via, |Trips(next.log)|)]
         && (via != Retry ==> next.b.state != Open)
  }

  /** A step starts at most one action, and a gated one only outside OPEN. */
  lemma StepStarts(cfg: Config, w: World, e: Event)
    ensures OneStart(w, Step(cfg, w, e))
  {
    var next := Step(cfg, w, e);
    if next.starts != w.starts {
      var start := next.starts[|w.starts|];
      assert next.starts == w.starts + [Start(next.now, start.via, |Trips(next.log)|)];
    }
  }

  lemma StartsStayOk(cfg: Config, w: World, next: World)
    requires StartsOk(cfg, w) && TripInv(cfg, next) && OneStart(w, next)
    requires Trips(w.log) <= Trips(next.log)
    ensures StartsOk(cfg, next)
  {
    var trips := Trips(next.log);
    if next.b.state != Open {
      forall i | 0 <= i < |trips| ensures trips[i] + cfg.openTimeoutMs <= next.now {
        SpacedApart(trips, cfg.openTimeoutMs, i, |trips| - 1);
      }
    }
    StartsExtend(cfg, Trips(w.log), trips, w.starts, next.starts, next.now, next.b.state != Open);
  }

  lemma StepKeepsStarts(cfg: Config, w: World, e: Event)
    requires cfg.Valid() && CountersOk(cfg, w.b) && TripInv(cfg, w) && StartsOk(cfg, w)
    requires w.now <= e.now && !e.Reset?
    ensures StartsOk(cfg, Step(cfg, w, e))
  {
    StepKeepsTrips(cfg, w, e);
    StepStarts(cfg, w, e);
    StartsStayOk(cfg, w, Step(cfg, w, e));
  }

  ghost predicate StartsWait(cfg: Config, trips: seq<int>, starts: seq<Start>) {
    forall k :: 0 <= k < |starts| && starts[k].via != Retry ==> StartWaits(cfg, trips, starts[k])
  }

  ghost predicate StartWaits(cfg: Config, trips: seq<int>, start: Start) {
    start.trips <= |trips| && forall i :: 0 <= i < start.trips ==> trips[i] + cfg.openTimeoutMs <= start.at
  }

  lemma StartsExtend(cfg: Config, trips: seq<int>, trips': seq<int>, starts: seq<Start>, starts': seq<Start>,
                     now: int, gated: bool)
    requires StartsWait(cfg, trips, starts) && trips <= trips'
    requires starts' == starts
             || exists via :: starts' == starts + [Start(now, via, |trips'|)] && (via != Retry ==> gated)
    requires gated ==> forall i :: 0 <= i < |trips'| ==> trips'[i] + cfg.openTimeoutMs <= now
    ensures StartsWait(cfg, trips', starts')
  {
    forall k | 0 <= k < |starts'| && starts'[k].via != Retry ensures StartWaits(cfg, trips', starts'[k]) {
      if k < |starts| {
        assert starts'[k] == starts[k];
        assert StartWaits(cfg, trips, starts[k]);
      }
    }
  }

  lemma {:induction false} RunTrips(cfg: Config, es: seq<Event>)
    requires cfg.Valid() && Monotone(es) && NoReset(es)
    ensures var w := Run(cfg, es);
            && TripInv(cfg, w) && StartsOk(cfg, w)
            && w.now == if es == [] then 0 else es[|es| - 1].now
  {
    if es != [] {
      var before, e := es[..|es| - 1], es[|es| - 1];
      MonotonePrefix(es);
      RunTrips(cfg, before);
      BreakerInvariants(cfg, before);
      StepKeepsTrips(cfg, Run(cfg, before), e);
      StepKeepsStarts(cfg, Run(cfg, before), e);
    }
  }

  lemma MonotonePrefix(es: seq<Event>)
    requires Monotone(es) && NoReset(es) && es != []
    ensures var before := es[..|es| - 1];
            && Monotone(before) && NoReset(before) && !es[|es| - 1].Reset?
            && (if before == [] then 0 else before[|before| - 1].now) <= es[|es| - 1].now
  {
  }

  /**
   With a monotone clock and no reset, trips are at least a timeout apart, and
   any that fall within `span` milliseconds number at most span / timeout + 1.
   */
  lemma TripSpacing(cfg: Config, es: seq<Event>, i: nat, j: nat, span: nat)
    requires cfg.Valid() && Monotone(es) && NoReset(es)
    ensures var trips := Trips(Run(cfg, es).log);
            && Spaced(trips, cfg.openTimeoutMs)
            && (i <= j < |trips| && trips[j] - trips[i] <= span ==> j - i + 1 <= span / cfg.openTimeoutMs + 1)
  {
    RunTrips(cfg, es);
    var trips := Trips(Run(cfg, es).log);
    if i <= j < |trips| && trips[j] - trips[i] <= span {
      SpanBound(trips, cfg.openTimeoutMs, i, j, span);
    }
  }

  lemma SpanBound(trips: seq<int>, gap: nat, i: nat, j: nat, span: nat)
    requires Spaced(trips, gap) && gap >= 1 && i <= j < |trips| && trips[j] - trips[i] <= span
    ensures j - i + 1 <= span / gap + 1
  {
    SpacedApart(trips, gap, i, j);
    QuotientBound(j - i, gap, span);
  }

  lemma QuotientBound(n: nat, gap: nat, span: nat)
    requires gap >= 1 && n * gap <= span
    ensures n <= span / gap
  {
    var q := span / gap;
    assert span < (q + 1) * gap;
    assert n >= q + 1 ==> n * gap >= (q + 1) * gap;
  }

  /** No `execute` action and no first proxy attempt starts within a timeout of a trip before it. */
  lemma GatedStartsWait(cfg: Config, es: seq<Event>, k: nat, i: nat)
    requires cfg.Valid() && Monotone(es) && NoReset(es)
    requires k < |Run(cfg, es).starts| && Run(cfg, es).starts[k].via != Retry
    requires i < Run(cfg, es).starts[k].trips
    ensures i < |Trips(Run(cfg, es).log)|
    ensures Trips(Run(cfg, es).log)[i] + cfg.openTimeoutMs <= Run(cfg, es).starts[k].at
  {
    RunTrips(cfg, es);
  }

  lemma RunAppend(cfg: Config, es: seq<Event>, e: Event)
    ensures Run(cfg, es + [e]) == Step(cfg, Run(cfg, es), e)
  {
    assert (es + [e])[..|es|] == es;
  }

  /** Of spaced trips, the last decides whether an instant is a gap after all of them. */
  lemma LastTripDecides(trips: seq<int>, gap: nat, at: int)
    requires Spaced(trips, gap)
    ensures (forall i :: 0 <= i < |trips| ==> trips[i] + gap <= at) <==> (trips == [] || trips[|trips| - 1] + gap <= at)
  {
    forall i | 0 <= i < |trips| ensures trips[i] <= trips[|trips| - 1] {
      SpacedApart(trips, gap, i, |trips| - 1);
    }
  }

  lemma GateAwaitsLastTrip(cfg: Config, w: World, at: int)
    requires TripInv(cfg, w) && w.now <= at
    ensures var trips := Trips(w.log);
            Gate(cfg, w.b, at).1.None? <==> trips == [] || trips[|trips| - 1] + cfg.openTimeoutMs <= at
  {
  }

  lemma GateAdmits(cfg: Config, w: World, at: int)
    requires TripInv(cfg, w) && w.now <= at
    ensures (forall i :: 0 <= i < |Trips(w.log)| ==> Trips(w.log)[i] + cfg.openTimeoutMs <= at)
       <==> Gate(cfg, w.b, at).1.None?
  {
    LastTripDecides(Trips(w.log), cfg.openTimeoutMs, at);
    GateAwaitsLastTrip(cfg, w, at);
  }

  /** An instant keeps the timeout from every trip so far exactly when the gate would admit a call at it. */
  lemma GateAdmitsIff(cfg: Config, es: seq<Event>, at: int)
    requires cfg.Valid() && Monotone(es) && NoReset(es) && Run(cfg, es).now <= at
    ensures var w := Run(cfg, es);
            (forall i :: 0 <= i < |Trips(w.log)| ==> Trips(w.log)[i] + cfg.openTimeoutMs <= at)
            <==> Gate(cfg, w.b, at).1.None?
  {
    assert TripInv(cfg, Run(cfg, es)) by {
      RunTrips(cfg, es);
    }
    GateAdmits(cfg, Run(cfg, es), at);
  }

  /** The last event of the run made the proxy send a GET again. */
  ghost predicate StartsRetry(cfg: Config, es: seq<Event>) {
    && es != []
    && var starts, starts' := Run(cfg, es[..|es| - 1]).starts, Run(cfg, es).starts;
       |starts'| > |starts| && starts'[|starts'| - 1].via == Retry
  }

  /**
   Exactly when a retry keeps the distance from every trip that gated starts keep: when
   the gate it goes around would have admitted it.
   */
  lemma RetryWaitsIff(cfg: Config, es: seq<Event>)
    requires cfg.Valid() && Monotone(es) && NoReset(es) && StartsRetry(cfg, es)
    ensures var w := Run(cfg, es);
            var start := w.starts[|w.starts| - 1];
            && start.at == w.now && start.trips == |Trips(w.log)|
            && ((forall i :: 0 <= i < start.trips ==> Trips(w.log)[i] + cfg.openTimeoutMs <= start.at)
                <==> Gate(cfg, w.b, start.at).1.None?)
  {
    StepStarts(cfg, Run(cfg, es[..|es| - 1]), es[|es| - 1]);
    GateAdmitsIff(cfg, es, Run(cfg, es).now);
  }

  /** `k` proxy requests have failed at one instant, and the breaker has not tripped. */
  ghost predicate Failing(w: World, k: nat) {
    && w.b.state == Closed && w.b.consecutiveFailures == k && w.log == []
    && |w.starts| == k && (forall id :: id in w.requests ==> id < k)
  }

  predicate AllAt(es: seq<Event>, now: int) {
    forall i :: 0 <= i < |es| ==> es[i].now == now && !es[i].Reset?
  }

  lemma FailOnce(cfg: Config, w: World, k: nat, isGet: bool)
    requires cfg.Valid() && Failing(w, k)
    ensures var next := Step(cfg, Step(cfg, w, ProxyGate(100, k, isGet)), ProxyError(100, k, isGet));
            if k + 1 < cfg.failureThreshold then !isGet ==> Failing(next, k + 1)
            else
              && next.b.state == Open && next.log == [Transition(Closed, Open, 100)]
              && (isGet ==> |next.starts| == k + 2 && next.starts[k + 1] == Start(100, Retry, |Trips(next.log)|))
    ensures |Step(cfg, w, ProxyGate(100, k, isGet)).starts| == k + 1
  {
  }

  lemma {:induction false} FailTimes(cfg: Config, k: nat) returns (es: seq<Event>)
    requires cfg.Valid() && k < cfg.failureThreshold
    ensures Failing(Run(cfg, es), k) && AllAt(es, 100)
    decreases k
  {
    es := [];
    if k > 0 {
      es := FailTimes(cfg, k - 1);
      FailOnce(cfg, Run(cfg, es), k - 1, false);
      var gate, error := ProxyGate(100, k - 1, false), ProxyError(100, k - 1, false);
      RunAppend(cfg, es, gate);
      RunAppend(cfg, es + [gate], error);
      es := es + [gate] + [error];
    }
  }

  /**
   A retry does not wait: whatever the thresholds, there is a run in which it starts at
   the instant the breaker opens.
   */
  lemma RetryIgnoresTheTrip(cfg: Config) returns (es: seq<Event>)
    requires cfg.Valid()
    ensures Monotone(es) && NoReset(es) && StartsRetry(cfg, es)
    ensures var w := Run(cfg, es);
            && w.b.state == Open && Trips(w.log) == [100]
            && |w.starts| == cfg.failureThreshold + 1
            && w.starts[|w.starts| - 1] == Start(100, Retry, 1)
  {
    var k := cfg.failureThreshold - 1;
    var before := FailTimes(cfg, k);
    FailOnce(cfg, Run(cfg, before), k, true);
    var gate, error := ProxyGate(100, k, true), ProxyError(100, k, true);
    RunAppend(cfg, before, gate);
    RunAppend(cfg, before + [gate], error);
    TripsAppend([], Transition(Closed, Open, 100));
    assert [] + [Transition(Closed, Open, 100)] == [Transition(Closed, Open, 100)];
    es := before + [gate] + [error];
    assert es[..|es| - 1] == before + [gate];
    assert AllAt(es, 100);
  }

  /**
   What a refusal's hint is worth.  After any run that has not tripped again, a call that
   waited as long as it was told passes the gate, and while the breaker stays OPEN the gate
   admits a call exactly from a timeout after the trip on; the hint is that instant, rounded
   up by less than a second.
   */
  lemma RefusalHintSuffices(cfg: Config, es: seq<Event>, es': seq<Event>, now: int, later: int)
    requires cfg.Valid() && Monotone(es) && NoReset(es) && Monotone(es') && NoReset(es')
    requires Run(cfg, es).now <= now && Gate(cfg, Run(cfg, es).b, now).1.Some?
    requires Trips(Run(cfg, es').log) == Trips(Run(cfg, es).log)
    ensures var trips, b', hint := Trips(Run(cfg, es).log), Run(cfg, es').b, Gate(cfg, Run(cfg, es).b, now).1.value;
            && trips != []
            && var opens := trips[|trips| - 1] + cfg.openTimeoutMs;
               && opens <= now + 1000 * hint < opens + 1000
               && (b'.state == Open ==> (Gate(cfg, b', later).1.None? <==> opens <= later))
               && (now + 1000 * hint <= later ==> Gate(cfg, b', later).1.None?)
  {
    RunTrips(cfg, es);
    RunTrips(cfg, es');
  }
}
