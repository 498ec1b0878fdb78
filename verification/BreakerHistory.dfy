/**
 When the breaker moves, told from the events alone: how many failures have been counted
 in a row, how many probes have passed, when it last opened.
 */
module BreakerHistory {
  import opened Wrappers
  import opened CircuitBreaker

  /** A failed action: of `execute`, unless the client is to blame; of the proxy, always. */
  predicate Fails(e: Event) {
    || e.ProxyError?
    || (e.ExecuteError?
        && match e.statusCode
           case None => true
           case Some(code) => code < 400 || code >= 500 || code == 408 || code == 429)
  }

  predicate Succeeds(e: Event) {
    e.ExecuteSuccess? || (e.ProxyFinish? && 200 <= e.status <= 499)
  }

  /** A call that asks to be let through. */
  predicate Asks(e: Event) {
    e.ExecuteStart? || e.ProxyGate?
  }

  function StateAfter(cfg: Config, es: seq<Event>): State {
    Run(cfg, es).b.state
  }

  /** The failures counted while CLOSED since the last success, reset or closing. */
  function FailuresInARow(cfg: Config, es: seq<Event>): nat
    decreases |es|
  {
    if es == [] then 0
    else
      var before, e := es[..|es| - 1], es[|es| - 1];
      if StateAfter(cfg, before) == Closed then
        if Fails(e) then FailuresInARow(cfg, before) + 1
        else if Succeeds(e) || e.Reset? then 0
        else FailuresInARow(cfg, before)
      else if StateAfter(cfg, es) == Closed then 0 else FailuresInARow(cfg, before)
  }

  /** The successes since the breaker half-opened. */
  function ProbesPassed(cfg: Config, es: seq<Event>): nat
    decreases |es|
  {
    if es == [] then 0
    else
      var before, e := es[..|es| - 1], es[|es| - 1];
      if StateAfter(cfg, before) != HalfOpen || StateAfter(cfg, es) != HalfOpen then 0
      else ProbesPassed(cfg, before) + if Succeeds(e) then 1 else 0
  }

  /** When the breaker last opened. */
  function LastOpening(cfg: Config, es: seq<Event>): Option<int>
    decreases |es|
  {
    if es == [] then None
    else
      var before, e := es[..|es| - 1], es[|es| - 1];
      if StateAfter(cfg, before) != Open && StateAfter(cfg, es) == Open then Some(e.now) else LastOpening(cfg, before)
  }

  // ---------------------------------------------------------------- one event

  /** The event opens a breaker that was not open. */
  predicate OpensAt(cfg: Config, b: Breaker, e: Event) {
    Fails(e) && (b.state == HalfOpen || (b.state == Closed && b.consecutiveFailures + 1 >= cfg.failureThreshold))
  }

  predicate ClosesAt(cfg: Config, b: Breaker, e: Event) {
    b.state != Closed
    && (e.Reset? || (b.state == HalfOpen && Succeeds(e) && b.halfOpenSuccesses + 1 >= cfg.successThreshold))
  }

  predicate HalfOpensAt(cfg: Config, b: Breaker, e: Event) {
    b.state == Open && Asks(e) && b.openedAt.Some? && b.openedAt.value + cfg.openTimeoutMs <= e.now
  }

  /** How one event moves the breaker and its counters. */
  ghost predicate Moves(cfg: Config, b: Breaker, e: Event, next: Breaker) {
    && next.state == (if OpensAt(cfg, b, e) then Open
                      else if ClosesAt(cfg, b, e) then Closed
                      else if HalfOpensAt(cfg, b, e) then HalfOpen
                      else b.state)
    && next.openedAt == (if OpensAt(cfg, b, e) then Some(e.now) else if next.state == Closed then None else b.openedAt)
    && next.consecutiveFailures
       == (if b.state == Closed && Fails(e) then b.consecutiveFailures + 1
           else if (b.state == Closed && (Succeeds(e) || e.Reset?)) || (b.state != Closed && next.state == Closed)
           then 0
           else b.consecutiveFailures)
    && next.halfOpenSuccesses
       == (if b.state == HalfOpen && next.state == HalfOpen then b.halfOpenSuccesses + (if Succeeds(e) then 1 else 0)
           else 0)
  }

  lemma EventMoves(cfg: Config, b: Breaker, e: Event)
    requires cfg.Valid() && CountersOk(cfg, b)
    ensures Moves(cfg, b, e, NextBreaker(cfg, b, e))
  {
  }

  // ---------------------------------------------------------------- every run

  /** The breaker's counters are what the events so far say. */
  ghost predicate CountsAgree(cfg: Config, es: seq<Event>, b: Breaker) {
    && b.consecutiveFailures == FailuresInARow(cfg, es)
    && b.halfOpenSuccesses == ProbesPassed(cfg, es)
    && (b.state != Closed ==> b.openedAt.Some? && b.openedAt == LastOpening(cfg, es))
  }

  lemma {:induction false} RunAgrees(cfg: Config, es: seq<Event>)
    requires cfg.Valid()
    ensures CountsAgree(cfg, es, Run(cfg, es).b)
  {
    if es != [] {
      var before, e := es[..|es| - 1], es[|es| - 1];
      RunAgrees(cfg, before);
      BreakerInvariants(cfg, before);
      StepShape(cfg, Run(cfg, before), e);
      EventMoves(cfg, Run(cfg, before).b, e);
    }
  }

  /**
   When the breaker moves.  It opens exactly at a failure while HALF_OPEN, or at the one that
   makes as many in a row as the threshold while CLOSED; it closes exactly at a reset or at
   the last of the successes it needs while HALF_OPEN; it half-opens exactly when a call asks
   a full timeout after it opened.  Nothing else moves it.
   */
  lemma MovesExactlyWhen(cfg: Config, es: seq<Event>, e: Event)
    requires cfg.Valid()
    ensures var s, s' := StateAfter(cfg, es), StateAfter(cfg, es + [e]);
            && (s != Open && s' == Open <==>
                  Fails(e) && (s == HalfOpen || (s == Closed && FailuresInARow(cfg, es) + 1 == cfg.failureThreshold)))
            && (s != Closed && s' == Closed <==>
                  s != Closed
                  && (e.Reset? || (s == HalfOpen && Succeeds(e) && ProbesPassed(cfg, es) + 1 == cfg.successThreshold)))
            && (s != HalfOpen && s' == HalfOpen <==>
                  s == Open && Asks(e) && LastOpening(cfg, es).Some?
                  && LastOpening(cfg, es).value + cfg.openTimeoutMs <= e.now)
  {
    RunAgrees(cfg, es);
    BreakerInvariants(cfg, es);
    RunAppend(cfg, es, e);
    StepShape(cfg, Run(cfg, es), e);
    EventMoves(cfg, Run(cfg, es).b, e);
  }

  /** A failed probe cuts the service off again, from that instant, whichever driver saw it. */
  lemma FailedProbeReopens(cfg: Config, es: seq<Event>, e: Event)
    requires cfg.Valid() && StateAfter(cfg, es) == HalfOpen && Fails(e)
    ensures var w, next := Run(cfg, es), Run(cfg, es + [e]);
            && next.b.state == Open && next.b.openedAt == Some(e.now)
            && next.log == w.log + [Transition(HalfOpen, Open, e.now)]
            && Trips(next.log) == Trips(w.log) + [e.now]
  {
    RunAgrees(cfg, es);
    BreakerInvariants(cfg, es);
    RunAppend(cfg, es, e);
    StepShape(cfg, Run(cfg, es), e);
    EventMoves(cfg, Run(cfg, es).b, e);
    TripsAppend(Run(cfg, es).log, Transition(HalfOpen, Open, e.now));
  }

  // ---------------------------------------------------------------- the counters that are only reported

  /** How many events of a kind there were. */
  function Tally(es: seq<Event>, kind: Event -> bool): nat
    decreases |es|
  {
    if es == [] then 0 else Tally(es[..|es| - 1], kind) + if kind(es[|es| - 1]) then 1 else 0
  }

  /** The calls that were turned away: they came while OPEN and did not half-open it. */
  function Refusals(cfg: Config, es: seq<Event>): nat
    decreases |es|
  {
    if es == [] then 0
    else
      var before := es[..|es| - 1];
      Refusals(cfg, before)
      + if Asks(es[|es| - 1]) && StateAfter(cfg, before) == Open && StateAfter(cfg, es) == Open then 1 else 0
  }

  /** The closings that probes earned. */
  function Recoveries(cfg: Config, es: seq<Event>): nat
    decreases |es|
  {
    if es == [] then 0
    else
      var before := es[..|es| - 1];
      Recoveries(cfg, before)
      + if Succeeds(es[|es| - 1]) && StateAfter(cfg, before) == HalfOpen && StateAfter(cfg, es) == Closed then 1 else 0
  }

  lemma EventCounts(cfg: Config, b: Breaker, e: Event)
    requires cfg.Valid()
    ensures var s, s', next := b.stats, NextBreaker(cfg, b, e).stats, NextBreaker(cfg, b, e).state;
            && s'.total == s.total + (if e.ExecuteStart? then 1 else 0)
            && s'.successful == s.successful + (if Succeeds(e) then 1 else 0)
            && s'.failed == s.failed + (if Fails(e) then 1 else 0)
            && s'.failFast == s.failFast + (if Asks(e) && b.state == Open && next == Open then 1 else 0)
            && s'.recoveries
               == s.recoveries + (if Succeeds(e) && b.state == HalfOpen && next == Closed then 1 else 0)
  {
  }

  /** In every run the reported counters are counts of what happened; a proxied request is not in the total. */
  lemma {:induction false} StatsAreCounts(cfg: Config, es: seq<Event>)
    requires cfg.Valid()
    ensures var stats := Run(cfg, es).b.stats;
            && stats.total == Tally(es, (e: Event) => e.ExecuteStart?)
            && stats.successful == Tally(es, Succeeds)
            && stats.failed == Tally(es, Fails)
            && stats.failFast == Refusals(cfg, es)
            && stats.recoveries == Recoveries(cfg, es)
            && stats.transitions == |Run(cfg, es).log|
  {
    BreakerInvariants(cfg, es);
    if es != [] {
      StatsAreCounts(cfg, es[..|es| - 1]);
      StepShape(cfg, Run(cfg, es[..|es| - 1]), es[|es| - 1]);
      EventCounts(cfg, Run(cfg, es[..|es| - 1]).b, es[|es| - 1]);
    }
  }

  // ---------------------------------------------------------------- what is sent downstream

  /** A 503 answer or a retryable connection error, for a GET that has been sent once. */
  predicate SentAgain(w: World, e: Event) {
    && (e.ProxyUnavailable? || (e.ProxyError? && e.retryable))
    && e.request in w.requests && w.requests[e.request].isGet && !w.requests[e.request].retried
  }

  /**
   What every event sends: an admitted `execute` its action, an admitted new request its first
   attempt, the failure of a GET sent once its second, anything else nothing.
   */
  lemma SendsExactlyWhen(cfg: Config, es: seq<Event>, e: Event)
    requires cfg.Valid()
    ensures var w, next := Run(cfg, es), Run(cfg, es + [e]);
            var turnedAway := w.b.state == Open && next.b.state == Open;
            next.starts == w.starts +
              (if e.ExecuteStart? && !turnedAway then [Start(e.now, Execute, |Trips(next.log)|)]
               else if e.ProxyGate? && !turnedAway && e.request !in w.requests
               then [Start(e.now, Proxy, |Trips(next.log)|)]
               else if SentAgain(w, e) then [Start(e.now, Retry, |Trips(next.log)|)]
               else [])
  {
    RunAppend(cfg, es, e);
    StepShape(cfg, Run(cfg, es), e);
  }
}
