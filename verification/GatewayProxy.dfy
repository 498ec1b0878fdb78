/**
 The breaker object and its two drivers as they are written: methods that change
 the breaker's fields in place, and the proxy's handlers, which change the same
 fields by hand.
 */
module GatewayProxy {
  import opened Wrappers
  import opened CircuitBreaker

  /** A refused call: how long to wait, the last failure, and whether the caller's fallback answers it. */
  datatype Refusal = Refusal(retryAfterSec: int, reason: Option<string>, fallback: bool)

  const RETRYABLE_ERRORS := ["ECONNRESET", "ECONNREFUSED", "ETIMEDOUT", "ESOCKETTIMEDOUT"]

  class BreakerObject {
    const cfg: Config
    var state: State
    var consecutiveFailures: nat
    var halfOpenSuccessCount: nat
    var openedAt: Option<int>
    var stats: Stats
    var transitionHistory: seq<Transition>
    var lastFailureReason: Option<string>

    constructor (cfg: Config)
      requires cfg.Valid()
      ensures Valid() && this.cfg == cfg && Value() == FRESH && lastFailureReason.None?
    {
      this.cfg := cfg;
      state := Closed;
      consecutiveFailures, halfOpenSuccessCount, openedAt := 0, 0, None;
      stats := Stats(0, 0, 0, 0, 0, 0);
      transitionHistory := [];
      lastFailureReason := None;
    }

    function Value(): Breaker
      reads this
    {
      Breaker(state, consecutiveFailures, halfOpenSuccessCount, openedAt, stats, transitionHistory)
    }

    /** The retained history never exceeds its bound. */
    predicate Valid()
      reads this
    {
      |transitionHistory| <= MAX_HISTORY
    }

    method Record(transition: Transition)
      requires Valid()
      modifies this`transitionHistory
      ensures Valid() && transitionHistory == Last(old(transitionHistory) + [transition], MAX_HISTORY)
    {
      transitionHistory := transitionHistory + [transition];
      if |transitionHistory| > MAX_HISTORY {
        transitionHistory := transitionHistory[1..];
      }
    }

    method TransitionTo(newState: State, now: int)
      requires Valid()
      modifies this
      ensures Valid()
      ensures Value() == Move(old(Value()), newState, now) && lastFailureReason == old(lastFailureReason)
    {
      if state == newState {
        return;
      }
      var fromState := state;
      state := newState;
      stats := stats.(transitions := stats.transitions + 1);
      Record(Transition(fromState, newState, now));
      if newState == Open {
        openedAt := Some(now);
        halfOpenSuccessCount := 0;
      } else if newState == HalfOpen {
        halfOpenSuccessCount := 0;
      } else {
        consecutiveFailures := 0;
        halfOpenSuccessCount := 0;
        openedAt := None;
      }
    }

    /** `execute`, up to the action: `None` when the action may start. */
    method ExecuteStart(now: int, hasFallback: bool) returns (refusal: Option<Refusal>)
      requires Valid()
      modifies this
      ensures Valid()
      ensures Value() == NextBreaker(cfg, old(Value()), CircuitBreaker.ExecuteStart(now))
      ensures lastFailureReason == old(lastFailureReason)
      ensures refusal == match Gate(cfg, old(Value()), now).1
                         case None => None
                         case Some(wait) => Some(Refusal(wait, lastFailureReason, hasFallback))
    {
      stats := stats.(total := stats.total + 1);
      if state == Open {
        var timeSinceOpen := now - if openedAt.Some? then openedAt.value else 0;
        if timeSinceOpen >= cfg.openTimeoutMs {
          TransitionTo(HalfOpen, now);
        } else {
          stats := stats.(failFast := stats.failFast + 1);
          var wait := CeilDiv(cfg.openTimeoutMs - timeSinceOpen, 1000);
          return Some(Refusal(if wait < 1 then 1 else wait, lastFailureReason, hasFallback));
        }
      }
      return None;
    }

    /** `execute`, after the action succeeded. */
    method ExecuteSuccess(now: int)
      requires Valid()
      modifies this
      ensures Valid()
      ensures Value() == NextBreaker(cfg, old(Value()), CircuitBreaker.ExecuteSuccess(now))
      ensures lastFailureReason == old(lastFailureReason)
    {
      stats := stats.(successful := stats.successful + 1);
      if state == HalfOpen {
        halfOpenSuccessCount := halfOpenSuccessCount + 1;
        if halfOpenSuccessCount >= cfg.successThreshold {
          stats := stats.(recoveries := stats.recoveries + 1);
          TransitionTo(Closed, now);
        }
      } else if state == Closed {
        consecutiveFailures := 0;
      }
    }

    /** `execute`, after the action threw; the error goes to the fallback or is thrown again. */
    method ExecuteError(now: int, statusCode: Option<int>, reason: string, hasFallback: bool) returns (fallback: bool)
      requires Valid()
      modifies this
      ensures Valid()
      ensures Value() == NextBreaker(cfg, old(Value()), CircuitBreaker.ExecuteError(now, statusCode))
      ensures lastFailureReason == if IsFailure(statusCode) then Some(reason) else old(lastFailureReason)
      ensures fallback <==> IsFailure(statusCode) && hasFallback
    {
      if !IsFailure(statusCode) {
        return false;
      }
      stats := stats.(failed := stats.failed + 1);
      lastFailureReason := Some(reason);
      if state == HalfOpen {
        TransitionTo(Open, now);
      } else if state == Closed {
        consecutiveFailures := consecutiveFailures + 1;
        if consecutiveFailures >= cfg.failureThreshold {
          TransitionTo(Open, now);
        }
      }
      return hasFallback;
    }

    method ResetTo(now: int)
      requires Valid()
      modifies this
      ensures Valid()
      ensures Value() == NextBreaker(cfg, old(Value()), Reset(now)) && lastFailureReason.None?
    {
      TransitionTo(Closed, now);
      consecutiveFailures := 0;
      halfOpenSuccessCount := 0;
      openedAt := None;
      lastFailureReason := None;
    }

    /** `secondsUntilHalfOpen`: zero exactly when the gate would let a call through. */
    method SecondsUntilHalfOpen(now: int) returns (seconds: nat)
      requires state == Open ==> openedAt.Some?
      ensures seconds == 0 <==> Gate(cfg, Value(), now).1.None?
      ensures seconds > 0 ==> Gate(cfg, Value(), now).1 == Some(seconds)
    {
      var timeSinceOpen := if openedAt.Some? then now - openedAt.value else 0;
      if state != Open {
        return 0;
      }
      var left := CeilDiv(cfg.openTimeoutMs - timeSinceOpen, 1000);
      return if left < 0 then 0 else left;
    }
  }

  /** The reverse proxy of one service, sharing its breaker. */
  class MicroserviceProxy {
    const breaker: BreakerObject
    var requests: map<nat, Request>

    constructor (breaker: BreakerObject)
      ensures this.breaker == breaker && requests == map[]
    {
      this.breaker := breaker;
      requests := map[];
    }

    /** The middleware: refuses, or lets a new request through. */
    method Handle(now: int, id: nat, isGet: bool) returns (retryAfterSec: Option<int>)
      requires id !in requests
      requires breaker.Valid()
      modifies this, breaker
      ensures breaker.Valid()
      ensures breaker.lastFailureReason == old(breaker.lastFailureReason)
      ensures breaker.Value() == NextBreaker(breaker.cfg, old(breaker.Value()), ProxyGate(now, id, isGet))
      ensures retryAfterSec == Gate(breaker.cfg, old(breaker.Value()), now).1
      ensures requests == if retryAfterSec.Some? then old(requests)
                          else old(requests)[id := Request(isGet, false, 1)]
    {
      if breaker.state == Open {
        var timeSinceOpen := now - if breaker.openedAt.Some? then breaker.openedAt.value else 0;
        if timeSinceOpen < breaker.cfg.openTimeoutMs {
          breaker.stats := breaker.stats.(failFast := breaker.stats.failFast + 1);
          var wait := CeilDiv(breaker.cfg.openTimeoutMs - timeSinceOpen, 1000);
          return Some(if wait < 1 then 1 else wait);
        } else {
          breaker.TransitionTo(HalfOpen, now);
        }
      }
      requests := requests[id := Request(isGet, false, 1)];
      return None;
    }

    /** The one retry of a GET, straight through the proxy instance. */
    method RetryOnce(id: nat) returns (retried: bool)
      requires id in requests
      modifies this`requests
      ensures retried <==> old(requests[id].isGet && !requests[id].retried)
      ensures requests == if retried
        then old(requests)[id := Request(true, true, old(requests[id].attempts) + 1)] else old(requests)
    {
      var request := requests[id];
      if request.isGet && !request.retried {
        requests := requests[id := request.(retried := true, attempts := request.attempts + 1)];
        return true;
      }
      return false;
    }

    /** The `proxyRes` handler: a GET that was answered 503 is sent again, once. */
    method OnProxyRes(id: nat, statusCode: int) returns (retried: bool)
      requires id in requests
      modifies this`requests
      ensures retried <==> statusCode == 503 && old(requests[id].isGet && !requests[id].retried)
      ensures requests == if retried
        then old(requests)[id := Request(true, true, old(requests[id].attempts) + 1)] else old(requests)
    {
      if statusCode == 503 {
        retried := RetryOnce(id);
      } else {
        retried := false;
      }
    }

    /** The `error` handler: `code` is the error's, and four of them are worth a retry. */
    method OnError(now: int, id: nat, code: string, reason: string) returns (retried: bool)
      requires id in requests
      requires breaker.Valid()
      modifies this`requests, breaker
      ensures breaker.Valid()
      ensures breaker.Value()
           == NextBreaker(breaker.cfg, old(breaker.Value()), ProxyError(now, id, code in RETRYABLE_ERRORS))
      ensures breaker.lastFailureReason == Some(reason)
      ensures retried <==>
        && (code == "ECONNRESET" || code == "ECONNREFUSED" || code == "ETIMEDOUT" || code == "ESOCKETTIMEDOUT")
        && old(requests[id].isGet && !requests[id].retried)
      ensures requests == if retried
        then old(requests)[id := Request(true, true, old(requests[id].attempts) + 1)] else old(requests)
    {
      breaker.stats := breaker.stats.(failed := breaker.stats.failed + 1);
      breaker.lastFailureReason := Some(reason);
      if breaker.state == HalfOpen {
        breaker.TransitionTo(Open, now);
      } else if breaker.state == Closed {
        breaker.consecutiveFailures := breaker.consecutiveFailures + 1;
        if breaker.consecutiveFailures >= breaker.cfg.failureThreshold {
          breaker.TransitionTo(Open, now);
        }
      }
      if code in RETRYABLE_ERRORS {
        retried := RetryOnce(id);
      } else {
        retried := false;
      }
    }

    /** The `finish` handler. */
    method OnFinish(now: int, id: nat, statusCode: int)
      requires breaker.Valid()
      modifies breaker
      ensures breaker.Valid()
      ensures breaker.Value() == NextBreaker(breaker.cfg, old(breaker.Value()), ProxyFinish(now, id, statusCode))
      ensures breaker.lastFailureReason == old(breaker.lastFailureReason)
    {
      if statusCode >= 200 && statusCode < 500 {
        breaker.stats := breaker.stats.(successful := breaker.stats.successful + 1);
        if breaker.state == HalfOpen {
          breaker.halfOpenSuccessCount := breaker.halfOpenSuccessCount + 1;
          if breaker.halfOpenSuccessCount >= breaker.cfg.successThreshold {
            breaker.stats := breaker.stats.(recoveries := breaker.stats.recoveries + 1);
            breaker.TransitionTo(Closed, now);
          }
        } else if breaker.state == Closed {
          breaker.consecutiveFailures := 0;
        }
      }
    }
  }
}
