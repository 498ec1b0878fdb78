/**
 The API client's answer to failed requests: GET requests are retried, and a 401
 starts one token refresh behind which all other 401s queue.

 `Step` interleaves any number of requests.  A queued request waits on a promise,
 named by its ticket; `settled` lists the promises settled so far, in order.
 */
module TokenRefresh {
  import opened Wrappers

  type Token = nat

  /** A failed request's error; status 0 when there was no response. */
  datatype Failure = Failure(status: nat, code: string, message: string)

  datatype Phase = InFlight | Backoff(delay: nat) | Refreshing | Queued(ticket: nat) | Succeeded | Rejected

  /** `sends`, `retries` and `wakes` count what has happened to the request so far. */
  datatype Request = Request(
    get: bool, url: string, retryCount: nat, authRetried: bool, header: Option<Token>, phase: Phase,
    sends: nat, retries: nat, wakes: nat)

  /** A refresh, or a wait for it, ends with a token or with an error. */
  type Outcome = Option<Token>

  datatype Settlement = Settlement(ticket: nat, outcome: Outcome)

  /**
   The client's variables, and their history: `token` is the one in memory, `common` the
   one in the default headers, `outcomes` are those of the refreshes so far,
   `tickets[t]` the number of the refresh that ticket was queued under, how often the
   expiry event was dispatched, and how often the flag was taken down again.
   */
  datatype Auth = Auth(
    isRefreshing: bool, failedQueue: seq<nat>, expired: bool, token: Option<Token>, common: Option<Token>,
    settled: seq<Settlement>, dispatched: nat, outcomes: seq<Outcome>, tickets: seq<nat>, rearmed: nat)

  datatype World = World(auth: Auth, requests: map<nat, Request>)

  const MAX_RETRIES := 2

  /** 500 ms before the first retry, doubling. */
  function RetryDelay(retry: nat): nat
    requires retry >= 1
  {
    if retry == 1 then 500 else 2 * RetryDelay(retry - 1)
  }

  /** JavaScript's `includes`. */
  predicate Contains(s: string, part: string) {
    part <= s || (s != "" && Contains(s[1..], part))
  }

  predicate IsNetworkError(e: Failure) {
    || e.status == 0 || e.code == "ECONNABORTED" || e.code == "ETIMEDOUT"
    || Contains(e.message, "Network Error") || Contains(e.message, "timeout")
  }

  predicate Retryable(e: Failure) {
    IsNetworkError(e) || 500 <= e.status <= 599
  }

  predicate IsLoginOrSignup(url: string) {
    Contains(url, "/auth/login") || Contains(url, "/auth/signup")
  }

  predicate IsRefresh(url: string) {
    Contains(url, "/auth/refresh")
  }

  /** The memory token is forgotten, and the expiry event dispatched unless it stands already. */
  function Expire(a: Auth): Auth {
    a.(token := None, expired := true, dispatched := a.dispatched + if a.expired then 0 else 1)
  }

  function Rearm(a: Auth): Auth {
    a.(expired := false, rearmed := a.rearmed + if a.expired then 1 else 0)
  }

  function Or(a: Option<Token>, b: Option<Token>): Option<Token> {
    if a.Some? then a else b
  }

  /** Sends a request again: the memory token overrides its header, and the default fills in for none. */
  function Resend(a: Auth, r: Request, header: Option<Token>): Request {
    r.(phase := InFlight, sends := r.sends + 1, header := Or(a.token, Or(header, a.common)))
  }

  function OnError(a: Auth, r: Request, e: Failure): (Auth, Request) {
    var count := if r.get && Retryable(e) then r.retryCount + 1 else r.retryCount;
    var r' := r.(retryCount := count);
    if r.get && Retryable(e) && count <= MAX_RETRIES then
      (a, r'.(retries := r.retries + 1, phase := Backoff(RetryDelay(count))))
    else if IsLoginOrSignup(r.url) then (a, r'.(phase := Rejected))
    else if IsRefresh(r.url) then (if e.status == 401 then Expire(a) else a, r'.(phase := Rejected))
    else if e.status != 401 || a.expired || r.authRetried then (a, r'.(phase := Rejected))
    else if a.isRefreshing then
      var t := |a.tickets|;
      (a.(failedQueue := a.failedQueue + [t], tickets := a.tickets + [|a.outcomes|]), r'.(phase := Queued(t)))
    else (a.(isRefreshing := true), r'.(authRetried := true, phase := Refreshing))
  }

  function SettleAll(tickets: seq<nat>, outcome: Outcome): (s: seq<Settlement>)
    ensures |s| == |tickets| && forall i :: 0 <= i < |s| ==> s[i] == Settlement(tickets[i], outcome)
  {
    if tickets == [] then []
    else SettleAll(tickets[..|tickets| - 1], outcome) + [Settlement(tickets[|tickets| - 1], outcome)]
  }

  /** The refresh ends: every waiter is told, then a failure expires the session. */
  function Settle(a: Auth, outcome: Outcome): Auth {
    var told := (if outcome.Some? then Rearm(a.(token := outcome, common := outcome)) else a).(
      settled := a.settled + SettleAll(a.failedQueue, outcome), failedQueue := [],
      outcomes := a.outcomes + [outcome], isRefreshing := false);
    if outcome.Some? then told else Expire(told)
  }

  /** A request continues with a token, or fails. */
  function Continue(a: Auth, r: Request, outcome: Outcome): Request {
    if outcome.Some? then Resend(a, r, outcome) else r.(phase := Rejected)
  }

  /** What a promise was settled with: the first settlement is the one that counts. */
  function Result(settled: seq<Settlement>, ticket: nat): Option<Outcome> {
    if settled == [] then None
    else if settled[0].ticket == ticket then Some(settled[0].outcome)
    else Result(settled[1..], ticket)
  }

  datatype Event =
    | Send(request: nat, get: bool, url: string)
    | Succeed(request: nat)
    | Fail(request: nat, failure: Failure)
    | Timer(request: nat)
    | RefreshEnds(request: nat, outcome: Outcome)
    | Resume(request: nat)
    | ResetExpired
    | SetToken(token: Option<Token>, common: Option<Token>)

  /** One event of one request. */
  function StepRequest(a: Auth, r: Request, e: Event): (Auth, Request) {
    match (e, r.phase)
    case (Succeed(_), InFlight) => (a, r.(phase := Succeeded))
    case (Fail(_, failure), InFlight) => OnError(a, r, failure)
    case (Timer(_), Backoff(_)) => (a, Resend(a, r, r.header))
    case (RefreshEnds(_, outcome), Refreshing) => (Settle(a, outcome), Continue(Settle(a, outcome), r, outcome))
    case (Resume(_), Queued(t)) =>
      (match Result(a.settled, t)
       case None => (a, r)
       case Some(outcome) => (a, Continue(a, r.(wakes := r.wakes + 1), outcome)))
    case _ => (a, r)
  }

  function Step(w: World, e: Event): World {
    match e
    case Send(id, get, url) =>
      if id in w.requests then w
      else
        var header := Or(w.auth.token, w.auth.common);
        w.(requests := w.requests[id := Request(get, url, 0, false, header, InFlight, 1, 0, 0)])
    case ResetExpired => w.(auth := Rearm(w.auth))
    case SetToken(token, common) => w.(auth := w.auth.(token := token, common := common))
    case _ =>
      if e.request !in w.requests then w
      else
        var (auth, r) := StepRequest(w.auth, w.requests[e.request], e);
        World(auth, w.requests[e.request := r])
  }

  const START := World(Auth(false, [], false, None, None, [], 0, [], [], 0), map[])

  function Run(es: seq<Event>): World
    decreases |es|
  {
    if es == [] then START else Step(Run(es[..|es| - 1]), es[|es| - 1])
  }

  // ---------------------------------------------------------------- invariants

  /** The queue is the unsettled tickets in order, all of the current refresh; the others got theirs. */
  ghost predicate QueueOk(a: Auth) {
    && |a.settled| + |a.failedQueue| == |a.tickets|
    && (forall i :: 0 <= i < |a.failedQueue| ==> a.failedQueue[i] == |a.settled| + i)
    && (forall t :: |a.settled| <= t < |a.tickets| ==> a.tickets[t] == |a.outcomes|)
    && (forall t :: 0 <= t < |a.settled| ==>
          a.tickets[t] < |a.outcomes| && a.settled[t] == Settlement(t, a.outcomes[a.tickets[t]]))
    && (!a.isRefreshing ==> a.failedQueue == [])
  }

  ghost predicate ExpiryOk(a: Auth) {
    a.dispatched == a.rearmed + if a.expired then 1 else 0
  }

  /** Once at first, once for each retry that has begun, wait that has ended, and refresh of its own. */
  function Due(r: Request): int {
    1 + r.retries - (if r.phase.Backoff? then 1 else 0)
    + r.wakes + (if r.authRetried && !r.phase.Refreshing? then 1 else 0)
  }

  /** What one request has cost. */
  ghost predicate RequestOk(a: Auth, r: Request) {
    && r.retries == (if r.retryCount <= MAX_RETRIES then r.retryCount else MAX_RETRIES)
    && (if r.phase.Rejected? then Due(r) - 1 <= r.sends <= Due(r) else r.sends == Due(r))
    && (r.phase.Refreshing? ==> a.isRefreshing && r.authRetried)
    && (r.phase.Queued? ==> r.phase.ticket < |a.tickets|)
  }

  ghost predicate OneRefresh(requests: map<nat, Request>) {
    forall i, j | i in requests && j in requests ::
      requests[i].phase.Refreshing? && requests[j].phase.Refreshing? ==> i == j
  }

  /** The flag is up exactly while some request is refreshing, and that is one request. */
  ghost predicate RefreshOk(isRefreshing: bool, requests: map<nat, Request>) {
    OneRefresh(requests) && (isRefreshing ==> exists id :: id in requests && requests[id].phase.Refreshing?)
  }

  ghost predicate Inv(w: World) {
    && QueueOk(w.auth) && ExpiryOk(w.auth)
    && (forall id :: id in w.requests ==> RequestOk(w.auth, w.requests[id]))
    && RefreshOk(w.auth.isRefreshing, w.requests)
  }

  lemma EnqueueKeepsQueue(a: Auth)
    requires QueueOk(a) && a.isRefreshing
    ensures QueueOk(a.(failedQueue := a.failedQueue + [|a.tickets|], tickets := a.tickets + [|a.outcomes|]))
  {
  }

  lemma ErrorKeepsAuth(a: Auth, r: Request, e: Failure)
    requires QueueOk(a) && ExpiryOk(a)
    ensures var (a', r') := OnError(a, r, e); QueueOk(a') && ExpiryOk(a')
  {
    if a.isRefreshing {
      EnqueueKeepsQueue(a);
    }
  }

  lemma SettleKeepsAuth(a: Auth, outcome: Outcome)
    requires QueueOk(a) && ExpiryOk(a)
    ensures QueueOk(Settle(a, outcome)) && ExpiryOk(Settle(a, outcome))
  {
    var a' := Settle(a, outcome);
    forall t | 0 <= t < |a'.settled|
      ensures a'.tickets[t] < |a'.outcomes| && a'.settled[t] == Settlement(t, a'.outcomes[a'.tickets[t]])
    {
      if t >= |a.settled| {
        assert a'.settled[t] == SettleAll(a.failedQueue, outcome)[t - |a.settled|];
        assert a.tickets[t] == |a.outcomes|;
      }
    }
  }

  /** How the shared flag follows a step of one request: up when it starts a refresh, down when it ends it. */
  ghost predicate Handover(a: Auth, r: Request, a': Auth, r': Request) {
    && |a.tickets| <= |a'.tickets|
    && (r.phase.Refreshing? == r'.phase.Refreshing? ==> a'.isRefreshing == a.isRefreshing)
    && (r.phase.Refreshing? && !r'.phase.Refreshing? ==> !a'.isRefreshing)
    && (!r.phase.Refreshing? && r'.phase.Refreshing? ==> a'.isRefreshing && !a.isRefreshing)
  }

  lemma ErrorKeepsRequest(a: Auth, r: Request, e: Failure)
    requires RequestOk(a, r) && r.phase.InFlight?
    ensures var (a', r') := OnError(a, r, e); RequestOk(a', r') && Handover(a, r, a', r')
  {
  }

  lemma SettleKeepsRequest(a: Auth, r: Request, outcome: Outcome)
    requires RequestOk(a, r) && r.phase.Refreshing?
    ensures var (a', r') := (Settle(a, outcome), Continue(Settle(a, outcome), r, outcome));
            RequestOk(a', r') && Handover(a, r, a', r')
  {
  }

  lemma OtherStepKeepsRequest(a: Auth, r: Request, e: Event)
    requires RequestOk(a, r) && (e.Succeed? || e.Timer? || e.Resume?)
    ensures var (a', r') := StepRequest(a, r, e); a' == a && RequestOk(a, r') && Handover(a, r, a, r')
  {
  }

  /** What a step of one request does to the shared variables and to itself. */
  lemma StepRequestOk(a: Auth, r: Request, e: Event)
    requires QueueOk(a) && ExpiryOk(a) && RequestOk(a, r) && !e.Send? && !e.ResetExpired? && !e.SetToken?
    ensures var (a', r') := StepRequest(a, r, e);
            QueueOk(a') && ExpiryOk(a') && RequestOk(a', r') && Handover(a, r, a', r')
  {
    match e
    case Fail(_, failure) =>
      if r.phase.InFlight? {
        ErrorKeepsAuth(a, r, failure);
        ErrorKeepsRequest(a, r, failure);
      }
    case RefreshEnds(_, outcome) =>
      if r.phase.Refreshing? {
        SettleKeepsAuth(a, outcome);
        SettleKeepsRequest(a, r, outcome);
      }
    case _ => OtherStepKeepsRequest(a, r, e);
  }

  lemma HandoverKeepsRefresh(w: World, id: nat, a': Auth, r': Request)
    requires Inv(w) && id in w.requests && Handover(w.auth, w.requests[id], a', r')
    ensures RefreshOk(a'.isRefreshing, w.requests[id := r'])
  {
    var next := w.requests[id := r'];
    assert RequestOk(w.auth, w.requests[id]);
    if a'.isRefreshing && !r'.phase.Refreshing? {
      var owner :| owner in w.requests && w.requests[owner].phase.Refreshing?;
      assert next[owner] == w.requests[owner];
    }
    forall d | d in w.requests && d != id ensures !(w.requests[d].phase.Refreshing? && r'.phase.Refreshing?) {
      assert RequestOk(w.auth, w.requests[d]);
    }
    assert r'.phase.Refreshing? ==> next[id].phase.Refreshing?;
  }

  lemma HandoverKeepsOther(w: World, id: nat, a': Auth, r': Request, d: nat)
    requires Inv(w) && id in w.requests && Handover(w.auth, w.requests[id], a', r')
    requires d in w.requests && d != id
    ensures RequestOk(a', w.requests[d])
  {
    assert RequestOk(w.auth, w.requests[d]);
  }

  lemma RequestStepKeepsInv(w: World, e: Event)
    requires Inv(w) && !e.Send? && !e.ResetExpired? && !e.SetToken? && e.request in w.requests
    ensures Inv(Step(w, e))
  {
    var id := e.request;
    assert RequestOk(w.auth, w.requests[id]);
    StepRequestOk(w.auth, w.requests[id], e);
    var (a', r') := StepRequest(w.auth, w.requests[id], e);
    HandoverKeepsRefresh(w, id, a', r');
    forall d | d in w.requests && d != id ensures RequestOk(a', w.requests[d]) {
      HandoverKeepsOther(w, id, a', r', d);
    }
  }

  lemma SendKeepsInv(w: World, id: nat, get: bool, url: string)
    requires Inv(w)
    ensures Inv(Step(w, Send(id, get, url)))
  {
    var next := Step(w, Send(id, get, url));
    if id !in w.requests {
      forall d | d in w.requests ensures next.requests[d] == w.requests[d] && RequestOk(w.auth, w.requests[d]) {
      }
      if w.auth.isRefreshing {
        var owner :| owner in w.requests && w.requests[owner].phase.Refreshing?;
        assert next.requests[owner].phase.Refreshing?;
      }
    }
  }

  lemma StepKeepsInv(w: World, e: Event)
    requires Inv(w)
    ensures Inv(Step(w, e))
  {
    match e
    case Send(id, get, url) => SendKeepsInv(w, id, get, url);
    case ResetExpired =>
    case SetToken(_, _) =>
    case _ =>
      if e.request in w.requests {
        RequestStepKeepsInv(w, e);
      }
  }

  lemma {:induction false} RunKeepsInv(es: seq<Event>)
    ensures Inv(Run(es))
    decreases |es|
  {
    if es != [] {
      RunKeepsInv(es[..|es| - 1]);
      StepKeepsInv(Run(es[..|es| - 1]), es[|es| - 1]);
    }
  }

  // ---------------------------------------------------------------- what is promised

  lemma {:induction false} ResultOfTicket(settled: seq<Settlement>, first: nat, ticket: nat)
    requires forall i :: 0 <= i < |settled| ==> settled[i].ticket == first + i
    ensures Result(settled, ticket) ==
            if first <= ticket < first + |settled| then Some(settled[ticket - first].outcome) else None
  {
    if settled != [] {
      ResultOfTicket(settled[1..], first + 1, ticket);
    }
  }

  /**
   In every run: at most one refresh is in flight; nobody queues when none is; and
   the promises settled are tickets 0, 1, 2, ... each once, each with the outcome of
   the very refresh it was queued under, the rest being exactly the queue.
   */
  lemma NoStrandedWaiter(es: seq<Event>)
    ensures var w := Run(es); var a := w.auth;
            && OneRefresh(w.requests)
            && (a.isRefreshing <==> exists id :: id in w.requests && w.requests[id].phase.Refreshing?)
            && (!a.isRefreshing ==> a.failedQueue == [] && |a.settled| == |a.tickets|)
            && |a.settled| + |a.failedQueue| == |a.tickets|
            && (forall i :: 0 <= i < |a.failedQueue| ==> a.failedQueue[i] == |a.settled| + i)
            && (forall t :: 0 <= t < |a.settled| ==>
                  a.tickets[t] < |a.outcomes| && a.settled[t] == Settlement(t, a.outcomes[a.tickets[t]]))
  {
    RunKeepsInv(es);
  }

  lemma ResultInQueueOrder(a: Auth, ticket: nat)
    requires QueueOk(a) && ticket < |a.tickets|
    ensures Result(a.settled, ticket) ==
            if ticket < |a.settled| then Some(a.outcomes[a.tickets[ticket]]) else None
  {
    ResultOfTicket(a.settled, 0, ticket);
  }

  lemma SettleTells(a: Auth, outcome: Outcome, ticket: nat)
    requires QueueOk(a) && ExpiryOk(a) && ticket < |a.tickets|
    ensures Result(Settle(a, outcome).settled, ticket) ==
            if Result(a.settled, ticket).Some? then Result(a.settled, ticket) else Some(outcome)
  {
    SettleKeepsAuth(a, outcome);
    ResultInQueueOrder(a, ticket);
    ResultInQueueOrder(Settle(a, outcome), ticket);
  }

  /** When the refresh ends, every waiter has its outcome: the new one, or the one it already had. */
  lemma EveryWaiterIsTold(es: seq<Event>, owner: nat, outcome: Outcome, id: nat)
    requires owner in Run(es).requests && Run(es).requests[owner].phase.Refreshing?
    requires id in Run(es).requests && Run(es).requests[id].phase.Queued?
    ensures var before, after := Run(es).auth, Step(Run(es), RefreshEnds(owner, outcome)).auth;
            var ticket := Run(es).requests[id].phase.ticket;
            Result(after.settled, ticket) ==
              if Result(before.settled, ticket).Some? then Result(before.settled, ticket) else Some(outcome)
  {
    var w := Run(es);
    RunKeepsInv(es);
    assert RequestOk(w.auth, w.requests[id]);
    SettleTells(w.auth, outcome, w.requests[id].phase.ticket);
  }

  /** The expiry event is dispatched again only after the flag was taken down. */
  lemma {:induction false} ExpiryDispatchedOncePerRearm(es: seq<Event>)
    ensures var a := Run(es).auth; a.dispatched == a.rearmed + if a.expired then 1 else 0
  {
    RunKeepsInv(es);
  }

  /**
   The exact account.  A request has been sent once at first, once for each retry that has
   begun, once for each wait in the queue that has ended, and once for a refresh of its own;
   a rejected one at most once less, for the wait or the refresh that failed it.
   */
  lemma SendsExact(es: seq<Event>, id: nat)
    requires id in Run(es).requests
    ensures var r := Run(es).requests[id];
            && (!r.phase.Rejected? ==> r.sends == Due(r))
            && (r.phase.Rejected? ==> Due(r) - 1 <= r.sends <= Due(r))
            && r.retries == (if r.retryCount <= MAX_RETRIES then r.retryCount else MAX_RETRIES)
  {
    RunKeepsInv(es);
    assert RequestOk(Run(es).auth, Run(es).requests[id]);
  }

  /** At most two retries and one refresh, so a request that never queued is sent at most four times. */
  lemma SendsBound(es: seq<Event>, id: nat)
    requires id in Run(es).requests
    ensures Run(es).requests[id].retries <= 2
    ensures Run(es).requests[id].sends <= 4 + Run(es).requests[id].wakes
  {
    SendsExact(es, id);
  }

  const UNAUTHORIZED := Failure(401, "", "")

  /** A quiet client, with request 0 in flight and not marked as retried. */
  ghost predicate Waiting(w: World, n: nat) {
    && !w.auth.isRefreshing && !w.auth.expired && QueueOk(w.auth) && ExpiryOk(w.auth)
    && 0 in w.requests && w.requests[0].phase.InFlight? && !w.requests[0].authRetried
    && !w.requests[0].get && w.requests[0].url == "" && w.requests[0].sends == n + 1
    && (forall id :: id in w.requests ==> id <= n)
  }

  /** Another request's 401 starts a refresh, and request 0 queues behind it. */
  function Behind(w: World, n: nat): World {
    Step(Step(Step(w, Send(n + 1, false, "")), Fail(n + 1, UNAUTHORIZED)), Fail(0, UNAUTHORIZED))
  }

  lemma QueuesBehind(w: World, n: nat)
    requires Waiting(w, n)
    ensures var next := Behind(w, n);
            && next.auth == w.auth.(isRefreshing := true, failedQueue := [|w.auth.tickets|],
                                    tickets := w.auth.tickets + [|w.auth.outcomes|])
            && n + 1 in next.requests && next.requests[n + 1].phase.Refreshing?
            && next.requests.Keys == w.requests.Keys + {n + 1}
            && next.requests[0] == w.requests[0].(phase := Queued(|w.auth.tickets|))
  {
  }

  /** The refresh ends, and request 0 is sent again. */
  lemma RoundRequeues(w: World, n: nat)
    requires Waiting(w, n)
    ensures Waiting(Step(Step(Behind(w, n), RefreshEnds(n + 1, Some(n))), Resume(0)), n + 1)
  {
    QueuesBehind(w, n);
    var behind := Behind(w, n);
    var t := |w.auth.tickets|;
    var a := Settle(behind.auth, Some(n));
    SettleQueued(w, n, behind.auth);
    var settled := Step(behind, RefreshEnds(n + 1, Some(n)));
    assert settled.auth == a && settled.requests[0] == behind.requests[0];
    assert settled.requests.Keys == behind.requests.Keys;
    assert Step(settled, Resume(0)).auth == a;
  }

  lemma SettleQueued(w: World, n: nat, queued: Auth)
    requires Waiting(w, n)
    requires queued == w.auth.(isRefreshing := true, failedQueue := [|w.auth.tickets|],
                               tickets := w.auth.tickets + [|w.auth.outcomes|])
    ensures var a := Settle(queued, Some(n));
            && QueueOk(a) && ExpiryOk(a) && !a.isRefreshing && !a.expired
            && Result(a.settled, |w.auth.tickets|) == Some(Some(n))
  {
    assert QueueOk(queued);
    SettleKeepsAuth(queued, Some(n));
    ResultInQueueOrder(Settle(queued, Some(n)), |w.auth.tickets|);
  }

  lemma RunOne(es: seq<Event>, e: Event)
    ensures Run(es + [e]) == Step(Run(es), e)
  {
    assert (es + [e])[..|es|] == es;
  }

  /** A queued request is not marked as retried, so nothing bounds how often it is sent. */
  lemma {:induction false} QueuedSendsUnbounded(n: nat) returns (es: seq<Event>)
    ensures Waiting(Run(es), n)
    ensures 0 in Run(es).requests && Run(es).requests[0].sends == n + 1
  {
    if n == 0 {
      RunOne([], Send(0, false, ""));
      es := [] + [Send(0, false, "")];
    } else {
      es := QueuedSendsUnbounded(n - 1);
      RoundRequeues(Run(es), n - 1);
      RunOne(es, Send(n, false, ""));
      es := es + [Send(n, false, "")];
      RunOne(es, Fail(n, UNAUTHORIZED));
      es := es + [Fail(n, UNAUTHORIZED)];
      RunOne(es, Fail(0, UNAUTHORIZED));
      es := es + [Fail(0, UNAUTHORIZED)];
      RunOne(es, RefreshEnds(n, Some(n - 1)));
      es := es + [RefreshEnds(n, Some(n - 1))];
      RunOne(es, Resume(0));
      es := es + [Resume(0)];
    }
  }

  // ---------------------------------------------------------------- which token a request carries

  /**
   Whatever sends a request, for the first time or again, it carries the memory token if there
   is one.
   */
  lemma SentWithMemoryToken(w: World, e: Event, id: nat)
    requires id in Step(w, e).requests && Step(w, e).auth.token.Some?
    requires id in w.requests ==> Step(w, e).requests[id].sends > w.requests[id].sends
    ensures Step(w, e).requests[id].phase == InFlight
    ensures Step(w, e).requests[id].header == Step(w, e).auth.token
  {
  }

  /** Without one it carries the default token, if any; a request that is answered has succeeded. */
  lemma SentAndAnswered(es: seq<Event>, id: nat, get: bool, url: string)
    requires id !in Run(es).requests
    ensures var w, sent := Run(es), Run(es + [Send(id, get, url)]);
            var done := Run(es + [Send(id, get, url)] + [Succeed(id)]);
            && sent.auth == done.auth == w.auth && id in sent.requests && id in done.requests
            && sent.requests[id].phase == InFlight && done.requests[id].phase == Succeeded
            && sent.requests[id].sends == done.requests[id].sends == 1
            && sent.requests[id].get == get && sent.requests[id].url == url
            && sent.requests[id].retryCount == 0 && !sent.requests[id].authRetried
            && sent.requests[id].header == if w.auth.token.Some? then w.auth.token else w.auth.common
  {
    RunOne(es, Send(id, get, url));
    RunOne(es + [Send(id, get, url)], Succeed(id));
  }

  /** A refresh that brings a token: it is everybody's now, and the request that asked for it is sent with it. */
  lemma RefreshedIsResent(es: seq<Event>, owner: nat, token: Token)
    requires owner in Run(es).requests && Run(es).requests[owner].phase == Refreshing
    ensures var w, next := Run(es), Run(es + [RefreshEnds(owner, Some(token))]);
            && next.auth.token == next.auth.common == Some(token) && !next.auth.expired && !next.auth.isRefreshing
            && owner in next.requests && next.requests[owner].phase == InFlight
            && next.requests[owner].header == Some(token) && next.requests[owner].authRetried
            && next.requests[owner].sends == w.requests[owner].sends + 1
  {
    RunOne(es, RefreshEnds(owner, Some(token)));
    RunKeepsInv(es);
    assert RequestOk(Run(es).auth, Run(es).requests[owner]);
  }

  /** One that brings none: the session is over, and the request that asked for it is rejected. */
  lemma FailedRefreshExpires(es: seq<Event>, owner: nat)
    requires owner in Run(es).requests && Run(es).requests[owner].phase == Refreshing
    ensures var w, next := Run(es), Run(es + [RefreshEnds(owner, None)]);
            && next.auth.token.None? && next.auth.expired && !next.auth.isRefreshing
            && next.auth.common == w.auth.common
            && next.auth.dispatched == w.auth.dispatched + (if w.auth.expired then 0 else 1)
            && owner in next.requests && next.requests[owner].phase == Rejected
            && next.requests[owner].sends == w.requests[owner].sends
  {
    RunOne(es, RefreshEnds(owner, None));
  }

  /**
   How a wait in the queue ends, in any run: not before the refresh it is behind; then with the
   request sent again, with the memory token or else the one that refresh brought; or with the
   request rejected, if it brought none.
   */
  lemma WaiterEnds(es: seq<Event>, id: nat)
    requires id in Run(es).requests && Run(es).requests[id].phase.Queued?
    ensures var w, r := Run(es), Run(es).requests[id];
            var next := Run(es + [Resume(id)]);
            && next.auth == w.auth && id in next.requests && r.phase.ticket < |w.auth.tickets|
            && var refresh := w.auth.tickets[r.phase.ticket];
               if refresh >= |w.auth.outcomes| then next.requests[id] == r
               else match w.auth.outcomes[refresh]
                    case Some(token) =>
                      && next.requests[id].phase == InFlight && next.requests[id].sends == r.sends + 1
                      && next.requests[id].header == (if w.auth.token.Some? then w.auth.token else Some(token))
                    case None => next.requests[id].phase == Rejected && next.requests[id].sends == r.sends
  {
    var w, r := Run(es), Run(es).requests[id];
    RunOne(es, Resume(id));
    RunKeepsInv(es);
    assert RequestOk(w.auth, r);
    ResultInQueueOrder(w.auth, r.phase.ticket);
  }

  /** When its delay is over, a request is sent again with the memory token, or else as it was. */
  lemma RetryIsSent(es: seq<Event>, id: nat)
    requires id in Run(es).requests && Run(es).requests[id].phase.Backoff?
    ensures var w, r := Run(es), Run(es).requests[id];
            var next := Run(es + [Timer(id)]);
            && next.auth == w.auth && id in next.requests && next.requests[id].phase == InFlight
            && next.requests[id].sends == r.sends + 1
            && next.requests[id].header == (if w.auth.token.Some? then w.auth.token
                                            else if r.header.Some? then r.header else w.auth.common)
  {
    RunOne(es, Timer(id));
  }

  // ---------------------------------------------------------------- what becomes of a failed request

  predicate OccursAt(s: string, part: string, i: int) {
    0 <= i <= |s| - |part| && s[i..i + |part|] == part
  }

  /** `part` occurs in `s`. */
  ghost predicate Occurs(s: string, part: string) {
    exists i :: OccursAt(s, part, i)
  }

  lemma OccursInTail(s: string, part: string, i: int)
    requires s != ""
    ensures OccursAt(s[1..], part, i) <==> i >= 0 && OccursAt(s, part, i + 1)
  {
    if 0 <= i <= |s| - 1 - |part| {
      assert s[1..][i..i + |part|] == s[i + 1..i + 1 + |part|];
    }
  }

  lemma {:induction false} ContainsIff(s: string, part: string)
    ensures Contains(s, part) <==> Occurs(s, part)
  {
    if part <= s {
      assert OccursAt(s, part, 0);
    } else if s != "" {
      ContainsIff(s[1..], part);
      if i :| OccursAt(s[1..], part, i) {
        OccursInTail(s, part, i);
        assert OccursAt(s, part, i + 1);
      }
      if i :| OccursAt(s, part, i) {
        OccursInTail(s, part, i - 1);
      }
    }
  }

  /** No answer, a time-out, a network error, or a server error. */
  ghost predicate WorthRetrying(e: Failure) {
    || e.status == 0 || (500 <= e.status && e.status <= 599)
    || e.code == "ECONNABORTED" || e.code == "ETIMEDOUT"
    || Occurs(e.message, "Network Error") || Occurs(e.message, "timeout")
  }

  ghost predicate ToLoginOrSignup(url: string) {
    Occurs(url, "/auth/login") || Occurs(url, "/auth/signup")
  }

  /** Where a failed request goes, first reason first. */
  datatype Fate = Retries(delay: nat) | IsRejected | ExpiresSession | JoinsQueue | StartsRefresh

  ghost function FateOf(a: Auth, r: Request, e: Failure): Fate {
    if r.get && WorthRetrying(e) && r.retryCount == 0 then Retries(500)
    else if r.get && WorthRetrying(e) && r.retryCount == 1 then Retries(1000)
    else if ToLoginOrSignup(r.url) then IsRejected
    else if Occurs(r.url, "/auth/refresh") then if e.status == 401 then ExpiresSession else IsRejected
    else if e.status != 401 || a.expired || r.authRetried then IsRejected
    else if a.isRefreshing then JoinsQueue
    else StartsRefresh
  }

  ghost predicate Meets(a: Auth, r: Request, fate: Fate, a': Auth, r': Request) {
    && r'.sends == r.sends && r'.header == r.header && a'.common == a.common
    && match fate
       case Retries(delay) => r'.phase == Backoff(delay) && r'.retryCount == r.retryCount + 1 && a' == a
       case IsRejected => r'.phase == Rejected && a' == a
       case ExpiresSession =>
         && r'.phase == Rejected && a'.token.None? && a'.expired && a'.isRefreshing == a.isRefreshing
         && a'.failedQueue == a.failedQueue && a'.dispatched == a.dispatched + (if a.expired then 0 else 1)
       case JoinsQueue =>
         && r'.phase == Queued(|a.tickets|) && r'.authRetried == r.authRetried
         && a' == a.(failedQueue := a.failedQueue + [|a.tickets|], tickets := a.tickets + [|a.outcomes|])
       case StartsRefresh => r'.phase == Refreshing && r'.authRetried && a' == a.(isRefreshing := true)
  }

  lemma ErrorMeets(a: Auth, r: Request, e: Failure)
    ensures Meets(a, r, FateOf(a, r, e), OnError(a, r, e).0, OnError(a, r, e).1)
  {
    assert Retryable(e) <==> WorthRetrying(e) by {
      ContainsIff(e.message, "Network Error");
      ContainsIff(e.message, "timeout");
    }
    assert IsLoginOrSignup(r.url) <==> ToLoginOrSignup(r.url) by {
      ContainsIff(r.url, "/auth/login");
      ContainsIff(r.url, "/auth/signup");
    }
    assert IsRefresh(r.url) <==> Occurs(r.url, "/auth/refresh") by {
      ContainsIff(r.url, "/auth/refresh");
    }
    assert RetryDelay(1) == 500 && RetryDelay(2) == 1000;
  }

  /**
   What every failure of every run leads to.  A GET is tried again after half a second and
   once more after a whole one; a first 401 starts the refresh or joins the queue behind it;
   a 401 of the refresh itself ends the session; anything else is rejected.
   */
  lemma FailureMeetsItsFate(es: seq<Event>, id: nat, e: Failure)
    requires id in Run(es).requests && Run(es).requests[id].phase.InFlight?
    ensures var w, next := Run(es), Run(es + [Fail(id, e)]);
            && id in next.requests
            && Meets(w.auth, w.requests[id], FateOf(w.auth, w.requests[id], e), next.auth, next.requests[id])
            && next.requests == w.requests[id := next.requests[id]]
  {
    RunOne(es, Fail(id, e));
    ErrorMeets(Run(es).auth, Run(es).requests[id], e);
  }

  // ---------------------------------------------------------------- as it is written

  class ApiClient {
    var isRefreshing: bool
    var failedQueue: seq<nat>
    var isSessionExpiredActive: bool
    var memoryToken: Option<Token>
    var commonToken: Option<Token>
    var settled: seq<Settlement>
    var dispatched: nat
    ghost var outcomes: seq<Outcome>
    ghost var rearmed: nat
    var issued: nat
    ghost var tickets: seq<nat>

    ghost predicate Valid()
      reads this
    {
      issued == |tickets|
    }

    ghost function Abs(): Auth
      reads this
    {
      Auth(isRefreshing, failedQueue, isSessionExpiredActive, memoryToken, commonToken, settled, dispatched,
           outcomes, tickets, rearmed)
    }

    constructor ()
      ensures Valid() && Abs() == START.auth
    {
      isRefreshing, failedQueue, isSessionExpiredActive, memoryToken, commonToken := false, [], false, None, None;
      settled, dispatched, outcomes, rearmed, issued, tickets := [], 0, [], 0, 0, [];
    }

    /** Settles every queued promise in order and empties the queue. */
    method ProcessQueue(outcome: Outcome)
      modifies this`failedQueue, this`settled
      ensures Abs() == old(Abs()).(settled := old(settled) + SettleAll(old(failedQueue), outcome), failedQueue := [])
    {
      for i := 0 to |failedQueue|
        invariant failedQueue == old(failedQueue)
        invariant settled == old(settled) + SettleAll(failedQueue[..i], outcome)
      {
        settled := settled + [Settlement(failedQueue[i], outcome)];
        assert failedQueue[..i + 1][..i] == failedQueue[..i];
      }
      assert failedQueue[..|failedQueue|] == failedQueue;
      failedQueue := [];
    }

    method ExpireSession()
      modifies this`memoryToken, this`isSessionExpiredActive, this`dispatched
      ensures Abs() == Expire(old(Abs()))
    {
      memoryToken := None;
      if !isSessionExpiredActive {
        isSessionExpiredActive := true;
        dispatched := dispatched + 1;
      }
    }

    method ResetSessionExpiredFlag()
      modifies this`isSessionExpiredActive, this`rearmed
      ensures Abs() == Rearm(old(Abs()))
    {
      rearmed := rearmed + if isSessionExpiredActive then 1 else 0;
      isSessionExpiredActive := false;
    }

    /** The response interceptor, up to its first await. */
    method HandleError(request: Request, e: Failure) returns (r: Request)
      requires Valid()
      modifies this
      ensures Valid() && (Abs(), r) == OnError(old(Abs()), request, e)
    {
      r := request;
      if r.get && Retryable(e) {
        r := r.(retryCount := r.retryCount + 1);
        if r.retryCount <= MAX_RETRIES {
          return r.(retries := r.retries + 1, phase := Backoff(RetryDelay(r.retryCount)));
        }
      }
      if IsLoginOrSignup(r.url) {
        return r.(phase := Rejected);
      }
      if IsRefresh(r.url) {
        if e.status == 401 {
          ExpireSession();
        }
        return r.(phase := Rejected);
      }
      if e.status == 401 && isSessionExpiredActive {
        return r.(phase := Rejected);
      }
      if e.status == 401 && !r.authRetried {
        if isRefreshing {
          failedQueue := failedQueue + [issued];
          tickets := tickets + [|outcomes|];
          issued := issued + 1;
          return r.(phase := Queued(issued - 1));
        }
        isRefreshing := true;
        return r.(authRetried := true, phase := Refreshing);
      }
      return r.(phase := Rejected);
    }

    /** The rest of the interceptor, once the refresh has answered. */
    method FinishRefresh(request: Request, outcome: Outcome) returns (r: Request)
      requires Valid()
      modifies this
      ensures Valid() && Abs() == Settle(old(Abs()), outcome)
      ensures r == Continue(Abs(), request, outcome)
      ensures if outcome.Some? then r.phase == InFlight && r.header == outcome && memoryToken == outcome
              else r.phase == Rejected && memoryToken.None? && isSessionExpiredActive
    {
      if outcome.Some? {
        memoryToken := outcome;
        ResetSessionExpiredFlag();
        commonToken := outcome;
        ProcessQueue(outcome);
        r := request.(phase := InFlight, sends := request.sends + 1, header := outcome);
      } else {
        ProcessQueue(None);
        ExpireSession();
        r := request.(phase := Rejected);
      }
      outcomes := outcomes + [outcome];
      isRefreshing := false;
    }
  }
}
