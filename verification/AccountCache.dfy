/**
 Cache-aside reads of one account: a 30-second balance entry that is filled from a
 5-minute details entry that is filled from the database.  Reads, fills, writes and
 invalidations interleave; the question is how old a returned balance can be.
 Times are in milliseconds.
 */
module AccountCache {
  import opened Wrappers

  const BALANCE_TTL := 30_000
  const DETAILS_TTL := 300_000

  datatype Write = Write(at: int, balance: int)

  /** Where a details read found the account. */
  datatype Origin = Database | DetailsKey

  /**
   A cached balance: when it was read from the database, when and where the request that
   cached it got it, and when its key expires.
   */
  datatype Item = Item(balance: int, asOf: int, readAt: int, origin: Origin, expiry: int)

  datatype Request =
    | AskBalance                                       // about to read the balance key
    | AskDetails(forBalance: bool)                     // about to read the details key
    | ReadDb(forBalance: bool)                         // about to read the database
    | FillDetails(forBalance: bool, balance: int, asOf: int)
    | FillBalance(balance: int, asOf: int, readAt: int, origin: Origin)
    | Returned(forBalance: bool, balance: int, asOf: int, readAt: int, origin: Origin, at: int)
    | Denied

  datatype World = World(
    now: int,
    writes: seq<Write>,
    balance: Option<Item>,
    details: Option<Item>,
    requests: map<nat, Request>)

  /** `cacheUp` is false when Redis fails the command: a read misses, a write is lost. */
  datatype Event =
    | Ask(request: nat, forBalance: bool)
    | Advance(request: nat, allowed: bool, cacheUp: bool)
    | Store(balance: int)
    | Invalidate
    | Tick(elapsed: nat)

  function Stored(w: World): int
    requires w.writes != []
  {
    w.writes[|w.writes| - 1].balance
  }

  function Live(item: Option<Item>, now: int, cacheUp: bool): Option<Item> {
    if cacheUp && item.Some? && now < item.value.expiry then item else None
  }

  /** Where a request goes once `getAccountDetails` has an account for it. */
  function Deliver(w: World, forBalance: bool, balance: int, asOf: int, origin: Origin): Request {
    if forBalance then FillBalance(balance, asOf, w.now, origin)
    else Returned(false, balance, asOf, w.now, origin, w.now)
  }

  function Respond(w: World, id: nat, r: Request): World {
    w.(requests := w.requests[id := r])
  }

  /** The next await of one request. `allowed` is the ownership check. */
  function AdvanceRequest(w: World, id: nat, allowed: bool, cacheUp: bool): World
    requires id in w.requests && w.writes != []
  {
    match w.requests[id]
    case AskBalance =>
      var hit := Live(w.balance, w.now, cacheUp);
      if hit.None? then Respond(w, id, AskDetails(true))
      else
        var Item(balance, asOf, readAt, origin, _) := hit.value;
        Respond(w, id, if allowed then Returned(true, balance, asOf, readAt, origin, w.now) else Denied)
    case AskDetails(forBalance) =>
      var hit := Live(w.details, w.now, cacheUp);
      if hit.None? then Respond(w, id, ReadDb(forBalance))
      else
        var found := Deliver(w, forBalance, hit.value.balance, hit.value.asOf, DetailsKey);
        Respond(w, id, if allowed then found else Denied)
    case ReadDb(forBalance) =>
      Respond(w, id, if allowed then FillDetails(forBalance, Stored(w), w.now) else Denied)
    case FillDetails(forBalance, balance, asOf) =>
      Respond(if cacheUp then w.(details := Some(DetailsItem(balance, asOf, w.now))) else w, id,
              Deliver(w, forBalance, balance, asOf, Database))
    case FillBalance(balance, asOf, readAt, origin) =>
      Respond(if cacheUp then w.(balance := Some(BalanceItem(balance, asOf, readAt, origin, w.now))) else w, id,
              Returned(true, balance, asOf, readAt, origin, w.now))
    case Returned(_, _, _, _, _, _) => w
    case Denied => w
  }

  function DetailsItem(balance: int, asOf: int, now: int): Item {
    Item(balance, asOf, asOf, Database, now + DETAILS_TTL)
  }

  function BalanceItem(balance: int, asOf: int, readAt: int, origin: Origin, now: int): Item {
    Item(balance, asOf, readAt, origin, now + BALANCE_TTL)
  }

  function Step(w: World, e: Event): World
    requires w.writes != []
  {
    match e
    case Ask(id, forBalance) =>
      if id in w.requests then w else Respond(w, id, if forBalance then AskBalance else AskDetails(false))
    case Advance(id, allowed, cacheUp) => if id in w.requests then AdvanceRequest(w, id, allowed, cacheUp) else w
    case Store(balance) => w.(writes := w.writes + [Write(w.now, balance)])
    case Invalidate => w.(balance := None, details := None)
    case Tick(elapsed) => w.(now := w.now + elapsed)
  }

  function Run(w: World, es: seq<Event>): (r: World)
    requires w.writes != []
    ensures r.writes != []
    decreases |es|
  {
    if es == [] then w else Step(Run(w, es[..|es| - 1]), es[|es| - 1])
  }

  predicate Initial(w: World) {
    w.writes != [] && w.balance.None? && w.details.None? && w.requests == map[]
    && forall i :: 0 <= i < |w.writes| ==> w.writes[i].at <= w.now
  }

  /** `balance` was the stored balance at some moment of instant `at`. */
  ghost predicate StoredAt(writes: seq<Write>, at: int, balance: int) {
    exists i :: 0 <= i < |writes| && writes[i].balance == balance && writes[i].at <= at
      && (i + 1 < |writes| ==> at <= writes[i + 1].at)
  }

  /** Fills come at most `d1` (details) and `d2` (balance) after the reads they store. */
  predicate PromptStep(w: World, e: Event, d1: nat, d2: nat) {
    e.Advance? && e.request in w.requests ==>
      match w.requests[e.request]
      case FillDetails(_, _, asOf) => w.now <= asOf + d1
      case FillBalance(_, _, readAt, _) => w.now <= readAt + d2
      case _ => true
  }

  ghost predicate Prompt(w: World, es: seq<Event>, d1: nat, d2: nat)
    requires w.writes != []
    decreases |es|
  {
    es == [] || (Prompt(w, es[..|es| - 1], d1, d2) && PromptStep(Run(w, es[..|es| - 1]), es[|es| - 1], d1, d2))
  }

  /** How old a balance can be when the details read that returns it ends. */
  predicate AgeOk(asOf: int, readAt: int, origin: Origin, d1: nat) {
    asOf <= readAt <= asOf + d1 + if origin == Database then 0 else DETAILS_TTL - 1
  }

  ghost predicate DetailsOk(w: World, item: Item, d1: nat) {
    item.asOf <= w.now && StoredAt(w.writes, item.asOf, item.balance) && item.expiry <= item.asOf + d1 + DETAILS_TTL
  }

  ghost predicate BalanceOk(w: World, item: Item, d1: nat, d2: nat) {
    && item.readAt <= w.now && StoredAt(w.writes, item.asOf, item.balance)
    && AgeOk(item.asOf, item.readAt, item.origin, d1) && item.expiry <= item.readAt + d2 + BALANCE_TTL
  }

  ghost predicate RequestOk(w: World, r: Request, d1: nat, d2: nat) {
    match r
    case FillDetails(_, balance, asOf) => asOf <= w.now && StoredAt(w.writes, asOf, balance)
    case FillBalance(balance, asOf, readAt, origin) =>
      readAt <= w.now && StoredAt(w.writes, asOf, balance) && AgeOk(asOf, readAt, origin, d1)
    case Returned(forBalance, balance, asOf, readAt, origin, at) =>
      && readAt <= at <= w.now && StoredAt(w.writes, asOf, balance) && AgeOk(asOf, readAt, origin, d1)
      && at <= readAt + if forBalance then d2 + BALANCE_TTL - 1 else 0
    case _ => true
  }

  ghost predicate Inv(w: World, d1: nat, d2: nat) {
    && w.writes != [] && w.writes[|w.writes| - 1].at <= w.now
    && (w.details.Some? ==> DetailsOk(w, w.details.value, d1))
    && (w.balance.Some? ==> BalanceOk(w, w.balance.value, d1, d2))
    && (forall id :: id in w.requests ==> RequestOk(w, w.requests[id], d1, d2))
  }

  lemma StoredNow(w: World)
    requires w.writes != [] && w.writes[|w.writes| - 1].at <= w.now
    ensures StoredAt(w.writes, w.now, Stored(w))
  {
  }

  lemma StoredAtAppend(writes: seq<Write>, more: Write, at: int, balance: int)
    requires StoredAt(writes, at, balance) && at <= more.at
    ensures StoredAt(writes + [more], at, balance)
  {
    var i :| 0 <= i < |writes| && writes[i].balance == balance && writes[i].at <= at
      && (i + 1 < |writes| ==> at <= writes[i + 1].at);
    var all := writes + [more];
    assert all[i] == writes[i];
    assert i + 1 < |all| ==> at <= all[i + 1].at;
  }

  lemma StoreKeepsRequest(w: World, r: Request, balance: int, d1: nat, d2: nat)
    requires w.writes != [] && RequestOk(w, r, d1, d2)
    ensures RequestOk(Step(w, Store(balance)), r, d1, d2)
  {
    match r
    case FillDetails(_, b, asOf) => StoredAtAppend(w.writes, Write(w.now, balance), asOf, b);
    case FillBalance(b, asOf, _, _) => StoredAtAppend(w.writes, Write(w.now, balance), asOf, b);
    case Returned(_, b, asOf, _, _, _) => StoredAtAppend(w.writes, Write(w.now, balance), asOf, b);
    case _ =>
  }

  /** A request's step changes itself and at most the key it fills. */
  ghost predicate Advanced(w: World, id: nat, next: World)
    requires id in w.requests
  {
    && next.now == w.now && next.writes == w.writes && id in next.requests
    && next.requests == w.requests[id := next.requests[id]]
    && (next.details == w.details
        || (w.requests[id].FillDetails?
            && next.details == Some(DetailsItem(w.requests[id].balance, w.requests[id].asOf, w.now))))
    && (next.balance == w.balance
        || (w.requests[id].FillBalance?
            && next.balance == Some(BalanceItem(w.requests[id].balance, w.requests[id].asOf, w.requests[id].readAt,
                                                w.requests[id].origin, w.now))))
  }

  lemma AdvanceShape(w: World, id: nat, allowed: bool, cacheUp: bool)
    requires id in w.requests && w.writes != []
    ensures Advanced(w, id, AdvanceRequest(w, id, allowed, cacheUp))
  {
    assert w.requests[id := w.requests[id]] == w.requests;
  }

  lemma AdvanceKeepsRequest(w: World, id: nat, allowed: bool, cacheUp: bool, d1: nat, d2: nat)
    requires Inv(w, d1, d2) && id in w.requests && PromptStep(w, Advance(id, allowed, cacheUp), d1, d2)
    ensures var next := AdvanceRequest(w, id, allowed, cacheUp);
            id in next.requests && RequestOk(w, next.requests[id], d1, d2)
  {
    StoredNow(w);
    assert RequestOk(w, w.requests[id], d1, d2);
  }

  lemma AdvanceKeepsInv(w: World, id: nat, allowed: bool, cacheUp: bool, d1: nat, d2: nat)
    requires Inv(w, d1, d2) && id in w.requests && PromptStep(w, Advance(id, allowed, cacheUp), d1, d2)
    ensures Inv(AdvanceRequest(w, id, allowed, cacheUp), d1, d2)
  {
    AdvanceShape(w, id, allowed, cacheUp);
    AdvanceKeepsRequest(w, id, allowed, cacheUp, d1, d2);
    AdvancedKeepsInv(w, AdvanceRequest(w, id, allowed, cacheUp), id, d1, d2);
  }

  lemma AdvancedKeepsInv(w: World, next: World, id: nat, d1: nat, d2: nat)
    requires Inv(w, d1, d2) && id in w.requests && Advanced(w, id, next)
    requires RequestOk(w, next.requests[id], d1, d2) && PromptStep(w, Advance(id, true, true), d1, d2)
    ensures Inv(next, d1, d2)
  {
    assert RequestOk(w, w.requests[id], d1, d2);
    forall other | other in next.requests ensures RequestOk(next, next.requests[other], d1, d2) {
      assert RequestOk(w, next.requests[other], d1, d2);
    }
  }

  lemma StoreKeepsInv(w: World, balance: int, d1: nat, d2: nat)
    requires Inv(w, d1, d2)
    ensures Inv(Step(w, Store(balance)), d1, d2)
  {
    var next := Step(w, Store(balance));
    if w.details.Some? {
      StoredAtAppend(w.writes, Write(w.now, balance), w.details.value.asOf, w.details.value.balance);
    }
    if w.balance.Some? {
      StoredAtAppend(w.writes, Write(w.now, balance), w.balance.value.asOf, w.balance.value.balance);
    }
    forall id | id in w.requests ensures RequestOk(next, w.requests[id], d1, d2) {
      StoreKeepsRequest(w, w.requests[id], balance, d1, d2);
    }
  }

  lemma StepKeepsInv(w: World, e: Event, d1: nat, d2: nat)
    requires Inv(w, d1, d2) && PromptStep(w, e, d1, d2)
    ensures Inv(Step(w, e), d1, d2)
  {
    match e
    case Ask(_, _) =>
    case Advance(id, allowed, cacheUp) =>
      if id in w.requests {
        AdvanceKeepsInv(w, id, allowed, cacheUp, d1, d2);
      }
    case Store(balance) => StoreKeepsInv(w, balance, d1, d2);
    case Invalidate =>
    case Tick(_) =>
      forall id | id in w.requests ensures RequestOk(Step(w, e), w.requests[id], d1, d2) {
        assert RequestOk(w, w.requests[id], d1, d2);
      }
  }

  lemma {:induction false} RunKeepsInv(w: World, es: seq<Event>, d1: nat, d2: nat)
    requires Initial(w) && Prompt(w, es, d1, d2)
    ensures Inv(Run(w, es), d1, d2)
  {
    if es != [] {
      RunKeepsInv(w, es[..|es| - 1], d1, d2);
      StepKeepsInv(Run(w, es[..|es| - 1]), es[|es| - 1], d1, d2);
    }
  }

  /**
   Staleness.  In every interleaving, a balance returned at time t was the stored balance
   at an instant no more than 29.999 s + 299.999 s and the two read-to-fill delays
   before t; account details, at one no more than 299.999 s and the first delay before.
   */
  lemma StalenessBound(w: World, es: seq<Event>, id: nat, d1: nat, d2: nat)
    requires Initial(w) && Prompt(w, es, d1, d2)
    requires id in Run(w, es).requests && Run(w, es).requests[id].Returned?
    ensures var Returned(forBalance, balance, asOf, readAt, origin, at) := Run(w, es).requests[id];
            && StoredAt(Run(w, es).writes, asOf, balance)
            && 0 <= at - asOf <= if forBalance then 29_999 + 299_999 + d1 + d2 else 299_999 + d1
  {
    RunKeepsInv(w, es, d1, d2);
    assert RequestOk(Run(w, es), Run(w, es).requests[id], d1, d2);
  }

  /**
   Where the age comes from.  A returned balance is at most d2 + 29.999 s older than it was
   when the request that cached it got it: then it was at most d1 old if that request had
   read the database, so a balance older than d1 + d2 + 29.999 s came through the details
   key.
   */
  lemma BalanceAge(w: World, es: seq<Event>, id: nat, d1: nat, d2: nat)
    requires Initial(w) && Prompt(w, es, d1, d2)
    requires id in Run(w, es).requests && Run(w, es).requests[id].Returned? && Run(w, es).requests[id].forBalance
    ensures var Returned(_, balance, asOf, readAt, origin, at) := Run(w, es).requests[id];
            && asOf <= readAt <= at
            && at - asOf <= (readAt - asOf) + d2 + 29_999
            && (origin == Database ==> readAt - asOf <= d1)
            && (at - asOf > d1 + d2 + 29_999 ==> origin == DetailsKey)
  {
    RunKeepsInv(w, es, d1, d2);
    assert RequestOk(Run(w, es), Run(w, es).requests[id], d1, d2);
  }

  /** One event more, on time. */
  lemma Then(w: World, es: seq<Event>, e: Event, d1: nat, d2: nat) returns (es': seq<Event>)
    requires w.writes != [] && Prompt(w, es, d1, d2) && PromptStep(Run(w, es), e, d1, d2)
    ensures Run(w, es') == Step(Run(w, es), e) && Prompt(w, es', d1, d2)
  {
    es' := es + [e];
    assert es'[..|es'| - 1] == es && es'[|es'| - 1] == e;
  }

  const START := World(0, [Write(0, 100)], None, None, map[])

  /** A request that misses every key has read the database and is about to fill the details. */
  lemma DatabaseRead(forBalance: bool, d1: nat, d2: nat) returns (es: seq<Event>)
    ensures Prompt(START, es, d1, d2)
    ensures Run(START, es) == START.(requests := map[1 := FillDetails(forBalance, 100, 0)])
  {
    es := Then(START, [], Ask(1, forBalance), d1, d2);
    if forBalance {
      es := Then(START, es, Advance(1, true, true), d1, d2);
    }
    assert Run(START, es) == START.(requests := map[1 := AskDetails(forBalance)]);
    es := Then(START, es, Advance(1, true, true), d1, d2);
    assert Run(START, es) == START.(requests := map[1 := ReadDb(forBalance)]);
    es := Then(START, es, Advance(1, true, true), d1, d2);
  }

  /** It fills them as late as it may, and the balance changes meanwhile. */
  lemma DetailsCached(d1: nat, d2: nat) returns (es: seq<Event>)
    ensures Prompt(START, es, d1, d2)
    ensures var w := Run(START, es);
            && w.now == d1 && w.writes == [Write(0, 100), Write(0, 50)] && w.requests.Keys == {1}
            && w.balance.None? && w.details == Some(DetailsItem(100, 0, d1))
  {
    es := DatabaseRead(false, d1, d2);
    es := Then(START, es, Store(50), d1, d2);
    es := Then(START, es, Tick(d1), d1, d2);
    es := Then(START, es, Advance(1, true, true), d1, d2);
  }

  /** Another request finds them at their last instant. */
  lemma OldDetailsRead(d1: nat, d2: nat) returns (es: seq<Event>)
    ensures Prompt(START, es, d1, d2)
    ensures var w := Run(START, es);
            && w.now == d1 + 299_999 && w.writes == [Write(0, 100), Write(0, 50)] && w.requests.Keys == {1, 2}
            && w.balance.None? && w.requests[2] == FillBalance(100, 0, w.now, DetailsKey)
  {
    es := DetailsCached(d1, d2);
    es := Then(START, es, Tick(299_999), d1, d2);
    es := Then(START, es, Ask(2, true), d1, d2);
    es := Then(START, es, Advance(2, true, true), d1, d2);
    assert Run(START, es).requests[2] == AskDetails(true);
    es := Then(START, es, Advance(2, true, true), d1, d2);
  }

  /** And caches the balance from them as late as it may. */
  lemma OldBalanceCached(d1: nat, d2: nat) returns (es: seq<Event>)
    ensures Prompt(START, es, d1, d2)
    ensures var w := Run(START, es);
            && w.now == d1 + 299_999 + d2 && w.writes == [Write(0, 100), Write(0, 50)] && 3 !in w.requests
            && w.balance == Some(BalanceItem(100, 0, d1 + 299_999, DetailsKey, w.now))
  {
    es := OldDetailsRead(d1, d2);
    es := Then(START, es, Tick(d2), d1, d2);
    es := Then(START, es, Advance(2, true, true), d1, d2);
  }

  /** A balance just cached is served at its key's last instant. */
  lemma ServedAtTheLast(before: seq<Event>, id: nat, d1: nat, d2: nat) returns (es: seq<Event>)
    requires Prompt(START, before, d1, d2)
    requires var w := Run(START, before);
             w.balance.Some? && w.balance.value.expiry == w.now + BALANCE_TTL && id !in w.requests
    ensures Prompt(START, es, d1, d2)
    ensures var w, end := Run(START, before), Run(START, es);
            var Item(balance, asOf, readAt, origin, _) := w.balance.value;
            && end.writes == w.writes && id in end.requests
            && end.requests[id] == Returned(true, balance, asOf, readAt, origin, w.now + 29_999)
  {
    es := Then(START, before, Tick(29_999), d1, d2);
    es := Then(START, es, Ask(id, true), d1, d2);
    es := Then(START, es, Advance(id, true, true), d1, d2);
  }

  /**
   The two lifetimes really add up, and the bound is met: whatever the delays, a balance
   can be returned 329.998 s and both delays after the database replaced it, although its
   key lives 30 s.
   */
  lemma BalanceOutlivesItsTtl(d1: nat, d2: nat) returns (es: seq<Event>)
    ensures Initial(START) && Prompt(START, es, d1, d2)
    ensures var end := Run(START, es);
            && end.writes == [Write(0, 100), Write(0, 50)] && 3 in end.requests
            && end.requests[3] == Returned(true, 100, 0, d1 + 299_999, DetailsKey, 29_999 + 299_999 + d1 + d2)
  {
    es := OldBalanceCached(d1, d2);
    es := ServedAtTheLast(es, 3, d1, d2);
  }

  lemma FreshBalanceRead(d1: nat, d2: nat) returns (es: seq<Event>)
    ensures Prompt(START, es, d1, d2)
    ensures var w := Run(START, es);
            w.now == d1 && w.requests == map[1 := FillBalance(100, 0, d1, Database)]
  {
    es := DatabaseRead(true, d1, d2);
    es := Then(START, es, Tick(d1), d1, d2);
    es := Then(START, es, Advance(1, true, true), d1, d2);
  }

  lemma FreshBalanceCached(d1: nat, d2: nat) returns (es: seq<Event>)
    ensures Prompt(START, es, d1, d2)
    ensures var w := Run(START, es);
            && w.now == d1 + d2 && 2 !in w.requests
            && w.balance == Some(BalanceItem(100, 0, d1, Database, w.now))
  {
    es := FreshBalanceRead(d1, d2);
    es := Then(START, es, Tick(d2), d1, d2);
    es := Then(START, es, Advance(1, true, true), d1, d2);
  }

  /** So is the bound for a balance that was cached straight from the database. */
  lemma FreshBalanceReachesItsTtl(d1: nat, d2: nat) returns (es: seq<Event>)
    ensures Initial(START) && Prompt(START, es, d1, d2)
    ensures var end := Run(START, es);
            2 in end.requests && end.requests[2] == Returned(true, 100, 0, d1, Database, d1 + d2 + 29_999)
  {
    es := FreshBalanceCached(d1, d2);
    es := ServedAtTheLast(es, 2, d1, d2);
  }

  // ---------------------------------------------------------------- invalidation

  /** What a request holds and has not yet written to a key was read at `since` or later. */
  predicate FillsSince(r: Request, since: int) {
    match r
    case FillDetails(_, _, asOf) => asOf >= since
    case FillBalance(_, asOf, _, _) => asOf >= since
    case _ => true
  }

  /** No request is about to fill a key with something read before now. */
  ghost predicate NoOldFill(w: World) {
    forall id :: id in w.requests ==> FillsSince(w.requests[id], w.now)
  }

  /** Neither key holds, and no answer given after `w` shows, anything read before `since`. */
  ghost predicate ShowsSince(w: World, later: World, since: int) {
    && (later.details.Some? ==> later.details.value.asOf >= since)
    && (later.balance.Some? ==> later.balance.value.asOf >= since)
    && (forall id :: id in later.requests ==> AnswersSince(w, id, later.requests[id], since))
  }

  predicate AnswersSince(w: World, id: nat, r: Request, since: int) {
    r.Returned? ==> r.asOf >= since || (id in w.requests && r == w.requests[id])
  }

  /** And nothing that was is about to be cached. */
  ghost predicate FreshSince(w: World, later: World, since: int) {
    && since <= later.now && ShowsSince(w, later, since)
    && (forall id :: id in later.requests ==> FillsSince(later.requests[id], since))
  }

  lemma AdvanceStaysFresh(w: World, later: World, id: nat, allowed: bool, cacheUp: bool, since: int)
    requires later.writes != [] && FreshSince(w, later, since) && id in later.requests
    ensures FreshSince(w, AdvanceRequest(later, id, allowed, cacheUp), since)
  {
    AdvanceShape(later, id, allowed, cacheUp);
    var next := AdvanceRequest(later, id, allowed, cacheUp);
    assert FillsSince(later.requests[id], since) && AnswersSince(w, id, later.requests[id], since);
    assert FillsSince(next.requests[id], since) && AnswersSince(w, id, next.requests[id], since);
  }

  lemma StepStaysFresh(w: World, later: World, e: Event, since: int)
    requires later.writes != [] && FreshSince(w, later, since)
    ensures FreshSince(w, Step(later, e), since)
  {
    if e.Advance? && e.request in later.requests {
      AdvanceStaysFresh(w, later, e.request, e.allowed, e.cacheUp, since);
    }
  }

  lemma {:induction false} RunStaysFresh(w: World, after: World, es: seq<Event>, since: int)
    requires after.writes != [] && FreshSince(w, after, since)
    ensures FreshSince(w, Run(after, es), since)
  {
    if es != [] {
      RunStaysFresh(w, after, es[..|es| - 1], since);
      StepStaysFresh(w, Run(after, es[..|es| - 1]), es[|es| - 1], since);
    }
  }

  /** An old fill that was pending puts what it read back into its key. */
  lemma OldFillShows(w: World, id: nat)
    requires w.writes != [] && id in w.requests && !FillsSince(w.requests[id], w.now)
    ensures !ShowsSince(w, Run(Step(w, Invalidate), [Advance(id, true, true)]), w.now)
  {
    var after := Step(w, Invalidate);
    assert [Advance(id, true, true)][..0] == [];
    assert Run(after, [Advance(id, true, true)]) == Step(after, Advance(id, true, true));
  }

  /**
   What an invalidation achieves.  Whatever happens after it, nothing that was read before
   it is ever found in a key or returned again, if and only if no fill with something read
   before was pending when it came.
   */
  lemma InvalidationHoldsIff(w: World)
    requires w.writes != []
    ensures (forall es :: ShowsSince(w, Run(Step(w, Invalidate), es), w.now)) <==> NoOldFill(w)
  {
    if NoOldFill(w) {
      assert FreshSince(w, Step(w, Invalidate), w.now);
      forall es ensures ShowsSince(w, Run(Step(w, Invalidate), es), w.now) {
        RunStaysFresh(w, Step(w, Invalidate), es, w.now);
      }
    } else {
      var id :| id in w.requests && !FillsSince(w.requests[id], w.now);
      OldFillShows(w, id);
    }
  }

  /** The pending fill does put it back: the very next answer of its key is the old balance. */
  lemma OldFillReturns(w: World, id: nat, reader: nat)
    requires w.writes != [] && id in w.requests && w.requests[id].FillBalance? && w.requests[id].asOf < w.now
    requires reader !in w.requests
    ensures var es := [Advance(id, true, true), Ask(reader, true), Advance(reader, true, true)];
            var end := Run(Step(w, Invalidate), es);
            && reader in end.requests && end.requests[reader].Returned?
            && end.requests[reader].balance == w.requests[id].balance && end.requests[reader].asOf < w.now
  {
    var after := Step(w, Invalidate);
    var e1, e2, e3 := Advance(id, true, true), Ask(reader, true), Advance(reader, true, true);
    assert [e1, e2, e3][..2] == [e1, e2] && [e1, e2][..1] == [e1] && [e1][..0] == [];
    assert Run(after, []) == after;
    assert Run(after, [e1]) == Step(after, e1);
    assert Run(after, [e1, e2]) == Step(Step(after, e1), e2);
  }

  // ---------------------------------------------------------------- one read by itself

  /** Whether Redis takes each of the four commands a read may make. */
  datatype Redis = Redis(getBalance: bool, getDetails: bool, setDetails: bool, setBalance: bool)

  /** A key is found when Redis answers and it is there and has not run out. */
  predicate Found(item: Option<Item>, now: int, answers: bool) {
    answers && match item case None => false case Some(i) => now < i.expiry
  }

  /** The account is in hand, from the details key or the database: what is left to do. */
  ghost predicate InHand(w: World, id: nat, forBalance: bool, redis: Redis, balance: int, asOf: int, origin: Origin,
                         end: World)
  {
    && end.now == w.now && end.writes == w.writes
    && end.requests == w.requests[id := Returned(forBalance, balance, asOf, w.now, origin, w.now)]
    && end.details
       == (if origin == Database && redis.setDetails then Some(Item(balance, asOf, asOf, Database, w.now + 300_000))
           else w.details)
    && end.balance
       == (if forBalance && redis.setBalance then Some(Item(balance, asOf, w.now, origin, w.now + 30_000))
           else w.balance)
  }

  /**
   How a read that nobody disturbs ends.  A live balance key answers a balance; else a live
   details key answers; else the database does.  Whoever may not read is denied, and nothing
   is cached for them.  What did not come from the key it belongs in is cached there, for five
   minutes or for 30 seconds, unless Redis fails just then.
   */
  ghost predicate ReadEnds(w: World, id: nat, forBalance: bool, allowed: bool, redis: Redis, end: World)
    requires w.writes != []
  {
    if forBalance && Found(w.balance, w.now, redis.getBalance) then
      var Item(balance, asOf, readAt, origin, _) := w.balance.value;
      end == w.(requests := w.requests[id := if allowed then Returned(true, balance, asOf, readAt, origin, w.now)
                                             else Denied])
    else if !allowed then end == w.(requests := w.requests[id := Denied])
    else if Found(w.details, w.now, redis.getDetails) then
      InHand(w, id, forBalance, redis, w.details.value.balance, w.details.value.asOf, DetailsKey, end)
    else InHand(w, id, forBalance, redis, w.writes[|w.writes| - 1].balance, w.now, Database, end)
  }

  lemma RunOne(w: World, es: seq<Event>, e: Event)
    requires w.writes != []
    ensures Run(w, es + [e]) == Step(Run(w, es), e)
  {
    var all := es + [e];
    assert all[..|all| - 1] == es && all[|all| - 1] == e;
  }

  /** Whether Redis takes the command that a request is about to make. */
  predicate Takes(r: Request, redis: Redis) {
    match r
    case AskBalance => redis.getBalance
    case AskDetails(_) => redis.getDetails
    case FillDetails(_, _, _) => redis.setDetails
    case FillBalance(_, _, _, _) => redis.setBalance
    case _ => true
  }

  /** The request begins and goes on, await by await, and nothing else happens. */
  ghost predicate Alone(w: World, es: seq<Event>, id: nat, forBalance: bool, allowed: bool, redis: Redis)
    requires w.writes != []
    decreases |es|
  {
    es != [] && (
      var before, e := es[..|es| - 1], es[|es| - 1];
      if before == [] then e == Ask(id, forBalance)
      else
        && Alone(w, before, id, forBalance, allowed, redis) && id in Run(w, before).requests
        && e == Advance(id, allowed, Takes(Run(w, before).requests[id], redis)))
  }

  /** One more await of the request, which leads to this world. */
  lemma Await(w: World, es: seq<Event>, id: nat, forBalance: bool, allowed: bool, redis: Redis, next: World)
    returns (es': seq<Event>)
    requires w.writes != [] && Alone(w, es, id, forBalance, allowed, redis) && id in Run(w, es).requests
    requires next == AdvanceRequest(Run(w, es), id, allowed, Takes(Run(w, es).requests[id], redis))
    ensures Run(w, es') == next && |es'| == |es| + 1 && Alone(w, es', id, forBalance, allowed, redis)
  {
    var e := Advance(id, allowed, Takes(Run(w, es).requests[id], redis));
    RunOne(w, es, e);
    es' := es + [e];
    assert es'[..|es|] == es;
  }

  /** The request is in this state, and nothing else has changed since `w`. */
  ghost predicate Stands(w: World, es: seq<Event>, id: nat, r: Request)
    requires w.writes != []
  {
    Run(w, es) == w.(requests := w.requests[id := r])
  }

  lemma FillsBalance(w: World, es: seq<Event>, mid: World, id: nat, redis: Redis, balance: int, asOf: int,
                     origin: Origin)
    returns (es': seq<Event>)
    requires w.writes != [] && Run(w, es) == mid && Alone(w, es, id, true, true, redis)
    requires mid.now == w.now && mid.writes == w.writes && mid.balance == w.balance
    requires mid.requests == w.requests[id := FillBalance(balance, asOf, w.now, origin)]
    requires mid.details
       == (if origin == Database && redis.setDetails then Some(Item(balance, asOf, asOf, Database, w.now + 300_000))
           else w.details)
    ensures Alone(w, es', id, true, true, redis) && |es'| == |es| + 1
    ensures InHand(w, id, true, redis, balance, asOf, origin, Run(w, es'))
  {
    var next := AdvanceRequest(mid, id, true, redis.setBalance);
    assert InHand(w, id, true, redis, balance, asOf, origin, next) by {
      assert w.requests[id := FillBalance(balance, asOf, w.now, origin)][id := next.requests[id]]
          == w.requests[id := next.requests[id]];
    }
    es' := Await(w, es, id, true, true, redis, next);
  }

  /** The database has answered. */
  lemma FillsDetails(w: World, es: seq<Event>, id: nat, forBalance: bool, redis: Redis) returns (es': seq<Event>)
    requires w.writes != [] && Stands(w, es, id, FillDetails(forBalance, Stored(w), w.now))
    requires Alone(w, es, id, forBalance, true, redis)
    ensures Alone(w, es', id, forBalance, true, redis) && |es'| <= |es| + 2
    ensures InHand(w, id, forBalance, redis, w.writes[|w.writes| - 1].balance, w.now, Database, Run(w, es'))
  {
    var mid := AdvanceRequest(Run(w, es), id, true, redis.setDetails);
    es' := Await(w, es, id, forBalance, true, redis, mid);
    if forBalance {
      es' := FillsBalance(w, es', mid, id, redis, Stored(w), w.now, Database);
    }
  }

  lemma ReadsDatabase(w: World, es: seq<Event>, id: nat, forBalance: bool, allowed: bool, redis: Redis)
    returns (es': seq<Event>)
    requires w.writes != [] && Stands(w, es, id, ReadDb(forBalance)) && Alone(w, es, id, forBalance, allowed, redis)
    requires !(forBalance && Found(w.balance, w.now, redis.getBalance)) && !Found(w.details, w.now, redis.getDetails)
    ensures Alone(w, es', id, forBalance, allowed, redis) && |es'| <= |es| + 3
    ensures ReadEnds(w, id, forBalance, allowed, redis, Run(w, es'))
  {
    es' := Await(w, es, id, forBalance, allowed, redis, AdvanceRequest(Run(w, es), id, allowed, true));
    if allowed {
      es' := FillsDetails(w, es', id, forBalance, redis);
    }
  }

  lemma FillsFromDetails(w: World, es: seq<Event>, mid: World, id: nat, redis: Redis) returns (es': seq<Event>)
    requires w.writes != [] && w.details.Some? && Run(w, es) == mid && Alone(w, es, id, true, true, redis)
    requires mid == Respond(w, id, FillBalance(w.details.value.balance, w.details.value.asOf, w.now, DetailsKey))
    ensures Alone(w, es', id, true, true, redis) && |es'| == |es| + 1
    ensures InHand(w, id, true, redis, w.details.value.balance, w.details.value.asOf, DetailsKey, Run(w, es'))
  {
    es' := FillsBalance(w, es, mid, id, redis, w.details.value.balance, w.details.value.asOf, DetailsKey);
  }

  /** What the details key answers. */
  lemma DetailsAnswer(w: World, mid: World, id: nat, forBalance: bool, allowed: bool, redis: Redis, next: World)
    requires w.writes != [] && mid == Respond(w, id, AskDetails(forBalance))
    requires !(forBalance && Found(w.balance, w.now, redis.getBalance))
    requires next == AdvanceRequest(mid, id, allowed, redis.getDetails)
    ensures if !Found(w.details, w.now, redis.getDetails) then next == Respond(w, id, ReadDb(forBalance))
            else if allowed && forBalance then
              var Item(balance, asOf, _, _, _) := w.details.value;
              next == Respond(w, id, FillBalance(balance, asOf, w.now, DetailsKey))
            else ReadEnds(w, id, forBalance, allowed, redis, next)
  {
    assert w.requests[id := AskDetails(forBalance)][id := next.requests[id]] == w.requests[id := next.requests[id]];
  }

  lemma ReadsDetails(w: World, es: seq<Event>, id: nat, forBalance: bool, allowed: bool, redis: Redis)
    returns (es': seq<Event>)
    requires w.writes != [] && Stands(w, es, id, AskDetails(forBalance))
    requires Alone(w, es, id, forBalance, allowed, redis)
    requires !(forBalance && Found(w.balance, w.now, redis.getBalance))
    ensures Alone(w, es', id, forBalance, allowed, redis) && |es'| <= |es| + 4
    ensures ReadEnds(w, id, forBalance, allowed, redis, Run(w, es'))
  {
    var next := AdvanceRequest(Run(w, es), id, allowed, redis.getDetails);
    DetailsAnswer(w, Run(w, es), id, forBalance, allowed, redis, next);
    es' := Await(w, es, id, forBalance, allowed, redis, next);
    if !Found(w.details, w.now, redis.getDetails) {
      es' := ReadsDatabase(w, es', id, forBalance, allowed, redis);
    } else if allowed && forBalance {
      es' := FillsFromDetails(w, es', next, id, redis);
    }
  }

  /** In every world, whatever else is under way, with any of its Redis commands failing. */
  lemma ReadAlone(w: World, id: nat, forBalance: bool, allowed: bool, redis: Redis) returns (es: seq<Event>)
    requires w.writes != [] && id !in w.requests
    ensures Alone(w, es, id, forBalance, allowed, redis) && |es| <= 6
    ensures ReadEnds(w, id, forBalance, allowed, redis, Run(w, es))
  {
    RunOne(w, [], Ask(id, forBalance));
    es := [] + [Ask(id, forBalance)];
    if !forBalance {
      es := ReadsDetails(w, es, id, false, allowed, redis);
    } else {
      es := Await(w, es, id, true, allowed, redis, AdvanceRequest(Run(w, es), id, allowed, redis.getBalance));
      if !Found(w.balance, w.now, redis.getBalance) {
        es := ReadsDetails(w, es, id, true, allowed, redis);
      }
    }
  }
}
