/**
 The account service and its cache as they are written.  The cache has two keys per
 account and counts its hits, misses, fills and invalidations.  A read awaits every Redis
 command and every query, and anything may happen elsewhere during each await; it is
 proved to be one request of the machine in AccountCache.
 */
module AccountService {
  import opened Wrappers
  import opened AccountCache

  datatype Role = Customer | Teller | Admin

  datatype Account = Account(number: string, userId: string, balance: int, currency: string)

  datatype Error = NotFound | Forbidden

  datatype Result<+T> = Ok(value: T) | Err(error: Error)

  datatype Cached = Cached(account: Account, expiry: int)

  function LiveAt(keys: map<string, Cached>, number: string, now: int): Option<Account> {
    if number in keys && now < keys[number].expiry then Some(keys[number].account) else None
  }

  class AccountCacheService {
    var balances: map<string, Cached>
    var details: map<string, Cached>
    var hits: nat
    var misses: nat
    var sets: nat
    var invalidations: nat

    constructor ()
      ensures balances == map[] && details == map[] && hits == misses == sets == invalidations == 0
    {
      balances, details := map[], map[];
      hits, misses, sets, invalidations := 0, 0, 0, 0;
    }

    method GetBalance(number: string, now: int, up: bool) returns (found: Option<Account>)
      modifies this`hits, this`misses
      ensures found == if up && number in balances && now < balances[number].expiry
                       then Some(balances[number].account) else None
      ensures hits + misses == old(hits + misses) + if up then 1 else 0
      ensures hits == old(hits) + if found.Some? then 1 else 0
    {
      if !up {
        return None;
      }
      found := LiveAt(balances, number, now);
      if found.Some? {
        hits := hits + 1;
      } else {
        misses := misses + 1;
      }
    }

    method SetBalance(number: string, account: Account, now: int, up: bool)
      modifies this`balances, this`sets
      ensures balances == if up then old(balances)[number := Cached(account, now + 30_000)] else old(balances)
      ensures sets == old(sets) + if up then 1 else 0
    {
      if up {
        balances := balances[number := Cached(account, now + BALANCE_TTL)];
        sets := sets + 1;
      }
    }

    method GetDetails(number: string, now: int, up: bool) returns (found: Option<Account>)
      modifies this`hits, this`misses
      ensures found == if up && number in details && now < details[number].expiry
                       then Some(details[number].account) else None
      ensures hits + misses == old(hits + misses) + if up then 1 else 0
      ensures hits == old(hits) + if found.Some? then 1 else 0
    {
      if !up {
        return None;
      }
      found := LiveAt(details, number, now);
      if found.Some? {
        hits := hits + 1;
      } else {
        misses := misses + 1;
      }
    }

    method SetDetails(number: string, account: Account, now: int, up: bool)
      modifies this`details, this`sets
      ensures details == if up then old(details)[number := Cached(account, now + 300_000)] else old(details)
      ensures sets == old(sets) + if up then 1 else 0
    {
      if up {
        details := details[number := Cached(account, now + DETAILS_TTL)];
        sets := sets + 1;
      }
    }

    /** `DEL` of both keys; counts the keys that were there. */
    method InvalidateAccount(number: string, now: int, up: bool)
      modifies this`balances, this`details, this`invalidations
      ensures up ==> balances == old(balances) - {number} && details == old(details) - {number}
      ensures !up ==> balances == old(balances) && details == old(details)
      ensures invalidations == old(invalidations) + if !up then 0 else
        (if old(LiveAt(balances, number, now)).Some? then 1 else 0)
        + (if old(LiveAt(details, number, now)).Some? then 1 else 0)
    {
      if up {
        var deleted := (if LiveAt(balances, number, now).Some? then 1 else 0)
          + (if LiveAt(details, number, now).Some? then 1 else 0);
        balances, details := balances - {number}, details - {number};
        invalidations := invalidations + deleted;
      }
    }

    /**
     Both keys of every listed account are gone and no other key is touched; each
     key that was there is counted once, however often its account is listed.
     */
    method InvalidateAccounts(numbers: seq<string>, now: int, up: bool)
      modifies this`balances, this`details, this`invalidations
      ensures !up ==> balances == old(balances) && details == old(details) && invalidations == old(invalidations)
      ensures up ==> forall n :: n in balances <==> n in old(balances) && n !in numbers
      ensures up ==> forall n :: n in details <==> n in old(details) && n !in numbers
      ensures forall n :: n in balances ==> balances[n] == old(balances)[n]
      ensures forall n :: n in details ==> details[n] == old(details)[n]
      ensures up ==> invalidations == old(invalidations)
                       + |LiveAmong(old(balances), numbers, now)| + |LiveAmong(old(details), numbers, now)|
    {
      if !up {
        return;
      }
      var allBalances, allDetails := balances, details;
      for i := 0 to |numbers|
        invariant Cleared(allBalances, balances, numbers[..i]) && Cleared(allDetails, details, numbers[..i])
        invariant invalidations == old(invalidations)
                    + |LiveAmong(allBalances, numbers[..i], now)| + |LiveAmong(allDetails, numbers[..i], now)|
      {
        var n := numbers[i];
        assert numbers[..i + 1] == numbers[..i] + [n];
        ClearOne(allBalances, balances, numbers[..i], n, now);
        ClearOne(allDetails, details, numbers[..i], n, now);
        var deleted := (if LiveAt(balances, n, now).Some? then 1 else 0)
          + (if LiveAt(details, n, now).Some? then 1 else 0);
        balances, details := balances - {n}, details - {n};
        invalidations := invalidations + deleted;
      }
      assert numbers[..|numbers|] == numbers;
    }
  }

  /** The listed accounts whose key is there. */
  function LiveAmong(keys: map<string, Cached>, numbers: seq<string>, now: int): set<string> {
    set n | n in numbers && LiveAt(keys, n, now).Some?
  }

  ghost predicate Cleared(all: map<string, Cached>, left: map<string, Cached>, numbers: seq<string>) {
    && (forall n :: n in left <==> n in all && n !in numbers)
    && (forall n :: n in left ==> left[n] == all[n])
  }

  lemma ClearOne(all: map<string, Cached>, left: map<string, Cached>, numbers: seq<string>, n: string, now: int)
    requires Cleared(all, left, numbers)
    ensures Cleared(all, left - {n}, numbers + [n])
    ensures |LiveAmong(all, numbers + [n], now)|
         == |LiveAmong(all, numbers, now)| + if LiveAt(left, n, now).Some? then 1 else 0
  {
    var before, after := LiveAmong(all, numbers, now), LiveAmong(all, numbers + [n], now);
    assert after == if LiveAt(left, n, now).Some? then before + {n} else before;
    assert LiveAt(left, n, now).Some? ==> n !in before;
  }

  // ---------------------------------------------------------------- what a request lives through

  /** An event of another request, or of the environment. */
  predicate Elsewhere(e: Event, id: nat) {
    (e.Ask? || e.Advance?) ==> e.request != id
  }

  function With(w: World, id: nat, r: Request): World {
    w.(requests := w.requests[id := r])
  }

  lemma AdvanceElsewhere(w: World, id: nat, r: Request, other: nat, allowed: bool, cacheUp: bool)
    requires w.writes != [] && id !in w.requests && other in w.requests
    ensures AdvanceRequest(With(w, id, r), other, allowed, cacheUp)
         == With(AdvanceRequest(w, other, allowed, cacheUp), id, r)
    ensures id !in AdvanceRequest(w, other, allowed, cacheUp).requests
  {
    var a, b := AdvanceRequest(With(w, id, r), other, allowed, cacheUp), AdvanceRequest(w, other, allowed, cacheUp);
    assert a.requests == b.requests[id := r] by {
      AdvanceShape(With(w, id, r), other, allowed, cacheUp);
      AdvanceShape(w, other, allowed, cacheUp);
      assert a.requests[other] == b.requests[other];
    }
  }

  /** What happens elsewhere neither sees the request nor changes it. */
  lemma StepElsewhere(w: World, id: nat, r: Request, e: Event)
    requires w.writes != [] && id !in w.requests && Elsewhere(e, id)
    ensures Step(With(w, id, r), e) == With(Step(w, e), id, r) && id !in Step(w, e).requests
  {
    match e
    case Advance(other, allowed, cacheUp) =>
      if other in w.requests {
        AdvanceElsewhere(w, id, r, other, allowed, cacheUp);
      }
    case Ask(other, forBalance) =>
      assert Step(With(w, id, r), e).requests == With(Step(w, e), id, r).requests;
    case _ =>
  }

  /**
   The trace of a request: before its `k`-th command or query happens what the schedule says,
   and `answers[k]` tells whether it found an account that the caller may read.
   */
  function Told(s: nat -> seq<Event>, up: nat -> bool, id: nat, forBalance: bool, answers: seq<bool>): seq<Event>
    decreases |answers|
  {
    if answers == [] then [Ask(id, forBalance)]
    else
      var k := |answers| - 1;
      Told(s, up, id, forBalance, answers[..k]) + s(k) + [Advance(id, answers[k], up(k))]
  }

  lemma ToldOne(s: nat -> seq<Event>, up: nat -> bool, id: nat, forBalance: bool, answers: seq<bool>, answer: bool)
    ensures Told(s, up, id, forBalance, answers + [answer])
         == Told(s, up, id, forBalance, answers) + s(|answers|) + [Advance(id, answer, up(|answers|))]
  {
    assert (answers + [answer])[..|answers|] == answers;
  }

  /** A balance, and where it comes from. */
  datatype Reading = Reading(balance: int, asOf: int, readAt: int, origin: Origin)

  /** One read of one account. */
  class AccountReader {
    const id: nat
    const owner: string
    const forBalance: bool
    // What happens elsewhere during its k-th await, and whether Redis then takes its command.
    const meanwhile: nat -> seq<Event>
    const up: nat -> bool

    // The clock, the stored balances, the account's two keys, and the other requests.
    var now: int
    var writes: seq<Write>
    var balanceKey: Option<Item>
    var detailsKey: Option<Item>
    var others: map<nat, Request>
    var step: nat

    ghost const start: World
    ghost var trace: seq<Event>
    ghost var answers: seq<bool>
    ghost var call: Request

    ghost function Machine(): World
      reads this
    {
      World(now, writes, balanceKey, detailsKey, others[id := call])
    }

    ghost predicate OnTrace()
      reads this
    {
      && start.writes != [] && writes != [] && id !in others && Machine() == Run(start, trace)
      && step == |answers| && forall k, i :: 0 <= i < |meanwhile(k)| ==> Elsewhere(meanwhile(k)[i], id)
    }

    /** Between two awaits. */
    ghost predicate Valid()
      reads this
    {
      OnTrace() && trace == Told(meanwhile, up, id, forBalance, answers)
    }

    /** About to make its next command or query. */
    ghost predicate Ready()
      reads this
    {
      OnTrace() && trace == Told(meanwhile, up, id, forBalance, answers) + meanwhile(step)
    }

    /** The request has its answer, given now; or has none, because of an error. */
    ghost predicate Ended(result: Result<int>)
      reads this
    {
      && Valid()
      && match result
         case Ok(balance) =>
           call.Returned? && call.forBalance == forBalance && call.balance == balance && call.at == now
         case Err(_) => call == Denied
    }

    constructor (id: nat, owner: string, forBalance: bool, meanwhile: nat -> seq<Event>, up: nat -> bool, w: World)
      requires w.writes != [] && id !in w.requests
      requires forall k, i :: 0 <= i < |meanwhile(k)| ==> Elsewhere(meanwhile(k)[i], id)
      ensures this.id == id && this.owner == owner && this.forBalance == forBalance
      ensures this.meanwhile == meanwhile && this.up == up && start == w && Fresh()
    {
      this.id, this.owner, this.forBalance, this.meanwhile, this.up := id, owner, forBalance, meanwhile, up;
      now, writes, balanceKey, detailsKey, others := w.now, w.writes, w.balance, w.details, w.requests;
      step, answers := 0, [];
      start := w;
      trace := [Ask(id, forBalance)];
      call := if forBalance then AskBalance else AskDetails(false);
      new;
      RunOne(start, [], Ask(id, forBalance));
      assert [] + [Ask(id, forBalance)] == [Ask(id, forBalance)];
    }

    ghost predicate Fresh()
      reads this
    {
      Valid() && answers == [] && call == if forBalance then AskBalance else AskDetails(false)
    }

    method Happen(e: Event)
      requires OnTrace() && Elsewhere(e, id)
      modifies this`now, this`writes, this`balanceKey, this`detailsKey, this`others, this`trace
      ensures OnTrace() && trace == old(trace) + [e]
    {
      var w := World(now, writes, balanceKey, detailsKey, others);
      StepElsewhere(w, id, call, e);
      RunOne(start, trace, e);
      var after := Step(w, e);
      now, writes, balanceKey, detailsKey := after.now, after.writes, after.balance, after.details;
      others := after.requests;
      trace := trace + [e];
    }

    /** Anything happens elsewhere, while this request awaits its next answer. */
    method Await()
      requires Valid()
      modifies this`now, this`writes, this`balanceKey, this`detailsKey, this`others, this`trace
      ensures Ready() && trace == old(trace) + meanwhile(step)
    {
      var es := meanwhile(step);
      ghost var before := trace;
      for i := 0 to |es|
        invariant OnTrace() && trace == before + es[..i]
      {
        Happen(es[i]);
      }
    }

    /** The command or query just made is one step of the machine. */
    method Proceed(allowed: bool, ghost before: World)
      requires start.writes != [] && id !in others && step == |answers|
      requires before.writes != [] && id in before.requests && before == Run(start, trace)
      requires before == World(before.now, before.writes, before.balance, before.details, others[id := call])
      requires var after := AdvanceRequest(before, id, allowed, up(step));
               now == after.now && writes == after.writes && balanceKey == after.balance && detailsKey == after.details
      requires forall k, i :: 0 <= i < |meanwhile(k)| ==> Elsewhere(meanwhile(k)[i], id)
      requires trace == Told(meanwhile, up, id, forBalance, answers) + meanwhile(step)
      modifies this`trace, this`answers, this`step, this`call
      ensures Valid() && step == old(step) + 1
      ensures var after := AdvanceRequest(before, id, allowed, up(old(step)));
              id in after.requests && call == after.requests[id]
    {
      ghost var after, e := AdvanceRequest(before, id, allowed, up(step)), Advance(id, allowed, up(step));
      assert after == World(now, writes, balanceKey, detailsKey, others[id := after.requests[id]]) by {
        AdvanceShape(before, id, allowed, up(step));
      }
      assert after == Run(start, trace + [e]) by {
        RunOne(start, trace, e);
      }
      assert trace + [e] == Told(meanwhile, up, id, forBalance, answers + [allowed]) by {
        ToldOne(meanwhile, up, id, forBalance, answers, allowed);
      }
      trace := trace + [e];
      call := after.requests[id];
      answers := answers + [allowed];
      step := step + 1;
    }

    /** An account the caller may read has been found; or there is none, or it is not theirs. */
    ghost predicate Fetched(user: string, role: Role, stored: bool, result: Result<Reading>)
      reads this
    {
      match result
      case Ok(Reading(balance, asOf, readAt, origin)) =>
        && (role == Customer ==> owner == user)
        && call == (if forBalance then FillBalance(balance, asOf, readAt, origin)
                    else Returned(false, balance, asOf, readAt, origin, now))
      case Err(error) =>
        call == Denied && if error.Forbidden? then role == Customer && owner != user else !stored
    }

    /**
     `getAccountDetails`: the live details key decides, else the database; its answer is
     cached if Redis takes it.  `stored` tells whether the query finds the account.
     */
    method GetAccountDetails(user: string, role: Role, stored: bool) returns (result: Result<Reading>)
      requires Valid() && call == AskDetails(forBalance)
      modifies this
      ensures Valid() && Fetched(user, role, stored, result)
    {
      Await();
      var hit := Live(detailsKey, now, up(step));
      if hit.Some? {
        if role != Admin && role != Teller {
          if owner != user {
            Proceed(false, Machine());
            return Err(Forbidden);
          }
        }
        Proceed(true, Machine());
        return Ok(Reading(hit.value.balance, hit.value.asOf, now, DetailsKey));
      }
      Proceed(true, Machine());
      result := FetchDetails(user, role, stored);
    }

    /** Without a live details key, the database is asked and its answer cached. */
    method FetchDetails(user: string, role: Role, stored: bool) returns (result: Result<Reading>)
      requires Valid() && call == ReadDb(forBalance)
      modifies this
      ensures Valid() && Fetched(user, role, stored, result)
      ensures result == Err(NotFound) <==> !stored
    {
      Await();
      if !stored {
        Proceed(false, Machine());
        return Err(NotFound);
      }
      if role != Admin && role != Teller && owner != user {
        Proceed(false, Machine());
        return Err(Forbidden);
      }
      var balance, asOf := writes[|writes| - 1].balance, now;
      Proceed(true, Machine());
      Await();
      FillDetailsKey(balance, asOf);
      return Ok(Reading(balance, asOf, now, Database));
    }

    /** `setDetails`, if Redis takes it. */
    method FillDetailsKey(balance: int, asOf: int)
      requires Ready() && call == FillDetails(forBalance, balance, asOf)
      modifies this`detailsKey, this`trace, this`answers, this`step, this`call
      ensures Valid() && call == Deliver(Machine(), forBalance, balance, asOf, Database)
    {
      ghost var before := Machine();
      if up(step) {
        detailsKey := Some(DetailsItem(balance, asOf, now));
      }
      Proceed(true, before);
    }

    /** `setBalance`, if Redis takes it. */
    method FillBalanceKey(reading: Reading)
      requires Ready() && call == FillBalance(reading.balance, reading.asOf, reading.readAt, reading.origin)
      modifies this`balanceKey, this`trace, this`answers, this`step, this`call
      ensures Valid()
      ensures call == Returned(true, reading.balance, reading.asOf, reading.readAt, reading.origin, now)
    {
      ghost var before := Machine();
      if up(step) {
        balanceKey := Some(BalanceItem(reading.balance, reading.asOf, reading.readAt, reading.origin, now));
      }
      Proceed(true, before);
    }

    /**
     The bound of AccountCache holds of what is returned: it was the stored balance not long
     ago, if no fill, of this read or of any other, was late.
     */
    lemma AnswerWasStored(balance: int, d1: nat, d2: nat) returns (asOf: int)
      requires Ended(Ok(balance)) && Initial(start) && Prompt(start, trace, d1, d2)
      ensures StoredAt(writes, asOf, balance)
      ensures 0 <= now - asOf <= if forBalance then 29_999 + 299_999 + d1 + d2 else 299_999 + d1
    {
      StalenessBound(start, trace, id, d1, d2);
      assert Machine().requests[id] == call;
      asOf := call.asOf;
    }

    /** The details read by themselves. */
    method ReadDetails(user: string, role: Role, stored: bool) returns (result: Result<int>)
      requires Fresh() && !forBalance
      modifies this
      ensures Ended(result)
      ensures match result
              case Ok(_) => role == Customer ==> owner == user
              case Err(error) => if error.Forbidden? then role == Customer && owner != user else !stored
    {
      var details := GetAccountDetails(user, role, stored);
      return if details.Ok? then Ok(details.value.balance) else Err(details.error);
    }

    /**
     `getAccountBalance`: the live balance key decides, else the details, whose balance is
     cached anew, however old it is.  Nobody is shown an account that is not theirs to read.
     */
    method GetAccountBalance(user: string, role: Role, stored: bool) returns (result: Result<int>)
      requires Fresh() && forBalance
      modifies this
      ensures Ended(result)
      ensures match result
              case Ok(_) => role == Customer ==> owner == user
              case Err(error) => if error.Forbidden? then role == Customer && owner != user else !stored
    {
      Await();
      var hit := Live(balanceKey, now, up(step));
      if hit.Some? {
        if role != Admin && role != Teller {
          if owner != user {
            Proceed(false, Machine());
            return Err(Forbidden);
          }
        }
        Proceed(true, Machine());
        return Ok(hit.value.balance);
      }
      Proceed(true, Machine());
      var details := GetAccountDetails(user, role, stored);
      if details.Err? {
        return Err(details.error);
      }
      Await();
      FillBalanceKey(details.value);
      return Ok(details.value.balance);
    }
  }
}
