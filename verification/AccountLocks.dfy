/**
 The distributed account locks: leased try-locks on Redis keys, released by
 compare-and-delete, taken in ascending order and rolled back on a conflict.

 `Redis` and `Step` interleave any number of calls one Redis command at a time;
 leases expire as the clock ticks.
 */
module AccountLocks {
  // ---------------------------------------------------------------- account order

  /** JavaScript's default order on strings: code unit by code unit. */
  predicate Less(a: string, b: string) {
    if b == "" then false
    else if a == "" then true
    else a[0] < b[0] || (a[0] == b[0] && Less(a[1..], b[1..]))
  }

  lemma {:induction false} LessTransitive(a: string, b: string, c: string)
    requires Less(a, b) && Less(b, c)
    ensures Less(a, c)
  {
    if a != "" && a[0] == b[0] == c[0] {
      LessTransitive(a[1..], b[1..], c[1..]);
    }
  }

  lemma {:induction false} LessTotal(a: string, b: string)
    ensures a == b || Less(a, b) || Less(b, a)
  {
    if a != "" && b != "" && a[0] == b[0] {
      LessTotal(a[1..], b[1..]);
      assert a == [a[0]] + a[1..] && b == [b[0]] + b[1..];
    }
  }

  lemma {:induction false} LessIrreflexive(a: string)
    ensures !Less(a, a)
  {
    if a != "" {
      LessIrreflexive(a[1..]);
    }
  }

  /** `a` comes before `b` at the first place where they differ, or is a proper beginning of it. */
  lemma {:induction false} LessIff(a: string, b: string)
    ensures Less(a, b) <==> exists k :: FirstDifference(a, b, k)
  {
    if a != "" && b != "" && a[0] == b[0] {
      LessIff(a[1..], b[1..]);
      if Less(a, b) {
        var k :| FirstDifference(a[1..], b[1..], k);
        assert a[..k + 1] == [a[0]] + a[1..][..k] && b[..k + 1] == [b[0]] + b[1..][..k];
        assert FirstDifference(a, b, k + 1);
      } else if k :| FirstDifference(a, b, k) {
        assert k > 0;
        assert a[1..][..k - 1] == a[..k][1..] && b[1..][..k - 1] == b[..k][1..];
        assert FirstDifference(a[1..], b[1..], k - 1);
      }
    } else if Less(a, b) {
      assert FirstDifference(a, b, 0);
    }
  }

  predicate FirstDifference(a: string, b: string, k: int) {
    0 <= k <= |a| && k < |b| && a[..k] == b[..k] && (k == |a| || a[k] < b[k])
  }

  predicate Ascending(accounts: seq<string>) {
    forall i, j :: 0 <= i < j < |accounts| ==> Less(accounts[i], accounts[j])
  }

  function Insert(account: string, sorted: seq<string>): seq<string> {
    if sorted == [] then [account]
    else if account == sorted[0] then sorted
    else if Less(account, sorted[0]) then [account] + sorted
    else [sorted[0]] + Insert(account, sorted[1..])
  }

  /** The accounts to lock: empty ones dropped, duplicates dropped, the rest sorted. */
  function SortedAccounts(input: seq<string>): seq<string> {
    if input == [] then []
    else if input[0] == "" then SortedAccounts(input[1..])
    else Insert(input[0], SortedAccounts(input[1..]))
  }

  lemma {:induction false} InsertSorts(account: string, sorted: seq<string>)
    requires Ascending(sorted)
    ensures Ascending(Insert(account, sorted))
    ensures forall a :: a in Insert(account, sorted) <==> a == account || a in sorted
  {
    if sorted != [] && account != sorted[0] {
      if Less(account, sorted[0]) {
        forall j | 0 <= j < |sorted| ensures Less(account, sorted[j]) {
          if j > 0 {
            LessTransitive(account, sorted[0], sorted[j]);
          }
        }
      } else {
        LessTotal(account, sorted[0]);
        InsertSorts(account, sorted[1..]);
        var rest := Insert(account, sorted[1..]);
        forall j | 0 <= j < |rest| ensures Less(sorted[0], rest[j]) {
          assert rest[j] in rest;
        }
      }
    }
  }

  lemma {:induction false} SortedAccountsSorts(input: seq<string>)
    ensures Ascending(SortedAccounts(input))
    ensures forall a :: a in SortedAccounts(input) <==> a in input && a != ""
  {
    if input != [] {
      SortedAccountsSorts(input[1..]);
      if input[0] != "" {
        InsertSorts(input[0], SortedAccounts(input[1..]));
      }
    }
  }

  // ---------------------------------------------------------------- Redis

  /** A fresh lock value per acquisition: the call that asked, and for which of its accounts. */
  datatype LockId = LockId(call: nat, index: nat)

  datatype Lease = Lease(owner: LockId, expiry: int)

  datatype Redis = Redis(held: map<string, Lease>, now: int)
  {
    predicate Live(key: string) {
      key in held && now < held[key].expiry
    }
  }

  /** `SET key id NX PX ttl`. */
  function SetNx(r: Redis, key: string, id: LockId, ttl: nat): Redis {
    if r.Live(key) then r else r.(held := r.held[key := Lease(id, r.now + ttl)])
  }

  /** The release script: delete the key if it still holds this id. */
  function CompareDelete(r: Redis, key: string, id: LockId): Redis {
    if r.Live(key) && r.held[key].owner == id then r.(held := r.held - {key}) else r
  }

  // ---------------------------------------------------------------- concurrent calls

  datatype Phase = Acquiring | RollingBack(next: nat) | Failed | Running | Releasing(next: nat) | Done

  /** `expiries[i]` is when the lease on `accounts[i]` runs out; it is kept after the release. */
  datatype Call = Call(input: seq<string>, accounts: seq<string>, ttl: nat, expiries: seq<int>, phase: Phase)

  datatype World = World(redis: Redis, calls: map<nat, Call>)

  datatype Event =
    | Enter(call: nat, input: seq<string>, ttl: nat)
    | Advance(call: nat)
    | Tick(elapsed: nat)

  /** The next Redis command, or the next return, of one call. */
  function AdvanceCall(r: Redis, c: nat, call: Call): (Redis, Call) {
    match call.phase
    case Acquiring =>
      var i := |call.expiries|;
      if i >= |call.accounts| then (r, call.(phase := Running))
      else if r.Live(call.accounts[i]) then (r, call.(phase := RollingBack(0)))
      else (SetNx(r, call.accounts[i], LockId(c, i), call.ttl), call.(expiries := call.expiries + [r.now + call.ttl]))
    case RollingBack(i) =>
      if i >= |call.expiries| || i >= |call.accounts| then (r, call.(phase := Failed))
      else (CompareDelete(r, call.accounts[i], LockId(c, i)), call.(phase := RollingBack(i + 1)))
    case Running => (r, call.(phase := Releasing(0)))
    case Releasing(i) =>
      if i >= |call.expiries| || i >= |call.accounts| then (r, call.(phase := Done))
      else (CompareDelete(r, call.accounts[i], LockId(c, i)), call.(phase := Releasing(i + 1)))
    case Failed => (r, call)
    case Done => (r, call)
  }

  function Step(w: World, e: Event): World {
    match e
    case Enter(c, input, ttl) =>
      if c in w.calls then w
      else w.(calls := w.calls[c := Call(input, SortedAccounts(input), ttl, [], Acquiring)])
    case Advance(c) =>
      if c !in w.calls then w
      else
        var (redis, call) := AdvanceCall(w.redis, c, w.calls[c]);
        World(redis, w.calls[c := call])
    case Tick(elapsed) => w.(redis := w.redis.(now := w.redis.now + elapsed))
  }

  function Run(w: World, es: seq<Event>): World
    decreases |es|
  {
    if es == [] then w else Step(Run(w, es[..|es| - 1]), es[|es| - 1])
  }

  /** No key is set and no call has begun. */
  predicate Initial(w: World) {
    w.redis.held == map[] && w.calls == map[]
  }

  predicate Won(call: Call) {
    call.phase.Running? || call.phase.Releasing? || call.phase.Done?
  }

  predicate Lost(call: Call) {
    call.phase.RollingBack? || call.phase.Failed?
  }

  /** How many of its locks a call has released. */
  function Released(call: Call): nat {
    match call.phase
    case RollingBack(i) => i
    case Releasing(i) => i
    case Failed => |call.expiries|
    case Done => |call.expiries|
    case _ => 0
  }

  /** A call's own bookkeeping. */
  ghost predicate CallOk(r: Redis, call: Call) {
    && call.accounts == SortedAccounts(call.input)
    && |call.expiries| <= |call.accounts|
    && (Won(call) ==> |call.expiries| == |call.accounts|)
    && (Lost(call) ==> |call.expiries| < |call.accounts|)
    && (forall i, j :: 0 <= i <= j < |call.expiries| ==> call.expiries[i] <= call.expiries[j] <= r.now + call.ttl)
  }

  /** A lock that was taken and not released is still there until its lease runs out. */
  ghost predicate LocksHeld(r: Redis, c: nat, call: Call)
    requires |call.expiries| <= |call.accounts|
  {
    forall i :: Released(call) <= i < |call.expiries| && r.now < call.expiries[i] ==>
      call.accounts[i] in r.held && r.held[call.accounts[i]] == Lease(LockId(c, i), call.expiries[i])
  }

  /** A key in Redis was set by some call for one of its accounts; once released it can only be expired. */
  ghost predicate KeyOk(w: World, key: string)
    requires key in w.redis.held
  {
    var Lease(LockId(c, i), expiry) := w.redis.held[key];
    && c in w.calls && i < |w.calls[c].expiries| <= |w.calls[c].accounts|
    && w.calls[c].accounts[i] == key && w.calls[c].expiries[i] == expiry
    && (i < Released(w.calls[c]) ==> expiry <= w.redis.now)
  }

  /** Some call took this account, at some time. */
  ghost predicate Taken(w: World, key: string) {
    exists d, i :: TookAt(w, d, i, key)
  }

  predicate TookAt(w: World, d: nat, i: nat, key: string) {
    d in w.calls && i < |w.calls[d].expiries| <= |w.calls[d].accounts| && w.calls[d].accounts[i] == key
  }

  /** The account a call lost on was taken by some call. */
  ghost predicate LostToSomeone(w: World, c: nat)
    requires c in w.calls
  {
    var call := w.calls[c];
    Lost(call) && |call.expiries| < |call.accounts| ==> Taken(w, call.accounts[|call.expiries|])
  }

  ghost predicate Inv(w: World) {
    && (forall c :: c in w.calls ==>
          && CallOk(w.redis, w.calls[c]) && LocksHeld(w.redis, c, w.calls[c]) && LostToSomeone(w, c))
    && (forall key :: key in w.redis.held ==> KeyOk(w, key))
  }

  lemma AscendingDistinct(accounts: seq<string>)
    requires Ascending(accounts)
    ensures forall i, j :: 0 <= i < |accounts| && 0 <= j < |accounts| && i != j ==> accounts[i] != accounts[j]
  {
    forall i, j | 0 <= i < j < |accounts| ensures accounts[i] != accounts[j] {
      LessIrreflexive(accounts[i]);
    }
  }

  lemma AcquireKeepsLocks(r: Redis, c: nat, call: Call)
    requires CallOk(r, call) && LocksHeld(r, c, call) && call.phase.Acquiring?
    ensures var (r', call') := AdvanceCall(r, c, call);
            CallOk(r', call') && LocksHeld(r', c, call')
  {
    SortedAccountsSorts(call.input);
    AscendingDistinct(call.accounts);
  }

  lemma ReleaseKeepsLocks(r: Redis, c: nat, call: Call)
    requires CallOk(r, call) && LocksHeld(r, c, call) && (call.phase.RollingBack? || call.phase.Releasing?)
    ensures var (r', call') := AdvanceCall(r, c, call);
            CallOk(r', call') && LocksHeld(r', c, call')
  {
    SortedAccountsSorts(call.input);
    AscendingDistinct(call.accounts);
    var (r', call') := AdvanceCall(r, c, call);
    assert r' == r || (Released(call) < |call.accounts| && r'.held == r.held - {call.accounts[Released(call)]});
  }

  lemma AdvanceKeepsCall(w: World, c: nat)
    requires Inv(w) && c in w.calls
    ensures var (r, call) := AdvanceCall(w.redis, c, w.calls[c]);
            CallOk(r, call) && LocksHeld(r, c, call) && r.now == w.redis.now
  {
    var call := w.calls[c];
    match call.phase
    case Acquiring => AcquireKeepsLocks(w.redis, c, call);
    case RollingBack(_) => ReleaseKeepsLocks(w.redis, c, call);
    case Releasing(_) => ReleaseKeepsLocks(w.redis, c, call);
    case _ =>
  }

  /** A command never touches a live key of another call. */
  lemma AdvanceSparesOthers(r: Redis, c: nat, call: Call)
    ensures var r' := AdvanceCall(r, c, call).0;
            && r'.now == r.now
            && forall key :: r.Live(key) && r.held[key].owner.call != c ==>
                 key in r'.held && r'.held[key] == r.held[key]
  {
  }

  lemma AdvanceKeepsOthers(w: World, c: nat, d: nat)
    requires Inv(w) && c in w.calls && d in w.calls && c != d
    ensures LocksHeld(AdvanceCall(w.redis, c, w.calls[c]).0, d, w.calls[d])
  {
    assert CallOk(w.redis, w.calls[d]) && LocksHeld(w.redis, d, w.calls[d]);
    AdvanceSparesOthers(w.redis, c, w.calls[c]);
  }

  /** The two ways a key can be in Redis after a command: it was, or this call just set it. */
  lemma KeyAfterAdvance(r: Redis, c: nat, call: Call, key: string)
    requires CallOk(r, call) && key in AdvanceCall(r, c, call).0.held
    ensures var (r', call') := AdvanceCall(r, c, call);
            var i := r'.held[key].owner.index;
            && r'.now == r.now && call'.accounts == call.accounts
            && |call.expiries| <= |call'.expiries| <= |call.accounts|
            && call'.expiries[..|call.expiries|] == call.expiries
            && if key in r.held && r'.held[key] == r.held[key]
               then
                 r'.held[key].owner.call == c
                 && i < Released(call') && i < |call.expiries| && call.accounts[i] == key ==>
                   i < Released(call) || r'.held[key].expiry <= r.now
               else
                 && r'.held[key].owner.call == c && i < |call'.expiries|
                 && call'.accounts[i] == key && call'.expiries[i] == r'.held[key].expiry && Released(call') == 0
  {
  }

  lemma AdvanceKeepsKeys(w: World, c: nat, key: string)
    requires Inv(w) && c in w.calls && key in Step(w, Advance(c)).redis.held
    ensures KeyOk(Step(w, Advance(c)), key)
  {
    assert CallOk(w.redis, w.calls[c]);
    KeyAfterAdvance(w.redis, c, w.calls[c], key);
    if key in w.redis.held {
      assert KeyOk(w, key);
    }
  }

  /** How one command changes what a call has taken and lost. */
  lemma AdvanceTakes(r: Redis, c: nat, call: Call)
    requires CallOk(r, call)
    ensures var call' := AdvanceCall(r, c, call).1;
            && call'.accounts == call.accounts && |call.expiries| <= |call'.expiries| <= |call.accounts|
            && (Lost(call) ==> Lost(call') && call'.expiries == call.expiries)
            && (Lost(call') && !Lost(call) ==>
                  |call'.expiries| < |call.accounts| && r.Live(call.accounts[|call'.expiries|]))
  {
  }

  lemma AdvanceKeepsTaken(w: World, c: nat, key: string)
    requires Inv(w) && c in w.calls && Taken(w, key)
    ensures Taken(Step(w, Advance(c)), key)
  {
    assert CallOk(w.redis, w.calls[c]);
    AdvanceTakes(w.redis, c, w.calls[c]);
    var d, i :| TookAt(w, d, i, key);
    assert TookAt(Step(w, Advance(c)), d, i, key);
  }

  lemma LiveIsTaken(w: World, key: string)
    requires Inv(w) && key in w.redis.held
    ensures Taken(w, key)
  {
    assert KeyOk(w, key);
    var LockId(d, i) := w.redis.held[key].owner;
    assert TookAt(w, d, i, key);
  }

  lemma AdvanceKeepsLost(w: World, c: nat, d: nat)
    requires Inv(w) && c in w.calls && d in w.calls
    ensures LostToSomeone(Step(w, Advance(c)), d)
  {
    assert CallOk(w.redis, w.calls[d]) && LostToSomeone(w, d);
    AdvanceTakes(w.redis, d, w.calls[d]);
    var lost := Step(w, Advance(c)).calls[d];
    if Lost(lost) && |lost.expiries| < |lost.accounts| {
      var key := lost.accounts[|lost.expiries|];
      if c == d && !Lost(w.calls[d]) {
        LiveIsTaken(w, key);
      }
      AdvanceKeepsTaken(w, c, key);
    }
  }

  lemma EnterKeepsInv(w: World, c: nat, input: seq<string>, ttl: nat)
    requires Inv(w)
    ensures Inv(Step(w, Enter(c, input, ttl)))
  {
    var next := Step(w, Enter(c, input, ttl));
    if c !in w.calls {
      forall d | d in w.calls ensures LostToSomeone(next, d) {
        var call := w.calls[d];
        if Lost(call) && |call.expiries| < |call.accounts| {
          var o, i :| TookAt(w, o, i, call.accounts[|call.expiries|]);
          assert TookAt(next, o, i, call.accounts[|call.expiries|]);
        }
      }
      forall key | key in next.redis.held ensures KeyOk(next, key) {
        assert KeyOk(w, key);
      }
    }
  }

  lemma AdvanceKeepsInv(w: World, c: nat)
    requires Inv(w) && c in w.calls
    ensures Inv(Step(w, Advance(c)))
  {
    var next := Step(w, Advance(c));
    AdvanceKeepsCall(w, c);
    forall d | d in next.calls
      ensures CallOk(next.redis, next.calls[d]) && LocksHeld(next.redis, d, next.calls[d]) && LostToSomeone(next, d)
    {
      if d != c {
        AdvanceKeepsOthers(w, c, d);
      }
      AdvanceKeepsLost(w, c, d);
    }
    forall key | key in next.redis.held ensures KeyOk(next, key) {
      AdvanceKeepsKeys(w, c, key);
    }
  }

  lemma TickKeepsInv(w: World, elapsed: nat)
    requires Inv(w)
    ensures Inv(Step(w, Tick(elapsed)))
  {
    var next := Step(w, Tick(elapsed));
    forall d | d in next.calls
      ensures CallOk(next.redis, next.calls[d]) && LocksHeld(next.redis, d, next.calls[d]) && LostToSomeone(next, d)
    {
      assert CallOk(w.redis, w.calls[d]) && LocksHeld(w.redis, d, w.calls[d]) && LostToSomeone(w, d);
      var call := w.calls[d];
      if Lost(call) && |call.expiries| < |call.accounts| {
        var o, i :| TookAt(w, o, i, call.accounts[|call.expiries|]);
        assert TookAt(next, o, i, call.accounts[|call.expiries|]);
      }
    }
    forall key | key in next.redis.held ensures KeyOk(next, key) {
      assert KeyOk(w, key);
    }
  }

  lemma StepKeepsInv(w: World, e: Event)
    requires Inv(w)
    ensures Inv(Step(w, e))
  {
    match e
    case Enter(c, input, ttl) => EnterKeepsInv(w, c, input, ttl);
    case Advance(c) =>
      if c in w.calls {
        AdvanceKeepsInv(w, c);
      }
    case Tick(elapsed) => TickKeepsInv(w, elapsed);
  }

  lemma {:induction false} RunKeepsInv(w: World, es: seq<Event>)
    requires Initial(w)
    ensures Inv(Run(w, es))
  {
    if es != [] {
      RunKeepsInv(w, es[..|es| - 1]);
      StepKeepsInv(Run(w, es[..|es| - 1]), es[|es| - 1]);
    }
  }

  // ---------------------------------------------------------------- what the locks promise

  /** The instant at which the first lock a call took runs out. */
  predicate WithinEarliestLease(r: Redis, call: Call) {
    |call.expiries| > 0 && r.now < call.expiries[0]
  }

  lemma OwnsWithinLease(w: World, c: nat, account: string)
    requires Inv(w) && c in w.calls && w.calls[c].phase.Running? && account in w.calls[c].accounts
    requires WithinEarliestLease(w.redis, w.calls[c])
    ensures account in w.redis.held && w.redis.held[account].owner.call == c
  {
    var call := w.calls[c];
    var i :| 0 <= i < |call.accounts| && call.accounts[i] == account;
    assert call.expiries[0] <= call.expiries[i];
  }

  /** Two callbacks that share an account never run at once within their earliest leases. */
  lemma MutualExclusion(w: World, es: seq<Event>, c: nat, d: nat, account: string)
    requires Initial(w)
    requires var end := Run(w, es);
             && c in end.calls && d in end.calls && c != d
             && end.calls[c].phase.Running? && end.calls[d].phase.Running?
             && account in end.calls[c].accounts && account in end.calls[d].accounts
    ensures var end := Run(w, es);
            !(WithinEarliestLease(end.redis, end.calls[c]) && WithinEarliestLease(end.redis, end.calls[d]))
  {
    var end := Run(w, es);
    RunKeepsInv(w, es);
    if WithinEarliestLease(end.redis, end.calls[c]) {
      OwnsWithinLease(end, c, account);
    }
    if WithinEarliestLease(end.redis, end.calls[d]) {
      OwnsWithinLease(end, d, account);
    }
  }

  /**
   All or nothing.  A call that wins has one lease per distinct non-empty account,
   in strictly ascending order, each still in Redis unless it has run out; a call
   that has failed owns no live key.
   */
  lemma AllOrNothing(w: World, es: seq<Event>, c: nat)
    requires Initial(w) && c in Run(w, es).calls
    ensures var end := Run(w, es);
            var call := end.calls[c];
            && Ascending(call.accounts)
            && (forall a :: a in call.accounts <==> a in call.input && a != "")
            && (call.phase.Running? ==>
                  && |call.expiries| == |call.accounts|
                  && forall i :: 0 <= i < |call.accounts| && end.redis.now < call.expiries[i] ==>
                       call.accounts[i] in end.redis.held
                       && end.redis.held[call.accounts[i]] == Lease(LockId(c, i), call.expiries[i]))
            && (call.phase.Failed? || call.phase.Done? ==>
                  forall key :: end.redis.Live(key) ==> end.redis.held[key].owner.call != c)
  {
    var end := Run(w, es);
    RunKeepsInv(w, es);
    SortedAccountsSorts(end.calls[c].input);
    assert LocksHeld(end.redis, c, end.calls[c]);
    forall key | end.redis.Live(key) && (end.calls[c].phase.Failed? || end.calls[c].phase.Done?)
      ensures end.redis.held[key].owner.call != c
    {
      assert KeyOk(end, key);
    }
  }

  /**
   A lease survives everything other calls do: whatever they set, release or roll
   back, it stands until its owner acts or its time runs out.
   */
  lemma {:induction false} LeaseSurvivesOthers(w: World, es: seq<Event>, key: string)
    requires key in w.redis.held && Run(w, es).redis.now < w.redis.held[key].expiry
    requires forall i :: 0 <= i < |es| && es[i].Advance? ==> es[i].call != w.redis.held[key].owner.call
    ensures key in Run(w, es).redis.held && Run(w, es).redis.held[key] == w.redis.held[key]
  {
    if es != [] {
      var before := Run(w, es[..|es| - 1]);
      assert before.redis.now <= Run(w, es).redis.now;
      LeaseSurvivesOthers(w, es[..|es| - 1], key);
      assert es[|es| - 1].Advance? ==> es[|es| - 1].call != w.redis.held[key].owner.call;
    }
  }

  /**
   Exactly when a call loses: when the account it has come to is leased and the lease has not
   run out.  Otherwise it has it, for its full time to live, whoever had it before.
   */
  lemma LosesIffLeased(w: World, c: nat)
    requires c in w.calls && w.calls[c].phase.Acquiring? && |w.calls[c].expiries| < |w.calls[c].accounts|
    ensures var call, next := w.calls[c], Step(w, Advance(c));
            var account := call.accounts[|call.expiries|];
            && (Lost(next.calls[c]) <==> account in w.redis.held && w.redis.now < w.redis.held[account].expiry)
            && (if Lost(next.calls[c]) then next.redis == w.redis
                else
                  && next.redis.now == w.redis.now
                  && next.redis.held
                     == w.redis.held[account := Lease(LockId(c, |call.expiries|), w.redis.now + call.ttl)])
  {
  }

  /** A command that gives a lock back takes its key out, unless it lapsed or is another's by now. */
  lemma GivesBackIffOwned(w: World, c: nat)
    requires c in w.calls && (w.calls[c].phase.RollingBack? || w.calls[c].phase.Releasing?)
    requires w.calls[c].phase.next < |w.calls[c].expiries| && w.calls[c].phase.next < |w.calls[c].accounts|
    ensures var next := Step(w, Advance(c));
            var account, mine := w.calls[c].accounts[w.calls[c].phase.next], LockId(c, w.calls[c].phase.next);
            && next.redis.now == w.redis.now
            && next.redis.held == if account in w.redis.held && w.redis.now < w.redis.held[account].expiry
                                     && w.redis.held[account].owner == mine
                                  then w.redis.held - {account} else w.redis.held
  {
  }

  /** Neither acquiring nor rolling back. */
  predicate Settled(call: Call) {
    Won(call) || call.phase.Failed?
  }

  /** Among the failed calls, one whose losing account no other failed call's exceeds. */
  lemma {:induction false} GreatestLoss(w: World, ids: set<nat>) returns (c: nat)
    requires ids != {} && forall d :: d in ids ==> d in w.calls && |w.calls[d].expiries| < |w.calls[d].accounts|
    ensures c in ids
    ensures forall d :: d in ids ==>
      !Less(w.calls[c].accounts[|w.calls[c].expiries|], w.calls[d].accounts[|w.calls[d].expiries|])
    decreases |ids|
  {
    c :| c in ids;
    LessIrreflexive(w.calls[c].accounts[|w.calls[c].expiries|]);
    if ids != {c} {
      assert |ids - {c}| < |ids|;
      assert ids == {c} + (ids - {c});
      var d := GreatestLoss(w, ids - {c});
      var lostC := w.calls[c].accounts[|w.calls[c].expiries|];
      var lostD := w.calls[d].accounts[|w.calls[d].expiries|];
      if Less(lostC, lostD) {
        forall x | x in ids ensures !Less(lostD, w.calls[x].accounts[|w.calls[x].expiries|]) {
          if x == c && Less(lostD, lostC) {
            LessTransitive(lostC, lostD, lostC);
          }
        }
        c := d;
      } else {
        forall x | x in ids ensures !Less(lostC, w.calls[x].accounts[|w.calls[x].expiries|]) {
          var lostX := w.calls[x].accounts[|w.calls[x].expiries|];
          if x != c && Less(lostC, lostX) {
            assert x in ids - {c};
            LessTotal(lostC, lostD);
            if lostC != lostD {
              LessTransitive(lostD, lostC, lostX);
            }
          }
        }
      }
    }
  }

  /**
   Some caller wins.  In every schedule, once all the calls that began have
   either won or failed, at least one has won: a call that failed lost to one that
   held a smaller account and went on to a greater one.  Leases may even expire.
   */
  lemma SomeCallerWins(w: World, es: seq<Event>)
    requires Initial(w) && Run(w, es).calls != map[]
    requires forall c :: c in Run(w, es).calls ==> Settled(Run(w, es).calls[c])
    ensures exists c :: c in Run(w, es).calls && Won(Run(w, es).calls[c])
  {
    var end := Run(w, es);
    RunKeepsInv(w, es);
    var lost := set c | c in end.calls && Lost(end.calls[c]);
    if lost == {} {
      var c :| c in end.calls;
      assert c !in lost;
      assert Won(end.calls[c]);
    } else {
      var c := GreatestLoss(end, lost);
      assert LostToSomeone(end, c);
      var d, i :| TookAt(end, d, i, end.calls[c].accounts[|end.calls[c].expiries|]);
      HolderWentFurther(end, d, i);
      assert d !in lost;
      assert Won(end.calls[d]);
    }
  }

  /** A call that took an account and then lost, lost on a greater one. */
  lemma HolderWentFurther(w: World, d: nat, i: nat)
    requires Inv(w) && d in w.calls && i < |w.calls[d].expiries|
    ensures Lost(w.calls[d]) ==>
      Less(w.calls[d].accounts[i], w.calls[d].accounts[|w.calls[d].expiries|])
  {
    SortedAccountsSorts(w.calls[d].input);
  }

  /** Statements a call has left before it has won or failed. */
  function Work(call: Call): nat {
    match call.phase
    case Acquiring =>
      2 + |call.accounts| + (if |call.expiries| <= |call.accounts| then |call.accounts| - |call.expiries| else 0)
    case RollingBack(i) => 1 + if i <= |call.accounts| then |call.accounts| - i else 0
    case _ => 0
  }

  /** Nobody ever waits: each statement of an unsettled call brings it nearer to its end. */
  lemma AdvanceMakesProgress(w: World, c: nat)
    requires Inv(w) && c in w.calls && !Settled(w.calls[c])
    ensures Work(Step(w, Advance(c)).calls[c]) < Work(w.calls[c])
    ensures Work(Step(w, Advance(c)).calls[c]) == 0 <==> Settled(Step(w, Advance(c)).calls[c])
  {
  }
}
