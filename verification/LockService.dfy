/**
 The lock service as it is written: loops over Redis commands, with whatever
 other callers do between one command and the next.
 */
module LockServices {
  import opened Wrappers
  import opened AccountLocks

  /** What another caller, or the clock, does while this call awaits. */
  datatype Command =
    | Set(key: string, id: LockId, ttl: nat)
    | Release(key: string, id: LockId)
    | Elapse(ms: nat)

  function Apply(r: Redis, command: Command): Redis {
    match command
    case Set(key, id, ttl) => SetNx(r, key, id, ttl)
    case Release(key, id) => CompareDelete(r, key, id)
    case Elapse(ms) => r.(now := r.now + ms)
  }

  function ApplyAll(r: Redis, commands: seq<Command>): Redis
    decreases |commands|
  {
    if commands == [] then r else Apply(ApplyAll(r, commands[..|commands| - 1]), commands[|commands| - 1])
  }

  /** What Redis holds when the first `k` locks have just been taken. */
  function AfterLocks(r: Redis, call: nat, sorted: seq<string>, ttl: nat, others: nat -> seq<Command>, k: nat): Redis
    requires k <= |sorted|
  {
    if k == 0 then r
    else
      var awaited := ApplyAll(AfterLocks(r, call, sorted, ttl, others, k - 1), others(k - 1));
      SetNx(awaited, sorted[k - 1], LockId(call, k - 1), ttl)
  }

  /** What it holds when the call, after the await that follows, comes to its `k`-th lock. */
  function AtLock(r: Redis, call: nat, sorted: seq<string>, ttl: nat, others: nat -> seq<Command>, k: nat): Redis
    requires k <= |sorted|
  {
    ApplyAll(AfterLocks(r, call, sorted, ttl, others, k), others(k))
  }

  /** Redis answers OK to the `k`-th lock: nobody has the key, and the command and its reply get through. */
  predicate Granted(r: Redis, call: nat, sorted: seq<string>, ttl: nat, others: nat -> seq<Command>,
                    deliveries: nat -> Delivery, k: nat)
    requires k < |sorted|
  {
    deliveries(k) == Works && !AtLock(r, call, sorted, ttl, others, k).Live(sorted[k])
  }

  ghost predicate GrantedUpTo(r: Redis, call: nat, sorted: seq<string>, ttl: nat, others: nat -> seq<Command>,
                              deliveries: nat -> Delivery, n: nat)
  {
    n <= |sorted| && forall k :: 0 <= k < n ==> Granted(r, call, sorted, ttl, others, deliveries, k)
  }

  /** The `k`-th lock is the first that is not granted. */
  ghost predicate FailedAt(r: Redis, call: nat, sorted: seq<string>, ttl: nat, others: nat -> seq<Command>,
                           deliveries: nat -> Delivery, k: nat)
  {
    && k < |sorted| && GrantedUpTo(r, call, sorted, ttl, others, deliveries, k)
    && !Granted(r, call, sorted, ttl, others, deliveries, k)
  }

  /** What Redis holds when a call has failed at its `k`-th lock: the command may have reached Redis all the same. */
  function AfterRefusal(r: Redis, call: nat, sorted: seq<string>, ttl: nat, others: nat -> seq<Command>,
                        delivery: Delivery, k: nat): Redis
    requires k < |sorted|
  {
    var asked := AtLock(r, call, sorted, ttl, others, k);
    if delivery == NotApplied then asked else SetNx(asked, sorted[k], LockId(call, k), ttl)
  }

  /**
   What it holds when the first `k` locks have then been released, in order; the call had
   awaited `base` commands before.
   */
  function AfterReleases(r: Redis, call: nat, sorted: seq<string>, others: nat -> seq<Command>,
                         deliveries: nat -> Delivery, base: nat, k: nat): Redis
    requires k <= |sorted|
  {
    if k == 0 then r
    else
      var awaited := ApplyAll(AfterReleases(r, call, sorted, others, deliveries, base, k - 1), others(base + k - 1));
      if deliveries(base + k - 1) == NotApplied then awaited
      else CompareDelete(awaited, sorted[k - 1], LockId(call, k - 1))
  }

  /** What a call leaves that failed at its `k`-th lock: those before it are released again. */
  function RolledBack(r: Redis, call: nat, sorted: seq<string>, ttl: nat, others: nat -> seq<Command>,
                      deliveries: nat -> Delivery, k: nat): Redis
    requires k < |sorted|
  {
    AfterReleases(AfterRefusal(r, call, sorted, ttl, others, deliveries(k), k), call, sorted, others, deliveries,
                  k + 1, k)
  }

  /**
   The `k`-th lock in its turn: what others do while it is awaited comes first, all of it and
   in order; then the command, which is granted exactly when Redis gets it, the reply comes
   through, and no lease on the account is still running.
   */
  lemma EachLockInTurn(r: Redis, call: nat, sorted: seq<string>, ttl: nat, others: nat -> seq<Command>,
                       deliveries: nat -> Delivery, k: nat)
    requires k < |sorted|
    ensures AfterLocks(r, call, sorted, ttl, others, 0) == r
    ensures var found := ApplyAll(AfterLocks(r, call, sorted, ttl, others, k), others(k));
            var leased := sorted[k] in found.held && found.now < found.held[sorted[k]].expiry;
            var taken := Redis(found.held[sorted[k] := Lease(LockId(call, k), found.now + ttl)], found.now);
            && (Granted(r, call, sorted, ttl, others, deliveries, k) <==> deliveries(k) == Works && !leased)
            && AfterLocks(r, call, sorted, ttl, others, k + 1) == (if leased then found else taken)
            && AfterRefusal(r, call, sorted, ttl, others, deliveries(k), k)
               == match deliveries(k)
                  case NotApplied => found
                  case _ => if leased then found else taken
  {
  }

  /** The same for the `k`-th release, which takes out the call's own lease and no other. */
  lemma EachReleaseInTurn(r: Redis, call: nat, sorted: seq<string>, others: nat -> seq<Command>,
                          deliveries: nat -> Delivery, base: nat, k: nat)
    requires k < |sorted|
    ensures AfterReleases(r, call, sorted, others, deliveries, base, 0) == r
    ensures var found := ApplyAll(AfterReleases(r, call, sorted, others, deliveries, base, k), others(base + k));
            var mine := sorted[k] in found.held && found.now < found.held[sorted[k]].expiry
              && found.held[sorted[k]].owner == LockId(call, k);
            AfterReleases(r, call, sorted, others, deliveries, base, k + 1)
            == match deliveries(base + k)
               case NotApplied => found
               case _ => if mine then Redis(found.held - {sorted[k]}, found.now) else found
  {
    assert base + (k + 1) - 1 == base + k;
  }

  /** What others do takes effect, command after command. */
  lemma CommandTakesEffect(r: Redis, commands: seq<Command>, command: Command)
    ensures ApplyAll(r, []) == r
    ensures var before, after := ApplyAll(r, commands), ApplyAll(r, commands + [command]);
            match command
            case Set(key, id, ttl) =>
              after == (if key in before.held && before.now < before.held[key].expiry then before
                        else Redis(before.held[key := Lease(id, before.now + ttl)], before.now))
            case Release(key, id) =>
              after == (if key in before.held && before.now < before.held[key].expiry && before.held[key].owner == id
                        then Redis(before.held - {key}, before.now) else before)
            case Elapse(ms) => after == Redis(before.held, before.now + ms)
  {
    assert (commands + [command])[..|commands|] == commands;
  }

  // ---------------------------------------------------------------- a call that nobody disturbs

  ghost predicate NobodyElse(others: nat -> seq<Command>, deliveries: nat -> Delivery) {
    forall k: nat :: others(k) == [] && deliveries(k) == Works
  }

  /** Redis with the first `k` accounts leased to the call. */
  ghost predicate LeasedTo(r: Redis, call: nat, sorted: seq<string>, ttl: nat, k: nat, after: Redis)
    requires k <= |sorted|
  {
    && after.now == r.now
    && (forall key :: key in after.held <==> key in r.held || key in sorted[..k])
    && (forall i :: 0 <= i < k ==> after.held[sorted[i]] == Lease(LockId(call, i), r.now + ttl))
    && (forall key :: key in r.held && key !in sorted[..k] ==> after.held[key] == r.held[key])
  }

  lemma LeasedOneMore(r: Redis, call: nat, sorted: seq<string>, ttl: nat, k: nat, before: Redis)
    requires k < |sorted| && Distinct(sorted) && LeasedTo(r, call, sorted, ttl, k, before)
    ensures LeasedTo(r, call, sorted, ttl, k + 1,
                     Redis(before.held[sorted[k] := Lease(LockId(call, k), before.now + ttl)], before.now))
  {
    assert sorted[..k + 1] == sorted[..k] + [sorted[k]];
  }

  /** With the first `k` taken, the next is free, and is taken. */
  lemma UndisturbedTake(r: Redis, call: nat, sorted: seq<string>, ttl: nat, others: nat -> seq<Command>,
                        deliveries: nat -> Delivery, k: nat)
    requires NobodyElse(others, deliveries) && Distinct(sorted) && k < |sorted| && !r.Live(sorted[k])
    requires LeasedTo(r, call, sorted, ttl, k, AfterLocks(r, call, sorted, ttl, others, k))
    ensures Granted(r, call, sorted, ttl, others, deliveries, k)
    ensures LeasedTo(r, call, sorted, ttl, k + 1, AfterLocks(r, call, sorted, ttl, others, k + 1))
  {
    var before := AfterLocks(r, call, sorted, ttl, others, k);
    assert ApplyAll(before, others(k)) == before;
    assert !before.Live(sorted[k]) by {
      assert sorted[k] !in sorted[..k];
    }
    EachLockInTurn(r, call, sorted, ttl, others, deliveries, k);
    LeasedOneMore(r, call, sorted, ttl, k, before);
  }

  /** The first `k` accounts were granted and are leased. */
  ghost predicate AllTaken(r: Redis, call: nat, sorted: seq<string>, ttl: nat, others: nat -> seq<Command>,
                           deliveries: nat -> Delivery, k: nat)
  {
    && GrantedUpTo(r, call, sorted, ttl, others, deliveries, k)
    && LeasedTo(r, call, sorted, ttl, k, AfterLocks(r, call, sorted, ttl, others, k))
  }

  lemma TakesNone(r: Redis, call: nat, sorted: seq<string>, ttl: nat, others: nat -> seq<Command>,
                  deliveries: nat -> Delivery)
    ensures AllTaken(r, call, sorted, ttl, others, deliveries, 0)
  {
  }

  lemma TakesOneMore(r: Redis, call: nat, sorted: seq<string>, ttl: nat, others: nat -> seq<Command>,
                     deliveries: nat -> Delivery, k: nat)
    requires NobodyElse(others, deliveries) && Distinct(sorted) && k < |sorted| && !r.Live(sorted[k])
    requires AllTaken(r, call, sorted, ttl, others, deliveries, k)
    ensures AllTaken(r, call, sorted, ttl, others, deliveries, k + 1)
  {
    UndisturbedTake(r, call, sorted, ttl, others, deliveries, k);
  }

  lemma {:induction false} UndisturbedTakes(r: Redis, call: nat, sorted: seq<string>, ttl: nat,
                                            others: nat -> seq<Command>, deliveries: nat -> Delivery, k: nat)
    requires NobodyElse(others, deliveries) && Distinct(sorted) && k <= |sorted|
    requires forall i :: 0 <= i < k ==> !r.Live(sorted[i])
    ensures AllTaken(r, call, sorted, ttl, others, deliveries, k)
  {
    if k == 0 {
      TakesNone(r, call, sorted, ttl, others, deliveries);
    } else {
      UndisturbedTakes(r, call, sorted, ttl, others, deliveries, k - 1);
      assert AllTaken(r, call, sorted, ttl, others, deliveries, k) by {
        TakesOneMore(r, call, sorted, ttl, others, deliveries, k - 1);
      }
    }
  }

  /** Redis without the first `k` accounts. */
  function Without(r: Redis, sorted: seq<string>, k: nat): Redis
    requires k <= |sorted|
  {
    Redis(map key | key in r.held && key !in sorted[..k] :: r.held[key], r.now)
  }

  lemma WithoutOneMore(r: Redis, sorted: seq<string>, k: nat)
    requires k < |sorted| && Distinct(sorted)
    ensures Without(r, sorted, k + 1) == Redis(Without(r, sorted, k).held - {sorted[k]}, r.now)
    ensures sorted[k] in r.held ==>
      sorted[k] in Without(r, sorted, k).held && Without(r, sorted, k).held[sorted[k]] == r.held[sorted[k]]
  {
    assert sorted[..k + 1] == sorted[..k] + [sorted[k]];
    assert sorted[k] !in sorted[..k];
  }

  lemma {:induction false} UndisturbedGivesBack(r: Redis, call: nat, sorted: seq<string>, others: nat -> seq<Command>,
                                                deliveries: nat -> Delivery, base: nat, k: nat)
    requires NobodyElse(others, deliveries) && Distinct(sorted) && k <= |sorted|
    requires forall i :: 0 <= i < k ==> r.Live(sorted[i]) && r.held[sorted[i]].owner == LockId(call, i)
    ensures AfterReleases(r, call, sorted, others, deliveries, base, k) == Without(r, sorted, k)
  {
    if k > 0 {
      UndisturbedGivesBack(r, call, sorted, others, deliveries, base, k - 1);
      assert ApplyAll(Without(r, sorted, k - 1), others(base + (k - 1))) == Without(r, sorted, k - 1);
      EachReleaseInTurn(r, call, sorted, others, deliveries, base, k - 1);
      WithoutOneMore(r, sorted, k - 1);
    } else {
      assert Without(r, sorted, 0) == r;
    }
  }

  /**
   A call that nobody disturbs, on free accounts, has them all, each leased from now on for
   the time to live, and leaves none of them, and everything else as it was.
   */
  lemma UndisturbedCall(r: Redis, call: nat, sorted: seq<string>, ttl: nat,
                        others: nat -> seq<Command>, deliveries: nat -> Delivery)
    requires NobodyElse(others, deliveries) && Distinct(sorted) && ttl > 0
    requires forall i :: 0 <= i < |sorted| ==> !r.Live(sorted[i])
    ensures var began := AfterLocks(r, call, sorted, ttl, others, |sorted|);
            && GrantedUpTo(r, call, sorted, ttl, others, deliveries, |sorted|)
            && began.now == r.now
            && (forall i :: 0 <= i < |sorted| ==>
                  sorted[i] in began.held && began.held[sorted[i]] == Lease(LockId(call, i), r.now + ttl))
            && AfterReleases(began, call, sorted, others, deliveries, |sorted|, |sorted|)
               == Without(r, sorted, |sorted|)
  {
    var began := AfterLocks(r, call, sorted, ttl, others, |sorted|);
    assert sorted[..|sorted|] == sorted;
    UndisturbedTakes(r, call, sorted, ttl, others, deliveries, |sorted|);
    UndisturbedGivesBack(began, call, sorted, others, deliveries, |sorted|, |sorted|);
    assert Without(began, sorted, |sorted|).held == Without(r, sorted, |sorted|).held;
  }

  /** One that nobody disturbs, but whose `k`-th account is somebody else's, leaves none of those before it. */
  lemma UndisturbedRefusal(r: Redis, call: nat, sorted: seq<string>, ttl: nat,
                           others: nat -> seq<Command>, deliveries: nat -> Delivery, k: nat)
    requires NobodyElse(others, deliveries) && Distinct(sorted) && ttl > 0 && k < |sorted|
    requires r.Live(sorted[k]) && forall i :: 0 <= i < k ==> !r.Live(sorted[i])
    ensures FailedAt(r, call, sorted, ttl, others, deliveries, k)
    ensures RolledBack(r, call, sorted, ttl, others, deliveries, k) == Without(r, sorted, k)
  {
    var taken := AfterLocks(r, call, sorted, ttl, others, k);
    UndisturbedTakes(r, call, sorted, ttl, others, deliveries, k);
    assert taken.Live(sorted[k]) && ApplyAll(taken, others(k)) == taken by {
      assert sorted[k] !in sorted[..k];
    }
    EachLockInTurn(r, call, sorted, ttl, others, deliveries, k);
    UndisturbedGivesBack(taken, call, sorted, others, deliveries, k + 1, k);
    assert Without(taken, sorted, k).held == Without(r, sorted, k).held;
  }

  /** Only the accounts that are released count. */
  lemma {:induction false} ReleasesPrefix(r: Redis, call: nat, sorted: seq<string>, others: nat -> seq<Command>,
                                          deliveries: nat -> Delivery, base: nat, k: nat, n: nat)
    requires k <= n <= |sorted|
    ensures AfterReleases(r, call, sorted[..n], others, deliveries, base, k)
         == AfterReleases(r, call, sorted, others, deliveries, base, k)
  {
    if k > 0 {
      ReleasesPrefix(r, call, sorted, others, deliveries, base, k - 1, n);
    }
  }

  /** Lock values are fresh, so nobody else presents this call's. */
  predicate Foreign(command: Command, call: nat) {
    command.Elapse? || command.id.call != call
  }

  datatype Lock = Lock(key: string, id: LockId, expiry: int)

  /** The lock is in Redis unless its lease has run out. */
  predicate Holds(r: Redis, lock: Lock) {
    r.now < lock.expiry ==> lock.key in r.held && r.held[lock.key] == Lease(lock.id, lock.expiry)
  }

  /** A command that reaches Redis or not, and whose reply arrives or not. */
  datatype Delivery = Works | NotApplied | ReplyLost

  /** The live keys of a call are these locks and orphans: keys whose fate the call did not learn. */
  ghost predicate OwnsOnly(r: Redis, call: nat, locks: seq<Lock>, orphans: set<LockId>) {
    forall key :: r.Live(key) && r.held[key].owner.call == call ==>
      r.held[key].owner in orphans
      || exists i :: 0 <= i < |locks| && locks[i].key == key && locks[i].id == r.held[key].owner
  }

  /** One of the first `n` locks of a call, whose release did not reach Redis; `base` commands came before. */
  predicate ReleaseLost(id: LockId, call: nat, n: nat, base: nat, deliveries: nat -> Delivery) {
    id.call == call && id.index < n && deliveries(base + id.index) == NotApplied
  }

  /**
   A call that failed at its `k`-th lock orphaned that lock only if the reply was lost, and
   an earlier one only if its release, `k + 1` commands later, did not reach Redis.
   */
  ghost predicate OrphanedByRollback(before: set<LockId>, after: set<LockId>, call: nat, k: nat,
                                     deliveries: nat -> Delivery)
  {
    forall id :: id in after && id !in before ==>
      || (id == LockId(call, k) && deliveries(k) == ReplyLost)
      || ReleaseLost(id, call, k, k + 1, deliveries)
  }

  /** Every new orphan is one of the first `n` locks, whose release, the `base`-th command on, did not reach Redis. */
  ghost predicate OrphanedByRelease(before: set<LockId>, after: set<LockId>, call: nat, n: nat, base: nat,
                                    deliveries: nat -> Delivery)
  {
    forall id :: id in after && id !in before ==> ReleaseLost(id, call, n, base, deliveries)
  }

  predicate AllWork(deliveries: nat -> Delivery, base: nat, n: nat) {
    forall i :: base <= i < base + n ==> deliveries(i) == Works
  }

  lemma OneMoreRelease(before: set<LockId>, lost: set<LockId>, after: set<LockId>, call: nat, k: nat, base: nat,
                       id: LockId, deliveries: nat -> Delivery)
    requires OrphanedByRelease(before, lost, call, k, base, deliveries) && id == LockId(call, k)
    requires after == lost + if deliveries(base + k) == NotApplied then {id} else {}
    ensures OrphanedByRelease(before, after, call, k + 1, base, deliveries)
  {
  }

  /** Locks of one call: one per account, each with its own value. */
  predicate LocksOf(call: nat, locks: seq<Lock>) {
    && (forall i :: 0 <= i < |locks| ==> locks[i].id == LockId(call, i))
    && (forall i, j :: 0 <= i < j < |locks| ==> locks[i].key != locks[j].key)
  }

  /** The locks are those of the first accounts, in order. */
  predicate IsPrefix(locks: seq<Lock>, accounts: seq<string>) {
    |locks| <= |accounts| && forall i :: 0 <= i < |locks| ==> locks[i].key == accounts[i]
  }

  function KeysOf(locks: seq<Lock>): (keys: seq<string>)
    ensures |keys| == |locks| && forall i :: 0 <= i < |locks| ==> keys[i] == locks[i].key
  {
    seq(|locks|, i requires 0 <= i < |locks| => locks[i].key)
  }

  /** The locks of a call are in Redis unless they lapsed, and it owns no others but orphans. */
  ghost predicate HoldsAll(r: Redis, call: nat, locks: seq<Lock>, orphans: set<LockId>) {
    && LocksOf(call, locks) && OwnsOnly(r, call, locks, orphans)
    && forall i :: 0 <= i < |locks| ==> Holds(r, locks[i])
  }

  /**
   From `start` on, a call has taken the first of its locks, one by one and each granted: it
   holds them, and Redis is as that and what others did made it.
   */
  ghost predicate HasTaken(start: Redis, r: Redis, call: nat, sorted: seq<string>, ttl: nat,
                           others: nat -> seq<Command>, deliveries: nat -> Delivery, locks: seq<Lock>,
                           orphans: set<LockId>)
  {
    && IsPrefix(locks, sorted) && HoldsAll(r, call, locks, orphans)
    && GrantedUpTo(start, call, sorted, ttl, others, deliveries, |locks|)
    && r == AfterLocks(start, call, sorted, ttl, others, |locks|)
  }

  /**
   From `start` on, a call was granted its first `k` locks and not the next, and has given them
   back: it owns no live key but orphans, and new ones of these only for a reply or a roll-back
   that was lost; Redis is as all that and what others did made it.
   */
  ghost predicate HasFailed(start: Redis, r: Redis, call: nat, sorted: seq<string>, ttl: nat,
                            others: nat -> seq<Command>, deliveries: nat -> Delivery, k: nat,
                            before: set<LockId>, orphans: set<LockId>)
  {
    && FailedAt(start, call, sorted, ttl, others, deliveries, k)
    && r == RolledBack(start, call, sorted, ttl, others, deliveries, k)
    && OwnsOnly(r, call, [], orphans) && before <= orphans
    && OrphanedByRollback(before, orphans, call, k, deliveries)
  }

  lemma GrantedOneMore(r: Redis, call: nat, sorted: seq<string>, ttl: nat, others: nat -> seq<Command>,
                       deliveries: nat -> Delivery, k: nat)
    requires k < |sorted| && GrantedUpTo(r, call, sorted, ttl, others, deliveries, k)
    requires Granted(r, call, sorted, ttl, others, deliveries, k)
    ensures GrantedUpTo(r, call, sorted, ttl, others, deliveries, k + 1)
  {
  }

  lemma TookNext(start: Redis, was: Redis, r: Redis, call: nat, sorted: seq<string>, ttl: nat,
                 others: nat -> seq<Command>, deliveries: nat -> Delivery, acquired: seq<Lock>, lock: Lock,
                 orphans: set<LockId>)
    requires |acquired| < |sorted| && lock.key == sorted[|acquired|] && deliveries(|acquired|) == Works
    requires HasTaken(start, was, call, sorted, ttl, others, deliveries, acquired, orphans)
    requires !ApplyAll(was, others(|acquired|)).Live(lock.key)
    requires r == SetNx(ApplyAll(was, others(|acquired|)), lock.key, LockId(call, |acquired|), ttl)
    requires HoldsAll(r, call, acquired + [lock], orphans)
    ensures HasTaken(start, r, call, sorted, ttl, others, deliveries, acquired + [lock], orphans)
  {
    var k, more := |acquired|, acquired + [lock];
    assert IsPrefix(more, sorted);
    assert Granted(start, call, sorted, ttl, others, deliveries, k)
           && AfterLocks(start, call, sorted, ttl, others, k + 1) == r by {
      EachLockInTurn(start, call, sorted, ttl, others, deliveries, k);
    }
    GrantedOneMore(start, call, sorted, ttl, others, deliveries, k);
  }

  lemma RefusedNext(start: Redis, was: Redis, r: Redis, call: nat, sorted: seq<string>, ttl: nat,
                    others: nat -> seq<Command>, deliveries: nat -> Delivery, k: nat)
    requires k < |sorted| && GrantedUpTo(start, call, sorted, ttl, others, deliveries, k)
    requires was == AfterLocks(start, call, sorted, ttl, others, k)
    requires deliveries(k) != Works || ApplyAll(was, others(k)).Live(sorted[k])
    requires r == if deliveries(k) == NotApplied then ApplyAll(was, others(k))
                  else SetNx(ApplyAll(was, others(k)), sorted[k], LockId(call, k), ttl)
    ensures FailedAt(start, call, sorted, ttl, others, deliveries, k)
    ensures r == AfterRefusal(start, call, sorted, ttl, others, deliveries(k), k)
  {
  }

  lemma RollBackIs(start: Redis, was: Redis, r: Redis, call: nat, sorted: seq<string>, ttl: nat, acquired: seq<Lock>,
                   others: nat -> seq<Command>, deliveries: nat -> Delivery)
    requires IsPrefix(acquired, sorted) && |acquired| < |sorted|
    requires was == AfterRefusal(start, call, sorted, ttl, others, deliveries(|acquired|), |acquired|)
    requires r == AfterReleases(was, call, KeysOf(acquired), others, deliveries, |acquired| + 1, |acquired|)
    ensures r == RolledBack(start, call, sorted, ttl, others, deliveries, |acquired|)
  {
    assert KeysOf(acquired) == sorted[..|acquired|];
    ReleasesPrefix(was, call, sorted, others, deliveries, |acquired| + 1, |acquired|, |acquired|);
  }

  /** What a lock that was taken adds to the locks, or to the orphans when the reply was lost. */
  lemma SetOwns(r: Redis, call: nat, locks: seq<Lock>, account: string, ttl: nat, orphans: set<LockId>)
    requires HoldsAll(r, call, locks, orphans) && forall i :: 0 <= i < |locks| ==> locks[i].key != account
    ensures var id := LockId(call, |locks|);
            var after := SetNx(r, account, id, ttl);
            && HoldsAll(after, call, locks, orphans + {id})
            && (!r.Live(account) ==> HoldsAll(after, call, locks + [Lock(account, id, r.now + ttl)], orphans))
  {
    var id := LockId(call, |locks|);
    var after := SetNx(r, account, id, ttl);
    var more := locks + [Lock(account, id, r.now + ttl)];
    forall key | after.Live(key) && after.held[key].owner.call == call && after.held[key].owner !in orphans
      ensures !r.Live(account) ==>
        exists i :: 0 <= i < |more| && more[i].key == key && more[i].id == after.held[key].owner
    {
      if key == account && !r.Live(account) {
        assert more[|locks|].key == key;
      } else {
        assert r.Live(key) && r.held[key] == after.held[key];
        var i :| 0 <= i < |locks| && locks[i].key == key && locks[i].id == r.held[key].owner;
        assert more[i] == locks[i];
      }
    }
  }

  class LockService {
    var redis: Redis
    var locksAcquired: nat
    var lockConflicts: nat
    var locksReleased: nat
    // Lock values whose key may be left in Redis by a failed command.
    ghost var orphans: set<LockId>

    constructor (redis: Redis)
      ensures this.redis == redis && locksAcquired == lockConflicts == locksReleased == 0 && orphans == {}
    {
      this.redis := redis;
      locksAcquired, lockConflicts, locksReleased, orphans := 0, 0, 0, {};
    }

    /** An await: others' commands reach Redis. They cannot touch a live lease of this call;
        the first `k` of its locks are released already. */
    method Await(call: nat, commands: seq<Command>, ghost locks: seq<Lock>, ghost k: nat)
      requires forall i :: 0 <= i < |commands| ==> Foreign(commands[i], call)
      requires k <= |locks|
      requires forall i :: k <= i < |locks| ==> Holds(redis, locks[i]) && locks[i].id.call == call
      modifies this`redis
      ensures redis == ApplyAll(old(redis), commands)
      ensures redis.now >= old(redis.now)
      ensures forall i :: k <= i < |locks| ==> Holds(redis, locks[i])
      ensures forall key :: redis.Live(key) && redis.held[key].owner.call == call ==>
                old(redis).Live(key) && old(redis).held[key] == redis.held[key]
    {
      for n := 0 to |commands|
        invariant redis == ApplyAll(old(redis), commands[..n])
        invariant redis.now >= old(redis.now)
        invariant forall i :: k <= i < |locks| ==> Holds(redis, locks[i])
        invariant forall key :: redis.Live(key) && redis.held[key].owner.call == call ==>
                    old(redis).Live(key) && old(redis).held[key] == redis.held[key]
      {
        redis := Apply(redis, commands[n]);
        assert commands[..n + 1][..n] == commands[..n];
      }
      assert commands[..|commands|] == commands;
    }

    /** Answers with a lock only when Redis said so; a lost reply leaves the key behind. */
    method AcquireLock(account: string, id: LockId, ttl: nat, delivery: Delivery) returns (lock: Option<Lock>)
      modifies this`redis, this`locksAcquired, this`orphans
      ensures redis == if delivery == NotApplied then old(redis) else SetNx(old(redis), account, id, ttl)
      ensures lock == if old(redis.Live(account)) || delivery != Works then None
                      else Some(Lock(account, id, old(redis.now) + ttl))
      ensures locksAcquired == old(locksAcquired) + if lock.Some? then 1 else 0
      ensures orphans == old(orphans) + if delivery == ReplyLost then {id} else {}
    {
      if delivery == NotApplied {
        return None;
      }
      var free := !redis.Live(account);
      redis := SetNx(redis, account, id, ttl);
      if delivery == ReplyLost {
        orphans := orphans + {id};
        return None;
      }
      if !free {
        return None;
      }
      locksAcquired := locksAcquired + 1;
      return Some(Lock(account, id, redis.now + ttl));
    }

    /** True exactly when a lock was given and Redis said that its key was deleted. */
    method ReleaseLock(lock: Option<Lock>, delivery: Delivery) returns (released: bool)
      modifies this`redis, this`locksReleased, this`orphans
      ensures redis == if lock.None? || delivery == NotApplied then old(redis)
                       else CompareDelete(old(redis), lock.value.key, lock.value.id)
      ensures released <==>
        lock.Some? && delivery == Works
        && old(redis.Live(lock.value.key) && redis.held[lock.value.key].owner == lock.value.id)
      ensures locksReleased == old(locksReleased) + if released then 1 else 0
      ensures orphans == old(orphans) + if lock.Some? && delivery == NotApplied then {lock.value.id} else {}
    {
      if lock.None? {
        return false;
      }
      if delivery == NotApplied {
        orphans := orphans + {lock.value.id};
        return false;
      }
      var mine := redis.Live(lock.value.key) && redis.held[lock.value.key].owner == lock.value.id;
      redis := CompareDelete(redis, lock.value.key, lock.value.id);
      if delivery == ReplyLost || !mine {
        return false;
      }
      locksReleased := locksReleased + 1;
      return true;
    }

    /**
     Releases in acquisition order, a call that has awaited `base` commands before.
     Afterwards it owns no live key but orphans, and makes an orphan only of a lock whose
     release failed.
     */
    method ReleaseAccountLocks(call: nat, locks: seq<Lock>, others: nat -> seq<Command>, deliveries: nat -> Delivery,
                               base: nat)
      requires LocksOf(call, locks) && OwnsOnly(redis, call, locks, orphans)
      requires forall i :: 0 <= i < |locks| ==> Holds(redis, locks[i])
      requires forall n, i :: 0 <= i < |others(n)| ==> Foreign(others(n)[i], call)
      modifies this`redis, this`locksReleased, this`orphans
      ensures redis == AfterReleases(old(redis), call, KeysOf(locks), others, deliveries, base, |locks|)
      ensures OwnsOnly(redis, call, [], orphans) && old(orphans) <= orphans
      ensures OrphanedByRelease(old(orphans), orphans, call, |locks|, base, deliveries)
      ensures old(locksReleased) <= locksReleased <= old(locksReleased) + |locks|
      ensures redis.now < EarliestExpiry(locks) && AllWork(deliveries, base, |locks|) ==>
        locksReleased == old(locksReleased) + |locks|
    {
      for k := 0 to |locks|
        invariant redis == AfterReleases(old(redis), call, KeysOf(locks), others, deliveries, base, k)
        invariant old(orphans) <= orphans && OrphanedByRelease(old(orphans), orphans, call, k, base, deliveries)
        invariant old(locksReleased) <= locksReleased <= old(locksReleased) + k
        invariant redis.now < EarliestExpiry(locks) && AllWork(deliveries, base, k) ==>
          locksReleased == old(locksReleased) + k
        invariant forall i :: k <= i < |locks| ==> Holds(redis, locks[i])
        invariant OwnsOnly(redis, call, locks[k..], orphans)
      {
        EarliestIsLeast(locks, k);
        ReleaseNext(call, locks, k, others, deliveries, base, old(redis), old(orphans));
      }
    }

    /** One await and one release: lock `k`, when those before it are released. */
    method ReleaseNext(call: nat, locks: seq<Lock>, k: nat, others: nat -> seq<Command>, deliveries: nat -> Delivery,
                       base: nat, ghost start: Redis, ghost before: set<LockId>)
      requires k < |locks| && LocksOf(call, locks) && OwnsOnly(redis, call, locks[k..], orphans)
      requires forall i :: k <= i < |locks| ==> Holds(redis, locks[i])
      requires forall n, i :: 0 <= i < |others(n)| ==> Foreign(others(n)[i], call)
      requires redis == AfterReleases(start, call, KeysOf(locks), others, deliveries, base, k)
      requires before <= orphans && OrphanedByRelease(before, orphans, call, k, base, deliveries)
      modifies this`redis, this`locksReleased, this`orphans
      ensures redis == AfterReleases(start, call, KeysOf(locks), others, deliveries, base, k + 1)
      ensures old(redis.now) <= redis.now && forall i :: k < i < |locks| ==> Holds(redis, locks[i])
      ensures OwnsOnly(redis, call, locks[k + 1..], orphans)
      ensures before <= orphans && OrphanedByRelease(before, orphans, call, k + 1, base, deliveries)
      ensures old(locksReleased) <= locksReleased <= old(locksReleased) + 1
      ensures deliveries(base + k) == Works && redis.now < locks[k].expiry ==> locksReleased == old(locksReleased) + 1
    {
      ghost var lost, keys := orphans, KeysOf(locks);
      OwnsTail(redis, call, locks, k, orphans);
      Await(call, others(base + k), locks, k);
      assert OwnsOnly(redis, call, locks[k..], orphans);
      ReleaseOwns(redis, call, locks, k, orphans, deliveries(base + k));
      var released := ReleaseLock(Some(locks[k]), deliveries(base + k));
      OneMoreRelease(before, lost, orphans, call, k, base, locks[k].id, deliveries);
      assert redis == AfterReleases(start, call, keys, others, deliveries, base, k + 1) by {
        assert base + (k + 1) - 1 == base + k;
      }
    }

    /** A lock was refused: those taken before it are released. */
    method RollBack(call: nat, sorted: seq<string>, ttl: nat, acquired: seq<Lock>, others: nat -> seq<Command>,
                    deliveries: nat -> Delivery, ghost start: Redis, ghost before: set<LockId>)
      requires HoldsAll(redis, call, acquired, orphans) && IsPrefix(acquired, sorted)
      requires FailedAt(start, call, sorted, ttl, others, deliveries, |acquired|)
      requires redis == AfterRefusal(start, call, sorted, ttl, others, deliveries(|acquired|), |acquired|)
      requires orphans == before + if deliveries(|acquired|) == ReplyLost then {LockId(call, |acquired|)} else {}
      requires forall n, i :: 0 <= i < |others(n)| ==> Foreign(others(n)[i], call)
      modifies this`redis, this`lockConflicts, this`locksReleased, this`orphans
      ensures HasFailed(start, redis, call, sorted, ttl, others, deliveries, |acquired|, before, orphans)
      ensures lockConflicts == old(lockConflicts) + 1
    {
      lockConflicts := lockConflicts + 1;
      var k := |acquired|;
      ghost var was, kept := redis, orphans;
      ReleaseAccountLocks(call, acquired, others, deliveries, k + 1);
      assert redis == RolledBack(start, call, sorted, ttl, others, deliveries, k) by {
        RollBackIs(start, was, redis, call, sorted, ttl, acquired, others, deliveries);
      }
      assert before <= orphans && OrphanedByRollback(before, orphans, call, k, deliveries) by {
        RollbackOrphans(before, kept, orphans, call, k, deliveries);
      }
    }

    /** One await and one attempt, with these locks held already. */
    method TryLock(call: nat, account: string, ttl: nat, commands: seq<Command>, delivery: Delivery,
                   acquired: seq<Lock>)
      returns (lock: Option<Lock>)
      requires HoldsAll(redis, call, acquired, orphans)
      requires forall i :: 0 <= i < |acquired| ==> acquired[i].key != account
      requires forall i :: 0 <= i < |commands| ==> Foreign(commands[i], call)
      modifies this`redis, this`locksAcquired, this`orphans
      ensures var r, id := ApplyAll(old(redis), commands), LockId(call, |acquired|);
              && (lock.Some? <==> delivery == Works && !r.Live(account))
              && redis == (if delivery == NotApplied then r else SetNx(r, account, id, ttl))
              && (lock.Some? ==> lock.value.key == account)
              && orphans == old(orphans) + if delivery == ReplyLost then {id} else {}
      ensures HoldsAll(redis, call, if lock.Some? then acquired + [lock.value] else acquired, orphans)
      ensures locksAcquired == old(locksAcquired) + if lock.Some? then 1 else 0
    {
      Await(call, commands, acquired, 0);
      assert HoldsAll(redis, call, acquired, orphans);
      SetOwns(redis, call, acquired, account, ttl, orphans);
      lock := AcquireLock(account, LockId(call, |acquired|), ttl, delivery);
    }

    /** The loop over the accounts; `refused` is where it stopped. */
    method AcquireSorted(call: nat, sorted: seq<string>, ttl: nat, others: nat -> seq<Command>,
                         deliveries: nat -> Delivery)
      returns (locks: Option<seq<Lock>>, ghost refused: nat)
      requires Distinct(sorted) && HoldsAll(redis, call, [], orphans)
      requires forall n, i :: 0 <= i < |others(n)| ==> Foreign(others(n)[i], call)
      modifies this
      ensures locks.Some? ==>
        && HasTaken(old(redis), redis, call, sorted, ttl, others, deliveries, locks.value, orphans)
        && |locks.value| == |sorted| && orphans == old(orphans)
        && lockConflicts == old(lockConflicts) && locksAcquired == old(locksAcquired) + |sorted|
      ensures locks.None? ==>
        && HasFailed(old(redis), redis, call, sorted, ttl, others, deliveries, refused, old(orphans), orphans)
        && lockConflicts == old(lockConflicts) + 1 && locksAcquired == old(locksAcquired) + refused
    {
      var acquired: seq<Lock> := [];
      for k := 0 to |sorted|
        invariant |acquired| == k && orphans == old(orphans)
        invariant HasTaken(old(redis), redis, call, sorted, ttl, others, deliveries, acquired, orphans)
        invariant lockConflicts == old(lockConflicts) && locksAcquired == old(locksAcquired) + k
      {
        var lock := TakeNext(call, sorted, ttl, others, deliveries, acquired, old(redis));
        if lock.None? {
          RollBack(call, sorted, ttl, acquired, others, deliveries, old(redis), old(orphans));
          return None, k;
        }
        acquired := acquired + [lock.value];
      }
      return Some(acquired), |sorted|;
    }

    /** The next account's lock, or the one that is refused. */
    method TakeNext(call: nat, sorted: seq<string>, ttl: nat, others: nat -> seq<Command>,
                    deliveries: nat -> Delivery, acquired: seq<Lock>, ghost start: Redis)
      returns (lock: Option<Lock>)
      requires |acquired| < |sorted| && Distinct(sorted)
      requires HasTaken(start, redis, call, sorted, ttl, others, deliveries, acquired, orphans)
      requires forall n, i :: 0 <= i < |others(n)| ==> Foreign(others(n)[i], call)
      modifies this`redis, this`locksAcquired, this`orphans
      ensures locksAcquired == old(locksAcquired) + if lock.Some? then 1 else 0
      ensures lock.Some? ==>
        && HasTaken(start, redis, call, sorted, ttl, others, deliveries, acquired + [lock.value], orphans)
        && orphans == old(orphans)
      ensures lock.None? ==>
        var k := |acquired|;
        && HoldsAll(redis, call, acquired, orphans) && IsPrefix(acquired, sorted)
        && FailedAt(start, call, sorted, ttl, others, deliveries, k)
        && redis == AfterRefusal(start, call, sorted, ttl, others, deliveries(k), k)
        && orphans == old(orphans) + if deliveries(k) == ReplyLost then {LockId(call, k)} else {}
    {
      var k := |acquired|;
      ghost var was := redis;
      assert forall i :: 0 <= i < k ==> acquired[i].key != sorted[k];
      lock := TryLock(call, sorted[k], ttl, others(k), deliveries(k), acquired);
      if lock.Some? {
        TookNext(start, was, redis, call, sorted, ttl, others, deliveries, acquired, lock.value, orphans);
      } else {
        RefusedNext(start, was, redis, call, sorted, ttl, others, deliveries, k);
      }
    }

    /**
     All or nothing, under any interference and any Redis failure: one lease per distinct
     non-empty account in ascending order, each still held unless it ran out; or, exactly
     when Redis did not grant lock `refused` and had granted those before it, a conflict
     after which this call owns no live key but orphans: keys whose command failed.
     */
    method AcquireAccountLocks(call: nat, accountNumbers: seq<string>, ttl: nat, others: nat -> seq<Command>,
                               deliveries: nat -> Delivery)
      returns (locks: Option<seq<Lock>>, ghost refused: nat)
      requires forall key :: redis.Live(key) ==> redis.held[key].owner.call != call
      requires forall n, i :: 0 <= i < |others(n)| ==> Foreign(others(n)[i], call)
      modifies this
      ensures var sorted := SortedAccounts(accountNumbers);
              locks.Some? ==>
                && HasTaken(old(redis), redis, call, sorted, ttl, others, deliveries, locks.value, orphans)
                && |locks.value| == |sorted| && orphans == old(orphans)
                && lockConflicts == old(lockConflicts) && locksAcquired == old(locksAcquired) + |sorted|
      ensures locks.None? ==>
        && HasFailed(old(redis), redis, call, SortedAccounts(accountNumbers), ttl, others, deliveries, refused,
                     old(orphans), orphans)
        && lockConflicts == old(lockConflicts) + 1 && locksAcquired == old(locksAcquired) + refused
    {
      var sorted := SortedAccounts(accountNumbers);
      SortedAccountsSorts(accountNumbers);
      AscendingDistinct(sorted);
      locks, refused := AcquireSorted(call, sorted, ttl, others, deliveries);
    }

    /**
     Runs a callback under the locks and releases them however it ends; `began` is
     what Redis held when the callback started.
     */
    method WithAccountLocks(call: nat, accountNumbers: seq<string>, ttl: nat, callback: seq<Command>,
                            others: nat -> seq<Command>, deliveries: nat -> Delivery)
      returns (ran: bool, began: Redis, ghost refused: nat)
      requires forall key :: redis.Live(key) ==> redis.held[key].owner.call != call
      requires forall i :: 0 <= i < |callback| ==> Foreign(callback[i], call)
      requires forall n, i :: 0 <= i < |others(n)| ==> Foreign(others(n)[i], call)
      modifies this
      ensures OwnsOnly(redis, call, [], orphans) && old(orphans) <= orphans
      ensures var sorted := SortedAccounts(accountNumbers);
              ran ==>
                && GrantedUpTo(old(redis), call, sorted, ttl, others, deliveries, |sorted|)
                && LeasedAll(began, call, sorted)
                && began == AfterLocks(old(redis), call, sorted, ttl, others, |sorted|)
                && redis == AfterReleases(ApplyAll(began, callback), call, sorted, others, deliveries,
                                          |sorted|, |sorted|)
                && OrphanedByRelease(old(orphans), orphans, call, |sorted|, |sorted|, deliveries)
                && lockConflicts == old(lockConflicts) && locksAcquired == old(locksAcquired) + |sorted|
      ensures !ran ==>
        && HasFailed(old(redis), redis, call, SortedAccounts(accountNumbers), ttl, others, deliveries, refused,
                     old(orphans), orphans)
        && lockConflicts == old(lockConflicts) + 1 && locksAcquired == old(locksAcquired) + refused
    {
      var locks;
      locks, refused := AcquireAccountLocks(call, accountNumbers, ttl, others, deliveries);
      if locks.None? {
        return false, redis, refused;
      }
      began := redis;
      LeasedAllIf(began, call, locks.value, SortedAccounts(accountNumbers));
      assert KeysOf(locks.value) == SortedAccounts(accountNumbers);
      RunAndRelease(call, SortedAccounts(accountNumbers), locks.value, callback, others, deliveries);
      return true, began, refused;
    }

    /** The callback, and the release that follows it however it ends. */
    method RunAndRelease(call: nat, sorted: seq<string>, locks: seq<Lock>, callback: seq<Command>,
                         others: nat -> seq<Command>, deliveries: nat -> Delivery)
      requires HoldsAll(redis, call, locks, orphans) && KeysOf(locks) == sorted
      requires forall i :: 0 <= i < |callback| ==> Foreign(callback[i], call)
      requires forall n, i :: 0 <= i < |others(n)| ==> Foreign(others(n)[i], call)
      modifies this`redis, this`locksReleased, this`orphans
      ensures redis == AfterReleases(ApplyAll(old(redis), callback), call, sorted, others, deliveries,
                                     |sorted|, |sorted|)
      ensures OwnsOnly(redis, call, [], orphans) && old(orphans) <= orphans
      ensures OrphanedByRelease(old(orphans), orphans, call, |sorted|, |sorted|, deliveries)
    {
      Await(call, callback, locks, 0);
      ReleaseAccountLocks(call, locks, others, deliveries, |locks|);
    }
  }

  /** Every account is leased to the call, unless its lease has run out. */
  ghost predicate LeasedAll(r: Redis, call: nat, accounts: seq<string>) {
    exists locks: seq<Lock> ::
      && |locks| == |accounts| && LocksOf(call, locks)
      && forall i :: 0 <= i < |locks| ==> locks[i].key == accounts[i] && Holds(r, locks[i])
  }

  lemma LeasedAllIf(r: Redis, call: nat, locks: seq<Lock>, accounts: seq<string>)
    requires |locks| == |accounts| && LocksOf(call, locks)
    requires forall i :: 0 <= i < |locks| ==> locks[i].key == accounts[i] && Holds(r, locks[i])
    ensures LeasedAll(r, call, accounts)
  {
  }

  /** One command of another caller leaves a lease of this call where it is. */
  lemma ApplyKeepsLock(r: Redis, lock: Lock, command: Command)
    requires Holds(r, lock) && Foreign(command, lock.id.call)
    ensures Holds(Apply(r, command), lock)
  {
  }

  /**
   The callback is covered: whatever others do while it runs, each account of the call stays
   leased to it until its lease runs out.
   */
  lemma {:induction false} CallbackIsCovered(began: Redis, call: nat, sorted: seq<string>, callback: seq<Command>)
    requires LeasedAll(began, call, sorted)
    requires forall i :: 0 <= i < |callback| ==> Foreign(callback[i], call)
    ensures LeasedAll(ApplyAll(began, callback), call, sorted)
    decreases |callback|
  {
    if callback != [] {
      var before, command := callback[..|callback| - 1], callback[|callback| - 1];
      CallbackIsCovered(began, call, sorted, before);
      var r := ApplyAll(began, before);
      var locks: seq<Lock> :| |locks| == |sorted| && LocksOf(call, locks)
        && forall i :: 0 <= i < |locks| ==> locks[i].key == sorted[i] && Holds(r, locks[i]);
      forall i | 0 <= i < |locks| ensures Holds(Apply(r, command), locks[i]) {
        ApplyKeepsLock(r, locks[i], command);
      }
      LeasedAllIf(Apply(r, command), call, locks, sorted);
    }
  }

  lemma OwnsTail(r: Redis, call: nat, locks: seq<Lock>, k: nat, orphans: set<LockId>)
    requires k <= |locks| && LocksOf(call, locks)
    ensures forall i :: k <= i < |locks| ==> locks[i].id.call == call
  {
  }

  lemma RollbackOrphans(before: set<LockId>, kept: set<LockId>, after: set<LockId>, call: nat, k: nat,
                        deliveries: nat -> Delivery)
    requires kept == before + (if deliveries(k) == ReplyLost then {LockId(call, k)} else {})
    requires OrphanedByRelease(kept, after, call, k, k + 1, deliveries)
    ensures OrphanedByRollback(before, after, call, k, deliveries)
  {
  }

  /** What releasing the first of the remaining locks leaves. */
  lemma ReleaseOwns(r: Redis, call: nat, locks: seq<Lock>, k: nat, orphans: set<LockId>, delivery: Delivery)
    requires k < |locks| && OwnsOnly(r, call, locks[k..], orphans)
    ensures delivery == NotApplied ==> OwnsOnly(r, call, locks[k + 1..], orphans + {locks[k].id})
    ensures OwnsOnly(CompareDelete(r, locks[k].key, locks[k].id), call, locks[k + 1..], orphans)
  {
    var left, rest := locks[k..], locks[k + 1..];
    forall key | r.Live(key) && r.held[key].owner.call == call && r.held[key].owner !in orphans
      ensures (key == locks[k].key && r.held[key].owner == locks[k].id)
              || exists i :: 0 <= i < |rest| && rest[i].key == key && rest[i].id == r.held[key].owner
    {
      var i :| 0 <= i < |left| && left[i].key == key && left[i].id == r.held[key].owner;
      if i > 0 {
        assert rest[i - 1] == left[i];
      }
    }
  }

  function EarliestExpiry(locks: seq<Lock>): int {
    if locks == [] then 0
    else if |locks| == 1 then locks[0].expiry
    else if locks[0].expiry < EarliestExpiry(locks[1..]) then locks[0].expiry else EarliestExpiry(locks[1..])
  }

  lemma {:induction false} EarliestIsLeast(locks: seq<Lock>, k: nat)
    requires k < |locks|
    ensures EarliestExpiry(locks) <= locks[k].expiry
  {
    if k > 0 {
      EarliestIsLeast(locks[1..], k - 1);
    }
  }
}
