/**
 The sliding-window rate limiter: a Redis sorted set pruned on every check, with
 a key TTL, against a plain count of the accepted requests in the window.
 Times are in milliseconds.
 */
module RateLimiter {
  import opened Wrappers

  datatype Sample = Sample(time: int, member: nat)

  /** One key: its sorted set and when the key itself expires. A missing key is the empty bucket. */
  datatype Bucket = Bucket(zset: seq<Sample>, expireAt: Option<int>)

  const EMPTY := Bucket([], None)

  datatype Answer = Answer(allowed: bool, remaining: int, resetSeconds: int, retryAfter: int)

  datatype Request = Request(limit: int, now: int, member: nat)

  // ---------------------------------------------------------------- Redis commands

  /** The set as a command at `now` finds it. */
  function Load(b: Bucket, now: int): seq<Sample> {
    if b.expireAt.Some? && b.expireAt.value <= now then [] else b.zset
  }

  /** ZREMRANGEBYSCORE key 0 cut. */
  function Prune(zset: seq<Sample>, cut: int): seq<Sample> {
    if zset == [] then []
    else (if 0 <= zset[0].time <= cut then [] else [zset[0]]) + Prune(zset[1..], cut)
  }

  /** ZADD: a known member moves to its new score; equal scores are ordered by member. */
  function ZAdd(zset: seq<Sample>, s: Sample): seq<Sample> {
    InsertByScore(Without(zset, s.member), s)
  }

  function Without(zset: seq<Sample>, member: nat): seq<Sample> {
    if zset == [] then []
    else (if zset[0].member == member then [] else [zset[0]]) + Without(zset[1..], member)
  }

  function InsertByScore(zset: seq<Sample>, s: Sample): seq<Sample> {
    if zset == [] then [s]
    else if s.time < zset[0].time || (s.time == zset[0].time && s.member < zset[0].member) then [s] + zset
    else [zset[0]] + InsertByScore(zset[1..], s)
  }

  /** The Lua script. */
  function Check(b: Bucket, window: nat, limit: int, now: int, member: nat): (Bucket, Answer) {
    var pruned := Prune(Load(b, now), now - window);
    if |pruned| < limit then
      (Bucket(ZAdd(pruned, Sample(now, member)), Some(now + 1000 * (CeilDiv(window, 1000) + 1))),
       Answer(true, limit - |pruned| - 1, CeilDiv(now + window, 1000), 0))
    else
      var oldest := if pruned == [] then now else pruned[0].time;
      var wait := CeilDiv(oldest + window - now, 1000);
      (Bucket(pruned, if pruned == [] then None else b.expireAt),
       Answer(false, 0, CeilDiv(oldest + window, 1000), if wait < 1 then 1 else wait))
  }

  // ---------------------------------------------------------------- runs and the naive count

  predicate WellTimed(requests: seq<Request>) {
    && (forall i :: 0 <= i < |requests| ==> 0 <= requests[i].now)
    && (forall i, j :: 0 <= i <= j < |requests| ==> requests[i].now <= requests[j].now)
    && (forall i, j :: 0 <= i < j < |requests| ==> requests[i].member != requests[j].member)
  }

  /** The bucket after a run of checks on one key. */
  function Serve(window: nat, requests: seq<Request>): Bucket
    decreases |requests|
  {
    if requests == [] then EMPTY
    else
      var r := requests[|requests| - 1];
      Check(Serve(window, requests[..|requests| - 1]), window, r.limit, r.now, r.member).0
  }

  /** The answer to the last request of a run. */
  function LastAnswer(window: nat, requests: seq<Request>): Answer
    requires requests != []
  {
    var r := requests[|requests| - 1];
    Check(Serve(window, requests[..|requests| - 1]), window, r.limit, r.now, r.member).1
  }

  function Decisions(window: nat, requests: seq<Request>): (d: seq<bool>)
    ensures |d| == |requests|
    decreases |requests|
  {
    if requests == [] then []
    else
      Decisions(window, requests[..|requests| - 1]) + [LastAnswer(window, requests).allowed]
  }

  /** How many of the times lie in (lo, hi]. */
  function CountIn(times: seq<int>, lo: int, hi: int): nat
    decreases |times|
  {
    if times == [] then 0
    else CountIn(times[..|times| - 1], lo, hi) + if lo < times[|times| - 1] <= hi then 1 else 0
  }

  /** The specification: remember every accepted request for ever, and count. */
  function Accepted(window: nat, requests: seq<Request>): seq<int>
    decreases |requests|
  {
    if requests == [] then []
    else
      var before, r := Accepted(window, requests[..|requests| - 1]), requests[|requests| - 1];
      if CountIn(before, r.now - window, r.now) < r.limit then before + [r.now] else before
  }

  function NaiveDecisions(window: nat, requests: seq<Request>): seq<bool>
    decreases |requests|
  {
    if requests == [] then []
    else
      var before, r := requests[..|requests| - 1], requests[|requests| - 1];
      NaiveDecisions(window, before) + [CountIn(Accepted(window, before), r.now - window, r.now) < r.limit]
  }

  // ---------------------------------------------------------------- the refinement

  predicate Ordered(zset: seq<Sample>) {
    forall i, j :: 0 <= i <= j < |zset| ==> 0 <= zset[i].time <= zset[j].time
  }

  predicate Nondecreasing(times: seq<int>) {
    forall i, j :: 0 <= i <= j < |times| ==> times[i] <= times[j]
  }

  lemma {:induction false} PruneKeepsAll(zset: seq<Sample>, cut: int)
    requires forall i :: 0 <= i < |zset| ==> cut < zset[i].time
    ensures Prune(zset, cut) == zset
  {
    if zset != [] {
      PruneKeepsAll(zset[1..], cut);
      assert zset == [zset[0]] + zset[1..];
    }
  }

  /** The first `k` samples are at or before the cut, the others after it. */
  ghost predicate CutAt(zset: seq<Sample>, k: int, cut: int) {
    && 0 <= k <= |zset|
    && (forall i :: 0 <= i < k ==> zset[i].time <= cut)
    && (forall i :: k <= i < |zset| ==> cut < zset[i].time)
  }

  lemma CutGrows(zset: seq<Sample>, k: int, cut: int)
    requires zset != [] && zset[0].time <= cut && CutAt(zset[1..], k, cut)
    ensures CutAt(zset, k + 1, cut)
  {
    forall i | 0 <= i < |zset| ensures if i < k + 1 then zset[i].time <= cut else cut < zset[i].time {
      if i > 0 {
        assert zset[i] == zset[1..][i - 1];
      }
    }
  }

  lemma PruneHead(zset: seq<Sample>, cut: int)
    requires Ordered(zset) && zset != [] && zset[0].time <= cut
    ensures Ordered(zset[1..]) && Prune(zset, cut) == Prune(zset[1..], cut)
  {
  }

  lemma PruneNothing(zset: seq<Sample>, cut: int)
    requires Ordered(zset) && zset != [] && cut < zset[0].time
    ensures Prune(zset, cut) == zset && CutAt(zset, 0, cut)
  {
    assert forall i :: 0 <= i < |zset| ==> zset[0].time <= zset[i].time;
    PruneKeepsAll(zset, cut);
  }

  /** Pruning an ordered set drops a prefix: exactly the samples at or before the cut. */
  lemma {:induction false} PruneDropsPrefix(zset: seq<Sample>, cut: int) returns (k: nat)
    requires Ordered(zset)
    ensures k <= |zset| && Prune(zset, cut) == zset[k..] && CutAt(zset, k, cut)
    decreases |zset|
  {
    if zset == [] {
      k := 0;
    } else if zset[0].time <= cut {
      var rest := zset[1..];
      PruneHead(zset, cut);
      k := PruneDropsPrefix(rest, cut);
      CutGrows(zset, k, cut);
      assert rest[k..] == zset[k + 1..];
      k := k + 1;
    } else {
      PruneNothing(zset, cut);
      k := 0;
    }
  }

  predicate Fresh(zset: seq<Sample>, member: nat) {
    forall i :: 0 <= i < |zset| ==> zset[i].member != member
  }

  lemma {:induction false} PruneFresh(zset: seq<Sample>, cut: int, member: nat)
    requires Fresh(zset, member)
    ensures Fresh(Prune(zset, cut), member)
  {
    if zset != [] {
      PruneFresh(zset[1..], cut, member);
    }
  }

  lemma {:induction false} WithoutFresh(zset: seq<Sample>, member: nat)
    requires Fresh(zset, member)
    ensures Without(zset, member) == zset
  {
    if zset != [] {
      WithoutFresh(zset[1..], member);
      assert zset == [zset[0]] + zset[1..];
    }
  }

  /** One sample more at the end; the others keep their times, and may swap places with equal ones. */
  ghost predicate LatestAdded(zset: seq<Sample>, s: Sample, after: seq<Sample>) {
    && |after| == |zset| + 1 && after[|zset|].time == s.time
    && forall i :: 0 <= i < |zset| ==> after[i].time == zset[i].time
  }

  lemma InsertBefore(zset: seq<Sample>, s: Sample)
    requires zset != [] && forall i :: 0 <= i < |zset| ==> zset[i].time == s.time
    ensures LatestAdded(zset, s, [s] + zset)
  {
    forall i | 0 <= i < |zset| ensures ([s] + zset)[i].time == zset[i].time {
      assert i > 0 ==> ([s] + zset)[i] == zset[i - 1];
    }
  }

  lemma InsertAfter(zset: seq<Sample>, s: Sample, rest: seq<Sample>)
    requires zset != [] && LatestAdded(zset[1..], s, rest)
    ensures LatestAdded(zset, s, [zset[0]] + rest)
  {
    forall i | 0 <= i < |zset| ensures ([zset[0]] + rest)[i].time == zset[i].time {
      assert i > 0 ==> ([zset[0]] + rest)[i] == rest[i - 1] && zset[i] == zset[1..][i - 1];
    }
  }

  /** A sample at the latest time joins the end, up to the order of equal scores. */
  lemma {:induction false} InsertLatest(zset: seq<Sample>, s: Sample)
    requires Ordered(zset)
    requires forall i :: 0 <= i < |zset| ==> zset[i].time <= s.time
    ensures LatestAdded(zset, s, InsertByScore(zset, s))
  {
    if zset != [] {
      if s.time == zset[0].time && s.member < zset[0].member {
        forall i | 0 <= i < |zset| ensures zset[i].time == s.time {
          assert zset[0].time <= zset[i].time;
        }
        InsertBefore(zset, s);
      } else {
        InsertLatest(zset[1..], s);
        InsertAfter(zset, s, InsertByScore(zset[1..], s));
      }
    }
  }

  lemma {:induction false} InsertMembers(zset: seq<Sample>, s: Sample)
    ensures forall x :: x in InsertByScore(zset, s) ==> x == s || x in zset
  {
    if zset != [] {
      InsertMembers(zset[1..], s);
    }
  }

  /** The set holds the latest of the accepted times. */
  ghost predicate Matches(zset: seq<Sample>, accepted: seq<int>) {
    && |zset| <= |accepted|
    && forall i :: 0 <= i < |zset| ==> zset[i].time == accepted[|accepted| - |zset| + i]
  }

  /**
   The bucket remembers the latest of the accepted times; what it has forgotten
   had left the window by time `now`, and the key outlives what it remembers.
   */
  ghost predicate Remembers(b: Bucket, window: nat, accepted: seq<int>, now: int) {
    && Matches(b.zset, accepted)
    && Nondecreasing(accepted)
    && (forall i :: 0 <= i < |accepted| ==> 0 <= accepted[i] <= now)
    && (forall i :: 0 <= i < |accepted| - |b.zset| ==> accepted[i] <= now - window)
    && (b.expireAt.Some? && accepted != [] ==> accepted[|accepted| - 1] + window < b.expireAt.value)
  }

  lemma MatchesOrdered(zset: seq<Sample>, accepted: seq<int>)
    requires Matches(zset, accepted) && Nondecreasing(accepted)
    requires forall i :: 0 <= i < |accepted| ==> 0 <= accepted[i]
    ensures Ordered(zset)
  {
    var k := |accepted| - |zset|;
    forall i, j | 0 <= i <= j < |zset| ensures 0 <= zset[i].time <= zset[j].time {
      assert accepted[k + i] <= accepted[k + j];
    }
  }

  lemma {:induction false} CountAll(times: seq<int>, from: nat, lo: int, hi: int)
    requires from <= |times|
    requires forall i :: 0 <= i < from ==> times[i] <= lo
    requires forall i :: from <= i < |times| ==> lo < times[i] <= hi
    ensures CountIn(times, lo, hi) == |times| - from
    decreases |times|
  {
    if times != [] {
      CountAll(times[..|times| - 1], if from < |times| then from else from - 1, lo, hi);
    }
  }

  /** The accepted times split at `gone`: those that have left the window, and those in it. */
  ghost predicate SplitAt(accepted: seq<int>, gone: int, cut: int) {
    && 0 <= gone <= |accepted|
    && (forall i :: 0 <= i < gone ==> accepted[i] <= cut)
    && (forall i :: gone <= i < |accepted| ==> cut < accepted[i])
  }

  lemma {:induction false} PruneSubset(zset: seq<Sample>, cut: int)
    ensures forall x :: x in Prune(zset, cut) ==> x in zset
  {
    if zset != [] {
      PruneSubset(zset[1..], cut);
    }
  }

  lemma PrunedMatches(zset: seq<Sample>, accepted: seq<int>, cut: int)
    requires Matches(zset, accepted) && Ordered(zset)
    requires forall i :: 0 <= i < |accepted| - |zset| ==> accepted[i] <= cut
    ensures var pruned := Prune(zset, cut);
            Matches(pruned, accepted) && SplitAt(accepted, |accepted| - |pruned|, cut)
  {
    var k := PruneDropsPrefix(zset, cut);
    var pruned, n := Prune(zset, cut), |accepted| - |zset|;
    forall i | 0 <= i < |pruned| ensures pruned[i].time == accepted[n + k + i] {
      assert pruned[i] == zset[k + i];
    }
    forall i | n <= i < |accepted| ensures if i < n + k then accepted[i] <= cut else cut < accepted[i] {
      assert zset[i - n].time == accepted[i];
    }
  }

  /** At any later check the pruned set is the window's share of the accepted times. */
  lemma PrunedIsWindow(b: Bucket, window: nat, accepted: seq<int>, last: int, now: int)
    requires Remembers(b, window, accepted, last) && last <= now
    ensures var pruned := Prune(Load(b, now), now - window);
            && Matches(pruned, accepted) && SplitAt(accepted, |accepted| - |pruned|, now - window)
            && |pruned| == CountIn(accepted, now - window, now)
            && (forall x :: x in pruned ==> x in b.zset)
            && Ordered(pruned)
  {
    var loaded := Load(b, now);
    var pruned := Prune(loaded, now - window);
    MatchesOrdered(b.zset, accepted);
    if loaded != b.zset {
      forall i | 0 <= i < |accepted| ensures accepted[i] <= now - window {
        assert accepted[i] <= accepted[|accepted| - 1];
      }
    }
    PrunedMatches(loaded, accepted, now - window);
    PruneSubset(loaded, now - window);
    CountAll(accepted, |accepted| - |pruned|, now - window, now);
    MatchesOrdered(pruned, accepted);
  }

  /** Members recorded so far. */
  ghost predicate Known(b: Bucket, requests: seq<Request>) {
    forall x :: x in b.zset ==> exists i :: 0 <= i < |requests| && requests[i].member == x.member
  }

  lemma MatchesAppend(zset: seq<Sample>, accepted: seq<int>, s: Sample, after: seq<Sample>)
    requires Matches(zset, accepted) && LatestAdded(zset, s, after)
    ensures Matches(after, accepted + [s.time])
  {
    forall i | 0 <= i < |after| ensures after[i].time == (accepted + [s.time])[|accepted| - |zset| + i] {
      if i < |zset| {
        assert zset[i].time == accepted[|accepted| - |zset| + i];
      }
    }
  }

  lemma AcceptMatches(pruned: seq<Sample>, accepted: seq<int>, s: Sample)
    requires Matches(pruned, accepted) && Fresh(pruned, s.member) && Ordered(pruned)
    requires forall i :: 0 <= i < |pruned| ==> pruned[i].time <= s.time
    ensures Matches(ZAdd(pruned, s), accepted + [s.time]) && |ZAdd(pruned, s)| == |pruned| + 1
    ensures forall x :: x in ZAdd(pruned, s) ==> x in pruned || x == s
  {
    WithoutFresh(pruned, s.member);
    InsertLatest(pruned, s);
    InsertMembers(pruned, s);
    MatchesAppend(pruned, accepted, s, ZAdd(pruned, s));
  }

  lemma AcceptRemembers(pruned: seq<Sample>, window: nat, accepted: seq<int>, now: int, member: nat, expireAt: int)
    requires Matches(pruned, accepted) && Nondecreasing(accepted) && Fresh(pruned, member) && Ordered(pruned)
    requires forall i :: 0 <= i < |accepted| ==> 0 <= accepted[i] <= now
    requires forall i :: 0 <= i < |accepted| - |pruned| ==> accepted[i] <= now - window
    requires 0 <= now && now + window < expireAt
    ensures var after := ZAdd(pruned, Sample(now, member));
            && Remembers(Bucket(after, Some(expireAt)), window, accepted + [now], now)
            && forall x :: x in after ==> x in pruned || x.member == member
  {
    AcceptMatches(pruned, accepted, Sample(now, member));
  }

  lemma DenyRemembers(b: Bucket, window: nat, accepted: seq<int>, last: int, now: int)
    requires Remembers(b, window, accepted, last) && last <= now
    ensures var pruned := Prune(Load(b, now), now - window);
            Remembers(Bucket(pruned, if pruned == [] then None else b.expireAt), window, accepted, now)
  {
    PrunedIsWindow(b, window, accepted, last, now);
  }

  lemma CheckAccepts(b: Bucket, window: nat, accepted: seq<int>, last: int, now: int, member: nat)
    requires Remembers(b, window, accepted, last) && 0 <= last <= now && Fresh(b.zset, member)
    ensures var after := ZAdd(Prune(Load(b, now), now - window), Sample(now, member));
            && Remembers(Bucket(after, Some(now + 1000 * (CeilDiv(window, 1000) + 1))), window, accepted + [now], now)
            && forall x :: x in after ==> x in b.zset || x.member == member
  {
    var pruned := Prune(Load(b, now), now - window);
    assert Matches(pruned, accepted) && Ordered(pruned) && SplitAt(accepted, |accepted| - |pruned|, now - window)
           && (forall x :: x in pruned ==> x in b.zset) by {
      PrunedIsWindow(b, window, accepted, last, now);
    }
    assert Fresh(pruned, member) by {
      PruneFresh(Load(b, now), now - window, member);
    }
    assert now + window < now + 1000 * (CeilDiv(window, 1000) + 1);
    AcceptRemembers(pruned, window, accepted, now, member, now + 1000 * (CeilDiv(window, 1000) + 1));
  }

  lemma CheckRemembers(b: Bucket, window: nat, accepted: seq<int>, last: int, limit: int, now: int, member: nat)
    requires Remembers(b, window, accepted, last) && 0 <= last <= now && Fresh(b.zset, member)
    ensures var (b', answer) := Check(b, window, limit, now, member);
            && (answer.allowed <==> CountIn(accepted, now - window, now) < limit)
            && Remembers(b', window, if answer.allowed then accepted + [now] else accepted, now)
            && forall x :: x in b'.zset ==> x in b.zset || x.member == member
  {
    PrunedIsWindow(b, window, accepted, last, now);
    CheckAccepts(b, window, accepted, last, now, member);
    DenyRemembers(b, window, accepted, last, now);
  }

  /** The last instant a run has seen. */
  function LastTime(requests: seq<Request>): int {
    if requests == [] then 0 else requests[|requests| - 1].now
  }

  ghost predicate GoodFor(b: Bucket, window: nat, accepted: seq<int>, last: int, requests: seq<Request>) {
    Remembers(b, window, accepted, last) && Known(b, requests)
  }

  ghost predicate Good(window: nat, requests: seq<Request>) {
    GoodFor(Serve(window, requests), window, Accepted(window, requests), LastTime(requests), requests)
  }

  lemma AcceptedOneMore(window: nat, requests: seq<Request>, r: Request)
    ensures Accepted(window, requests + [r]) ==
            var before := Accepted(window, requests);
            if CountIn(before, r.now - window, r.now) < r.limit then before + [r.now] else before
  {
    assert (requests + [r])[..|requests|] == requests;
  }

  /** One check more, on the values a run has come to. */
  lemma CheckIsGood(b: Bucket, window: nat, accepted: seq<int>, last: int, before: seq<Request>, r: Request)
    requires GoodFor(b, window, accepted, last, before) && 0 <= last <= r.now && Fresh(b.zset, r.member)
    ensures var (b', answer) := Check(b, window, r.limit, r.now, r.member);
            && (answer.allowed <==> CountIn(accepted, r.now - window, r.now) < r.limit)
            && GoodFor(b', window, if answer.allowed then accepted + [r.now] else accepted, r.now, before + [r])
  {
    CheckRemembers(b, window, accepted, last, r.limit, r.now, r.member);
    StillKnown(b, Check(b, window, r.limit, r.now, r.member).0, before, r);
  }

  lemma ServedOneMore(window: nat, before: seq<Request>, r: Request)
    ensures var requests := before + [r];
            && LastTime(requests) == r.now
            && (Serve(window, requests), LastAnswer(window, requests))
               == Check(Serve(window, before), window, r.limit, r.now, r.member)
  {
    assert (before + [r])[..|before|] == before;
  }

  lemma GoodOneMore(window: nat, before: seq<Request>, r: Request)
    requires Good(window, before) && 0 <= LastTime(before) <= r.now && Fresh(Serve(window, before).zset, r.member)
    ensures Good(window, before + [r])
    ensures LastAnswer(window, before + [r]).allowed
       <==> CountIn(Accepted(window, before), r.now - window, r.now) < r.limit
  {
    CheckIsGood(Serve(window, before), window, Accepted(window, before), LastTime(before), before, r);
    ServedOneMore(window, before, r);
    AcceptedOneMore(window, before, r);
  }

  lemma ServeOneMore(window: nat, before: seq<Request>, r: Request)
    requires WellTimed(before + [r]) && Good(window, before)
    ensures Good(window, before + [r])
    ensures LastAnswer(window, before + [r]).allowed
       <==> CountIn(Accepted(window, before), r.now - window, r.now) < r.limit
  {
    assert Fresh(Serve(window, before).zset, r.member) by {
      NextMemberFresh(Serve(window, before), before, r);
    }
    assert 0 <= LastTime(before) <= r.now by {
      LastTimeBefore(before, r);
    }
    GoodOneMore(window, before, r);
  }

  lemma WellTimedPrefix(before: seq<Request>, r: Request)
    requires WellTimed(before + [r])
    ensures WellTimed(before)
  {
    var requests := before + [r];
    assert forall i :: 0 <= i < |before| ==> before[i] == requests[i];
  }

  lemma {:induction false} ServeRemembers(window: nat, requests: seq<Request>)
    requires WellTimed(requests)
    ensures Good(window, requests)
    decreases |requests|
  {
    if requests != [] {
      var before, r := requests[..|requests| - 1], requests[|requests| - 1];
      assert requests == before + [r];
      WellTimedPrefix(before, r);
      ServeRemembers(window, before);
      ServeOneMore(window, before, r);
    }
  }

  lemma {:induction false} DecisionsOneMore(window: nat, before: seq<Request>, r: Request)
    ensures Decisions(window, before + [r]) == Decisions(window, before) + [LastAnswer(window, before + [r]).allowed]
  {
    assert (before + [r])[..|before|] == before;
  }

  lemma {:induction false} NaiveOneMore(window: nat, before: seq<Request>, r: Request)
    ensures NaiveDecisions(window, before + [r])
         == NaiveDecisions(window, before) + [CountIn(Accepted(window, before), r.now - window, r.now) < r.limit]
  {
    assert (before + [r])[..|before|] == before;
  }

  lemma {:induction false} SameDecisions(window: nat, requests: seq<Request>)
    requires WellTimed(requests)
    ensures Decisions(window, requests) == NaiveDecisions(window, requests)
    decreases |requests|
  {
    if requests != [] {
      var before, r := requests[..|requests| - 1], requests[|requests| - 1];
      assert requests == before + [r];
      WellTimedPrefix(before, r);
      SameDecisions(window, before);
      LastAllowedIff(window, before, r);
      DecisionsOneMore(window, before, r);
      NaiveOneMore(window, before, r);
    }
  }

  /** The answer to the last request of a run is the plain count's. */
  lemma LastAllowedIff(window: nat, before: seq<Request>, r: Request)
    requires WellTimed(before + [r])
    ensures LastAnswer(window, before + [r]).allowed
       <==> CountIn(Accepted(window, before), r.now - window, r.now) < r.limit
  {
    WellTimedPrefix(before, r);
    ServeRemembers(window, before);
    ServeOneMore(window, before, r);
  }

  /** The last request of the run is denied; the accepted times are these. */
  ghost predicate DeniedAfter(window: nat, requests: seq<Request>, accepted: seq<int>) {
    requests != [] && !LastAnswer(window, requests).allowed && Accepted(window, requests) == accepted
  }

  lemma FullIsDenied(window: nat, before: seq<Request>, r: Request, accepted: seq<int>)
    requires WellTimed(before + [r]) && accepted == Accepted(window, before)
    requires r.limit <= CountIn(accepted, r.now - window, r.now)
    ensures DeniedAfter(window, before + [r], accepted)
  {
    assert !LastAnswer(window, before + [r]).allowed by {
      LastAllowedIff(window, before, r);
    }
    AcceptedOneMore(window, before, r);
  }

  lemma NextMemberFresh(b: Bucket, before: seq<Request>, r: Request)
    requires WellTimed(before + [r]) && Known(b, before)
    ensures Fresh(b.zset, r.member)
  {
    var requests := before + [r];
    forall i | 0 <= i < |b.zset| ensures b.zset[i].member != r.member {
      assert b.zset[i] in b.zset;
      var j :| 0 <= j < |before| && before[j].member == b.zset[i].member;
      assert requests[j] == before[j] && requests[|before|] == r;
    }
  }

  lemma StillKnown(b: Bucket, b': Bucket, before: seq<Request>, r: Request)
    requires Known(b, before) && forall x :: x in b'.zset ==> x in b.zset || x.member == r.member
    ensures Known(b', before + [r])
  {
    var requests := before + [r];
    forall x | x in b'.zset ensures exists i :: 0 <= i < |requests| && requests[i].member == x.member {
      if x in b.zset {
        var j :| 0 <= j < |before| && before[j].member == x.member;
        assert requests[j] == before[j];
      } else {
        assert requests[|before|] == r;
      }
    }
  }

  /**
   The pruned, expiring set answers every request of every run as the plain count
   of accepted requests in (now - window, now] would, whatever mix of limits the
   requests carry.
   */
  lemma RefinesNaiveCount(window: nat, requests: seq<Request>)
    requires WellTimed(requests)
    ensures Decisions(window, requests) == NaiveDecisions(window, requests)
  {
    SameDecisions(window, requests);
  }

  // ---------------------------------------------------------------- the quota

  lemma {:induction false} CountShift(times: seq<int>, window: nat, t: int, end: int)
    requires t <= end && forall i :: 0 <= i < |times| ==> times[i] <= t
    ensures CountIn(times, end - window, end) <= CountIn(times, t - window, t)
    decreases |times|
  {
    if times != [] {
      CountShift(times[..|times| - 1], window, t, end);
    }
  }

  lemma {:induction false} AcceptedBefore(window: nat, requests: seq<Request>)
    requires WellTimed(requests)
    ensures forall i :: 0 <= i < |Accepted(window, requests)| ==> Accepted(window, requests)[i] <= LastTime(requests)
    decreases |requests|
  {
    if requests != [] {
      AcceptedBefore(window, requests[..|requests| - 1]);
    }
  }

  lemma {:induction false} CountLate(times: seq<int>, lo: int, hi: int)
    requires forall i :: 0 <= i < |times| ==> times[i] <= lo
    ensures CountIn(times, lo, hi) == 0
    decreases |times|
  {
    if times != [] {
      CountLate(times[..|times| - 1], lo, hi);
    }
  }

  /** No window, wherever it ends, holds more accepted requests than the largest limit in use. */
  lemma {:induction false} WindowNeverExceedsLargestLimit(window: nat, requests: seq<Request>, largest: nat, end: int)
    requires WellTimed(requests)
    requires forall i :: 0 <= i < |requests| ==> requests[i].limit <= largest
    ensures CountIn(Accepted(window, requests), end - window, end) <= largest
    decreases |requests|
  {
    if requests != [] {
      var before, r := requests[..|requests| - 1], requests[|requests| - 1];
      var accepted := Accepted(window, before);
      WindowNeverExceedsLargestLimit(window, before, largest, end);
      AcceptedBefore(window, before);
      if CountIn(accepted, r.now - window, r.now) < r.limit {
        assert (accepted + [r.now])[..|accepted|] == accepted;
        if end - window < r.now <= end {
          CountShift(accepted, window, r.now, end);
        }
      }
    }
  }

  // ---------------------------------------------------------------- the retry hint

  /** What one check leaves behind: the pruned set, or the pruned set and one sample. */
  ghost predicate Shaped(b: Bucket, window: nat, r: Request, b': Bucket, allowed: bool) {
    var pruned := Prune(Load(b, r.now), r.now - window);
    && |pruned| <= |b.zset|
    && allowed == (|pruned| < r.limit)
    && (pruned != [] ==> r.now - window < pruned[0].time <= r.now)
    && (if allowed then |b'.zset| == |pruned| + 1 else b'.zset == pruned)
  }

  lemma {:induction false} InsertLength(zset: seq<Sample>, s: Sample)
    ensures |InsertByScore(zset, s)| == |zset| + 1
  {
    if zset != [] {
      InsertLength(zset[1..], s);
    }
  }

  lemma CheckShape(b: Bucket, window: nat, accepted: seq<int>, last: int, r: Request)
    requires Remembers(b, window, accepted, last) && 0 <= last <= r.now && Fresh(b.zset, r.member)
    ensures var (b', answer) := Check(b, window, r.limit, r.now, r.member);
            Shaped(b, window, r, b', answer.allowed)
  {
    var pruned := Prune(Load(b, r.now), r.now - window);
    LoadShape(b, window, accepted, last, r.now);
    PruneFresh(Load(b, r.now), r.now - window, r.member);
    WithoutFresh(pruned, r.member);
    InsertLength(pruned, Sample(r.now, r.member));
  }

  lemma LoadShape(b: Bucket, window: nat, accepted: seq<int>, last: int, now: int)
    requires Remembers(b, window, accepted, last) && last <= now
    ensures var pruned := Prune(Load(b, now), now - window);
            |pruned| <= |b.zset| && (pruned != [] ==> now - window < pruned[0].time <= now)
  {
    var pruned := Prune(Load(b, now), now - window);
    MatchesOrdered(b.zset, accepted);
    var k := PruneDropsPrefix(Load(b, now), now - window);
    if pruned != [] {
      assert pruned[0] == b.zset[k];
      assert b.zset[k].time == accepted[|accepted| - |b.zset| + k];
    }
  }

  lemma LastTimeBefore(before: seq<Request>, r: Request)
    requires WellTimed(before + [r])
    ensures 0 <= LastTime(before) <= r.now
  {
    var requests := before + [r];
    assert requests[|before|] == r;
    assert before != [] ==> requests[|before| - 1] == before[|before| - 1];
  }

  lemma LastStep(window: nat, before: seq<Request>, r: Request)
    requires WellTimed(before + [r])
    ensures var requests := before + [r];
            && (Serve(window, requests), LastAnswer(window, requests))
               == Check(Serve(window, before), window, r.limit, r.now, r.member)
            && Shaped(Serve(window, before), window, r, Serve(window, requests), LastAnswer(window, requests).allowed)
  {
    WellTimedPrefix(before, r);
    ServeRemembers(window, before);
    NextMemberFresh(Serve(window, before), before, r);
    LastTimeBefore(before, r);
    ServedOneMore(window, before, r);
    CheckShape(Serve(window, before), window, Accepted(window, before), LastTime(before), r);
  }

  /** Whether a check at `at` finds fewer than `limit` samples left: whether the limit-th latest is out. */
  lemma LeavesIff(b: Bucket, window: nat, accepted: seq<int>, last: int, limit: nat, at: int)
    requires Remembers(b, window, accepted, last) && last <= at && 1 <= limit <= |b.zset|
    ensures |Prune(Load(b, at), at - window)| < limit <==> b.zset[|b.zset| - limit].time + window <= at
  {
    PrunedIsWindow(b, window, accepted, last, at);
    assert b.zset[|b.zset| - limit].time == accepted[|accepted| - limit];
  }

  /**
   After a denial, with no other call in between, exactly when a retry under the
   same limit is accepted: when the limit-th latest sample has left the window.
   */
  lemma RetryAcceptedIff(window: nat, before: seq<Request>, r: Request, retryAt: int, member: nat)
    requires WellTimed(before + [r]) && r.limit >= 1 && r.now <= retryAt
    requires !LastAnswer(window, before + [r]).allowed
    ensures var b := Serve(window, before + [r]);
            && |b.zset| >= r.limit
            && (Check(b, window, r.limit, retryAt, member).1.allowed
                <==> b.zset[|b.zset| - r.limit].time + window <= retryAt)
  {
    var requests := before + [r];
    LastStep(window, before, r);
    ServeRemembers(window, requests);
    LeavesIff(Serve(window, requests), window, Accepted(window, requests), LastTime(requests), r.limit, retryAt);
  }

  /** With one limit on the key, the set never outgrows it. */
  lemma {:induction false} SingleLimitFits(window: nat, requests: seq<Request>, limit: nat)
    requires WellTimed(requests) && forall i :: 0 <= i < |requests| ==> requests[i].limit == limit
    ensures |Serve(window, requests).zset| <= limit
    decreases |requests|
  {
    if requests != [] {
      var before, r := requests[..|requests| - 1], requests[|requests| - 1];
      assert requests == before + [r];
      WellTimedPrefix(before, r);
      SingleLimitFits(window, before, limit);
      LastStep(window, before, r);
    }
  }

  /** What a denial tells: the seconds until the oldest sample leaves, rounded up. */
  lemma DenialHint(window: nat, before: seq<Request>, r: Request)
    requires WellTimed(before + [r]) && r.limit >= 1 && !LastAnswer(window, before + [r]).allowed
    ensures var b, answer := Serve(window, before + [r]), LastAnswer(window, before + [r]);
            && b.zset != [] && r.now < b.zset[0].time + window
            && answer.retryAfter == CeilDiv(b.zset[0].time + window - r.now, 1000)
  {
    LastStep(window, before, r);
    DenialAnswer(Serve(window, before), window, r.limit, r.now, r.member);
  }

  lemma DenialAnswer(b: Bucket, window: nat, limit: int, now: int, member: nat)
    requires limit >= 1 && !Check(b, window, limit, now, member).1.allowed
    ensures var (b', answer) := Check(b, window, limit, now, member);
            && b'.zset != []
            && (now < b'.zset[0].time + window ==>
                  answer.retryAfter == CeilDiv(b'.zset[0].time + window - now, 1000))
  {
  }

  /**
   The hint is exact.  With a single limit per key, a retry with nothing in between
   is accepted if and only if the oldest sample has left the window; waiting
   `retryAfter` seconds is enough, and is less than one second too long.
   */
  lemma RetryHintExact(window: nat, before: seq<Request>, r: Request, retryAt: int, member: nat)
    requires WellTimed(before + [r]) && r.limit >= 1 && r.now <= retryAt
    requires forall i :: 0 <= i < |before| ==> before[i].limit == r.limit
    requires !LastAnswer(window, before + [r]).allowed
    ensures var b, hint := Serve(window, before + [r]), LastAnswer(window, before + [r]).retryAfter;
            && |b.zset| == r.limit
            && var opens := b.zset[0].time + window;
               && r.now < opens <= r.now + 1000 * hint < opens + 1000
               && (Check(b, window, r.limit, retryAt, member).1.allowed <==> opens <= retryAt)
  {
    var b := Serve(window, before + [r]);
    assert |b.zset| <= r.limit by {
      SingleLimitFits(window, before + [r], r.limit);
    }
    RetryAcceptedIff(window, before, r, retryAt, member);
    DenialHint(window, before, r);
  }

  /**
   Whatever mix of limits the key has seen, waiting the hint is enough if and only if the
   limit-th latest sample has left the window by then; the hint only looks at the oldest.
   */
  lemma HintSufficesIff(window: nat, before: seq<Request>, r: Request, hinted: int, member: nat)
    requires WellTimed(before + [r]) && r.limit >= 1 && !LastAnswer(window, before + [r]).allowed
    requires hinted == r.now + 1000 * LastAnswer(window, before + [r]).retryAfter
    ensures var b := Serve(window, before + [r]);
            && |b.zset| >= r.limit
            && b.zset[0].time + window <= hinted
            && (Check(b, window, r.limit, hinted, member).1.allowed
                <==> b.zset[|b.zset| - r.limit].time + window <= hinted)
  {
    DenialHint(window, before, r);
    RetryAcceptedIff(window, before, r, hinted, member);
  }

  // ---------------------------------------------------------------- what an answer tells

  /** `seconds` is the first whole second at or after instant `at`. */
  predicate FirstSecond(seconds: int, at: int) {
    1000 * (seconds - 1) < at <= 1000 * seconds
  }

  /**
   What an answer tells when the window holds `n` accepted requests, the first of them at
   `oldest`.  An accepted request is told what room is left with it counted in, and when it
   leaves the window itself; a refused one, when the oldest leaves it, and how many seconds
   that is from now, at least one.
   */
  predicate Tells(answer: Answer, limit: int, window: nat, now: int, n: nat, oldest: int) {
    && (answer.allowed <==> n < limit)
    && if answer.allowed then
         && answer.remaining + n + 1 == limit && answer.retryAfter == 0
         && FirstSecond(answer.resetSeconds, now + window)
       else
         && answer.remaining == 0 && FirstSecond(answer.resetSeconds, oldest + window)
         && answer.retryAfter >= 1
         && if oldest + window > now then FirstSecond(answer.retryAfter, oldest + window - now)
            else answer.retryAfter == 1
  }

  lemma CheckTells(b: Bucket, window: nat, limit: int, now: int, member: nat)
    ensures var pruned := Prune(Load(b, now), now - window);
            Tells(Check(b, window, limit, now, member).1, limit, window, now, |pruned|,
                  if pruned == [] then now else pruned[0].time)
  {
  }

  /** When the first of the last `n` times was; `now` when there is none. */
  function OldestOf(times: seq<int>, n: nat, now: int): int
    requires n <= |times|
  {
    if n == 0 then now else times[|times| - n]
  }

  /** The pruned set is the window's share of the accepted times, from its oldest on. */
  lemma PrunedOldest(pruned: seq<Sample>, accepted: seq<int>, n: nat, now: int)
    requires Matches(pruned, accepted) && |pruned| == n
    ensures n <= |accepted| && OldestOf(accepted, n, now) == if pruned == [] then now else pruned[0].time
  {
  }

  ghost predicate TellsWindow(answer: Answer, limit: int, window: nat, now: int, accepted: seq<int>) {
    var n := CountIn(accepted, now - window, now);
    n <= |accepted| && Tells(answer, limit, window, now, n, OldestOf(accepted, n, now))
  }

  lemma CheckTellsWindow(b: Bucket, window: nat, accepted: seq<int>, last: int, limit: int, now: int, member: nat)
    requires Remembers(b, window, accepted, last) && last <= now
    ensures TellsWindow(Check(b, window, limit, now, member).1, limit, window, now, accepted)
  {
    var n := CountIn(accepted, now - window, now);
    assert n <= |accepted| && Tells(Check(b, window, limit, now, member).1, limit, window, now, n,
                                    OldestOf(accepted, n, now)) by {
      PrunedIsWindow(b, window, accepted, last, now);
      PrunedOldest(Prune(Load(b, now), now - window), accepted, n, now);
      CheckTells(b, window, limit, now, member);
    }
  }

  /** Each answer of every run tells what the plain count of the accepted requests says. */
  lemma AnswersTell(window: nat, before: seq<Request>, r: Request)
    requires WellTimed(before + [r])
    ensures TellsWindow(LastAnswer(window, before + [r]), r.limit, window, r.now, Accepted(window, before))
  {
    assert Remembers(Serve(window, before), window, Accepted(window, before), LastTime(before))
           && LastTime(before) <= r.now by {
      WellTimedPrefix(before, r);
      ServeRemembers(window, before);
      LastTimeBefore(before, r);
    }
    CheckTellsWindow(Serve(window, before), window, Accepted(window, before), LastTime(before),
                     r.limit, r.now, r.member);
    assert LastAnswer(window, before + [r]) == Check(Serve(window, before), window, r.limit, r.now, r.member).1 by {
      ServedOneMore(window, before, r);
    }
  }

  lemma {:induction false} InsertNonEmpty(zset: seq<Sample>, s: Sample)
    ensures InsertByScore(zset, s) != []
  {
  }

  /** A key nobody uses is gone a second or so after its last accepted request left the window, not before. */
  lemma IdleKeyLapsesAt(b: Bucket, window: nat, limit: int, now: int, member: nat, seconds: int, later: int)
    requires Check(b, window, limit, now, member).1.allowed && FirstSecond(seconds, window)
    ensures Load(Check(b, window, limit, now, member).0, later) == [] <==> now + 1000 * seconds + 1000 <= later
  {
    assert seconds == CeilDiv(window, 1000);
    var pruned := Prune(Load(b, now), now - window);
    InsertNonEmpty(Without(pruned, member), Sample(now, member));
  }

  /** A denial does not lengthen or shorten a key's life. */
  lemma DenialKeepsLifetime(b: Bucket, window: nat, limit: int, now: int, member: nat, later: int)
    requires !Check(b, window, limit, now, member).1.allowed && Prune(Load(b, now), now - window) != []
    ensures Load(Check(b, window, limit, now, member).0, later) == []
       <==> b.expireAt.Some? && b.expireAt.value <= later
  {
  }
}
