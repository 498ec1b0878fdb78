/**
 The rate limiter service and the gateway's tiers: many keys, one bucket each,
 with the counters kept in memory.
 */
module RateLimiterService {
  import opened Wrappers
  import opened RateLimiter

  datatype Tier = Auth | Payment | General

  /** Requests per window: AUTH, PAYMENT (20 sustained and 5 burst) and GENERAL. */
  function Limit(tier: Tier): nat {
    match tier
    case Auth => 10
    case Payment => 25
    case General => 100
  }

  const WINDOW_SECONDS := 60

  /** Whom a request is counted against. */
  datatype Principal = User(id: string) | Ip(address: string)

  function PrincipalOf(tier: Tier, user: Option<string>, ip: string): Principal {
    if tier != Auth && user.Some? && user.value != "" then User(user.value) else Ip(ip)
  }

  /** The Redis key of a tier's request. */
  function KeyFor(tier: Tier, user: Option<string>, ip: string): string {
    match PrincipalOf(tier, user, ip)
    case User(id) => "rate:user:" + id
    case Ip(address) => "rate:ip:" + address
  }

  /** A request is counted against its user if it has one and is not for AUTH. */
  predicate ByUser(tier: Tier, user: Option<string>) {
    match tier
    case Auth => false
    case Payment => user != None && user != Some("")
    case General => user != None && user != Some("")
  }

  lemma KeyIs(tier: Tier, user: Option<string>, ip: string)
    ensures KeyFor(tier, user, ip) == if ByUser(tier, user) then "rate:user:" + user.value else "rate:ip:" + ip
  {
  }

  /**
   Two requests share a bucket exactly when both are counted against the same user, or both
   against the same address, whatever their tiers.
   */
  lemma SameKeyIff(t1: Tier, user1: Option<string>, ip1: string, t2: Tier, user2: Option<string>, ip2: string)
    ensures KeyFor(t1, user1, ip1) == KeyFor(t2, user2, ip2)
       <==> ByUser(t1, user1) == ByUser(t2, user2) && if ByUser(t1, user1) then user1 == user2 else ip1 == ip2
  {
    var k1, k2 := KeyFor(t1, user1, ip1), KeyFor(t2, user2, ip2);
    match (PrincipalOf(t1, user1, ip1), PrincipalOf(t2, user2, ip2))
    case (User(a), User(b)) => assert k1[10..] == a && k2[10..] == b;
    case (Ip(a), Ip(b)) => assert k1[8..] == a && k2[8..] == b;
    case (User(_), Ip(_)) => assert k1[5] == 'u' && k2[5] == 'i';
    case (Ip(_), User(_)) => assert k1[5] == 'i' && k2[5] == 'u';
  }

  const EXCLUDED_ROUTES := ["/health", "/metrics", "/docs", "/admin"]

  /** An excluded path, or one below it. */
  predicate IsExcludedRoute(path: string) {
    exists i :: 0 <= i < |EXCLUDED_ROUTES| && (path == EXCLUDED_ROUTES[i] || EXCLUDED_ROUTES[i] + "/" <= path)
  }

  /** The path up to its second slash. */
  function FirstSegment(path: string): string {
    if path == "" || path[0] != '/' then path else "/" + UpToSlash(path[1..])
  }

  function UpToSlash(path: string): (head: string)
    ensures head <= path && '/' !in head
    ensures head == path || path[|head|] == '/'
  {
    if path == "" || path[0] == '/' then "" else [path[0]] + UpToSlash(path[1..])
  }

  lemma SegmentIff(path: string, route: string)
    requires route != "" && route[0] == '/' && '/' !in route[1..]
    ensures path == route || route + "/" <= path <==> FirstSegment(path) == route
  {
    if path != "" && path[0] == '/' {
      assert path == "/" + path[1..] && route == "/" + route[1..];
      if path == route || route + "/" <= path {
        SegmentOf(path[1..], route[1..]);
      }
    }
  }

  lemma SegmentOf(rest: string, name: string)
    requires '/' !in name && name <= rest && (rest == name || rest[|name|] == '/')
    ensures UpToSlash(rest) == name
  {
    var head := UpToSlash(rest);
    assert head == rest[..|head|] && name == rest[..|name|];
  }

  /** The limiter lets health checks, metrics, the documentation and the admin pages pass, and nothing else. */
  lemma ExcludedIff(path: string)
    ensures IsExcludedRoute(path) <==>
            FirstSegment(path) in {"/health", "/metrics", "/docs", "/admin"}
  {
    SegmentIff(path, "/health");
    SegmentIff(path, "/metrics");
    SegmentIff(path, "/docs");
    SegmentIff(path, "/admin");
    assert EXCLUDED_ROUTES[0] == "/health" && EXCLUDED_ROUTES[1] == "/metrics"
           && EXCLUDED_ROUTES[2] == "/docs" && EXCLUDED_ROUTES[3] == "/admin";
  }

  // ---------------------------------------------------------------- many keys

  /** One request that reached the script. */
  datatype Hit = Hit(tier: Tier, user: Option<string>, ip: string, now: int, member: nat)

  function KeyOf(hit: Hit): string {
    KeyFor(hit.tier, hit.user, hit.ip)
  }

  function BucketIn(buckets: map<string, Bucket>, key: string): Bucket {
    if key in buckets then buckets[key] else EMPTY
  }

  /** The buckets after a run of requests, each checked under its tier's limit. */
  function Buckets(hits: seq<Hit>): map<string, Bucket>
    decreases |hits|
  {
    if hits == [] then map[]
    else
      var before, hit := Buckets(hits[..|hits| - 1]), hits[|hits| - 1];
      before[KeyOf(hit) := Check(BucketIn(before, KeyOf(hit)), WINDOW_SECONDS * 1000, Limit(hit.tier),
                                 hit.now, hit.member).0]
  }

  /** The requests with one key, in order. */
  function OnKey(hits: seq<Hit>, key: string): seq<Request>
    decreases |hits|
  {
    if hits == [] then []
    else
      var before, hit := OnKey(hits[..|hits| - 1], key), hits[|hits| - 1];
      if KeyOf(hit) == key then before + [Request(Limit(hit.tier), hit.now, hit.member)] else before
  }

  /** Keys do not disturb each other: a key's bucket is that of its own requests alone. */
  lemma {:induction false} KeysAreIndependent(hits: seq<Hit>, key: string)
    ensures BucketIn(Buckets(hits), key) == Serve(WINDOW_SECONDS * 1000, OnKey(hits, key))
    decreases |hits|
  {
    if hits != [] {
      var before, hit := hits[..|hits| - 1], hits[|hits| - 1];
      KeysAreIndependent(before, key);
      if KeyOf(hit) == key {
        ServedOneMore(WINDOW_SECONDS * 1000, OnKey(before, key), Request(Limit(hit.tier), hit.now, hit.member));
      }
    }
  }

  predicate InOrder(hits: seq<Hit>) {
    && (forall i :: 0 <= i < |hits| ==> 0 <= hits[i].now)
    && (forall i, j :: 0 <= i <= j < |hits| ==> hits[i].now <= hits[j].now)
    && (forall i, j :: 0 <= i < j < |hits| ==> hits[i].member != hits[j].member)
  }

  /** Each of these requests is one of the hits. */
  ghost predicate Among(requests: seq<Request>, hits: seq<Hit>) {
    forall r :: r in requests ==> exists i :: 0 <= i < |hits| && hits[i].now == r.now && hits[i].member == r.member
  }

  lemma AmongMore(requests: seq<Request>, hits: seq<Hit>, hit: Hit)
    requires Among(requests, hits)
    ensures Among(requests, hits + [hit])
  {
    forall r | r in requests
      ensures exists i ::
        0 <= i < |hits + [hit]| && (hits + [hit])[i].now == r.now && (hits + [hit])[i].member == r.member
    {
      var i :| 0 <= i < |hits| && hits[i].now == r.now && hits[i].member == r.member;
      assert (hits + [hit])[i] == hits[i];
    }
  }

  /** One hit more comes after them all, and is none of them. */
  lemma OneMoreAmong(hits: seq<Hit>, hit: Hit, was: seq<Request>)
    requires InOrder(hits + [hit]) && WellTimed(was) && Among(was, hits)
    ensures Among(was, hits + [hit])
    ensures forall limit :: WellTimed(was + [Request(limit, hit.now, hit.member)])
                         && Among(was + [Request(limit, hit.now, hit.member)], hits + [hit])
  {
    var all := hits + [hit];
    AmongMore(was, hits, hit);
    forall k | 0 <= k < |was| ensures 0 <= was[k].now <= hit.now && was[k].member != hit.member {
      assert was[k] in was;
      var i :| 0 <= i < |hits| && hits[i].now == was[k].now && hits[i].member == was[k].member;
      assert all[i] == hits[i] && all[|hits|] == hit;
    }
    assert all[|hits|] == hit;
  }

  /** The requests with one key are some of all, each where it was. */
  lemma {:induction false} OnKeyAmong(hits: seq<Hit>, key: string)
    requires InOrder(hits)
    ensures WellTimed(OnKey(hits, key)) && Among(OnKey(hits, key), hits)
    decreases |hits|
  {
    if hits != [] {
      var before, hit := hits[..|hits| - 1], hits[|hits| - 1];
      assert InOrder(before);
      OnKeyAmong(before, key);
      assert hits == before + [hit];
      OneMoreAmong(before, hit, OnKey(before, key));
    }
  }

  /**
   The tiers, over every run on every key: a request passes exactly when fewer than its tier
   allows, 10 for AUTH, 25 for PAYMENT and 100 for GENERAL, were accepted with its key in the
   last 60 seconds.
   */
  lemma TierAdmitsIff(hits: seq<Hit>, hit: Hit)
    requires InOrder(hits + [hit])
    ensures var accepted := Accepted(60_000, OnKey(hits, KeyOf(hit)));
            Check(BucketIn(Buckets(hits), KeyOf(hit)), 60_000, Limit(hit.tier), hit.now, hit.member).1.allowed
            <==> CountIn(accepted, hit.now - 60_000, hit.now)
                 < match hit.tier case Auth => 10 case Payment => 25 case General => 100
  {
    TierAccepts(hits, hit, 60_000, OnKey(hits, KeyOf(hit)), Request(Limit(hit.tier), hit.now, hit.member));
  }

  lemma TierAccepts(hits: seq<Hit>, hit: Hit, window: nat, before: seq<Request>, r: Request)
    requires InOrder(hits + [hit]) && window == 60_000
    requires before == OnKey(hits, KeyOf(hit)) && r == Request(Limit(hit.tier), hit.now, hit.member)
    ensures Check(BucketIn(Buckets(hits), KeyOf(hit)), window, r.limit, r.now, r.member).1.allowed
       <==> CountIn(Accepted(window, before), r.now - window, r.now) < r.limit
  {
    assert WellTimed(before + [r]) by {
      OnKeyAmong(hits + [hit], KeyOf(hit));
      assert (hits + [hit])[..|hits|] == hits;
    }
    KeysAreIndependent(hits, KeyOf(hit));
    ServedOneMore(window, before, r);
    LastAllowedIff(window, before, r);
  }

  // ---------------------------------------------------------------- two limits on one key

  /** A user's requests to the GENERAL tier, one a second. */
  function GeneralRun(n: nat): (requests: seq<Request>)
    ensures |requests| == n
    ensures forall i :: 0 <= i < n ==> requests[i] == Request(Limit(General), 1000 * (i + 1), i + 1)
  {
    if n == 0 then [] else GeneralRun(n - 1) + [Request(Limit(General), 1000 * n, n)]
  }

  lemma {:induction false} CountAtMost(times: seq<int>, lo: int, hi: int)
    ensures CountIn(times, lo, hi) <= |times|
    decreases |times|
  {
    if times != [] {
      CountAtMost(times[..|times| - 1], lo, hi);
    }
  }

  lemma AcceptsBelow(window: nat, before: seq<Request>, r: Request)
    requires |Accepted(window, before)| < r.limit
    ensures Accepted(window, before + [r]) == Accepted(window, before) + [r.now]
  {
    AcceptedOneMore(window, before, r);
    BelowIsAccepted(Accepted(window, before), window, r, Accepted(window, before + [r]));
  }

  lemma BelowIsAccepted(times: seq<int>, window: nat, r: Request, after: seq<int>)
    requires |times| < r.limit
    requires after == if CountIn(times, r.now - window, r.now) < r.limit then times + [r.now] else times
    ensures after == times + [r.now]
  {
    CountAtMost(times, r.now - window, r.now);
  }

  lemma GeneralRunOneMore(window: nat, n: nat)
    requires |Accepted(window, GeneralRun(n))| < Limit(General)
    ensures Accepted(window, GeneralRun(n + 1)) == Accepted(window, GeneralRun(n)) + [1000 * (n + 1)]
  {
    var r := Request(Limit(General), 1000 * (n + 1), n + 1);
    assert GeneralRun(n + 1) == GeneralRun(n) + [r];
    AcceptsBelow(window, GeneralRun(n), r);
  }

  /** A payment a second after the last of them. */
  function PaymentAfter(n: nat): Request {
    Request(Limit(Payment), 1000 * (n + 1), n + 1)
  }

  function Seconds(n: nat): (times: seq<int>)
    ensures |times| == n && forall i :: 0 <= i < n ==> times[i] == 1000 * (i + 1)
  {
    if n == 0 then [] else Seconds(n - 1) + [1000 * n]
  }

  /** Within the limit every request is accepted. */
  lemma {:induction false} GeneralRunAccepted(window: nat, n: nat)
    requires n <= Limit(General)
    ensures Accepted(window, GeneralRun(n)) == Seconds(n)
  {
    if n > 0 {
      GeneralRunAccepted(window, n - 1);
      GeneralRunOneMore(window, n - 1);
    }
  }

  lemma {:induction false} RunWellTimed(n: nat)
    ensures WellTimed(GeneralRun(n)) && WellTimed(GeneralRun(n) + [PaymentAfter(n)])
  {
    var run := GeneralRun(n) + [PaymentAfter(n)];
    assert forall i :: 0 <= i <= n ==> run[i].now == 1000 * (i + 1) && run[i].member == i + 1;
  }

  /** In the first minute nothing has left the window. */
  lemma CountSeconds(window: nat, n: nat, times: seq<int>, r: Request)
    requires Limit(Payment) <= n < 60 && window == 60_000 && times == Seconds(n) && r == PaymentAfter(n)
    ensures r.limit <= CountIn(times, r.now - window, r.now)
  {
    CountAll(times, 0, r.now - window, r.now);
  }

  lemma PaymentIsDenied(window: nat, n: nat, general: seq<Request>, r: Request, times: seq<int>)
    requires Limit(Payment) <= n < 60 && window == 60_000
    requires general == GeneralRun(n) && r == PaymentAfter(n) && times == Seconds(n)
    ensures WellTimed(general + [r]) && DeniedAfter(window, general + [r], times)
  {
    CountSeconds(window, n, times, r);
    assert times == Accepted(window, general) by {
      GeneralRunAccepted(window, n);
    }
    assert WellTimed(general + [r]) by {
      RunWellTimed(n);
    }
    FullIsDenied(window, general, r, times);
  }

  lemma SharedBucket(window: nat, n: nat, run: seq<Request>)
    requires Limit(Payment) <= n < 60 && window == 60_000 && run == GeneralRun(n) + [PaymentAfter(n)]
    ensures WellTimed(run) && DeniedAfter(window, run, Seconds(n))
    ensures var zset := Serve(window, run).zset;
            |zset| == n && forall i :: 0 <= i < n ==> zset[i].time == 1000 * (i + 1)
  {
    PaymentIsDenied(window, n, GeneralRun(n), PaymentAfter(n), Seconds(n));
    ServeRemembers(window, run);
    assert Seconds(n)[0] == 1000;
  }

  lemma SharedHint(window: nat, n: nat, run: seq<Request>)
    requires Limit(Payment) <= n < 60 && window == 60_000 && run == GeneralRun(n) + [PaymentAfter(n)]
    ensures LastAnswer(window, run).retryAfter == 60 - n
  {
    SharedBucket(window, n, run);
    DenialHint(window, GeneralRun(n), PaymentAfter(n));
  }

  lemma SharedKey(user: string, ip: string)
    requires user != ""
    ensures KeyFor(General, Some(user), ip) == KeyFor(Payment, Some(user), ip)
  {
  }

  /**
   On the key that a user's GENERAL and PAYMENT requests share, the hint can be too short:
   after n GENERAL requests, 26 of them or up to 59, a payment is denied, told to wait
   60 - n seconds, and denied again when it has.
   */
  lemma MixedLimitsBreakTheHint(user: string, ip: string, window: nat, n: nat, member: nat, retryAt: int)
    requires user != "" && window == 60_000 && 26 <= n <= 59
    requires retryAt == 1000 * (n + 1) + 1000 * (60 - n)
    ensures KeyFor(General, Some(user), ip) == KeyFor(Payment, Some(user), ip)
    ensures var run := GeneralRun(n) + [PaymentAfter(n)];
            && WellTimed(run) && !LastAnswer(window, run).allowed
            && LastAnswer(window, run).retryAfter == 60 - n
            && !Check(Serve(window, run), window, Limit(Payment), retryAt, member).1.allowed
  {
    var run := GeneralRun(n) + [PaymentAfter(n)];
    SharedKey(user, ip);
    SharedBucket(window, n, run);
    SharedHint(window, n, run);
    HintSufficesIff(window, GeneralRun(n), PaymentAfter(n), retryAt, member);
  }

  class Service {
    var buckets: map<string, Bucket>
    var allowedRequests: nat
    var blockedRequests: nat
    var totalChecks: nat

    constructor ()
      ensures buckets == map[] && allowedRequests == blockedRequests == totalChecks == 0
    {
      buckets := map[];
      allowedRequests, blockedRequests, totalChecks := 0, 0, 0;
    }

    predicate Valid()
      reads this
    {
      totalChecks == allowedRequests + blockedRequests
    }

    /** The bucket stored under a key; a missing key is the empty bucket. */
    function BucketAt(key: string): Bucket
      reads this
    {
      BucketIn(buckets, key)
    }

    /** The script, on the key's bucket; every other key is untouched. */
    method RunScript(key: string, limit: int, windowMs: nat, now: int, member: nat) returns (answer: Answer)
      modifies this`buckets
      ensures answer == Check(old(BucketAt(key)), windowMs, limit, now, member).1
      ensures buckets == old(buckets)[key := Check(old(BucketAt(key)), windowMs, limit, now, member).0]
    {
      // ZREMRANGEBYSCORE
      var bucket := BucketAt(key);
      bucket := Bucket(Prune(Load(bucket, now), now - windowMs), bucket.expireAt);
      // ZCARD
      var count := |bucket.zset|;
      if count < limit {
        // ZADD, EXPIRE
        bucket := bucket.(zset := ZAdd(bucket.zset, Sample(now, member)));
        bucket := bucket.(expireAt := Some(now + 1000 * (CeilDiv(windowMs, 1000) + 1)));
        answer := Answer(true, limit - count - 1, CeilDiv(now + windowMs, 1000), 0);
      } else {
        // ZRANGE 0 0; Redis drops a key whose set has become empty
        var oldest := if count == 0 then now else bucket.zset[0].time;
        if count == 0 {
          bucket := EMPTY;
        }
        var retryAfter := CeilDiv(oldest + windowMs - now, 1000);
        answer := Answer(false, 0, CeilDiv(oldest + windowMs, 1000), if retryAfter < 1 then 1 else retryAfter);
      }
      buckets := buckets[key := bucket];
    }

    /**
     One check: the script and its counters; a Redis error lets the request through
     without counting it.
     */
    method CheckRateLimit(key: string, limit: int, windowSeconds: nat, now: int, member: nat, reachable: bool)
      returns (answer: Answer)
      requires Valid()
      modifies this
      ensures Valid()
      ensures !reachable ==>
        && answer == Answer(true, 1, CeilDiv(now + windowSeconds * 1000, 1000), 0)
        && buckets == old(buckets) && totalChecks == old(totalChecks) && allowedRequests == old(allowedRequests)
      ensures reachable ==>
        && answer == Check(old(BucketAt(key)), windowSeconds * 1000, limit, now, member).1
        && buckets == old(buckets)[key := Check(old(BucketAt(key)), windowSeconds * 1000, limit, now, member).0]
        && totalChecks == old(totalChecks) + 1
        && allowedRequests == old(allowedRequests) + if answer.allowed then 1 else 0
    {
      var windowMs := windowSeconds * 1000;
      if !reachable {
        return Answer(true, 1, CeilDiv(now + windowMs, 1000), 0);
      }
      answer := RunScript(key, limit, windowMs, now, member);
      totalChecks := totalChecks + 1;
      if answer.allowed {
        allowedRequests := allowedRequests + 1;
      } else {
        blockedRequests := blockedRequests + 1;
      }
    }

    /** Forgets a key's bucket; false when Redis fails. */
    method Reset(key: string, reachable: bool) returns (done: bool)
      modifies this`buckets
      ensures done == reachable
      ensures buckets == if reachable then old(buckets) - {key} else old(buckets)
    {
      if reachable {
        buckets := buckets - {key};
      }
      return reachable;
    }

    /** A tier's middleware: infrastructure paths pass, any other is checked under the tier's limit on its key. */
    method Admit(tier: Tier, path: string, user: Option<string>, ip: string, now: int, member: nat, reachable: bool)
      returns (admitted: bool, answer: Option<Answer>)
      requires Valid()
      modifies this
      ensures Valid()
      ensures IsExcludedRoute(path) ==>
        && admitted && answer.None? && buckets == old(buckets)
        && totalChecks == old(totalChecks) && allowedRequests == old(allowedRequests)
      ensures !IsExcludedRoute(path) ==>
        var key, window := KeyFor(tier, user, ip), WINDOW_SECONDS * 1000;
        && answer == Some(if !reachable then Answer(true, 1, CeilDiv(now + window, 1000), 0)
                          else Check(old(BucketAt(key)), window, Limit(tier), now, member).1)
        && admitted == answer.value.allowed
        && totalChecks == old(totalChecks) + (if reachable then 1 else 0)
        && allowedRequests == old(allowedRequests) + (if reachable && admitted then 1 else 0)
        && buckets == if !reachable then old(buckets)
                      else old(buckets)[key := Check(old(BucketAt(key)), window, Limit(tier), now, member).0]
    {
      if IsExcludedRoute(path) {
        return true, None;
      }
      var checked := CheckRateLimit(KeyFor(tier, user, ip), Limit(tier), WINDOW_SECONDS, now, member, reachable);
      return checked.allowed, Some(checked);
    }
  }
}
