// The admin rate limiter: a token bucket per caller, refilled by elapsed time and capped at the
// burst, with idle buckets pruned once there are many. Times and tokens are real numbers.
module TokenBucket {

  const IDLE := 600.0
  const MANY := 4096

  datatype Limits = Limits(rps: real, burst: real)

  datatype Bucket = Bucket(tokens: real, last: real)

  datatype Decision = Allowed | Blocked(statusCode: int, retryAfter: int)

  ghost predicate Active(l: Limits) {
    l.rps > 0.0 && l.burst > 0.0
  }

  /** Tokens earned over some time. */
  function Gained(l: Limits, elapsed: real): real {
    elapsed * l.rps
  }

  function Refill(l: Limits, b: Bucket, now: real): real {
    var elapsed := if now < b.last then 0.0 else now - b.last;
    var tokens := b.tokens + Gained(l, elapsed);
    if tokens > l.burst then l.burst else tokens
  }

  /** A caller without a bucket starts with a full one. */
  function At(l: Limits, buckets: map<string, Bucket>, key: string, now: real): Bucket {
    if key in buckets then buckets[key] else Bucket(l.burst, now)
  }

  predicate Allows(l: Limits, buckets: map<string, Bucket>, key: string, now: real) {
    Refill(l, At(l, buckets, key, now), now) >= 1.0
  }

  function Pruned(buckets: map<string, Bucket>, cutoff: real): map<string, Bucket> {
    map k | k in buckets && buckets[k].last >= cutoff :: buckets[k]
  }

  function Step(l: Limits, buckets: map<string, Bucket>, key: string, now: real, pruning: bool): map<string, Bucket> {
    var tokens := Refill(l, At(l, buckets, key, now), now);
    if tokens < 1.0 then buckets[key := Bucket(tokens, now)]
    else
      var spent := buckets[key := Bucket(tokens - 1.0, now)];
      if pruning && |spent| > MANY then Pruned(spent, now - IDLE) else spent
  }

  class Limiter {
    var enabled: bool
    var limits: Limits
    var statusCode: int
    var retryAfter: int
    var buckets: map<string, Bucket>
    var requests: nat
    var allowed: nat
    var blocked: nat

    /** Every request was either allowed or blocked. */
    ghost predicate Valid()
      reads this
    {
      requests == allowed + blocked
    }

    constructor (enabled: bool, limits: Limits, statusCode: int, retryAfter: int)
      ensures Valid() && buckets == map[] && this.enabled == enabled && this.limits == limits
      ensures this.statusCode == (if statusCode == 0 then 429 else statusCode) && this.retryAfter == retryAfter
    {
      this.enabled, this.limits, this.retryAfter := enabled, limits, retryAfter;
      this.statusCode := if statusCode == 0 then 429 else statusCode;
      buckets, requests, allowed, blocked := map[], 0, 0, 0;
    }

    /** Disabling forgets every bucket. */
    method Update(enabled: bool, limits: Limits, statusCode: int, retryAfter: int)
      requires Valid()
      modifies this
      ensures Valid() && buckets == (if enabled then old(buckets) else map[])
      ensures this.enabled == enabled && this.limits == limits
      ensures this.statusCode == (if statusCode == 0 then 429 else statusCode) && this.retryAfter == retryAfter
    {
      this.enabled, this.limits, this.retryAfter := enabled, limits, retryAfter;
      this.statusCode := if statusCode == 0 then 429 else statusCode;
      if !enabled {
        buckets := map[];
      }
    }

    method Evaluate(key: string, now: real) returns (d: Decision)
      requires Valid()
      modifies this`buckets, this`requests, this`allowed, this`blocked
      ensures Valid() && requests == old(requests) + 1
      ensures !enabled || limits.rps <= 0.0 || limits.burst <= 0.0 ==> d == Allowed && buckets == old(buckets)
      ensures enabled && Active(limits) ==>
                buckets == Step(limits, old(buckets), key, now, true) &&
                d == if Allows(limits, old(buckets), key, now) then Allowed else Blocked(statusCode, retryAfter)
    {
      requests := requests + 1;
      if !enabled || limits.rps <= 0.0 || limits.burst <= 0.0 {
        allowed := allowed + 1;
        return Allowed;
      }
      var bucket := if key in buckets then buckets[key] else Bucket(limits.burst, now);
      var elapsed := now - bucket.last;
      if elapsed < 0.0 {
        elapsed := 0.0;
      }
      bucket := bucket.(tokens := bucket.tokens + Gained(limits, elapsed));
      if bucket.tokens > limits.burst {
        bucket := bucket.(tokens := limits.burst);
      }
      bucket := bucket.(last := now);
      if bucket.tokens < 1.0 {
        buckets := buckets[key := bucket];
        blocked := blocked + 1;
        return Blocked(statusCode, retryAfter);
      }
      buckets := buckets[key := bucket.(tokens := bucket.tokens - 1.0)];
      allowed := allowed + 1;
      if |buckets| > MANY {
        Prune(now - IDLE);
      }
      return Allowed;
    }

    method Prune(cutoff: real)
      modifies this`buckets
      ensures buckets == Pruned(old(buckets), cutoff)
    {
      var todo := buckets.Keys;
      while todo != {}
        invariant todo <= buckets.Keys
        invariant buckets == map k | k in old(buckets) && (k in todo || old(buckets)[k].last >= cutoff) :: old(buckets)[k]
        decreases todo
      {
        var key :| key in todo;
        if buckets[key].last < cutoff {
          buckets := buckets - {key};
        }
        todo := todo - {key};
      }
    }
  }

  // ----- Runs ------------------------------------------------------------------------

  datatype Hit = Hit(key: string, now: real)

  function After(l: Limits, es: seq<Hit>, pruning: bool): map<string, Bucket> {
    if es == [] then map[]
    else
      var last := es[|es| - 1];
      Step(l, After(l, es[..|es| - 1], pruning), last.key, last.now, pruning)
  }

  /** The decision on the request at `n`. */
  predicate Verdict(l: Limits, es: seq<Hit>, n: nat, pruning: bool)
    requires n < |es|
  {
    Allows(l, After(l, es[..n], pruning), es[n].key, es[n].now)
  }

  ghost predicate Ordered(es: seq<Hit>) {
    forall i :: 0 < i < |es| ==> es[i - 1].now <= es[i].now
  }

  lemma GainIsMonotone(l: Limits, a: real, b: real)
    requires Active(l)
    ensures a <= b <==> Gained(l, a) <= Gained(l, b)
  {
    var d := b - a;
    assert Gained(l, b) - Gained(l, a) == d * l.rps;
  }

  lemma GainAdds(l: Limits, a: real, b: real)
    ensures Gained(l, a) + Gained(l, b) == Gained(l, a + b)
  {
  }

  lemma RefillInRange(l: Limits, b: Bucket, now: real)
    requires Active(l) && 0.0 <= b.tokens <= l.burst
    ensures b.tokens <= Refill(l, b, now) <= l.burst
  {
    GainIsMonotone(l, 0.0, if now < b.last then 0.0 else now - b.last);
  }

  ghost predicate InRange(l: Limits, b: Bucket) {
    0.0 <= b.tokens <= l.burst
  }

  /** Tokens never leave 0..burst, with or without pruning, whatever the clock does. */
  lemma {:induction false} TokensStayInRange(l: Limits, es: seq<Hit>, pruning: bool)
    requires Active(l)
    ensures forall k :: k in After(l, es, pruning) ==> InRange(l, After(l, es, pruning)[k])
  {
    if es != [] {
      var init, h := es[..|es| - 1], es[|es| - 1];
      TokensStayInRange(l, init, pruning);
      var before := After(l, init, pruning);
      assert h.key in before ==> InRange(l, before[h.key]);
      RefillInRange(l, At(l, before, h.key, h.now), h.now);
    }
  }

  // ----- Pruning ---------------------------------------------------------------------

  /** Full again at `clock`, and so at any later time. */
  predicate FullBy(l: Limits, b: Bucket, clock: real) {
    b.last <= clock && b.tokens + Gained(l, clock - b.last) >= l.burst
  }

  lemma FullStaysFull(l: Limits, b: Bucket, clock: real, now: real)
    requires Active(l) && InRange(l, b) && FullBy(l, b, clock) && now >= clock
    ensures FullBy(l, b, now) && Refill(l, b, now) == l.burst
  {
    GainIsMonotone(l, clock - b.last, now - b.last);
  }

  /** A bucket idle for over 600 s is surely full again exactly when burst <= 600 rps: pruning,
      which replaces it by a full one, is then lossless and otherwise is not. */
  lemma PruningIsLosslessIff(l: Limits)
    requires Active(l)
    ensures l.burst <= Gained(l, IDLE) <==>
            forall b: Bucket, now: real :: InRange(l, b) && b.last < now - IDLE ==> Refill(l, b, now) == l.burst
  {
    if l.burst <= Gained(l, IDLE) {
      forall b: Bucket, now: real | InRange(l, b) && b.last < now - IDLE ensures Refill(l, b, now) == l.burst {
        IdleIsFull(l, b, now);
      }
    } else {
      var now := StillShort(l);
      var b := Bucket(0.0, 0.0);
      assert InRange(l, b) && b.last < now - IDLE && Refill(l, b, now) != l.burst;
    }
  }

  /** A moment past the idle limit at which an empty bucket is not full again. */
  lemma StillShort(l: Limits) returns (now: real)
    requires Active(l) && l.burst > Gained(l, IDLE)
    ensures now > IDLE && 0.0 < Gained(l, now) < l.burst
  {
    var full := l.burst / l.rps;
    assert Gained(l, full) == l.burst;
    GainIsMonotone(l, full, IDLE);
    now := (IDLE + full) / 2.0;
    GainAdds(l, now, now);
    GainAdds(l, IDLE, full);
    GainIsMonotone(l, now, 0.0);
  }

  lemma IdleIsFull(l: Limits, b: Bucket, now: real)
    requires Active(l) && InRange(l, b) && b.last < now - IDLE && l.burst <= Gained(l, IDLE)
    ensures FullBy(l, b, now) && Refill(l, b, now) == l.burst
  {
    GainIsMonotone(l, IDLE, now - b.last);
    FullStaysFull(l, b, now, now);
  }

  predicate Agree(l: Limits, pruned: map<string, Bucket>, plain: map<string, Bucket>, clock: real, k: string) {
    (k in pruned ==> k in plain && pruned[k] == plain[k]) &&
    (k in plain ==> 0.0 <= plain[k].tokens <= l.burst && plain[k].last <= clock) &&
    (k in plain && k !in pruned ==> FullBy(l, plain[k], clock))
  }

  ghost predicate Related(l: Limits, pruned: map<string, Bucket>, plain: map<string, Bucket>, clock: real) {
    forall k :: Agree(l, pruned, plain, clock, k)
  }

  lemma SameTokens(l: Limits, pruned: map<string, Bucket>, plain: map<string, Bucket>, clock: real, h: Hit)
    requires Active(l) && Related(l, pruned, plain, clock) && h.now >= clock
    ensures Refill(l, At(l, pruned, h.key, h.now), h.now) == Refill(l, At(l, plain, h.key, h.now), h.now)
    ensures Allows(l, pruned, h.key, h.now) == Allows(l, plain, h.key, h.now)
    ensures 0.0 <= Refill(l, At(l, plain, h.key, h.now), h.now) <= l.burst
  {
    assert Agree(l, pruned, plain, clock, h.key);
    if h.key in plain {
      RefillInRange(l, plain[h.key], h.now);
      if h.key !in pruned {
        FullStaysFull(l, plain[h.key], clock, h.now);
      }
    }
  }

  lemma AgreeStep(l: Limits, pruned: map<string, Bucket>, plain: map<string, Bucket>, clock: real, h: Hit, k: string)
    requires Active(l) && l.burst <= Gained(l, IDLE) && Related(l, pruned, plain, clock) && h.now >= clock
    ensures Agree(l, Step(l, pruned, h.key, h.now, true), Step(l, plain, h.key, h.now, false), h.now, k)
  {
    SameTokens(l, pruned, plain, clock, h);
    assert Agree(l, pruned, plain, clock, k);
    var s, p := Step(l, pruned, h.key, h.now, true), Step(l, plain, h.key, h.now, false);
    if k in p && k !in s {
      if k in pruned {
        IdleIsFull(l, p[k], h.now);
      } else {
        FullStaysFull(l, plain[k], clock, h.now);
      }
    }
  }

  lemma {:induction false} StoresRelated(l: Limits, es: seq<Hit>, n: nat)
    requires Active(l) && l.burst <= Gained(l, IDLE) && Ordered(es) && n < |es|
    ensures Related(l, After(l, es[..n], true), After(l, es[..n], false), if n == 0 then es[0].now else es[n - 1].now)
  {
    if n == 0 {
      var none: map<string, Bucket> := map[];
      forall k ensures Agree(l, none, none, es[0].now, k) {}
    } else {
      StoresRelated(l, es, n - 1);
      assert es[..n][..n - 1] == es[..n - 1];
      var pruned, plain := After(l, es[..n - 1], true), After(l, es[..n - 1], false);
      var clock, h := if n == 1 then es[0].now else es[n - 2].now, es[n - 1];
      var s, p := Step(l, pruned, h.key, h.now, true), Step(l, plain, h.key, h.now, false);
      forall k ensures Agree(l, s, p, h.now, k) { AgreeStep(l, pruned, plain, clock, h, k); }
    }
  }

  /** With burst <= 600 rps and a clock that does not go back, pruning changes no decision. */
  lemma PruningIsInvisible(l: Limits, es: seq<Hit>, n: nat)
    requires Active(l) && l.burst <= Gained(l, IDLE) && Ordered(es) && n < |es|
    ensures Verdict(l, es, n, true) == Verdict(l, es, n, false)
  {
    StoresRelated(l, es, n);
    SameTokens(l, After(l, es[..n], true), After(l, es[..n], false), if n == 0 then es[0].now else es[n - 1].now, es[n]);
  }

  // ----- Where pruning shows ---------------------------------------------------------

  lemma AfterPush(l: Limits, es: seq<Hit>, h: Hit, pruning: bool)
    ensures After(l, es + [h], pruning) == Step(l, After(l, es, pruning), h.key, h.now, pruning)
  {
    assert (es + [h])[..|es|] == es;
  }

  /** A caller spends at time 0, and a crowd of others comes once each. */
  function Spending(n: nat): seq<Hit> {
    if n == 0 then [] else Spending(n - 1) + [Hit("a", 0.0)]
  }

  function Name(i: nat): string {
    seq(i + 1, _ => 'b')
  }

  function Crowding(burst: nat, m: nat): seq<Hit> {
    if m == 0 then Spending(burst) else Crowding(burst, m - 1) + [Hit(Name(m - 1), 0.0)]
  }

  /** Later one more caller comes, and then the first one `k` times. */
  function Returning(burst: nat, m: nat, late: real, k: nat): seq<Hit> {
    if k == 0 then Crowding(burst, m) + [Hit("z", late)] else Returning(burst, m, late, k - 1) + [Hit("a", late)]
  }

  lemma {:induction false} ReturningIsOrdered(burst: nat, m: nat, late: real, k: nat)
    requires late >= 0.0
    ensures Ordered(Returning(burst, m, late, k)) && |Returning(burst, m, late, k)| > k
    ensures Returning(burst, m, late, k)[|Returning(burst, m, late, k)| - 1].now == late
  {
    if k > 0 {
      ReturningIsOrdered(burst, m, late, k - 1);
    } else {
      CrowdingIsEarly(burst, m);
    }
  }

  lemma {:induction false} CrowdingIsEarly(burst: nat, m: nat)
    ensures forall i :: 0 <= i < |Crowding(burst, m)| ==> Crowding(burst, m)[i].now == 0.0
  {
    if m > 0 {
      CrowdingIsEarly(burst, m - 1);
    } else {
      SpendingIsEarly(burst);
    }
  }

  lemma {:induction false} SpendingIsEarly(n: nat)
    ensures forall i :: 0 <= i < |Spending(n)| ==> Spending(n)[i].now == 0.0
  {
    if n > 0 {
      SpendingIsEarly(n - 1);
    }
  }

  /** What a full bucket has left after `n` requests at one moment. */
  function Left(burst: nat, n: nat, at: real): Bucket {
    Bucket(burst as real - n as real, at)
  }

  lemma RefillNow(l: Limits, b: Bucket)
    requires b.tokens <= l.burst
    ensures Refill(l, b, b.last) == b.tokens
  {
    assert Gained(l, 0.0) == 0.0;
  }

  /** One more request of a caller that has made `n - 1` at this moment, among few callers. */
  lemma SpendsOne(l: Limits, before: map<string, Bucket>, burst: nat, n: nat, at: real, pruning: bool)
    requires l.burst == burst as real && 0 < n <= burst && |before| < MANY
    requires At(l, before, "a", at) == Left(burst, n - 1, at)
    ensures Step(l, before, "a", at, pruning) == before["a" := Left(burst, n, at)]
  {
    RefillNow(l, Left(burst, n - 1, at));
    var next := before["a" := Left(burst, n, at)];
    assert next.Keys == before.Keys + {"a"};
  }

  lemma FewCallers(buckets: map<string, Bucket>)
    requires buckets.Keys <= {"a", "z"}
    ensures |buckets| < MANY
  {
    var rest := {"a", "z"} - buckets.Keys;
    assert buckets.Keys + rest == {"a", "z"};
  }

  predicate Spent(buckets: map<string, Bucket>, burst: nat, n: nat) {
    if n == 0 then buckets == map[] else buckets.Keys == {"a"} && buckets["a"] == Left(burst, n, 0.0)
  }

  lemma SpentAgain(l: Limits, before: map<string, Bucket>, burst: nat, n: nat, pruning: bool)
    requires l.burst == burst as real && 0 < n <= burst && Spent(before, burst, n - 1)
    ensures Spent(Step(l, before, "a", 0.0, pruning), burst, n)
  {
    FewCallers(before);
    SpendsOne(l, before, burst, n, 0.0, pruning);
  }

  lemma {:induction false} AfterSpending(l: Limits, burst: nat, n: nat, pruning: bool)
    requires l.burst == burst as real && n <= burst
    ensures Spent(After(l, Spending(n), pruning), burst, n)
  {
    if n > 0 {
      AfterSpending(l, burst, n - 1, pruning);
      AfterPush(l, Spending(n - 1), Hit("a", 0.0), pruning);
      SpentAgain(l, After(l, Spending(n - 1), pruning), burst, n, pruning);
    }
  }

  predicate EarlyName(k: string, m: nat) {
    k == "a" || ("b" <= k && |k| <= m)
  }

  /** The first caller with nothing left and `m` others, all last seen at time 0. */
  predicate IsCrowd(buckets: map<string, Bucket>, burst: nat, m: nat) {
    |buckets| == m + 1 && "a" in buckets && buckets["a"] == Left(burst, burst, 0.0) &&
    forall k :: k in buckets ==> EarlyName(k, m) && buckets[k].last == 0.0
  }

  lemma OneMoreKey(buckets: map<string, Bucket>, key: string, b: Bucket)
    requires key !in buckets
    ensures |buckets[key := b]| == |buckets| + 1
  {
    assert buckets[key := b].Keys == buckets.Keys + {key};
  }

  lemma NewCaller(l: Limits, buckets: map<string, Bucket>, burst: nat, key: string, now: real)
    requires l.burst == burst as real && burst > 0 && key !in buckets
    ensures |buckets| < MANY ==> Step(l, buckets, key, now, true) == buckets[key := Left(burst, 1, now)]
    ensures |buckets| == MANY ==>
              Step(l, buckets, key, now, true) == Pruned(buckets[key := Left(burst, 1, now)], now - IDLE)
    ensures Step(l, buckets, key, now, false) == buckets[key := Left(burst, 1, now)]
  {
    RefillNow(l, Bucket(l.burst, now));
    OneMoreKey(buckets, key, Left(burst, 1, now));
  }

  lemma OneMore(buckets: map<string, Bucket>, burst: nat, m: nat)
    requires IsCrowd(buckets, burst, m)
    ensures Name(m) !in buckets && IsCrowd(buckets[Name(m) := Left(burst, 1, 0.0)], burst, m + 1)
  {
    var name, next := Name(m), buckets[Name(m) := Left(burst, 1, 0.0)];
    assert name[0] == 'b' && |name| == m + 1;
    assert name !in buckets by {
      assert !EarlyName(name, m);
    }
    assert next.Keys == buckets.Keys + {name};
    forall k | k in next ensures EarlyName(k, m + 1) && next[k].last == 0.0 {
      assert k != name ==> EarlyName(k, m);
    }
  }

  lemma {:induction false} AfterCrowding(l: Limits, burst: nat, m: nat, pruning: bool)
    requires l.burst == burst as real && burst > 0 && m < MANY
    ensures IsCrowd(After(l, Crowding(burst, m), pruning), burst, m)
  {
    if m == 0 {
      AfterSpending(l, burst, burst, pruning);
      OneCaller(After(l, Spending(burst), pruning), burst);
    } else {
      var before := After(l, Crowding(burst, m - 1), pruning);
      AfterCrowding(l, burst, m - 1, pruning);
      AfterPush(l, Crowding(burst, m - 1), Hit(Name(m - 1), 0.0), pruning);
      OneMore(before, burst, m - 1);
      NewCaller(l, before, burst, Name(m - 1), 0.0);
    }
  }

  lemma OneCaller(buckets: map<string, Bucket>, burst: nat)
    requires burst > 0 && Spent(buckets, burst, burst)
    ensures IsCrowd(buckets, burst, 0)
  {
    assert buckets.Keys == {"a"};
  }

  lemma LateCallerStays(buckets: map<string, Bucket>, burst: nat, m: nat, late: real)
    requires IsCrowd(buckets, burst, m) && late > IDLE
    ensures "z" !in buckets
    ensures Pruned(buckets["z" := Left(burst, 1, late)], late - IDLE) == map["z" := Left(burst, 1, late)]
  {
    assert "z"[0] != "b"[0] && !EarlyName("z", m);
    var next := buckets["z" := Left(burst, 1, late)];
    assert forall k :: k in next && k != "z" ==> next[k] == buckets[k];
  }

  /** When pruning runs, the late caller's bucket is all that is left. */
  lemma AfterLateCallerPruned(l: Limits, burst: nat, m: nat, late: real)
    requires l.burst == burst as real && burst > 0 && m + 1 == MANY && late > IDLE
    ensures After(l, Returning(burst, m, late, 0), true) == map["z" := Left(burst, 1, late)]
  {
    var crowd := After(l, Crowding(burst, m), true);
    AfterCrowding(l, burst, m, true);
    AfterPush(l, Crowding(burst, m), Hit("z", late), true);
    LateCallerStays(crowd, burst, m, late);
    NewCaller(l, crowd, burst, "z", late);
  }

  /** Otherwise the first caller's bucket is still there, and empty. */
  lemma AfterLateCallerPlain(l: Limits, burst: nat, m: nat, late: real)
    requires l.burst == burst as real && burst > 0 && m + 1 == MANY && late > IDLE
    ensures
      var buckets := After(l, Returning(burst, m, late, 0), false);
      "a" in buckets && buckets["a"] == Left(burst, burst, 0.0)
  {
    var crowd := After(l, Crowding(burst, m), false);
    AfterCrowding(l, burst, m, false);
    AfterPush(l, Crowding(burst, m), Hit("z", late), false);
    LateCallerStays(crowd, burst, m, late);
    NewCaller(l, crowd, burst, "z", late);
  }

  predicate Returned(l: Limits, buckets: map<string, Bucket>, burst: nat, late: real, k: nat) {
    buckets.Keys <= {"a", "z"} && At(l, buckets, "a", late) == Left(burst, k, late)
  }

  lemma ReturnedAgain(l: Limits, before: map<string, Bucket>, burst: nat, late: real, k: nat)
    requires l.burst == burst as real && 0 < k <= burst && Returned(l, before, burst, late, k - 1)
    ensures Returned(l, Step(l, before, "a", late, true), burst, late, k)
  {
    FewCallers(before);
    SpendsOne(l, before, burst, k, late, true);
  }

  /** With its bucket forgotten the first caller spends a full one again. */
  lemma {:induction false} AfterReturningPruned(l: Limits, burst: nat, m: nat, late: real, k: nat)
    requires l.burst == burst as real && burst > 0 && m + 1 == MANY && late > IDLE && k <= burst
    ensures Returned(l, After(l, Returning(burst, m, late, k), true), burst, late, k)
  {
    if k == 0 {
      AfterLateCallerPruned(l, burst, m, late);
    } else {
      var before := After(l, Returning(burst, m, late, k - 1), true);
      AfterReturningPruned(l, burst, m, late, k - 1);
      AfterPush(l, Returning(burst, m, late, k - 1), Hit("a", late), true);
      ReturnedAgain(l, before, burst, late, k);
    }
  }

  /** Fewer tokens than a bucket that was full before `k` requests, or not enough for one. */
  predicate Short(burst: nat, k: nat, tokens: real) {
    tokens < burst as real - k as real || tokens < 1.0
  }

  /** With its bucket kept it has less, by what time has not yet refilled. */
  lemma {:induction false} AfterReturningPlain(l: Limits, burst: nat, m: nat, late: real, k: nat)
    requires Active(l) && l.burst == burst as real && m + 1 == MANY && late > IDLE && k <= burst
    requires 0.0 < Gained(l, late) < l.burst
    ensures
      var buckets := After(l, Returning(burst, m, late, k), false);
      "a" in buckets && InRange(l, buckets["a"]) && Short(burst, k, Refill(l, buckets["a"], late))
  {
    if k == 0 {
      AfterLateCallerPlain(l, burst, m, late);
      EmptyIsShort(l, burst, late);
    } else {
      AfterReturningPlain(l, burst, m, late, k - 1);
      AfterPush(l, Returning(burst, m, late, k - 1), Hit("a", late), false);
      StaysShort(l, After(l, Returning(burst, m, late, k - 1), false), burst, k, late);
    }
  }

  lemma EmptyIsShort(l: Limits, burst: nat, late: real)
    requires l.burst == burst as real && late > 0.0 && 0.0 < Gained(l, late) < l.burst
    ensures InRange(l, Left(burst, burst, 0.0)) && Short(burst, 0, Refill(l, Left(burst, burst, 0.0), late))
  {
    assert Refill(l, Left(burst, burst, 0.0), late) == Gained(l, late);
  }

  lemma StaysShort(l: Limits, before: map<string, Bucket>, burst: nat, k: nat, late: real)
    requires Active(l) && l.burst == burst as real && 0 < k <= burst
    requires "a" in before && InRange(l, before["a"]) && Short(burst, k - 1, Refill(l, before["a"], late))
    ensures
      var after := Step(l, before, "a", late, false);
      "a" in after && InRange(l, after["a"]) && Short(burst, k, Refill(l, after["a"], late))
  {
    RefillInRange(l, before["a"], late);
    var b := Step(l, before, "a", late, false)["a"];
    assert b.last == late;
    RefillNow(l, b);
  }

  /** With burst > 600 rps pruning shows: the caller's last request is allowed by the limiter that
      forgot it and blocked by the one that did not. */
  lemma PruningShows(l: Limits, burst: nat) returns (es: seq<Hit>)
    requires Active(l) && l.burst == burst as real && l.burst > Gained(l, IDLE)
    ensures Ordered(es) && |es| > 0 && Verdict(l, es, |es| - 1, true) && !Verdict(l, es, |es| - 1, false)
  {
    var late := StillShort(l);
    var m: nat, k: nat := MANY - 1, burst - 1;
    var before, h := Returning(burst, m, late, k), Hit("a", late);
    es := Returning(burst, m, late, k + 1);
    ReturningIsOrdered(burst, m, late, k + 1);
    assert es == before + [h] && es[..|es| - 1] == before;
    AfterReturningPruned(l, burst, m, late, k);
    AfterReturningPlain(l, burst, m, late, k);
    LastDecisions(l, After(l, before, true), After(l, before, false), burst, late);
  }

  lemma LastDecisions(l: Limits, pruned: map<string, Bucket>, plain: map<string, Bucket>, burst: nat, late: real)
    requires l.burst == burst as real && burst > 0 && At(l, pruned, "a", late) == Left(burst, burst - 1, late)
    requires "a" in plain && Short(burst, burst - 1, Refill(l, plain["a"], late))
    ensures Allows(l, pruned, "a", late) && !Allows(l, plain, "a", late)
  {
    RefillNow(l, Left(burst, burst - 1, late));
  }

  predicate SameDecision(l: Limits, es: seq<Hit>, n: nat)
    requires n < |es|
  {
    Verdict(l, es, n, true) == Verdict(l, es, n, false)
  }

  /** For a whole number as burst, which is what a configuration holds: pruning changes no decision
      of any run, the clock not going back, if and only if burst <= 600 rps. */
  lemma PruningIsInvisibleIff(l: Limits, burst: nat)
    requires Active(l) && l.burst == burst as real
    ensures (forall es, n: nat | Ordered(es) && n < |es| :: SameDecision(l, es, n)) <==> l.burst <= 600.0 * l.rps
  {
    assert Gained(l, IDLE) == 600.0 * l.rps;
    if l.burst <= Gained(l, IDLE) {
      forall es, n: nat | Ordered(es) && n < |es| ensures SameDecision(l, es, n) {
        PruningIsInvisible(l, es, n);
      }
    } else {
      var es := PruningShows(l, burst);
      var n: nat := |es| - 1;
      assert Ordered(es) && !SameDecision(l, es, n);
    }
  }

  // ----- The rate bound --------------------------------------------------------------

  /** Requests of a key between `from` and `until` that were allowed, among the first `n`. */
  function AllowedWithin(l: Limits, es: seq<Hit>, n: nat, key: string, from: real, until: real, pruning: bool): nat
    requires n <= |es|
  {
    if n == 0 then 0
    else
      AllowedWithin(l, es, n - 1, key, from, until, pruning) +
      if es[n - 1].key == key && from <= es[n - 1].now <= until && Verdict(l, es, n - 1, pruning) then 1 else 0
  }

  /** The bucket's last visit lies in the interval, and `count` requests plus what is left in it
      are paid for by a full bucket and the refill since `from`. */
  ghost predicate Paid(l: Limits, count: nat, b: Bucket, from: real, until: real) {
    from <= b.last <= until && 0.0 <= b.tokens <= l.burst &&
    count as real + b.tokens <= l.burst + Gained(l, b.last - from)
  }

  lemma FirstVisit(l: Limits, b: Bucket, from: real, now: real)
    requires Active(l) && InRange(l, b) && from <= now
    ensures Paid(l, 0, Bucket(Refill(l, b, now), now), from, now)
  {
    RefillInRange(l, b, now);
    GainIsMonotone(l, 0.0, now - from);
  }

  lemma NextVisit(l: Limits, count: nat, b: Bucket, from: real, now: real)
    requires Active(l) && Paid(l, count, b, from, now)
    ensures Paid(l, count, Bucket(Refill(l, b, now), now), from, now)
  {
    RefillInRange(l, b, now);
    GainAdds(l, now - b.last, b.last - from);
  }

  lemma PaidIsBounded(l: Limits, count: nat, b: Bucket, from: real, until: real)
    requires Active(l) && Paid(l, count, b, from, until)
    ensures count as real <= l.burst + Gained(l, until - from)
  {
    GainIsMonotone(l, b.last - from, until - from);
  }

  /** Within the interval the key's bucket accounts for every request let through. */
  lemma {:induction false} BucketPays(l: Limits, es: seq<Hit>, n: nat, key: string, from: real, until: real)
    requires Active(l) && Ordered(es) && 0 < n <= |es| && es[n - 1].now <= until
    ensures AllowedWithin(l, es, n, key, from, until, false) > 0 ==>
              key in After(l, es[..n], false) &&
              Paid(l, AllowedWithin(l, es, n, key, from, until, false), After(l, es[..n], false)[key], from, es[n - 1].now)
  {
    var h, before := es[n - 1], After(l, es[..n - 1], false);
    assert es[..n][..n - 1] == es[..n - 1];
    if n > 1 {
      BucketPays(l, es, n - 1, key, from, until);
    }
    var count := AllowedWithin(l, es, n - 1, key, from, until, false);
    if h.key == key && h.now >= from {
      if count == 0 {
        TokensStayInRange(l, es[..n - 1], false);
      }
      VisitPays(l, count, At(l, before, key, h.now), from, h.now);
    }
  }

  lemma VisitPays(l: Limits, count: nat, b: Bucket, from: real, now: real)
    requires Active(l) && InRange(l, b) && from <= now && (count > 0 ==> Paid(l, count, b, from, now))
    ensures Paid(l, count, Bucket(Refill(l, b, now), now), from, now)
  {
    if count == 0 {
      FirstVisit(l, b, from, now);
    } else {
      NextVisit(l, count, b, from, now);
    }
  }

  /** At most burst + rps * (until - from) requests of a key pass in any closed interval. */
  lemma {:induction false} PlainRateBound(l: Limits, es: seq<Hit>, n: nat, key: string, from: real, until: real)
    requires Active(l) && Ordered(es) && n <= |es| && from <= until
    ensures AllowedWithin(l, es, n, key, from, until, false) as real <= l.burst + Gained(l, until - from)
  {
    GainIsMonotone(l, 0.0, until - from);
    if n > 0 {
      if es[n - 1].now > until {
        PlainRateBound(l, es, n - 1, key, from, until);
      } else if AllowedWithin(l, es, n, key, from, until, false) > 0 {
        BucketPays(l, es, n, key, from, until);
        var b := After(l, es[..n], false)[key];
        assert Paid(l, AllowedWithin(l, es, n, key, from, until, false), b, from, until);
        PaidIsBounded(l, AllowedWithin(l, es, n, key, from, until, false), b, from, until);
      }
    }
  }

  lemma {:induction false} PruningKeepsCounts(l: Limits, es: seq<Hit>, n: nat, key: string, from: real, until: real)
    requires Active(l) && l.burst <= Gained(l, IDLE) && Ordered(es) && n <= |es|
    ensures AllowedWithin(l, es, n, key, from, until, true) == AllowedWithin(l, es, n, key, from, until, false)
  {
    if n > 0 {
      PruningKeepsCounts(l, es, n - 1, key, from, until);
      PruningIsInvisible(l, es, n - 1);
    }
  }

  /** The same bound for the limiter that prunes, as long as pruning is lossless. */
  lemma RateBound(l: Limits, es: seq<Hit>, key: string, from: real, until: real)
    requires Active(l) && l.burst <= Gained(l, IDLE) && Ordered(es) && from <= until
    ensures AllowedWithin(l, es, |es|, key, from, until, true) as real <= l.burst + Gained(l, until - from)
  {
    PruningKeepsCounts(l, es, |es|, key, from, until);
    PlainRateBound(l, es, |es|, key, from, until);
  }

  // ----- Nobody waits longer than a token takes --------------------------------------

  function Least(a: real, b: real): real {
    if a < b then a else b
  }

  /** A request of the key that was let through. */
  predicate Passes(l: Limits, es: seq<Hit>, k: nat, key: string, pruning: bool)
    requires k < |es|
  {
    es[k].key == key && Verdict(l, es, k, pruning)
  }

  /** The bucket of a key gives at least this at some time. */
  predicate Gives(l: Limits, buckets: map<string, Bucket>, key: string, now: real, tokens: real) {
    Refill(l, At(l, buckets, key, now), now) >= tokens
  }

  lemma RightAfterPassing(l: Limits, buckets: map<string, Bucket>, key: string, at: real, now: real, pruning: bool)
    requires Active(l) && Allows(l, buckets, key, at) && at <= now
    ensures Gives(l, Step(l, buckets, key, at, pruning), key, now, Least(l.burst, Gained(l, now - at)))
  {
    var after := Step(l, buckets, key, at, pruning);
    assert key in after && after[key].last == at && after[key].tokens >= 0.0;
  }

  /** A request in between that is not of the key, or is blocked, takes nothing from it. */
  lemma StillGives(l: Limits, buckets: map<string, Bucket>, h: Hit, key: string, since: real, now: real, pruning: bool)
    requires Active(l) && since <= h.now <= now && (h.key == key ==> !Allows(l, buckets, key, h.now))
    requires Gives(l, buckets, key, h.now, Least(l.burst, Gained(l, h.now - since)))
    requires Gives(l, buckets, key, now, Least(l.burst, Gained(l, now - since)))
    ensures Gives(l, Step(l, buckets, h.key, h.now, pruning), key, now, Least(l.burst, Gained(l, now - since)))
  {
    GainAdds(l, now - h.now, h.now - since);
    GainIsMonotone(l, 0.0, now - h.now);
    assert Gained(l, 0.0) == 0.0;
    if h.key != key {
      var after := Step(l, buckets, h.key, h.now, pruning);
      assert key in after ==> key in buckets && after[key] == buckets[key];
    }
  }

  /** After `n` requests the bucket of the key has at least what came in since `since`. */
  predicate GivesAfter(l: Limits, es: seq<Hit>, n: nat, key: string, since: real, now: real, pruning: bool)
    requires n <= |es|
  {
    Gives(l, After(l, es[..n], pruning), key, now, Least(l.burst, Gained(l, now - since)))
  }

  lemma GivesRightAfter(l: Limits, es: seq<Hit>, i: nat, n: nat, key: string, now: real, pruning: bool)
    requires Active(l) && n == i + 1 <= |es| && Passes(l, es, i, key, pruning) && es[i].now <= now
    ensures GivesAfter(l, es, n, key, es[i].now, now, pruning)
  {
    assert es[..n][..i] == es[..i];
    RightAfterPassing(l, After(l, es[..i], pruning), key, es[i].now, now, pruning);
  }

  lemma GivesAfterNext(l: Limits, es: seq<Hit>, m: nat, n: nat, key: string, since: real, now: real, pruning: bool)
    requires Active(l) && n == m + 1 <= |es| && !Passes(l, es, m, key, pruning) && since <= es[m].now <= now
    requires GivesAfter(l, es, m, key, since, es[m].now, pruning) && GivesAfter(l, es, m, key, since, now, pruning)
    ensures GivesAfter(l, es, n, key, since, now, pruning)
  {
    assert es[..n][..m] == es[..m];
    StillGives(l, After(l, es[..m], pruning), es[m], key, since, now, pruning);
  }

  lemma {:induction false} RefillsSince(l: Limits, es: seq<Hit>, i: nat, n: nat, key: string, now: real, pruning: bool)
    requires Active(l) && Ordered(es) && i < n <= |es| && es[n - 1].now <= now
    requires Passes(l, es, i, key, pruning) && forall k :: i < k < n ==> !Passes(l, es, k, key, pruning)
    ensures es[i].now <= es[n - 1].now
    ensures GivesAfter(l, es, n, key, es[i].now, now, pruning)
    decreases n
  {
    if i == n - 1 {
      GivesRightAfter(l, es, i, n, key, now, pruning);
    } else {
      RefillsSince(l, es, i, n - 1, key, es[n - 1].now, pruning);
      RefillsSince(l, es, i, n - 1, key, now, pruning);
      GivesAfterNext(l, es, n - 1, n, key, es[i].now, now, pruning);
    }
  }

  /** A request is let through as soon as a whole token has come in since the last one of its key that
      was, however many were blocked meanwhile, with or without pruning. */
  lemma AllowedOnceRefilled(l: Limits, es: seq<Hit>, i: nat, n: nat, waited: real, pruning: bool)
    requires Active(l) && l.burst >= 1.0 && Ordered(es) && i < n < |es|
    requires Passes(l, es, i, es[n].key, pruning) && forall k :: i < k < n ==> !Passes(l, es, k, es[n].key, pruning)
    requires waited == es[n].now - es[i].now && waited * l.rps >= 1.0
    ensures Verdict(l, es, n, pruning)
  {
    var key, now := es[n].key, es[n].now;
    var buckets := After(l, es[..n], pruning);
    RefillsSince(l, es, i, n, key, now, pruning);
    WholeToken(l, waited);
    GivesAllows(l, buckets, key, now, Least(l.burst, Gained(l, waited)));
  }

  lemma WholeToken(l: Limits, waited: real)
    requires l.burst >= 1.0 && waited * l.rps >= 1.0
    ensures Least(l.burst, Gained(l, waited)) >= 1.0
  {
  }

  lemma GivesAllows(l: Limits, buckets: map<string, Bucket>, key: string, now: real, tokens: real)
    requires Gives(l, buckets, key, now, tokens) && tokens >= 1.0
    ensures Allows(l, buckets, key, now)
  {
  }

  lemma {:induction false} NeverSeen(l: Limits, es: seq<Hit>, key: string, pruning: bool)
    requires forall k :: 0 <= k < |es| ==> es[k].key != key
    ensures key !in After(l, es, pruning)
  {
    if es != [] {
      var init := es[..|es| - 1];
      assert forall k :: 0 <= k < |init| ==> init[k] == es[k];
      NeverSeen(l, init, key, pruning);
    }
  }

  /** And the first of its key at once, if the burst is a token at all. */
  lemma FirstIsAllowedIff(l: Limits, es: seq<Hit>, n: nat, pruning: bool)
    requires Active(l) && n < |es| && forall k :: 0 <= k < n ==> es[k].key != es[n].key
    ensures Verdict(l, es, n, pruning) <==> l.burst >= 1.0
  {
    NeverSeen(l, es[..n], es[n].key, pruning);
    RefillNow(l, Bucket(l.burst, es[n].now));
  }

  // ----- Where pruning loses the bound -----------------------------------------------

  /** How many of a caller's requests pass up to some time. */
  function Passing(l: Limits, es: seq<Hit>, until: real): nat {
    AllowedWithin(l, es, |es|, "a", 0.0, until, true)
  }

  lemma {:induction false} WithinPrefix(l: Limits, es: seq<Hit>, h: Hit, n: nat, key: string, from: real, until: real, pruning: bool)
    requires n <= |es|
    ensures AllowedWithin(l, es + [h], n, key, from, until, pruning) == AllowedWithin(l, es, n, key, from, until, pruning)
  {
    if n > 0 {
      WithinPrefix(l, es, h, n - 1, key, from, until, pruning);
      assert (es + [h])[..n - 1] == es[..n - 1];
    }
  }

  lemma PassingPush(l: Limits, es: seq<Hit>, h: Hit, until: real)
    ensures Passing(l, es + [h], until) == Passing(l, es, until) +
            if h.key == "a" && 0.0 <= h.now <= until && Allows(l, After(l, es, true), "a", h.now) then 1 else 0
  {
    WithinPrefix(l, es, h, |es|, "a", 0.0, until, true);
    assert (es + [h])[..|es|] == es;
  }

  lemma LeftAllows(l: Limits, buckets: map<string, Bucket>, burst: nat, n: nat, at: real)
    requires l.burst == burst as real && n < burst && At(l, buckets, "a", at) == Left(burst, n, at)
    ensures Allows(l, buckets, "a", at)
  {
    RefillNow(l, Left(burst, n, at));
  }

  lemma SpendingAllows(l: Limits, burst: nat, n: nat)
    requires l.burst == burst as real && n < burst
    ensures Allows(l, After(l, Spending(n), true), "a", 0.0)
  {
    var buckets := After(l, Spending(n), true);
    AfterSpending(l, burst, n, true);
    assert At(l, buckets, "a", 0.0) == Left(burst, n, 0.0);
    LeftAllows(l, buckets, burst, n, 0.0);
  }

  /** One more request that passes. */
  lemma OnePasses(l: Limits, es: seq<Hit>, now: real, until: real)
    requires 0.0 <= now <= until && Allows(l, After(l, es, true), "a", now)
    ensures Passing(l, es + [Hit("a", now)], until) == Passing(l, es, until) + 1
  {
    PassingPush(l, es, Hit("a", now), until);
  }

  lemma {:induction false} SpendingPasses(l: Limits, burst: nat, n: nat, until: real)
    requires l.burst == burst as real && n <= burst && until >= 0.0
    ensures Passing(l, Spending(n), until) == n
  {
    if n > 0 {
      SpendingPasses(l, burst, n - 1, until);
      SpendingAllows(l, burst, n - 1);
      OnePasses(l, Spending(n - 1), 0.0, until);
    }
  }

  lemma {:induction false} CrowdingPasses(l: Limits, burst: nat, m: nat, until: real)
    requires l.burst == burst as real && until >= 0.0
    ensures Passing(l, Crowding(burst, m), until) == burst
  {
    if m == 0 {
      SpendingPasses(l, burst, burst, until);
    } else {
      CrowdingPasses(l, burst, m - 1, until);
      assert Name(m - 1)[0] == 'b';
      PassingPush(l, Crowding(burst, m - 1), Hit(Name(m - 1), 0.0), until);
    }
  }

  /** The caller spends one full bucket at time 0 and, forgotten, another one late. */
  lemma {:induction false} ReturningPasses(l: Limits, burst: nat, m: nat, late: real, k: nat)
    requires l.burst == burst as real && burst > 0 && m + 1 == MANY && late > IDLE && k <= burst
    ensures Passing(l, Returning(burst, m, late, k), late) == burst + k
  {
    if k == 0 {
      CrowdingPasses(l, burst, m, late);
      PassingPush(l, Crowding(burst, m), Hit("z", late), late);
    } else {
      var before := After(l, Returning(burst, m, late, k - 1), true);
      ReturningPasses(l, burst, m, late, k - 1);
      AfterReturningPruned(l, burst, m, late, k - 1);
      LeftAllows(l, before, burst, k - 1, late);
      OnePasses(l, Returning(burst, m, late, k - 1), late, late);
    }
  }

  ghost predicate Bounded(l: Limits, es: seq<Hit>, key: string, from: real, until: real) {
    AllowedWithin(l, es, |es|, key, from, until, true) as real <= l.burst + Gained(l, until - from)
  }

  /** With burst > 600 rps the limiter lets more through than the bound. */
  lemma PruningExceeds(l: Limits, burst: nat) returns (es: seq<Hit>, until: real)
    requires Active(l) && l.burst == burst as real && l.burst > Gained(l, IDLE)
    ensures Ordered(es) && 0.0 <= until && !Bounded(l, es, "a", 0.0, until)
  {
    until := StillShort(l);
    var m: nat := MANY - 1;
    es := Returning(burst, m, until, burst);
    ReturningIsOrdered(burst, m, until, burst);
    ReturningPasses(l, burst, m, until, burst);
    assert until - 0.0 == until;
  }

  /** For a whole number as burst: at most burst + rps * T requests of a key pass in every interval of
      length T of every run in time order, if and only if burst <= 600 rps. */
  lemma RateBoundIff(l: Limits, burst: nat)
    requires Active(l) && l.burst == burst as real
    ensures (forall es, key, from: real, until: real | Ordered(es) && from <= until :: Bounded(l, es, key, from, until)) <==>
            l.burst <= 600.0 * l.rps
  {
    assert Gained(l, IDLE) == 600.0 * l.rps;
    if l.burst <= Gained(l, IDLE) {
      forall es, key, from: real, until: real | Ordered(es) && from <= until ensures Bounded(l, es, key, from, until) {
        RateBound(l, es, key, from, until);
      }
    } else {
      var es, until := PruningExceeds(l, burst);
      assert Ordered(es) && !Bounded(l, es, "a", 0.0, until);
    }
  }
}
