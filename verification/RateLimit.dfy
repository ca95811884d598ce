// The fixed-window rate limiter: one counter per key, a sweep that forgets idle counters every
// thousand calls, and limits that tighten with the request's risk score.
module RateLimit {
  import Text
  import opened Wrappers

  const SECOND: nat := 1_000_000_000
  const IDLE: nat := 600 * SECOND
  const SWEEP_EVERY: nat := 1000

  function Unix(now: nat): nat {
    now / SECOND
  }

  /** The number of the window a moment falls into. */
  function WindowId(now: nat, window: nat): nat
    requires window > 0
  {
    Unix(now) / window
  }

  // ----- Policies --------------------------------------------------------------------

  datatype Policy = Policy(
    enabled: bool, limit: int, windowSeconds: int, burst: int, keyBy: string, status: int, retryAfter: int)

  datatype Adaptive = Adaptive(enabled: bool, threshold: int, limitPct: int, burstPct: int)

  /** normalizeRateLimitPolicy */
  function NormalizePolicy(p: Policy): Option<Policy> {
    var status := if p.status == 0 then 429 else p.status;
    var trimmed := Text.ToLower(Text.Trim(p.keyBy));
    var keyBy := if trimmed == "" then "ip" else trimmed;
    if status < 400 || status > 599 || p.retryAfter < 0 || p.burst < 0 then None
    else if keyBy !in {"ip", "country", "ip_country", "session", "ip_session", "jwt_sub", "ip_jwt_sub"} then None
    else if p.enabled && (p.limit <= 0 || p.windowSeconds <= 0) then None
    else Some(p.(status := status, keyBy := keyBy))
  }

  predicate Accepted(p: Policy) {
    p.burst >= 0 && p.retryAfter >= 0 && 400 <= p.status <= 599 &&
    (p.enabled ==> p.limit > 0 && p.windowSeconds > 0)
  }

  /** What normalization lets through, whatever it was given: only the status 0 and the spelling of the
      key kind are replaced, and a second pass replaces nothing. */
  lemma NormalizedIsAccepted(p: Policy)
    requires NormalizePolicy(p).Some?
    ensures
      var n := NormalizePolicy(p).value;
      Accepted(n) && n == p.(status := n.status, keyBy := n.keyBy) && NormalizePolicy(n) == Some(n) &&
      n.status == (if p.status != 0 then p.status else 429) &&
      n.keyBy == if Text.Blank(p.keyBy) then "ip" else Text.ToLower(Text.Trim(p.keyBy))
  {
    var n := NormalizePolicy(p).value;
    Text.LowerOfTrimmed(p.keyBy);
    assert Text.ToLower(Text.Trim(n.keyBy)) == n.keyBy;
  }

  function ClampPercent(v: int): int {
    if v < 10 then 10 else if v > 100 then 100 else v
  }

  function Scale(base: int, pct: int, min: int): int
    requires pct > 0
  {
    if base <= 0 then 0
    else
      var scaled := (base * pct + 99) / 100;
      if scaled < min then min else scaled
  }

  /** applyAdaptiveRateLimit */
  function Effective(a: Adaptive, p: Policy, risk: int): Policy {
    if !a.enabled || risk < a.threshold then p
    else
      var over := risk - a.threshold;
      p.(limit := Scale(p.limit, ClampPercent(a.limitPct - over * 10), 1),
         burst := Scale(p.burst, ClampPercent(a.burstPct - over * 10), 0))
  }

  lemma ScaleMonotone(base: int, low: int, high: int, min: int)
    requires 0 < low <= high <= 100 && min <= 1
    ensures Scale(base, low, min) <= Scale(base, high, min)
    ensures base > 0 ==> min <= Scale(base, low, min) && 0 < Scale(base, low, min) <= base
  {
    if base > 0 {
      MulMonotone(base, low, high);
      MulMonotone(base, high, 100);
      MulMonotone(base, 1, low);
      DivMonotone(base * low + 99, base * high + 99);
      DivMonotone(base * high + 99, base * 100 + 99);
      DivMonotone(100, base * low + 99);
      assert (base * 100 + 99) / 100 == base;
    }
  }

  lemma MulMonotone(base: int, a: int, b: int)
    requires base > 0 && a <= b
    ensures base * a <= base * b
  {
  }

  lemma DivMonotone(a: int, b: int)
    requires a <= b
    ensures a / 100 <= b / 100
  {
  }

  /** Tightening stays within 1..Limit and 0..Burst. */
  lemma AdaptiveStaysInRange(a: Adaptive, p: Policy, risk: int)
    requires Accepted(p) && p.enabled
    ensures 1 <= Effective(a, p, risk).limit <= p.limit && 0 <= Effective(a, p, risk).burst <= p.burst
  {
    if a.enabled && risk >= a.threshold {
      var over := risk - a.threshold;
      ScaleMonotone(p.limit, ClampPercent(a.limitPct - over * 10), 100, 1);
      ScaleMonotone(p.burst, ClampPercent(a.burstPct - over * 10), 100, 0);
    }
  }

  /** A riskier request never gets a higher limit or burst, across the threshold too. */
  lemma AdaptiveIsAntitone(a: Adaptive, p: Policy, low: int, high: int)
    requires Accepted(p) && p.enabled && low <= high
    ensures Effective(a, p, high).limit <= Effective(a, p, low).limit
    ensures Effective(a, p, high).burst <= Effective(a, p, low).burst
  {
    AdaptiveStaysInRange(a, p, high);
    if a.enabled && low >= a.threshold {
      var l, h := low - a.threshold, high - a.threshold;
      ScaleMonotone(p.limit, ClampPercent(a.limitPct - h * 10), ClampPercent(a.limitPct - l * 10), 1);
      ScaleMonotone(p.burst, ClampPercent(a.burstPct - h * 10), ClampPercent(a.burstPct - l * 10), 0);
    }
  }

  /** The percentage left at some risk: ten points less for every point of risk over the threshold,
      between 10 and 100. */
  predicate IsPercent(pct: int, full: int, over: int) {
    10 <= pct <= 100 && (if full - 10 * over < 10 then pct == 10 else if full - 10 * over > 100 then pct == 100
                         else pct == full - 10 * over)
  }

  /** A share of a number, rounded up. */
  predicate IsShare(part: int, whole: int, pct: int) {
    100 * (part - 1) < whole * pct <= 100 * part
  }

  lemma ScaledIsShare(base: int, pct: int, min: int)
    requires base > 0 && 10 <= pct <= 100 && min <= 1
    ensures IsShare(Scale(base, pct, min), base, pct)
  {
    var x := base * pct;
    MulMonotone(base, 1, pct);
    assert x + 99 == 100 * ((x + 99) / 100) + (x + 99) % 100;
  }

  /** Below the threshold, or with tightening off, the policy is unchanged. From it on, limit and burst
      are what is left of them at the request's risk, rounded up, and nothing else changes. */
  lemma AdaptiveIs(a: Adaptive, p: Policy, risk: int)
    requires Accepted(p) && p.enabled
    ensures
      var q := Effective(a, p, risk);
      if !a.enabled || risk < a.threshold then q == p
      else
        q == p.(limit := q.limit, burst := q.burst) &&
        (exists pct :: IsPercent(pct, a.limitPct, risk - a.threshold) && IsShare(q.limit, p.limit, pct)) &&
        (p.burst == 0 ==> q.burst == 0) &&
        (p.burst > 0 ==> exists pct :: IsPercent(pct, a.burstPct, risk - a.threshold) && IsShare(q.burst, p.burst, pct))
  {
    if a.enabled && risk >= a.threshold {
      var over := risk - a.threshold;
      var forLimit, forBurst := ClampPercent(a.limitPct - over * 10), ClampPercent(a.burstPct - over * 10);
      assert IsPercent(forLimit, a.limitPct, over) && IsPercent(forBurst, a.burstPct, over);
      ScaledIsShare(p.limit, forLimit, 1);
      if p.burst > 0 {
        ScaledIsShare(p.burst, forBurst, 0);
      }
    }
  }

  // ----- Counters --------------------------------------------------------------------

  datatype Counter = Counter(windowId: int, count: int, updated: int)

  datatype Store = Store(counters: map<string, Counter>, sweep: nat)

  /** One request that reaches the counters. */
  datatype Hit = Hit(key: string, maxHits: int, now: nat)

  function At(counters: map<string, Counter>, key: string): Counter {
    if key in counters then counters[key] else Counter(0, 0, 0)
  }

  function InWindow(c: Counter, id: int): int {
    if c.windowId == id then c.count else 0
  }

  function Allows(counters: map<string, Counter>, h: Hit, window: nat): bool
    requires window > 0
  {
    InWindow(At(counters, h.key), WindowId(h.now, window)) < h.maxHits
  }

  function Counted(counters: map<string, Counter>, h: Hit, window: nat): map<string, Counter>
    requires window > 0
  {
    var id := WindowId(h.now, window);
    var used := InWindow(At(counters, h.key), id);
    counters[h.key := Counter(id, if used < h.maxHits then used + 1 else used, h.now)]
  }

  function Swept(counters: map<string, Counter>, now: nat): map<string, Counter> {
    map k | k in counters && counters[k].updated >= now - IDLE :: counters[k]
  }

  function Step(s: Store, h: Hit, window: nat, sweeping: bool): Store
    requires window > 0
  {
    var counters := Counted(s.counters, h, window);
    var sweep := s.sweep + 1;
    Store(if sweeping && sweep % SWEEP_EVERY == 0 then Swept(counters, h.now) else counters, sweep)
  }

  datatype Rule = Rule(policy: Policy, methods: set<string>, matches: string -> bool, name: string)

  datatype Runtime = Runtime(enabled: bool, rules: seq<Rule>, fallback: Policy, adaptive: Adaptive)

  /** Everything about one request that the limiter looks at. */
  datatype Request = Request(
    exempt: bool, verb: string, path: string, ip: string, country: string, session: string, jwtSub: string, risk: int)

  datatype Decision = Allowed | Blocked(status: int, retryAfter: int, policyId: string, limit: int)

  /** buildRateLimitKey */
  function BuildKey(kind: string, r: Request): string {
    var session := if r.session != "" then r.session else r.ip;
    var sub := if r.jwtSub != "" then r.jwtSub else r.ip;
    if kind == "country" then r.country
    else if kind == "ip_country" then if r.ip == "" then r.country else r.ip + "|" + r.country
    else if kind == "session" then session
    else if kind == "ip_session" then if r.ip == "" then session else r.ip + "|" + session
    else if kind == "jwt_sub" then sub
    else if kind == "ip_jwt_sub" then if r.ip == "" then sub else r.ip + "|" + sub
    else r.ip
  }

  predicate RuleApplies(rule: Rule, verb: string, path: string) {
    rule.policy.enabled && (rule.methods == {} || Text.ToUpper(Text.Trim(verb)) in rule.methods) && rule.matches(path)
  }

  function RuleId(i: nat, name: string): string {
    "rule:" + Text.Itoa(i) + ":" + Text.Trim(name)
  }

  /** The policy of the first rule from `i` on that applies, else the default one. */
  function Picked(rt: Runtime, verb: string, path: string, i: nat): (Policy, string)
    requires i <= |rt.rules|
    decreases |rt.rules| - i
  {
    if i == |rt.rules| then (rt.fallback, "default")
    else if RuleApplies(rt.rules[i], verb, path) then (rt.rules[i].policy, RuleId(i, rt.rules[i].name))
    else Picked(rt, verb, path, i + 1)
  }

  predicate WellFormed(rt: Runtime) {
    Accepted(rt.fallback) && forall i :: 0 <= i < |rt.rules| ==> Accepted(rt.rules[i].policy)
  }

  lemma {:induction false} PickedIsFirst(rt: Runtime, verb: string, path: string, i: nat)
    requires i <= |rt.rules|
    ensures
      var (p, id) := Picked(rt, verb, path, i);
      (p == rt.fallback && id == "default" && forall j :: i <= j < |rt.rules| ==> !RuleApplies(rt.rules[j], verb, path)) ||
      (exists k :: i <= k < |rt.rules| && RuleApplies(rt.rules[k], verb, path) && p == rt.rules[k].policy &&
         id == RuleId(k, rt.rules[k].name) && forall j :: i <= j < k ==> !RuleApplies(rt.rules[j], verb, path))
    ensures WellFormed(rt) ==> Accepted(Picked(rt, verb, path, i).0)
    decreases |rt.rules| - i
  {
    if i < |rt.rules| && !RuleApplies(rt.rules[i], verb, path) {
      PickedIsFirst(rt, verb, path, i + 1);
    }
  }

  /** The first enabled rule that lists the method, or lists none, and matches the path decides; without
      one the default does. */
  lemma RuleDecides(rt: Runtime, verb: string, path: string, k: nat)
    requires k <= |rt.rules|
    requires forall j :: 0 <= j < k ==>
               !rt.rules[j].policy.enabled || !rt.rules[j].matches(path) ||
               (rt.rules[j].methods != {} && Text.ToUpper(Text.Trim(verb)) !in rt.rules[j].methods)
    requires k < |rt.rules| ==>
               rt.rules[k].policy.enabled && rt.rules[k].matches(path) &&
               (rt.rules[k].methods == {} || Text.ToUpper(Text.Trim(verb)) in rt.rules[k].methods)
    ensures Picked(rt, verb, path, 0) ==
            if k < |rt.rules| then (rt.rules[k].policy, "rule:" + Text.Itoa(k) + ":" + Text.Trim(rt.rules[k].name))
            else (rt.fallback, "default")
  {
    SkipsTo(rt, verb, path, 0, k);
  }

  lemma {:induction false} SkipsTo(rt: Runtime, verb: string, path: string, i: nat, k: nat)
    requires i <= k <= |rt.rules| && forall j :: i <= j < k ==> !RuleApplies(rt.rules[j], verb, path)
    ensures Picked(rt, verb, path, i) == Picked(rt, verb, path, k)
    decreases k - i
  {
    if i < k {
      SkipsTo(rt, verb, path, i + 1, k);
    }
  }

  function PolicyFor(rt: Runtime, r: Request): Policy {
    Effective(rt.adaptive, Picked(rt, r.verb, r.path, 0).0, r.risk)
  }

  /** Requests that never reach the counters. */
  predicate Bypasses(rt: Runtime, r: Request) {
    !rt.enabled || r.exempt || !Picked(rt, r.verb, r.path, 0).0.enabled || BuildKey(PolicyFor(rt, r).keyBy, r) == ""
  }

  function HitOf(rt: Runtime, r: Request, now: nat): Hit {
    var p := PolicyFor(rt, r);
    Hit(Picked(rt, r.verb, r.path, 0).1 + "|" + BuildKey(p.keyBy, r), p.limit + p.burst, now)
  }

  /** A counted request has a window, and a positive budget no larger than its base policy's. */
  lemma CountedRequestsAreBudgeted(rt: Runtime, r: Request, now: nat)
    requires WellFormed(rt) && !Bypasses(rt, r)
    ensures
      var base := Picked(rt, r.verb, r.path, 0).0;
      PolicyFor(rt, r).windowSeconds == base.windowSeconds > 0 &&
      0 < HitOf(rt, r, now).maxHits <= base.limit + base.burst
  {
    PickedIsFirst(rt, r.verb, r.path, 0);
    AdaptiveStaysInRange(rt.adaptive, Picked(rt, r.verb, r.path, 0).0, r.risk);
  }

  /** Seconds until the window that follows `id`; at least one. */
  function RetryAfter(p: Policy, now: nat): int
    requires p.windowSeconds > 0
  {
    if p.retryAfter > 0 then p.retryAfter
    else
      var wait := (Unix(now) / p.windowSeconds + 1) * p.windowSeconds - Unix(now);
      if wait < 1 then 1 else wait
  }

  class Limiter {
    var counters: map<string, Counter>
    var sweep: nat
    var requests: nat
    var allowed: nat
    var blocked: nat
    var adapted: nat

    /** Every counted request was either allowed or blocked. */
    ghost predicate Valid()
      reads this
    {
      requests == allowed + blocked
    }

    constructor ()
      ensures Valid() && counters == map[] && sweep == 0
    {
      counters, sweep, requests, allowed, blocked, adapted := map[], 0, 0, 0, 0, 0;
    }

    method PickPolicy(rt: Runtime, verb: string, path: string) returns (p: Policy, id: string)
      ensures (p, id) == Picked(rt, verb, path, 0)
    {
      for i := 0 to |rt.rules|
        invariant Picked(rt, verb, path, 0) == Picked(rt, verb, path, i)
      {
        if RuleApplies(rt.rules[i], verb, path) {
          return rt.rules[i].policy, RuleId(i, rt.rules[i].name);
        }
      }
      return rt.fallback, "default";
    }

    /** The locked part: count the request, and sweep on every thousandth call. */
    method Count(key: string, maxHits: int, window: nat, now: nat) returns (ok: bool)
      requires window > 0
      modifies this`counters, this`sweep
      ensures ok == Allows(old(counters), Hit(key, maxHits, now), window)
      ensures Store(counters, sweep) == Step(Store(old(counters), old(sweep)), Hit(key, maxHits, now), window, true)
    {
      var id := Unix(now) / window;
      sweep := sweep + 1;
      var c := if key in counters then counters[key] else Counter(0, 0, 0);
      if c.windowId != id {
        c := c.(windowId := id, count := 0);
      }
      ok := c.count < maxHits;
      if ok {
        c := c.(count := c.count + 1);
      }
      counters := counters[key := c.(updated := now)];
      if sweep % SWEEP_EVERY == 0 {
        SweepIdle(now);
      }
    }

    method SweepIdle(now: nat)
      modifies this`counters
      ensures counters == Swept(old(counters), now)
    {
      var todo := counters.Keys;
      while todo != {}
        invariant todo <= counters.Keys
        invariant counters == map k | k in old(counters) && (k in todo || old(counters)[k].updated >= now - IDLE)
                                :: old(counters)[k]
        decreases todo
      {
        var key :| key in todo;
        if counters[key].updated < now - IDLE {
          counters := counters - {key};
        }
        todo := todo - {key};
      }
    }

    method Evaluate(rt: Runtime, r: Request, now: nat) returns (d: Decision)
      requires Valid() && WellFormed(rt)
      modifies this
      ensures Valid() && requests == old(requests) + if rt.enabled then 1 else 0
      ensures Bypasses(rt, r) ==> d == Allowed && counters == old(counters) && sweep == old(sweep)
      ensures d.Blocked? <==> Blocks(rt, Store(old(counters), old(sweep)), r, now)
      ensures !Bypasses(rt, r) ==>
                var p, h := PolicyFor(rt, r), HitOf(rt, r, now);
                p.windowSeconds > 0 &&
                Store(counters, sweep) == Step(Store(old(counters), old(sweep)), h, p.windowSeconds, true) &&
                d == if Allows(old(counters), h, p.windowSeconds) then Allowed
                     else Blocked(p.status, RetryAfter(p, now), Picked(rt, r.verb, r.path, 0).1, h.maxHits)
    {
      if !rt.enabled {
        return Allowed;
      }
      requests := requests + 1;
      if r.exempt {
        allowed := allowed + 1;
        return Allowed;
      }
      var base, id := PickPolicy(rt, r.verb, r.path);
      if !base.enabled {
        allowed := allowed + 1;
        return Allowed;
      }
      var policy := Effective(rt.adaptive, base, r.risk);
      if rt.adaptive.enabled && r.risk >= rt.adaptive.threshold {
        adapted := adapted + 1;
      }
      var key := BuildKey(policy.keyBy, r);
      if key == "" {
        allowed := allowed + 1;
        return Allowed;
      }
      CountedRequestsAreBudgeted(rt, r, now);
      PickedIsFirst(rt, r.verb, r.path, 0);
      assert policy.limit + policy.burst > 0 && policy.windowSeconds > 0;
      d := Decide(policy, id, key, now);
    }

    /** Counts a request under its policy and decides. */
    method Decide(policy: Policy, id: string, key: string, now: nat) returns (d: Decision)
      requires policy.windowSeconds > 0
      modifies this`counters, this`sweep, this`allowed, this`blocked
      ensures allowed + blocked == old(allowed + blocked) + 1
      ensures
        var h := Hit(id + "|" + key, policy.limit + policy.burst, now);
        Store(counters, sweep) == Step(Store(old(counters), old(sweep)), h, policy.windowSeconds, true) &&
        d == if Allows(old(counters), h, policy.windowSeconds) then Allowed
             else Blocked(if policy.status == 0 then 429 else policy.status, RetryAfter(policy, now), id, h.maxHits)
    {
      var maxHits := policy.limit + policy.burst;
      var ok := Count(id + "|" + key, maxHits, policy.windowSeconds, now);
      if ok {
        allowed := allowed + 1;
        return Allowed;
      }
      blocked := blocked + 1;
      return Blocked(if policy.status == 0 then 429 else policy.status, RetryAfter(policy, now), id, maxHits);
    }
  }

  // ----- Runs ------------------------------------------------------------------------

  /** A key's window length: the key names its policy. */
  ghost predicate Windows(win: string -> nat) {
    forall k :: Positive(win, k)
  }

  predicate Positive(win: string -> nat, k: string) {
    win(k) > 0
  }

  function After(win: string -> nat, s: Store, es: seq<Hit>, sweeping: bool): Store
    requires Windows(win)
  {
    if es == [] then s
    else
      var last := es[|es| - 1];
      assert Positive(win, last.key);
      Step(After(win, s, es[..|es| - 1], sweeping), last, win(last.key), sweeping)
  }

  /** The decision on the request at `n`. */
  function Verdict(win: string -> nat, s: Store, es: seq<Hit>, n: nat, sweeping: bool): bool
    requires Windows(win) && n < |es|
  {
    assert Positive(win, es[n].key);
    Allows(After(win, s, es[..n], sweeping).counters, es[n], win(es[n].key))
  }

  predicate Ordered(es: seq<Hit>) {
    forall i :: 0 < i < |es| ==> es[i - 1].now <= es[i].now
  }

  const EMPTY := Store(map[], 0)

  predicate Agree(win: string -> nat, swept: map<string, Counter>, plain: map<string, Counter>, clock: nat, k: string) {
    win(k) > 0 &&
    (k in swept ==> k in plain && swept[k] == plain[k]) &&
    (k in plain ==> 0 <= plain[k].updated <= clock && plain[k].windowId == Unix(plain[k].updated) / win(k)) &&
    (k in plain && k !in swept ==> plain[k].windowId < Unix(clock) / win(k))
  }

  /** Forgetting a counter idle for over 600 s loses nothing when its window is no longer. */
  lemma IdleMeansOver(updated: nat, now: nat, window: nat)
    requires 0 < window <= 600 && updated < now - IDLE
    ensures Unix(updated) / window < Unix(now) / window
  {
    assert Unix(now) >= Unix(updated) + 600;
    DivStep(Unix(updated), Unix(now), window);
  }

  lemma DivStep(a: nat, b: nat, w: nat)
    requires w > 0 && b >= a + w
    ensures a / w + 1 <= b / w
  {
    var qa, qb := a / w, b / w;
    assert a == qa * w + a % w && b == qb * w + b % w;
    if qb <= qa {
      assert qb * w <= qa * w by { Multiply(qb, qa, w); }
    }
  }

  lemma Multiply(a: int, b: int, w: nat)
    requires a <= b
    ensures a * w <= b * w
  {
  }

  lemma DivMono(a: nat, b: nat, w: nat)
    requires w > 0 && a <= b
    ensures a / w <= b / w
  {
    var qa, qb := a / w, b / w;
    assert a == qa * w + a % w && b == qb * w + b % w;
    if qb < qa {
      Multiply(qb + 1, qa, w);
    }
  }

  lemma SameVerdict(win: string -> nat, swept: map<string, Counter>, plain: map<string, Counter>, clock: nat, h: Hit)
    requires Agree(win, swept, plain, clock, h.key) && h.now >= clock
    ensures win(h.key) > 0 && Allows(swept, h, win(h.key)) == Allows(plain, h, win(h.key))
    ensures Counted(swept, h, win(h.key))[h.key] == Counted(plain, h, win(h.key))[h.key]
  {
    DivMono(Unix(clock), Unix(h.now), win(h.key));
  }

  /** Swept and unswept counters go on agreeing on a key of a short window, whoever is counted. */
  lemma StepAgrees(win: string -> nat, swept: Store, plain: Store, clock: nat, h: Hit, k: string)
    requires Agree(win, swept.counters, plain.counters, clock, k) && win(k) <= 600
    requires h.now >= clock && win(h.key) > 0
    ensures Agree(win, Step(swept, h, win(h.key), true).counters, Step(plain, h, win(h.key), false).counters, h.now, k)
  {
    if h.key == k {
      SameVerdict(win, swept.counters, plain.counters, clock, h);
    }
    var s, p := Step(swept, h, win(h.key), true).counters, Step(plain, h, win(h.key), false).counters;
    DivMono(Unix(clock), Unix(h.now), win(k));
    if k in p && k !in s && p[k].updated < h.now - IDLE {
      IdleMeansOver(p[k].updated, h.now, win(k));
    }
  }

  /** When a key's window is no longer than 600 s and clocks do not go back, the sweep is invisible
      to it: every request of the key gets the decision it would get from counters that are never
      forgotten, whatever windows other keys have. */
  lemma {:induction false} SweepIsInvisible(win: string -> nat, es: seq<Hit>, n: nat)
    requires Windows(win) && Ordered(es) && n < |es| && win(es[n].key) <= 600
    ensures Verdict(win, EMPTY, es, n, true) == Verdict(win, EMPTY, es, n, false)
  {
    StoresAgree(win, es, n, es[n].key);
    SameVerdict(win, After(win, EMPTY, es[..n], true).counters, After(win, EMPTY, es[..n], false).counters,
                if n == 0 then 0 else es[n - 1].now, es[n]);
  }

  lemma AfterStep(win: string -> nat, es: seq<Hit>, n: nat, sweeping: bool)
    requires Windows(win) && n < |es|
    ensures win(es[n].key) > 0 && After(win, EMPTY, es[..n + 1], sweeping) ==
            Step(After(win, EMPTY, es[..n], sweeping), es[n], win(es[n].key), sweeping)
  {
    assert Positive(win, es[n].key);
    assert es[..n + 1][..n] == es[..n];
  }

  lemma {:induction false} StoresAgree(win: string -> nat, es: seq<Hit>, n: nat, k: string)
    requires Windows(win) && Ordered(es) && n <= |es| && win(k) <= 600
    ensures Agree(win, After(win, EMPTY, es[..n], true).counters, After(win, EMPTY, es[..n], false).counters,
                  if n == 0 then 0 else es[n - 1].now, k)
  {
    assert Positive(win, k);
    if n > 0 {
      StoresAgree(win, es, n - 1, k);
      var h, clock := es[n - 1], if n == 1 then 0 else es[n - 2].now;
      var swept, plain := After(win, EMPTY, es[..n - 1], true), After(win, EMPTY, es[..n - 1], false);
      AfterStep(win, es, n - 1, true);
      AfterStep(win, es, n - 1, false);
      StepAgrees(win, swept, plain, clock, h, k);
    }
  }

  // ----- Longer windows lose counts --------------------------------------------------

  const LATE: nat := IDLE + 1

  /** One request of "a" at time 0, then requests of "b" just over 600 s later. */
  function Probe(n: nat): seq<Hit> {
    if n == 0 then [Hit("a", 1, 0)] else Probe(n - 1) + [Hit("b", 1, LATE)]
  }

  function ProbeCounters(id: int, n: nat): map<string, Counter> {
    if n == 0 then map["a" := Counter(0, 1, 0)]
    else map["a" := Counter(0, 1, 0), "b" := Counter(id, 1, LATE)]
  }

  lemma ProbeFirst(w: nat, id: int)
    requires w > 0
    ensures Counted(map[], Hit("a", 1, 0), w) == ProbeCounters(id, 0)
  {
    assert Unix(0) / w == 0;
  }

  lemma ProbeStep(w: nat, n: nat)
    requires w > 0
    ensures Counted(ProbeCounters(WindowId(LATE, w), n), Hit("b", 1, LATE), w) == ProbeCounters(WindowId(LATE, w), n + 1)
  {
  }

  lemma {:induction false} ProbeShape(n: nat)
    ensures |Probe(n)| == n + 1 && Ordered(Probe(n)) && Probe(n)[n].now <= LATE
  {
    if n > 0 {
      ProbeShape(n - 1);
    }
  }

  predicate ProbeAt(win: string -> nat, id: int, n: nat, sweeping: bool)
    requires Windows(win)
  {
    After(win, EMPTY, Probe(n), sweeping) == Store(ProbeCounters(id, n), n + 1)
  }

  lemma ProbeNext(win: string -> nat, w: nat, n: nat, sweeping: bool)
    requires Windows(win) && win("b") == w > 0 && n + 2 < SWEEP_EVERY && ProbeAt(win, WindowId(LATE, w), n, sweeping)
    ensures ProbeAt(win, WindowId(LATE, w), n + 1, sweeping)
  {
    var id, b := WindowId(LATE, w), Hit("b", 1, LATE);
    AfterPush(win, EMPTY, Probe(n), b, w, sweeping);
    QuietStep(Store(ProbeCounters(id, n), n + 1), b, w, sweeping);
    ProbeStep(w, n);
    assert Probe(n + 1) == Probe(n) + [b];
  }

  lemma ProbeBegins(win: string -> nat, w: nat, id: int, sweeping: bool)
    requires Windows(win) && win("a") == w > 0
    ensures ProbeAt(win, id, 0, sweeping)
  {
    var a := Hit("a", 1, 0);
    ProbeFirst(w, id);
    AfterPush(win, EMPTY, [], a, w, sweeping);
    QuietStep(EMPTY, a, w, sweeping);
    assert [] + [a] == Probe(0);
  }

  lemma {:induction false} ProbeStores(win: string -> nat, w: nat, n: nat, sweeping: bool)
    requires Windows(win) && win("b") == w > 0 && n + 1 < SWEEP_EVERY
    ensures ProbeAt(win, WindowId(LATE, w), n, sweeping)
  {
    if n == 0 {
      assert Positive(win, "a");
      ProbeBegins(win, win("a"), WindowId(LATE, w), sweeping);
    } else {
      ProbeStores(win, w, n - 1, sweeping);
      ProbeNext(win, w, n - 1, sweeping);
    }
  }

  lemma AfterPush(win: string -> nat, s: Store, es: seq<Hit>, h: Hit, w: nat, sweeping: bool)
    requires Windows(win) && win(h.key) == w > 0
    ensures After(win, s, es + [h], sweeping) == Step(After(win, s, es, sweeping), h, w, sweeping)
  {
    assert (es + [h])[..|es|] == es;
  }

  lemma QuietStep(s: Store, h: Hit, w: nat, sweeping: bool)
    requires w > 0 && s.sweep + 1 < SWEEP_EVERY
    ensures Step(s, h, w, sweeping) == Store(Counted(s.counters, h, w), s.sweep + 1)
  {
  }

  /** For every window over 600 s the sweep shows, whatever windows other keys have: some run has
      its last request allowed by the swept counters and blocked by the full ones. So invisibility
      holds exactly up to 600 s. */
  lemma SweepShowsBeyondIdle(win: string -> nat)
    requires Windows(win) && win("a") > 600
    ensures
      var es := Probe(SWEEP_EVERY - 1) + [Hit("a", 1, LATE)];
      |es| > 0 && Ordered(es) && Verdict(win, EMPTY, es, |es| - 1, true) && !Verdict(win, EMPTY, es, |es| - 1, false)
  {
    var m: nat := SWEEP_EVERY - 2;
    var all, a, w := Probe(m + 1), Hit("a", 1, LATE), win("b");
    assert Positive(win, "b");
    ProbeShape(m + 1);
    ProbeStores(win, w, m, true);
    ProbeStores(win, w, m, false);
    ProbeStep(w, m);
    AfterPush(win, EMPTY, Probe(m), Hit("b", 1, LATE), w, true);
    AfterPush(win, EMPTY, Probe(m), Hit("b", 1, LATE), w, false);
    assert (all + [a])[..|all|] == all;
    LateVerdicts(After(win, EMPTY, all, true).counters, After(win, EMPTY, all, false).counters, win("a"));
  }

  lemma LateVerdicts(swept: map<string, Counter>, full: map<string, Counter>, w: nat)
    requires w > 600 && "a" !in swept && "a" in full && full["a"] == Counter(0, 1, 0)
    ensures Allows(swept, Hit("a", 1, LATE), w) && !Allows(full, Hit("a", 1, LATE), w)
  {
    assert Unix(LATE) == 600 && 600 / w == 0;
  }

  // ----- Bounds on allowed requests --------------------------------------------------

  /** Allowed requests of a key among the first `n`, in one window. */
  function AllowedIn(win: string -> nat, es: seq<Hit>, n: nat, key: string, id: int, sweeping: bool): nat
    requires Windows(win) && n <= |es|
  {
    assert Positive(win, key);
    if n == 0 then 0
    else
      AllowedIn(win, es, n - 1, key, id, sweeping) +
      if es[n - 1].key == key && Unix(es[n - 1].now) / win(key) == id && Verdict(win, EMPTY, es, n - 1, sweeping)
      then 1 else 0
  }

  predicate Budgeted(es: seq<Hit>, key: string, budget: int) {
    forall i :: 0 <= i < |es| && es[i].key == key ==> es[i].maxHits <= budget
  }

  /** The counter of a key counts its allowed requests in its own window, exactly; no window
      exceeds the budget, and none after the counter's own has been used. */
  lemma {:induction false} CounterCountsWindow(win: string -> nat, es: seq<Hit>, n: nat, key: string, id: int, budget: nat)
    requires Windows(win) && Ordered(es) && n <= |es| && Budgeted(es, key, budget)
    ensures
      var c := After(win, EMPTY, es[..n], false).counters;
      AllowedIn(win, es, n, key, id, false) <= budget &&
      (key !in c ==> AllowedIn(win, es, n, key, id, false) == 0) &&
      (key in c && c[key].windowId == id ==> AllowedIn(win, es, n, key, id, false) == c[key].count) &&
      (key in c && c[key].windowId < id ==> AllowedIn(win, es, n, key, id, false) == 0) &&
      (key in c && n > 0 ==> win(key) > 0 && c[key].windowId <= Unix(es[n - 1].now) / win(key))
  {
    assert Positive(win, key);
    if n > 0 {
      CounterCountsWindow(win, es, n - 1, key, id, budget);
      AfterStep(win, es, n - 1, false);
      if n > 1 {
        DivMono(Unix(es[n - 2].now), Unix(es[n - 1].now), win(key));
      }
    }
  }

  lemma {:induction false} SweepKeepsCounts(win: string -> nat, es: seq<Hit>, n: nat, key: string, id: int)
    requires Windows(win) && win(key) <= 600 && Ordered(es) && n <= |es|
    ensures AllowedIn(win, es, n, key, id, true) == AllowedIn(win, es, n, key, id, false)
  {
    if n > 0 {
      SweepKeepsCounts(win, es, n - 1, key, id);
      if es[n - 1].key == key {
        SweepIsInvisible(win, es, n - 1);
      }
    }
  }

  /** With a window up to 600 s, a key never gets more than Limit + Burst requests through per window. */
  lemma WindowBudget(win: string -> nat, es: seq<Hit>, key: string, id: int, budget: nat)
    requires Windows(win) && win(key) <= 600 && Ordered(es) && Budgeted(es, key, budget)
    ensures AllowedIn(win, es, |es|, key, id, true) <= budget
  {
    SweepKeepsCounts(win, es, |es|, key, id);
    CounterCountsWindow(win, es, |es|, key, id, budget);
  }

  /** Allowed requests of a key with from <= time < until. */
  function AllowedBetween(win: string -> nat, es: seq<Hit>, n: nat, key: string, from: nat, until: nat): nat
    requires Windows(win) && n <= |es|
  {
    if n == 0 then 0
    else
      AllowedBetween(win, es, n - 1, key, from, until) +
      if es[n - 1].key == key && from <= es[n - 1].now < until && Verdict(win, EMPTY, es, n - 1, true) then 1 else 0
  }

  lemma {:induction false} IntervalInTwoWindows(win: string -> nat, es: seq<Hit>, n: nat, key: string, from: nat, until: nat)
    requires Windows(win) && n <= |es| && win(key) > 0 && until <= from + win(key) * SECOND
    ensures
      var id := Unix(from) / win(key);
      AllowedBetween(win, es, n, key, from, until) <=
      AllowedIn(win, es, n, key, id, true) + AllowedIn(win, es, n, key, id + 1, true)
  {
    if n > 0 {
      IntervalInTwoWindows(win, es, n - 1, key, from, until);
      var now := es[n - 1].now;
      if from <= now < until {
        NextWindowAtMost(from, now, win(key));
      }
    }
  }

  lemma NextWindowAtMost(from: nat, now: nat, w: nat)
    requires w > 0 && from <= now < from + w * SECOND
    ensures Unix(from) / w <= Unix(now) / w <= Unix(from) / w + 1
  {
    DivMono(from, now, SECOND);
    DivMono(now, from + w * SECOND, SECOND);
    assert (from + w * SECOND) / SECOND == Unix(from) + w by { AddWhole(from, w, SECOND); }
    DivMono(Unix(from), Unix(now), w);
    DivMono(Unix(now), Unix(from) + w, w);
    assert (Unix(from) + 1 * w) / w == Unix(from) / w + 1 by { AddWhole(Unix(from), 1, w); }
  }

  lemma AddWhole(a: nat, k: nat, d: nat)
    requires d > 0
    ensures (a + k * d) / d == a / d + k
  {
    var q := (a + k * d) / d;
    assert a + k * d == q * d + (a + k * d) % d;
    assert a == (a / d) * d + a % d;
    var e := q - a / d - k;
    assert e * d == q * d - (a / d) * d - k * d;
    assert e * d < d && e * d + d > 0;
    if e >= 1 {
      Multiply(1, e, d);
    } else if e <= -1 {
      Multiply(e, -1, d);
    }
  }

  /** And no more than twice that in any interval one window long. */
  lemma IntervalBudget(win: string -> nat, es: seq<Hit>, key: string, from: nat, budget: nat)
    requires Windows(win) && win(key) <= 600 && Ordered(es) && Budgeted(es, key, budget)
    ensures AllowedBetween(win, es, |es|, key, from, from + win(key) * SECOND) <= 2 * budget
  {
    assert Positive(win, key);
    var id := Unix(from) / win(key);
    IntervalInTwoWindows(win, es, |es|, key, from, from + win(key) * SECOND);
    WindowBudget(win, es, key, id, budget);
    WindowBudget(win, es, key, id + 1, budget);
  }

  // ----- The decision on one request --------------------------------------------------

  lemma {:induction false} SomeBudget(es: seq<Hit>, key: string) returns (budget: nat)
    ensures Budgeted(es, key, budget)
  {
    if es == [] {
      budget := 0;
    } else {
      budget := SomeBudget(es[..|es| - 1], key);
      if es[|es| - 1].maxHits > budget {
        budget := es[|es| - 1].maxHits;
      }
    }
  }

  /** In time order a request of a key is allowed, by counters that are never forgotten, if and only if
      fewer than its own limit were allowed before it in its window. */
  lemma PlainDecisionIff(win: string -> nat, es: seq<Hit>, n: nat)
    requires Windows(win) && Ordered(es) && n < |es|
    ensures win(es[n].key) > 0
    ensures Verdict(win, EMPTY, es, n, false) <==>
            AllowedIn(win, es, n, es[n].key, Unix(es[n].now) / win(es[n].key), false) < es[n].maxHits
  {
    var h := es[n];
    assert Positive(win, h.key);
    var budget := SomeBudget(es, h.key);
    CounterCountsWindow(win, es, n, h.key, Unix(h.now) / win(h.key), budget);
    if n > 0 {
      DivMono(Unix(es[n - 1].now), Unix(h.now), win(h.key));
    }
  }

  /** And by counters that are swept, if its window is at most 600 s. */
  lemma DecisionIff(win: string -> nat, es: seq<Hit>, n: nat)
    requires Windows(win) && Ordered(es) && n < |es| && win(es[n].key) <= 600
    ensures win(es[n].key) > 0
    ensures Verdict(win, EMPTY, es, n, true) <==>
            AllowedIn(win, es, n, es[n].key, Unix(es[n].now) / win(es[n].key), true) < es[n].maxHits
  {
    PlainDecisionIff(win, es, n);
    SweepIsInvisible(win, es, n);
    SweepKeepsCounts(win, es, n, es[n].key, Unix(es[n].now) / win(es[n].key));
  }

  // ----- What a counter key says -----------------------------------------------------

  /** The part of a text before its first colon. */
  function BeforeColon(s: string): string {
    if s == "" || s[0] == ':' then "" else [s[0]] + BeforeColon(s[1..])
  }

  lemma {:induction false} BeforeColonOf(a: string, rest: string)
    requires ':' !in a
    ensures BeforeColon(a + ":" + rest) == a
  {
    if a == "" {
      assert a + ":" + rest == ":" + rest;
    } else {
      BeforeColonOf(a[1..], rest);
      assert a + ":" + rest == [a[0]] + (a[1..] + ":" + rest);
      assert a == [a[0]] + a[1..];
    }
  }

  /** The place of the rule a counter key starts with. */
  function PlaceOf(key: string): Option<nat> {
    if "rule:" <= key then Text.Number(BeforeColon(key[5..])) else None
  }

  /** A counter key names its rule, whatever the rule's name and the request put behind it. */
  lemma PlaceOfRuleKey(i: nat, name: string, rest: string)
    ensures PlaceOf(RuleId(i, name) + "|" + rest) == Some(i)
  {
    var digits := Text.Itoa(i);
    var tail := Text.Trim(name) + "|" + rest;
    var key := RuleId(i, name) + "|" + rest;
    assert key == "rule:" + (digits + ":" + tail);
    assert key[5..] == digits + ":" + tail;
    BeforeColonOf(digits, tail);
    Text.NumberOfItoa(i);
  }

  lemma PlaceOfDefaultKey(rest: string)
    ensures PlaceOf("default" + "|" + rest) == None
  {
    assert ("default" + "|" + rest)[0] == 'd';
  }

  function PolicyAt(rt: Runtime, place: Option<nat>): Policy {
    if place.Some? && place.value < |rt.rules| then rt.rules[place.value].policy else rt.fallback
  }

  lemma PickedIsAtPlace(rt: Runtime, verb: string, path: string, rest: string)
    ensures
      var (p, id) := Picked(rt, verb, path, 0);
      p == PolicyAt(rt, PlaceOf(id + "|" + rest))
  {
    PickedIsFirst(rt, verb, path, 0);
    var (p, id) := Picked(rt, verb, path, 0);
    if id == "default" && p == rt.fallback {
      PlaceOfDefaultKey(rest);
    } else {
      var k :| 0 <= k < |rt.rules| && p == rt.rules[k].policy && id == RuleId(k, rt.rules[k].name);
      PlaceOfRuleKey(k, rt.rules[k].name, rest);
    }
  }

  /** The window of a counter key under one configuration; keys that no request has get 1. */
  function WindowOf(rt: Runtime, key: string): (w: nat)
    ensures w > 0
  {
    var p := PolicyAt(rt, PlaceOf(key));
    if p.windowSeconds > 0 then p.windowSeconds else 1
  }

  /** Two requests of the same counter key are counted under the same policy: so a key has one
      window, and one budget to start from. */
  lemma KeyDeterminesPolicy(rt: Runtime, r: Request, q: Request, now: nat, later: nat)
    requires HitOf(rt, r, now).key == HitOf(rt, q, later).key
    ensures Picked(rt, r.verb, r.path, 0).0 == Picked(rt, q.verb, q.path, 0).0
    ensures WellFormed(rt) && !Bypasses(rt, r) ==> PolicyFor(rt, r).windowSeconds == WindowOf(rt, HitOf(rt, r, now).key)
  {
    PickedIsAtPlace(rt, r.verb, r.path, BuildKey(PolicyFor(rt, r).keyBy, r));
    PickedIsAtPlace(rt, q.verb, q.path, BuildKey(PolicyFor(rt, q).keyBy, q));
    if WellFormed(rt) && !Bypasses(rt, r) {
      CountedRequestsAreBudgeted(rt, r, now);
    }
  }

  // ----- Runs of requests ------------------------------------------------------------

  /** The counters after one more request, as Evaluate leaves them. */
  function Served(rt: Runtime, s: Store, r: Request, now: nat): Store
    requires WellFormed(rt)
  {
    if Bypasses(rt, r) then s
    else
      CountedRequestsAreBudgeted(rt, r, now);
      Step(s, HitOf(rt, r, now), PolicyFor(rt, r).windowSeconds, true)
  }

  function ServedAll(rt: Runtime, rs: seq<(Request, nat)>): Store
    requires WellFormed(rt)
  {
    if rs == [] then EMPTY
    else
      var n := |rs| - 1;
      Served(rt, ServedAll(rt, rs[..n]), rs[n].0, rs[n].1)
  }

  /** Counted under this key and allowed. */
  predicate Passes(rt: Runtime, s: Store, r: Request, now: nat, key: string)
    requires WellFormed(rt)
  {
    !Bypasses(rt, r) && HitOf(rt, r, now).key == key &&
    (CountedRequestsAreBudgeted(rt, r, now); Allows(s.counters, HitOf(rt, r, now), PolicyFor(rt, r).windowSeconds))
  }

  /** How many requests of a key pass with from <= time < until. */
  function PassedBetween(rt: Runtime, rs: seq<(Request, nat)>, key: string, from: nat, until: nat): nat
    requires WellFormed(rt)
  {
    if rs == [] then 0
    else
      var n := |rs| - 1;
      PassedBetween(rt, rs[..n], key, from, until) +
      if from <= rs[n].1 < until && Passes(rt, ServedAll(rt, rs[..n]), rs[n].0, rs[n].1, key) then 1 else 0
  }

  /** The requests that reach the counters. */
  function Hits(rt: Runtime, rs: seq<(Request, nat)>): seq<Hit> {
    if rs == [] then []
    else
      var n := |rs| - 1;
      Hits(rt, rs[..n]) + if Bypasses(rt, rs[n].0) then [] else [HitOf(rt, rs[n].0, rs[n].1)]
  }

  predicate InOrder(rs: seq<(Request, nat)>) {
    forall i :: 0 < i < |rs| ==> rs[i - 1].1 <= rs[i].1
  }

  lemma OneMoreHit(es: seq<Hit>, h: Hit)
    requires Ordered(es) && (es != [] ==> es[|es| - 1].now <= h.now)
    ensures Ordered(es + [h])
  {
  }

  lemma HitsStep(rt: Runtime, rs: seq<(Request, nat)>) returns (h: Option<Hit>)
    requires rs != []
    ensures Hits(rt, rs) == Hits(rt, rs[..|rs| - 1]) + if h.Some? then [h.value] else []
    ensures h.Some? ==> h.value.now == rs[|rs| - 1].1
  {
    var r, now := rs[|rs| - 1].0, rs[|rs| - 1].1;
    h := if Bypasses(rt, r) then None else Some(HitOf(rt, r, now));
  }

  predicate UpTo(es: seq<Hit>, now: nat) {
    Ordered(es) && (es != [] ==> es[|es| - 1].now <= now)
  }

  lemma {:induction false} HitsAreOrdered(rt: Runtime, rs: seq<(Request, nat)>)
    requires InOrder(rs)
    ensures Ordered(Hits(rt, rs)) && (rs != [] ==> UpTo(Hits(rt, rs), rs[|rs| - 1].1))
  {
    if rs != [] {
      var init := rs[..|rs| - 1];
      assert forall i :: 0 <= i < |init| ==> init[i] == rs[i];
      HitsAreOrdered(rt, init);
      var before := Hits(rt, init);
      assert UpTo(before, rs[|init|].1);
      var h := HitsStep(rt, rs);
      if h.Some? {
        OneMoreHit(before, h.value);
      } else {
        assert before + [] == before;
      }
    }
  }

  ghost function Win(rt: Runtime): (win: string -> nat)
    ensures Windows(win)
  {
    var win := (k: string) => WindowOf(rt, k);
    assert forall k :: Positive(win, k);
    win
  }

  lemma {:induction false} ServedIsAfter(rt: Runtime, rs: seq<(Request, nat)>)
    requires WellFormed(rt)
    ensures ServedAll(rt, rs) == After(Win(rt), EMPTY, Hits(rt, rs), true)
  {
    if rs != [] {
      var n := |rs| - 1;
      var r, now := rs[n].0, rs[n].1;
      ServedIsAfter(rt, rs[..n]);
      if Bypasses(rt, r) {
        assert Hits(rt, rs) == Hits(rt, rs[..n]);
      } else {
        KeyDeterminesPolicy(rt, r, r, now, now);
        AfterPush(Win(rt), EMPTY, Hits(rt, rs[..n]), HitOf(rt, r, now), PolicyFor(rt, r).windowSeconds, true);
      }
    }
  }

  lemma {:induction false} AllowedOfPrefix(win: string -> nat, es: seq<Hit>, h: Hit, n: nat, key: string, from: nat, until: nat)
    requires Windows(win) && n <= |es|
    ensures AllowedBetween(win, es + [h], n, key, from, until) == AllowedBetween(win, es, n, key, from, until)
  {
    if n > 0 {
      AllowedOfPrefix(win, es, h, n - 1, key, from, until);
      assert (es + [h])[..n - 1] == es[..n - 1];
    }
  }

  /** A counted request passes exactly when its hit is allowed. */
  lemma PassesIffAllowed(rt: Runtime, rs: seq<(Request, nat)>, r: Request, now: nat, key: string)
    requires WellFormed(rt) && !Bypasses(rt, r)
    ensures
      var h := HitOf(rt, r, now);
      Passes(rt, ServedAll(rt, rs), r, now, key) <==>
      h.key == key && Allows(After(Win(rt), EMPTY, Hits(rt, rs), true).counters, h, WindowOf(rt, h.key))
  {
    ServedIsAfter(rt, rs);
    KeyDeterminesPolicy(rt, r, r, now, now);
  }

  lemma {:induction false} PassedIsAllowed(rt: Runtime, rs: seq<(Request, nat)>, key: string, from: nat, until: nat)
    requires WellFormed(rt)
    ensures PassedBetween(rt, rs, key, from, until) == Passing(Win(rt), Hits(rt, rs), key, from, until)
  {
    if rs != [] {
      var n := |rs| - 1;
      var r, now, before := rs[n].0, rs[n].1, Hits(rt, rs[..n]);
      PassedIsAllowed(rt, rs[..n], key, from, until);
      if Bypasses(rt, r) {
        assert Hits(rt, rs) == before;
      } else {
        PassesIffAllowed(rt, rs[..n], r, now, key);
        PassingPush(Win(rt), before, HitOf(rt, r, now), key, from, until);
      }
    }
  }

  lemma {:induction false} HitsAreBudgeted(rt: Runtime, rs: seq<(Request, nat)>, r: Request)
    requires WellFormed(rt)
    ensures
      var base := Picked(rt, r.verb, r.path, 0).0;
      Budgeted(Hits(rt, rs), HitOf(rt, r, 0).key, base.limit + base.burst)
  {
    if rs != [] {
      var n := |rs| - 1;
      HitsAreBudgeted(rt, rs[..n], r);
      var q, now := rs[n].0, rs[n].1;
      if !Bypasses(rt, q) && HitOf(rt, q, now).key == HitOf(rt, r, 0).key {
        KeyDeterminesPolicy(rt, q, r, now, 0);
        CountedRequestsAreBudgeted(rt, q, now);
      }
    }
  }

  /** Under one configuration, whatever requests come in and whatever other rules say: of all the
      requests counted together with `r`, no more than Limit + Burst of its policy pass within a
      window, if that window is at most 600 s. */
  lemma PolicyBudget(rt: Runtime, rs: seq<(Request, nat)>, r: Request, id: nat)
    requires WellFormed(rt) && InOrder(rs) && !Bypasses(rt, r) && PolicyFor(rt, r).windowSeconds <= 600
    ensures
      var base, span := Picked(rt, r.verb, r.path, 0).0, WindowOf(rt, HitOf(rt, r, 0).key) * SECOND;
      PassedBetween(rt, rs, HitOf(rt, r, 0).key, id * span, id * span + span) <= base.limit + base.burst
  {
    var base, key := Picked(rt, r.verb, r.path, 0).0, HitOf(rt, r, 0).key;
    var win, es := Win(rt), Hits(rt, rs);
    KeyDeterminesPolicy(rt, r, r, 0, 0);
    HitsAreOrdered(rt, rs);
    HitsAreBudgeted(rt, rs, r);
    CountedRequestsAreBudgeted(rt, r, 0);
    WindowBudget(win, es, key, id, base.limit + base.burst);
    PassedInWindow(rt, rs, key, id);
  }

  lemma PassedInWindow(rt: Runtime, rs: seq<(Request, nat)>, key: string, id: nat)
    requires WellFormed(rt)
    ensures
      var span := WindowOf(rt, key) * SECOND;
      PassedBetween(rt, rs, key, id * span, id * span + span) <=
      AllowedIn(Win(rt), Hits(rt, rs), |Hits(rt, rs)|, key, id, true)
  {
    var span := WindowOf(rt, key) * SECOND;
    PassedIsAllowed(rt, rs, key, id * span, id * span + span);
    AlignedIsWindow(Win(rt), Hits(rt, rs), |Hits(rt, rs)|, key, id, id * span, id * span + span);
  }

  lemma {:induction false} AlignedIsWindow(win: string -> nat, es: seq<Hit>, n: nat, key: string, id: nat, from: nat, until: nat)
    requires Windows(win) && n <= |es| && win(key) > 0
    requires from == id * (win(key) * SECOND) && until == from + win(key) * SECOND
    ensures AllowedBetween(win, es, n, key, from, until) <= AllowedIn(win, es, n, key, id, true)
  {
    if n > 0 {
      AlignedIsWindow(win, es, n - 1, key, id, from, until);
      if from <= es[n - 1].now < until {
        WithinWindow(es[n - 1].now, id, win(key));
      }
    }
  }

  lemma WithinWindow(now: nat, id: nat, w: nat)
    requires w > 0 && id * (w * SECOND) <= now < id * (w * SECOND) + w * SECOND
    ensures Unix(now) / w == id
  {
    AddWhole(0, id * w, SECOND);
    AddWhole(0, id * w + w, SECOND);
    assert id * (w * SECOND) == (id * w) * SECOND;
    DivMono((id * w) * SECOND, now, SECOND);
    assert id * w <= Unix(now) < id * w + w by {
      UnixBelow(now, id * w + w);
    }
    AddWhole(0, id, w);
    DivMono(id * w, Unix(now), w);
    QuotientBelow(Unix(now), w, id + 1);
  }

  lemma UnixBelow(now: nat, s: nat)
    requires now < s * SECOND
    ensures Unix(now) < s
  {
    QuotientBelow(now, SECOND, s);
  }

  lemma QuotientBelow(a: nat, w: nat, q: nat)
    requires w > 0 && a < q * w
    ensures a / w < q
  {
    var d := a / w;
    assert a == d * w + a % w;
    if d >= q {
      Multiply(q, d, w);
    }
  }

  /** And no more than twice that in any interval one window long. */
  lemma PolicyIntervalBudget(rt: Runtime, rs: seq<(Request, nat)>, r: Request, from: nat)
    requires WellFormed(rt) && InOrder(rs) && !Bypasses(rt, r) && PolicyFor(rt, r).windowSeconds <= 600
    ensures
      var base, span := Picked(rt, r.verb, r.path, 0).0, WindowOf(rt, HitOf(rt, r, 0).key) * SECOND;
      PassedBetween(rt, rs, HitOf(rt, r, 0).key, from, from + span) <= 2 * (base.limit + base.burst)
  {
    var base, key := Picked(rt, r.verb, r.path, 0).0, HitOf(rt, r, 0).key;
    var w, win, es := WindowOf(rt, key), Win(rt), Hits(rt, rs);
    KeyDeterminesPolicy(rt, r, r, 0, 0);
    HitsAreOrdered(rt, rs);
    HitsAreBudgeted(rt, rs, r);
    CountedRequestsAreBudgeted(rt, r, 0);
    IntervalBudget(win, es, key, from, base.limit + base.burst);
    PassedIsAllowed(rt, rs, key, from, from + w * SECOND);
  }

  lemma WindowIff(now: nat, id: nat, w: nat)
    requires w > 0
    ensures id * (w * SECOND) <= now < id * (w * SECOND) + w * SECOND <==> Unix(now) / w == id
  {
    if id * (w * SECOND) <= now < id * (w * SECOND) + w * SECOND {
      WithinWindow(now, id, w);
    }
    if Unix(now) / w == id {
      var u := Unix(now);
      assert now == u * SECOND + now % SECOND && u == id * w + u % w;
      assert id * (w * SECOND) == (id * w) * SECOND;
      Multiply(id * w, u, SECOND);
      Multiply(u + 1, id * w + w, SECOND);
    }
  }

  lemma {:induction false} WindowCounts(win: string -> nat, es: seq<Hit>, n: nat, key: string, id: nat, from: nat, until: nat)
    requires Windows(win) && n <= |es| && win(key) > 0
    requires from == id * (win(key) * SECOND) && until == from + win(key) * SECOND
    ensures AllowedBetween(win, es, n, key, from, until) == AllowedIn(win, es, n, key, id, true)
  {
    if n > 0 {
      WindowCounts(win, es, n - 1, key, id, from, until);
      WindowIff(es[n - 1].now, id, win(key));
    }
  }

  lemma {:induction false} AllowedInPrefix(win: string -> nat, es: seq<Hit>, h: Hit, n: nat, key: string, id: int)
    requires Windows(win) && n <= |es|
    ensures AllowedIn(win, es + [h], n, key, id, true) == AllowedIn(win, es, n, key, id, true)
  {
    if n > 0 {
      AllowedInPrefix(win, es, h, n - 1, key, id);
      assert (es + [h])[..n - 1] == es[..n - 1];
    }
  }

  /** The start of the window a moment falls into. */
  function WindowStart(now: nat, w: nat): nat
    requires w > 0
  {
    now / SECOND / w * (w * SECOND)
  }

  lemma NextDecisionIff(win: string -> nat, es: seq<Hit>, h: Hit)
    requires Windows(win) && Ordered(es + [h]) && 0 < win(h.key) <= 600
    ensures Allows(After(win, EMPTY, es, true).counters, h, win(h.key)) <==>
            Passing(win, es, h.key, WindowStart(h.now, win(h.key)), WindowStart(h.now, win(h.key)) + win(h.key) * SECOND)
            < h.maxHits
  {
    var all, w := es + [h], win(h.key);
    var id := Unix(h.now) / w;
    assert all[..|es|] == es;
    DecisionIff(win, all, |es|);
    AllowedInPrefix(win, es, h, |es|, h.key, id);
    WindowCounts(win, es, |es|, h.key, id, WindowStart(h.now, w), WindowStart(h.now, w) + w * SECOND);
  }

  lemma NextHitIsOrdered(rt: Runtime, rs: seq<(Request, nat)>, r: Request, now: nat)
    requires InOrder(rs + [(r, now)]) && !Bypasses(rt, r)
    ensures Ordered(Hits(rt, rs) + [HitOf(rt, r, now)])
  {
    var all := rs + [(r, now)];
    assert all[..|rs|] == rs;
    HitsAreOrdered(rt, all);
  }

  lemma HitAllowedIff(rt: Runtime, rs: seq<(Request, nat)>, h: Hit, w: nat)
    requires WellFormed(rt) && Ordered(Hits(rt, rs) + [h]) && w == WindowOf(rt, h.key) <= 600
    ensures Allows(ServedAll(rt, rs).counters, h, w) <==>
            PassedBetween(rt, rs, h.key, WindowStart(h.now, w), WindowStart(h.now, w) + w * SECOND) < h.maxHits
  {
    ServedIsAfter(rt, rs);
    NextDecisionIff(Win(rt), Hits(rt, rs), h);
    PassedIsAllowed(rt, rs, h.key, WindowStart(h.now, w), WindowStart(h.now, w) + w * SECOND);
  }

  /** The requests counted together with `r` that passed before `now` in its window. */
  function PassedInWindowOf(rt: Runtime, rs: seq<(Request, nat)>, r: Request, now: nat, w: nat): nat
    requires WellFormed(rt) && w > 0
  {
    PassedBetween(rt, rs, HitOf(rt, r, now).key, WindowStart(now, w), WindowStart(now, w) + w * SECOND)
  }

  /** In time order under one configuration, a counted request with a window of at most 600 s is
      allowed if and only if, of the requests counted together with it, fewer passed before it in its
      window than its limit and burst, tightened by its risk, add up to. */
  lemma RequestAllowedIff(rt: Runtime, rs: seq<(Request, nat)>, r: Request, now: nat, w: nat)
    requires WellFormed(rt) && InOrder(rs + [(r, now)]) && !Bypasses(rt, r)
    requires PolicyFor(rt, r).windowSeconds == w <= 600
    ensures w > 0
    ensures Allows(ServedAll(rt, rs).counters, HitOf(rt, r, now), w) <==>
            PassedInWindowOf(rt, rs, r, now, w) < PolicyFor(rt, r).limit + PolicyFor(rt, r).burst
  {
    CountedRequestsAreBudgeted(rt, r, now);
    KeyDeterminesPolicy(rt, r, r, now, now);
    NextHitIsOrdered(rt, rs, r, now);
    HitAllowedIff(rt, rs, HitOf(rt, r, now), w);
  }

  predicate Blocks(rt: Runtime, s: Store, r: Request, now: nat)
    requires WellFormed(rt)
  {
    !Bypasses(rt, r) &&
    (CountedRequestsAreBudgeted(rt, r, now); !Allows(s.counters, HitOf(rt, r, now), PolicyFor(rt, r).windowSeconds))
  }

  /** The request has nothing the key kind could count it by. */
  predicate Anonymous(kind: string, r: Request) {
    match kind
    case "country" => r.country == ""
    case "ip_country" => r.ip == "" && r.country == ""
    case "session" => r.ip == "" && r.session == ""
    case "ip_session" => r.ip == "" && r.session == ""
    case "jwt_sub" => r.ip == "" && r.jwtSub == ""
    case "ip_jwt_sub" => r.ip == "" && r.jwtSub == ""
    case _ => r.ip == ""
  }

  /** The rule decides a request of this method and path: it is enabled, matches the path, and lists
      the method or lists none. */
  predicate Governs(rule: Rule, r: Request) {
    rule.policy.enabled && rule.matches(r.path) && (rule.methods == {} || Text.ToUpper(Text.Trim(r.verb)) in rule.methods)
  }

  /** `k` is the place of the first rule that does, or the number of rules if none does. */
  predicate GovernedBy(rt: Runtime, r: Request, k: nat) {
    k <= |rt.rules| && (k < |rt.rules| ==> Governs(rt.rules[k], r)) && forall j :: 0 <= j < k ==> !Governs(rt.rules[j], r)
  }

  lemma BypassesIff(rt: Runtime, r: Request, k: nat)
    requires GovernedBy(rt, r, k)
    ensures
      var base := if k < |rt.rules| then rt.rules[k].policy else rt.fallback;
      PolicyFor(rt, r) == Effective(rt.adaptive, base, r.risk) &&
      (Bypasses(rt, r) <==> !rt.enabled || r.exempt || !base.enabled || Anonymous(base.keyBy, r))
  {
    forall j | 0 <= j < k
      ensures !rt.rules[j].policy.enabled || !rt.rules[j].matches(r.path) ||
              (rt.rules[j].methods != {} && Text.ToUpper(Text.Trim(r.verb)) !in rt.rules[j].methods)
    {
      assert !Governs(rt.rules[j], r);
    }
    RuleDecides(rt, r.verb, r.path, k);
  }

  /** In time order under one configuration, a request whose governing policy has a window of at most
      600 s is blocked if and only if the limiter is on, the request is not exempt, that policy is
      enabled and has something to count the request by, and the requests counted together with it
      that passed before it in its window have used up the limit and burst its risk leaves. */
  lemma RequestBlockedIff(rt: Runtime, rs: seq<(Request, nat)>, r: Request, now: nat, k: nat)
    requires WellFormed(rt) && InOrder(rs + [(r, now)]) && GovernedBy(rt, r, k)
    requires PolicyFor(rt, r).windowSeconds <= 600
    ensures
      var base := if k < |rt.rules| then rt.rules[k].policy else rt.fallback;
      var p := Effective(rt.adaptive, base, r.risk);
      Blocks(rt, ServedAll(rt, rs), r, now) <==>
      rt.enabled && !r.exempt && base.enabled && !Anonymous(base.keyBy, r) &&
      p.windowSeconds > 0 && PassedInWindowOf(rt, rs, r, now, p.windowSeconds) >= p.limit + p.burst
  {
    BypassesIff(rt, r, k);
    if !Bypasses(rt, r) {
      CountedRequestsAreBudgeted(rt, r, now);
      RequestAllowedIff(rt, rs, r, now, PolicyFor(rt, r).windowSeconds);
    }
  }

  // ----- Which requests are counted together -----------------------------------------

  /** The first pair, joined by a bar, reads like the second, whose border lies further left. */
  predicate Spills(a: string, x: string, b: string, y: string) {
    a != "" && if b == "" then y == a + "|" + x else b + "|" <= a && y == a[|b| + 1..] + "|" + x
  }

  /** Two pairs are the same, or read the same because an address is missing or has a bar in it. */
  predicate ReadAlike(a: string, x: string, b: string, y: string) {
    (a == b && x == y) || Spills(a, x, b, y) || Spills(b, y, a, x)
  }

  /** What a request is counted by under each kind of key. */
  predicate SameIdentity(kind: string, r: Request, q: Request) {
    var session, other := if r.session != "" then r.session else r.ip, if q.session != "" then q.session else q.ip;
    var sub, peer := if r.jwtSub != "" then r.jwtSub else r.ip, if q.jwtSub != "" then q.jwtSub else q.ip;
    match kind
    case "country" => r.country == q.country
    case "ip_country" => ReadAlike(r.ip, r.country, q.ip, q.country)
    case "session" => session == other
    case "ip_session" => ReadAlike(r.ip, session, q.ip, other)
    case "jwt_sub" => sub == peer
    case "ip_jwt_sub" => ReadAlike(r.ip, sub, q.ip, peer)
    case _ => r.ip == q.ip
  }

  function Joined(a: string, x: string): string {
    if a == "" then x else a + "|" + x
  }

  /** Of equal texts with a bar at the end of `b` in the one and of `a` in the other, the longer front
      holds the shorter and its bar. */
  lemma FrontsSpill(a: string, x: string, b: string, y: string)
    requires b != "" && |b| < |a| && a + "|" + x == b + "|" + y
    ensures Spills(a, x, b, y)
  {
    var s := a + "|" + x;
    assert s[..|b| + 1] == b + "|" && s[..|b| + 1] == a[..|b| + 1];
    assert s[|b| + 1..] == y && s[|b| + 1..] == a[|b| + 1..] + "|" + x;
  }

  lemma SpillsJoin(a: string, x: string, b: string, y: string)
    requires Spills(a, x, b, y)
    ensures Joined(a, x) == Joined(b, y)
  {
    if b != "" {
      assert a == b + "|" + a[|b| + 1..];
    }
  }

  lemma JoinedIff(a: string, x: string, b: string, y: string)
    ensures Joined(a, x) == Joined(b, y) <==> ReadAlike(a, x, b, y)
  {
    if Spills(a, x, b, y) {
      SpillsJoin(a, x, b, y);
    }
    if Spills(b, y, a, x) {
      SpillsJoin(b, y, a, x);
    }
    if Joined(a, x) == Joined(b, y) && a != "" && b != "" {
      if |b| < |a| {
        FrontsSpill(a, x, b, y);
      } else if |a| < |b| {
        FrontsSpill(b, y, a, x);
      } else {
        SameFronts(a, x, b, y);
      }
    }
  }

  lemma SameFronts(a: string, x: string, b: string, y: string)
    requires |a| == |b| && a + "|" + x == b + "|" + y
    ensures a == b && x == y
  {
    var s := a + "|" + x;
    assert s[..|a|] == a && s[..|a|] == b && s[|a| + 1..] == x && s[|a| + 1..] == y;
  }

  /** Two requests have the same key if and only if they have the same identity of its kind. */
  lemma SameKeyIff(kind: string, r: Request, q: Request)
    ensures BuildKey(kind, r) == BuildKey(kind, q) <==> SameIdentity(kind, r, q)
  {
    var second, other := SecondPart(kind, r), SecondPart(kind, q);
    KeyIsJoined(kind, r);
    KeyIsJoined(kind, q);
    JoinedIff(r.ip, second, q.ip, other);
  }

  /** What a key of two parts puts behind the address. */
  function SecondPart(kind: string, r: Request): string {
    if kind == "ip_country" then r.country
    else if kind == "ip_session" then if r.session != "" then r.session else r.ip
    else if r.jwtSub != "" then r.jwtSub
    else r.ip
  }

  lemma KeyIsJoined(kind: string, r: Request)
    ensures kind in {"ip_country", "ip_session", "ip_jwt_sub"} ==> BuildKey(kind, r) == Joined(r.ip, SecondPart(kind, r))
  {
  }

  /** Known addresses without a bar are not mixed up. */
  lemma KnownAddressesDoNotMix(a: string, x: string, b: string, y: string)
    requires a != "" && b != "" && '|' !in a && '|' !in b
    ensures ReadAlike(a, x, b, y) <==> a == b && x == y
  {
    if b + "|" <= a {
      FrontHoldsBar(a, b);
    }
    if a + "|" <= b {
      FrontHoldsBar(b, a);
    }
  }

  lemma FrontHoldsBar(a: string, b: string)
    requires b + "|" <= a
    ensures '|' in a
  {
    assert a[|b|] == '|';
  }

  /** A request without an address whose session is called like another's address and session is counted
      with that other. */
  lemma MissingAddressMixes(known: Request, unknown: Request)
    requires known.ip == "10.0.0.1" && known.session == "s" && unknown.ip == "" && unknown.session == "10.0.0.1|s"
    ensures BuildKey("ip_session", known) == BuildKey("ip_session", unknown)
  {
    SameKeyIff("ip_session", known, unknown);
  }

  /** They are counted together if and only if the same rule takes them and they have the same identity
      of its kind. */
  lemma CountedTogetherIff(rt: Runtime, r: Request, q: Request, now: nat)
    ensures HitOf(rt, r, now).key == HitOf(rt, q, now).key <==>
            Picked(rt, r.verb, r.path, 0).1 == Picked(rt, q.verb, q.path, 0).1 &&
            SameIdentity(Picked(rt, r.verb, r.path, 0).0.keyBy, r, q)
  {
    var idR, idQ := Picked(rt, r.verb, r.path, 0).1, Picked(rt, q.verb, q.path, 0).1;
    var kind := Picked(rt, r.verb, r.path, 0).0.keyBy;
    SameKeyIff(kind, r, q);
    if HitOf(rt, r, now).key == HitOf(rt, q, now).key {
      KeyDeterminesPolicy(rt, r, q, now, now);
      KeyDeterminesId(rt, r, q, now);
    }
    if idR == idQ {
      IdDeterminesPolicy(rt, r, q);
    }
    SameIdSameKey(idR, BuildKey(kind, r), BuildKey(kind, q));
  }

  lemma SameIdSameKey(id: string, a: string, b: string)
    ensures id + "|" + a == id + "|" + b <==> a == b
  {
    assert (id + "|" + a)[|id| + 1..] == a && (id + "|" + b)[|id| + 1..] == b;
  }

  lemma IdDeterminesPolicy(rt: Runtime, r: Request, q: Request)
    requires Picked(rt, r.verb, r.path, 0).1 == Picked(rt, q.verb, q.path, 0).1
    ensures Picked(rt, r.verb, r.path, 0).0 == Picked(rt, q.verb, q.path, 0).0
  {
    PickedIsAtPlace(rt, r.verb, r.path, "");
    PickedIsAtPlace(rt, q.verb, q.path, "");
  }

  /** A counter key names the place of its rule, and so its whole id. */
  lemma KeyDeterminesId(rt: Runtime, r: Request, q: Request, now: nat)
    requires HitOf(rt, r, now).key == HitOf(rt, q, now).key
    ensures Picked(rt, r.verb, r.path, 0).1 == Picked(rt, q.verb, q.path, 0).1
  {
    IdIsAtPlace(rt, r.verb, r.path, BuildKey(PolicyFor(rt, r).keyBy, r));
    IdIsAtPlace(rt, q.verb, q.path, BuildKey(PolicyFor(rt, q).keyBy, q));
  }

  function IdAt(rt: Runtime, place: Option<nat>): string {
    if place.Some? && place.value < |rt.rules| then RuleId(place.value, rt.rules[place.value].name) else "default"
  }

  lemma IdIsAtPlace(rt: Runtime, verb: string, path: string, rest: string)
    ensures
      var id := Picked(rt, verb, path, 0).1;
      id == IdAt(rt, PlaceOf(id + "|" + rest))
  {
    PickedIsFirst(rt, verb, path, 0);
    var (p, id) := Picked(rt, verb, path, 0);
    if id == "default" {
      PlaceOfDefaultKey(rest);
    } else {
      var k :| 0 <= k < |rt.rules| && p == rt.rules[k].policy && id == RuleId(k, rt.rules[k].name);
      PlaceOfRuleKey(k, rt.rules[k].name, rest);
    }
  }

  // ----- Longer windows lose the bound -----------------------------------------------

  /** Some requests, and then `n` times the same one. */
  function Repeat(es: seq<Hit>, h: Hit, n: nat): seq<Hit> {
    if n == 0 then es else Repeat(es, h, n - 1) + [h]
  }

  lemma {:induction false} RepeatIsUpTo(es: seq<Hit>, h: Hit, n: nat)
    requires UpTo(es, h.now)
    ensures UpTo(Repeat(es, h, n), h.now)
  {
    if n > 0 {
      RepeatIsUpTo(es, h, n - 1);
      OneMoreHit(Repeat(es, h, n - 1), h);
    }
  }

  lemma {:induction false} RepeatIsBudgeted(es: seq<Hit>, h: Hit, n: nat, key: string, budget: int)
    requires Budgeted(es, key, budget) && (h.key == key ==> h.maxHits <= budget)
    ensures Budgeted(Repeat(es, h, n), key, budget)
  {
    if n > 0 {
      RepeatIsBudgeted(es, h, n - 1, key, budget);
    }
  }

  function Passing(win: string -> nat, es: seq<Hit>, key: string, from: nat, until: nat): nat
    requires Windows(win)
  {
    AllowedBetween(win, es, |es|, key, from, until)
  }

  lemma PassingPush(win: string -> nat, es: seq<Hit>, h: Hit, key: string, from: nat, until: nat)
    requires Windows(win)
    ensures win(h.key) > 0
    ensures Passing(win, es + [h], key, from, until) == Passing(win, es, key, from, until) +
            if h.key == key && from <= h.now < until && Allows(After(win, EMPTY, es, true).counters, h, win(h.key)) then 1 else 0
  {
    assert Positive(win, h.key);
    AllowedOfPrefix(win, es, h, |es|, key, from, until);
    assert (es + [h])[..|es|] == es;
  }

  /** The key has nothing counted in its window at this moment. */
  predicate Clear(win: string -> nat, es: seq<Hit>, key: string, now: nat)
    requires Windows(win)
  {
    win(key) > 0 && InWindow(At(After(win, EMPTY, es, true).counters, key), WindowId(now, win(key))) == 0
  }

  lemma StepCounts(s: Store, h: Hit, w: nat, used: nat)
    requires w > 0 && used < h.maxHits && InWindow(At(s.counters, h.key), WindowId(h.now, w)) == used
    ensures Allows(s.counters, h, w)
    ensures h.key in Step(s, h, w, true).counters
    ensures Step(s, h, w, true).counters[h.key] == Counter(WindowId(h.now, w), used + 1, h.now)
  {
  }

  /** After `n` requests of a burst the key's counter stands at `n`. */
  predicate Stands(s: Store, h: Hit, w: nat, n: nat)
    requires w > 0
  {
    InWindow(At(s.counters, h.key), WindowId(h.now, w)) == n &&
    (n > 0 ==> h.key in s.counters && s.counters[h.key] == Counter(WindowId(h.now, w), n, h.now))
  }

  lemma {:induction false} BurstStands(win: string -> nat, es: seq<Hit>, h: Hit, n: nat)
    requires Windows(win) && Clear(win, es, h.key, h.now) && n <= h.maxHits
    ensures Stands(After(win, EMPTY, Repeat(es, h, n), true), h, win(h.key), n)
  {
    if n > 0 {
      var before := Repeat(es, h, n - 1);
      BurstStands(win, es, h, n - 1);
      AfterPush(win, EMPTY, before, h, win(h.key), true);
      StepCounts(After(win, EMPTY, before, true), h, win(h.key), n - 1);
    }
  }

  /** A burst of a clear key passes up to its budget. */
  lemma {:induction false} BurstPasses(win: string -> nat, es: seq<Hit>, h: Hit, n: nat, from: nat, until: nat)
    requires Windows(win) && Clear(win, es, h.key, h.now) && n <= h.maxHits && from <= h.now < until
    ensures Passing(win, Repeat(es, h, n), h.key, from, until) == Passing(win, es, h.key, from, until) + n
    ensures Stands(After(win, EMPTY, Repeat(es, h, n), true), h, win(h.key), n)
  {
    BurstStands(win, es, h, n);
    if n > 0 {
      var before := Repeat(es, h, n - 1);
      BurstPasses(win, es, h, n - 1, from, until);
      OneMorePasses(win, before, h, n - 1, from, until);
    }
  }

  lemma OneMorePasses(win: string -> nat, es: seq<Hit>, h: Hit, n: nat, from: nat, until: nat)
    requires Windows(win) && win(h.key) > 0 && n < h.maxHits && from <= h.now < until
    requires Stands(After(win, EMPTY, es, true), h, win(h.key), n)
    ensures Passing(win, es + [h], h.key, from, until) == Passing(win, es, h.key, from, until) + 1
  {
    StepCounts(After(win, EMPTY, es, true), h, win(h.key), n);
    PassingPush(win, es, h, h.key, from, until);
  }

  predicate Idle(s: Store, key: string, now: nat) {
    key in s.counters ==> s.counters[key].updated < now - IDLE
  }

  /** What one request of another key does to a counter idle at its time. */
  predicate SteppedPast(s: Store, t: Store, key: string, now: nat) {
    t.sweep == s.sweep + 1 &&
    (Idle(s, key, now) ==>
       Idle(t, key, now) && (key !in s.counters || t.sweep % SWEEP_EVERY == 0 ==> key !in t.counters))
  }

  lemma FillerPasses(s: Store, h: Hit, w: nat, key: string)
    requires w > 0 && h.key != key
    ensures SteppedPast(s, Step(s, h, w, true), key, h.now)
  {
  }

  predicate PassesAt(stores: nat -> Store, i: nat, key: string, now: nat) {
    SteppedPast(stores(i), stores(i + 1), key, now)
  }

  lemma {:induction false} IdleUpTo(stores: nat -> Store, n: nat, key: string, now: nat)
    requires (forall i: nat :: PassesAt(stores, i, key, now)) && Idle(stores(0), key, now)
    ensures stores(n).sweep == stores(0).sweep + n && Idle(stores(n), key, now)
  {
    if n > 0 {
      IdleUpTo(stores, n - 1, key, now);
      assert PassesAt(stores, n - 1, key, now);
    }
  }

  lemma {:induction false} GoneFrom(stores: nat -> Store, m: nat, n: nat, key: string, now: nat)
    requires (forall i: nat :: PassesAt(stores, i, key, now)) && Idle(stores(0), key, now)
    requires 0 < m <= n && (stores(0).sweep + m) % SWEEP_EVERY == 0
    ensures key !in stores(n).counters
  {
    IdleUpTo(stores, n - 1, key, now);
    assert PassesAt(stores, n - 1, key, now);
    if m < n {
      GoneFrom(stores, m, n - 1, key, now);
    }
  }

  /** A thousand requests of another key, more than 600 s later, forget the counter: one of them
      sweeps. */
  lemma FillersForget(win: string -> nat, es: seq<Hit>, h: Hit, key: string)
    requires Windows(win) && h.key != key && Idle(After(win, EMPTY, es, true), key, h.now)
    ensures key !in After(win, EMPTY, Repeat(es, h, SWEEP_EVERY), true).counters
  {
    var stores := (n: nat) requires Windows(win) => After(win, EMPTY, Repeat(es, h, n), true);
    forall i: nat ensures PassesAt(stores, i, key, h.now) {
      assert Positive(win, h.key);
      AfterPush(win, EMPTY, Repeat(es, h, i), h, win(h.key), true);
      FillerPasses(stores(i), h, win(h.key), key);
    }
    GoneFrom(stores, SWEEP_EVERY - stores(0).sweep % SWEEP_EVERY, SWEEP_EVERY, key, h.now);
  }

  lemma {:induction false} FillersPass(win: string -> nat, es: seq<Hit>, h: Hit, n: nat, key: string, from: nat, until: nat)
    requires Windows(win) && h.key != key
    ensures Passing(win, Repeat(es, h, n), key, from, until) == Passing(win, es, key, from, until)
  {
    if n > 0 {
      FillersPass(win, es, h, n - 1, key, from, until);
      PassingPush(win, Repeat(es, h, n - 1), h, key, from, until);
    }
  }

  /** When the three bursts come: late in window 0, more than 600 s later still in it, and at the
      start of window 1. */
  function First(w: nat): nat
    requires w > 600
  {
    (w - 601) * SECOND + 1
  }

  function Second(w: nat): nat
    requires w > 600
  {
    (w - 1) * SECOND + 2
  }

  function Third(w: nat): nat {
    w * SECOND
  }

  lemma BurstTimes(w: nat)
    requires w > 600
    ensures First(w) < Second(w) - IDLE && Second(w) < Third(w) < First(w) + w * SECOND
    ensures WindowId(First(w), w) == WindowId(Second(w), w) == 0 && WindowId(Third(w), w) == 1
  {
    assert 1 * (w * SECOND) == w * SECOND && 0 * (w * SECOND) == 0;
    WithinWindow(First(w), 0, w);
    WithinWindow(Second(w), 0, w);
    WithinWindow(Third(w), 1, w);
  }

  /** A request of `h`'s key at some time. */
  function Moved(h: Hit, now: nat): Hit {
    h.(now := now)
  }

  /** A burst, a thousand requests of another key to sweep it away, and two more bursts. */
  function Bursts(h: Hit, filler: Hit, w: nat, third: bool): seq<Hit>
    requires w > 600 && h.maxHits > 0
  {
    var one := Repeat([], Moved(h, First(w)), h.maxHits);
    var two := Repeat(Repeat(one, Moved(filler, Second(w)), SWEEP_EVERY), Moved(h, Second(w)), h.maxHits);
    if third then Repeat(two, Moved(h, Third(w)), h.maxHits) else two
  }

  lemma BurstsAreOrdered(h: Hit, filler: Hit, w: nat, third: bool)
    requires w > 600 && h.maxHits > 0 && filler.key != h.key
    ensures Ordered(Bursts(h, filler, w, third)) && Budgeted(Bursts(h, filler, w, third), h.key, h.maxHits)
  {
    BurstTimes(w);
    var a, f, b, c := Moved(h, First(w)), Moved(filler, Second(w)), Moved(h, Second(w)), Moved(h, Third(w));
    var one := Repeat([], a, h.maxHits);
    var mid := Repeat(one, f, SWEEP_EVERY);
    var two := Repeat(mid, b, h.maxHits);
    RepeatIsUpTo([], a, h.maxHits);
    RepeatIsUpTo(one, f, SWEEP_EVERY);
    RepeatIsUpTo(mid, b, h.maxHits);
    RepeatIsUpTo(two, c, h.maxHits);
    RepeatIsBudgeted([], a, h.maxHits, h.key, h.maxHits);
    RepeatIsBudgeted(one, f, SWEEP_EVERY, h.key, h.maxHits);
    RepeatIsBudgeted(mid, b, h.maxHits, h.key, h.maxHits);
    RepeatIsBudgeted(two, c, h.maxHits, h.key, h.maxHits);
  }

  /** Two bursts pass within one window, and three within one window's length. */
  lemma BurstsPass(win: string -> nat, h: Hit, filler: Hit, w: nat, third: bool, from: nat, until: nat)
    requires Windows(win) && win(h.key) == w > 600 && h.maxHits > 0 && filler.key != h.key
    requires from <= First(w) && until >= if third then Third(w) + 1 else Third(w)
    ensures Passing(win, Bursts(h, filler, w, third), h.key, from, until) == (if third then 3 else 2) * h.maxHits
  {
    BurstTimes(w);
    var a, f, b, c := Moved(h, First(w)), Moved(filler, Second(w)), Moved(h, Second(w)), Moved(h, Third(w));
    var one := Repeat([], a, h.maxHits);
    var mid := Repeat(one, f, SWEEP_EVERY);
    var two := Repeat(mid, b, h.maxHits);
    BurstPasses(win, [], a, h.maxHits, from, until);
    FillersPass(win, one, f, SWEEP_EVERY, h.key, from, until);
    FillersForget(win, one, f, h.key);
    BurstPasses(win, mid, b, h.maxHits, from, until);
    if third {
      BurstPasses(win, two, c, h.maxHits, from, until);
    }
  }

  predicate WithinBudget(win: string -> nat, es: seq<Hit>, key: string, id: int, budget: int)
    requires Windows(win)
  {
    AllowedIn(win, es, |es|, key, id, true) <= budget
  }

  predicate WithinTwice(win: string -> nat, es: seq<Hit>, key: string, from: nat, budget: int)
    requires Windows(win)
  {
    Passing(win, es, key, from, from + win(key) * SECOND) <= 2 * budget
  }

  function Other(key: string): string {
    key + "x"
  }

  /** In every run in time order at most `budget` requests of a key pass per window, if and only if
      its window is at most 600 s. */
  lemma WindowBudgetIff(win: string -> nat, key: string, budget: nat)
    requires Windows(win) && budget > 0
    ensures (forall es, id: nat | Ordered(es) && Budgeted(es, key, budget) :: WithinBudget(win, es, key, id, budget)) <==>
            win(key) <= 600
  {
    assert Positive(win, key);
    if win(key) <= 600 {
      forall es, id: nat | Ordered(es) && Budgeted(es, key, budget) ensures WithinBudget(win, es, key, id, budget) {
        WindowBudget(win, es, key, id, budget);
      }
    } else {
      var w, h, filler := win(key), Hit(key, budget, 0), Hit(Other(key), budget, 0);
      var es := Bursts(h, filler, w, false);
      BurstsAreOrdered(h, filler, w, false);
      BurstsPass(win, h, filler, w, false, 0, w * SECOND);
      AlignedIsWindow(win, es, |es|, key, 0, 0, w * SECOND);
      assert !WithinBudget(win, es, key, 0, budget);
    }
  }

  /** And at most twice that in every interval one window long, under the same condition. */
  lemma IntervalBudgetIff(win: string -> nat, key: string, budget: nat)
    requires Windows(win) && budget > 0
    ensures (forall es, from: nat | Ordered(es) && Budgeted(es, key, budget) :: WithinTwice(win, es, key, from, budget)) <==>
            win(key) <= 600
  {
    assert Positive(win, key);
    if win(key) <= 600 {
      forall es, from: nat | Ordered(es) && Budgeted(es, key, budget) ensures WithinTwice(win, es, key, from, budget) {
        IntervalBudget(win, es, key, from, budget);
      }
    } else {
      var w, h, filler := win(key), Hit(key, budget, 0), Hit(Other(key), budget, 0);
      var es := Bursts(h, filler, w, true);
      BurstTimes(w);
      BurstsAreOrdered(h, filler, w, true);
      BurstsPass(win, h, filler, w, true, First(w), First(w) + w * SECOND);
      assert !WithinTwice(win, es, key, First(w), budget);
    }
  }

  // ----- And for requests ------------------------------------------------------------

  function Grown(s: string): string {
    if s == "" then "" else s + "x"
  }

  /** The same request from elsewhere: every part of its identity is another. */
  function Elsewhere(r: Request): Request {
    r.(ip := Grown(r.ip), country := Grown(r.country), session := Grown(r.session), jwtSub := Grown(r.jwtSub))
  }

  /** The same request without any risk that would tighten its policy. */
  function Calm(rt: Runtime, r: Request): Request {
    r.(risk := rt.adaptive.threshold - 1)
  }

  lemma ElsewhereIsLonger(kind: string, r: Request)
    requires BuildKey(kind, r) != ""
    ensures |BuildKey(kind, Elsewhere(r))| > |BuildKey(kind, r)|
  {
  }

  lemma ElsewhereHasAnotherKey(rt: Runtime, r: Request, now: nat)
    requires !Bypasses(rt, r)
    ensures !Bypasses(rt, Elsewhere(r)) && HitOf(rt, Elsewhere(r), now).key != HitOf(rt, r, now).key
  {
    var id, kind := Picked(rt, r.verb, r.path, 0).1, PolicyFor(rt, r).keyBy;
    ElsewhereIsLonger(kind, r);
    assert |id + "|" + BuildKey(kind, Elsewhere(r))| > |id + "|" + BuildKey(kind, r)|;
  }

  lemma CalmHasFullBudget(rt: Runtime, r: Request, now: nat)
    requires !Bypasses(rt, r)
    ensures
      var base := Picked(rt, r.verb, r.path, 0).0;
      !Bypasses(rt, Calm(rt, r)) && HitOf(rt, Calm(rt, r), now) == Hit(HitOf(rt, r, 0).key, base.limit + base.burst, now)
  {
  }

  /** Some requests, and then `n` times the same one at the same time. */
  function Again(rs: seq<(Request, nat)>, r: Request, now: nat, n: nat): seq<(Request, nat)> {
    if n == 0 then rs else Again(rs, r, now, n - 1) + [(r, now)]
  }

  lemma {:induction false} HitsOfAgain(rt: Runtime, rs: seq<(Request, nat)>, r: Request, now: nat, n: nat)
    requires !Bypasses(rt, r)
    ensures Hits(rt, Again(rs, r, now, n)) == Repeat(Hits(rt, rs), HitOf(rt, r, now), n)
  {
    if n > 0 {
      HitsOfAgain(rt, rs, r, now, n - 1);
      var before := Again(rs, r, now, n - 1);
      assert (before + [(r, now)])[..|before|] == before;
    }
  }

  predicate InOrderUpTo(rs: seq<(Request, nat)>, now: nat) {
    InOrder(rs) && (rs != [] ==> rs[|rs| - 1].1 <= now)
  }

  lemma {:induction false} AgainIsInOrder(rs: seq<(Request, nat)>, r: Request, now: nat, n: nat)
    requires InOrderUpTo(rs, now)
    ensures InOrderUpTo(Again(rs, r, now, n), now)
  {
    if n > 0 {
      AgainIsInOrder(rs, r, now, n - 1);
    }
  }

  function RequestBursts(calm: Request, other: Request, n: nat, w: nat, third: bool): seq<(Request, nat)>
    requires w > 600
  {
    var one := Again([], calm, First(w), n);
    var two := Again(Again(one, other, Second(w), SWEEP_EVERY), calm, Second(w), n);
    if third then Again(two, calm, Third(w), n) else two
  }

  lemma RequestBurstsInOrder(calm: Request, other: Request, n: nat, w: nat, third: bool)
    requires w > 600
    ensures InOrder(RequestBursts(calm, other, n, w, third))
  {
    BurstTimes(w);
    var one := Again([], calm, First(w), n);
    var mid := Again(one, other, Second(w), SWEEP_EVERY);
    AgainIsInOrder([], calm, First(w), n);
    AgainIsInOrder(one, other, Second(w), SWEEP_EVERY);
    AgainIsInOrder(mid, calm, Second(w), n);
    AgainIsInOrder(Again(mid, calm, Second(w), n), calm, Third(w), n);
  }

  lemma HitMoves(rt: Runtime, r: Request, now: nat)
    ensures HitOf(rt, r, now) == Moved(HitOf(rt, r, 0), now)
  {
  }

  lemma RequestBurstsHit(rt: Runtime, calm: Request, other: Request, w: nat, third: bool)
    requires w > 600 && !Bypasses(rt, calm) && !Bypasses(rt, other) && HitOf(rt, calm, 0).maxHits > 0
    ensures
      var h := HitOf(rt, calm, 0);
      Hits(rt, RequestBursts(calm, other, h.maxHits, w, third)) == Bursts(h, HitOf(rt, other, 0), w, third)
  {
    var n: nat := HitOf(rt, calm, 0).maxHits;
    HitMoves(rt, calm, First(w));
    HitMoves(rt, calm, Second(w));
    HitMoves(rt, calm, Third(w));
    HitMoves(rt, other, Second(w));
    var one := Again([], calm, First(w), n);
    var mid := Again(one, other, Second(w), SWEEP_EVERY);
    HitsOfAgain(rt, [], calm, First(w), n);
    HitsOfAgain(rt, one, other, Second(w), SWEEP_EVERY);
    HitsOfAgain(rt, mid, calm, Second(w), n);
    HitsOfAgain(rt, Again(mid, calm, Second(w), n), calm, Third(w), n);
  }

  /** What the bursts of a request pass under its configuration. */
  lemma RequestBurstsPass(rt: Runtime, calm: Request, other: Request, w: nat, third: bool, from: nat, until: nat)
    requires WellFormed(rt) && !Bypasses(rt, calm) && !Bypasses(rt, other) && HitOf(rt, calm, 0).maxHits > 0
    requires HitOf(rt, other, 0).key != HitOf(rt, calm, 0).key && WindowOf(rt, HitOf(rt, calm, 0).key) == w > 600
    requires from <= First(w) && until >= if third then Third(w) + 1 else Third(w)
    ensures
      var h := HitOf(rt, calm, 0);
      PassedBetween(rt, RequestBursts(calm, other, h.maxHits, w, third), h.key, from, until) ==
      (if third then 3 else 2) * h.maxHits
  {
    var h, filler := HitOf(rt, calm, 0), HitOf(rt, other, 0);
    RequestBurstsHit(rt, calm, other, w, third);
    BurstsPass(Win(rt), h, filler, w, third, from, until);
    PassedIsAllowed(rt, RequestBursts(calm, other, h.maxHits, w, third), h.key, from, until);
  }

  /** How many of the requests counted with `r` pass in the window's length from a moment on. */
  function PassedFrom(rt: Runtime, rs: seq<(Request, nat)>, r: Request, from: nat): nat
    requires WellFormed(rt)
  {
    PassedBetween(rt, rs, HitOf(rt, r, 0).key, from, from + Span(rt, r))
  }

  function Span(rt: Runtime, r: Request): nat {
    WindowOf(rt, HitOf(rt, r, 0).key) * SECOND
  }

  predicate RunWithinBudget(rt: Runtime, rs: seq<(Request, nat)>, r: Request, id: nat)
    requires WellFormed(rt)
  {
    var base := Picked(rt, r.verb, r.path, 0).0;
    PassedFrom(rt, rs, r, id * Span(rt, r)) <= base.limit + base.burst
  }

  predicate RunWithinTwice(rt: Runtime, rs: seq<(Request, nat)>, r: Request, from: nat)
    requires WellFormed(rt)
  {
    var base := Picked(rt, r.verb, r.path, 0).0;
    PassedFrom(rt, rs, r, from) <= 2 * (base.limit + base.burst)
  }

  /** The calm request and the one from elsewhere are what the bursts need. */
  lemma BurstsFit(rt: Runtime, r: Request)
    requires WellFormed(rt) && !Bypasses(rt, r) && PolicyFor(rt, r).windowSeconds > 600
    ensures
      var base, calm, other := Picked(rt, r.verb, r.path, 0).0, Calm(rt, r), Elsewhere(r);
      !Bypasses(rt, calm) && !Bypasses(rt, other) && base.limit + base.burst > 0 &&
      HitOf(rt, calm, 0) == Hit(HitOf(rt, r, 0).key, base.limit + base.burst, 0) &&
      HitOf(rt, other, 0).key != HitOf(rt, r, 0).key && WindowOf(rt, HitOf(rt, r, 0).key) > 600
  {
    CountedRequestsAreBudgeted(rt, r, 0);
    KeyDeterminesPolicy(rt, r, r, 0, 0);
    ElsewhereHasAnotherKey(rt, r, 0);
    CalmHasFullBudget(rt, r, 0);
  }

  /** Under one configuration at most Limit + Burst of the requests counted together with `r` pass
      per window, whatever requests come in, if and only if that window is at most 600 s. */
  lemma PolicyBudgetIff(rt: Runtime, r: Request)
    requires WellFormed(rt) && !Bypasses(rt, r)
    ensures (forall rs, id: nat | InOrder(rs) :: RunWithinBudget(rt, rs, r, id)) <==> PolicyFor(rt, r).windowSeconds <= 600
  {
    if PolicyFor(rt, r).windowSeconds <= 600 {
      forall rs, id: nat | InOrder(rs) ensures RunWithinBudget(rt, rs, r, id) {
        PolicyBudget(rt, rs, r, id);
      }
    } else {
      var rs := LongWindowExceeds(rt, r);
      assert !RunWithinBudget(rt, rs, r, 0);
    }
  }

  lemma LongWindowExceeds(rt: Runtime, r: Request) returns (rs: seq<(Request, nat)>)
    requires WellFormed(rt) && !Bypasses(rt, r) && PolicyFor(rt, r).windowSeconds > 600
    ensures InOrder(rs) && !RunWithinBudget(rt, rs, r, 0)
  {
    BurstsFit(rt, r);
    var calm, other, h, w := Calm(rt, r), Elsewhere(r), HitOf(rt, Calm(rt, r), 0), WindowOf(rt, HitOf(rt, r, 0).key);
    rs := RequestBursts(calm, other, h.maxHits, w, false);
    BurstTimes(w);
    RequestBurstsPass(rt, calm, other, w, false, 0, Third(w));
    RequestBurstsInOrder(calm, other, h.maxHits, w, false);
    FirstWindowOver(rt, rs, r, h.maxHits);
  }

  lemma FirstWindowOver(rt: Runtime, rs: seq<(Request, nat)>, r: Request, n: nat)
    requires WellFormed(rt) && n > 0 && n == Picked(rt, r.verb, r.path, 0).0.limit + Picked(rt, r.verb, r.path, 0).0.burst
    requires
      var span := WindowOf(rt, HitOf(rt, r, 0).key) * SECOND;
      PassedBetween(rt, rs, HitOf(rt, r, 0).key, 0, span) == 2 * n
    ensures !RunWithinBudget(rt, rs, r, 0)
  {
    var span := WindowOf(rt, HitOf(rt, r, 0).key) * SECOND;
    assert 0 * span == 0;
  }

  lemma LongIntervalExceeds(rt: Runtime, r: Request) returns (rs: seq<(Request, nat)>, from: nat)
    requires WellFormed(rt) && !Bypasses(rt, r) && PolicyFor(rt, r).windowSeconds > 600
    ensures InOrder(rs) && !RunWithinTwice(rt, rs, r, from)
  {
    BurstsFit(rt, r);
    var calm, other, h, w := Calm(rt, r), Elsewhere(r), HitOf(rt, Calm(rt, r), 0), WindowOf(rt, HitOf(rt, r, 0).key);
    rs, from := RequestBursts(calm, other, h.maxHits, w, true), First(w);
    BurstTimes(w);
    RequestBurstsPass(rt, calm, other, w, true, from, from + w * SECOND);
    RequestBurstsInOrder(calm, other, h.maxHits, w, true);
    IntervalOver(rt, rs, r, h.maxHits, from);
  }

  lemma IntervalOver(rt: Runtime, rs: seq<(Request, nat)>, r: Request, n: nat, from: nat)
    requires WellFormed(rt) && n > 0 && n == Picked(rt, r.verb, r.path, 0).0.limit + Picked(rt, r.verb, r.path, 0).0.burst
    requires
      var span := WindowOf(rt, HitOf(rt, r, 0).key) * SECOND;
      PassedBetween(rt, rs, HitOf(rt, r, 0).key, from, from + span) == 3 * n
    ensures !RunWithinTwice(rt, rs, r, from)
  {
  }

  /** And at most twice that in every interval one window long, under the same condition. */
  lemma PolicyIntervalBudgetIff(rt: Runtime, r: Request)
    requires WellFormed(rt) && !Bypasses(rt, r)
    ensures (forall rs, from: nat | InOrder(rs) :: RunWithinTwice(rt, rs, r, from)) <==> PolicyFor(rt, r).windowSeconds <= 600
  {
    if PolicyFor(rt, r).windowSeconds <= 600 {
      forall rs, from: nat | InOrder(rs) ensures RunWithinTwice(rt, rs, r, from) {
        PolicyIntervalBudget(rt, rs, r, from);
      }
    } else {
      var rs, from := LongIntervalExceeds(rt, r);
      assert !RunWithinTwice(rt, rs, r, from);
    }
  }

  // ----- Retry-After -----------------------------------------------------------------

  /** A configured Retry-After is given as it is. An automatic one lies within the window and points
      at its end. */
  lemma RetryAfterIsNextWindow(p: Policy, now: nat)
    requires p.windowSeconds > 0
    ensures p.retryAfter > 0 ==> RetryAfter(p, now) == p.retryAfter
    ensures p.retryAfter <= 0 ==> 1 <= RetryAfter(p, now) <= p.windowSeconds
    ensures p.retryAfter <= 0 ==>
              (Unix(now) + RetryAfter(p, now)) / p.windowSeconds == Unix(now) / p.windowSeconds + 1
  {
    var w: nat, u: nat := p.windowSeconds, Unix(now);
    assert u == (u / w) * w + u % w;
    assert (u / w + 1) * w == (u / w) * w + w;
    AddWhole(0, u / w + 1, w);
  }

  /** Requests of other keys leave a counter alone, or forget it. */
  lemma {:induction false} OthersKeepCounter(win: string -> nat, s: Store, es: seq<Hit>, key: string)
    requires Windows(win) && forall i :: 0 <= i < |es| ==> es[i].key != key
    ensures
      var c := After(win, s, es, true).counters;
      key in c ==> key in s.counters && c[key] == s.counters[key]
  {
    if es != [] {
      var init := es[..|es| - 1];
      assert forall i :: 0 <= i < |init| ==> init[i] == es[i];
      OthersKeepCounter(win, s, init, key);
      assert Positive(win, es[|es| - 1].key);
    }
  }

  /** After a blocked request with automatic Retry-After, the key's first request at or after the
      moment it names is allowed, whatever other keys do in between. */
  lemma RetryIsHonoured(win: string -> nat, s: Store, p: Policy, h: Hit, others: seq<Hit>, retry: Hit)
    requires Windows(win) && win(h.key) == p.windowSeconds > 0 && p.retryAfter <= 0
    requires forall i :: 0 <= i < |others| ==> others[i].key != h.key
    requires retry.key == h.key && retry.maxHits > 0 && Unix(retry.now) >= Unix(h.now) + RetryAfter(p, h.now)
    ensures
      var w := win(h.key);
      Allows(After(win, Step(s, h, w, true), others, true).counters, retry, w)
  {
    var w := win(h.key);
    CountedWindow(s, h, w);
    OthersKeepCounter(win, Step(s, h, w, true), others, h.key);
    LaterWindow(p, h.now, retry.now);
    FreshWindowAllows(After(win, Step(s, h, w, true), others, true).counters, retry, w, WindowId(h.now, w));
  }

  lemma LaterWindow(p: Policy, now: nat, later: nat)
    requires p.windowSeconds > 0 && p.retryAfter <= 0 && Unix(later) >= Unix(now) + RetryAfter(p, now)
    ensures WindowId(later, p.windowSeconds) > WindowId(now, p.windowSeconds)
  {
    RetryAfterIsNextWindow(p, now);
    DivMono(Unix(now) + RetryAfter(p, now), Unix(later), p.windowSeconds);
  }

  lemma FreshWindowAllows(counters: map<string, Counter>, h: Hit, w: nat, id: int)
    requires w > 0 && h.maxHits > 0 && WindowId(h.now, w) != id
    requires h.key in counters ==> counters[h.key].windowId == id
    ensures Allows(counters, h, w)
  {
  }

  lemma CountedWindow(s: Store, h: Hit, w: nat)
    requires w > 0
    ensures
      var c := Step(s, h, w, true).counters;
      h.key in c ==> c[h.key].windowId == WindowId(h.now, w)
  {
  }
}
