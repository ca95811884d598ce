// Alerts: observations counted per fixed window, each closed window classified, and a status change
// dispatched at most once per cooldown. Times are nanoseconds since 1970.
module Notifications {
  import opened Text
  import opened Wrappers

  const SECOND := 1_000_000_000
  const MAX_WINDOW := 3600

  datatype Status = Quiet | Active | Escalated

  datatype Trigger = Trigger(enabled: bool, window: int, active: int, escalated: int)

  /** `enabledSinks` counts the sinks a dispatch goes to; `sinksOk` says whether all are well formed. */
  datatype Config = Config(
    enabled: bool, cooldown: int, enabledSinks: nat, sinksOk: bool, upstream: Trigger, security: Trigger, sources: seq<string>)

  datatype Obs = Obs(
    category: string, source: string, path: string, remoteIP: string, requestID: string, code: int, score: int, at: nat)

  datatype Summary = Summary(
    count: nat, ips: set<string>, paths: map<string, nat>, lastCode: int, maxScore: int, lastRequest: string)

  /** The view kept of a closed window; its top paths are a rendering of `paths`. */
  datatype View = View(count: nat, uniqueIPs: nat, paths: map<string, nat>, lastCode: int, maxScore: int, lastRequest: string)

  datatype Alert = Alert(
    category: string, source: string, status: Status, bucket: int, current: Summary, last: View,
    lastTransition: Option<nat>, lastSent: Option<nat>)

  const EMPTY := Summary(0, {}, map[], 0, 0, "")

  function ViewOf(s: Summary): View {
    View(s.count, |s.ips|, s.paths, s.lastCode, s.maxScore, s.lastRequest)
  }

  // ----- Configuration ---------------------------------------------------------------

  predicate TriggerOk(t: Trigger) {
    0 < t.window <= MAX_WINDOW && t.active > 0 && t.escalated >= t.active
  }

  predicate ConfigOk(cfg: Config) {
    0 <= cfg.cooldown <= 86400 && TriggerOk(cfg.upstream) && TriggerOk(cfg.security) &&
    (cfg.enabled ==> cfg.enabledSinks > 0) && cfg.sinksOk
  }

  /** A validated configuration, or the blank one before any is loaded. */
  predicate Usable(cfg: Config) {
    ConfigOk(cfg) || !(cfg.enabled || cfg.upstream.enabled || cfg.security.enabled)
  }

  const BLANK := Config(false, 0, 0, true, Trigger(false, 0, 0, 0), Trigger(false, 0, 0, 0), [])

  predicate SourceAllowed(sources: seq<string>, source: string) {
    exists i :: 0 <= i < |sources| && ToLower(Trim(sources[i])) == ToLower(Trim(source))
  }

  function TriggerFor(cfg: Config, category: string, source: string): Option<Trigger> {
    if category == "upstream" then (if cfg.upstream.enabled then Some(cfg.upstream) else None)
    else if category == "security" then
      if cfg.security.enabled && SourceAllowed(cfg.sources, source) then Some(cfg.security) else None
    else None
  }

  method FindTrigger(cfg: Config, category: string, source: string) returns (t: Option<Trigger>)
    ensures t == TriggerFor(cfg, category, source)
  {
    if category == "upstream" {
      return if cfg.upstream.enabled then Some(cfg.upstream) else None;
    }
    if category != "security" || !cfg.security.enabled {
      return None;
    }
    for i := 0 to |cfg.sources|
      invariant forall j :: 0 <= j < i ==> ToLower(Trim(cfg.sources[j])) != ToLower(Trim(source))
    {
      if ToLower(Trim(cfg.sources[i])) == ToLower(Trim(source)) {
        return Some(cfg.security);
      }
    }
    return None;
  }

  lemma TriggerIsOk(cfg: Config, category: string, source: string)
    requires Usable(cfg) && TriggerFor(cfg, category, source).Some?
    ensures TriggerOk(TriggerFor(cfg, category, source).value)
  {
  }

  // ----- Summaries -------------------------------------------------------------------

  function Noted(s: Summary, o: Obs): Summary {
    var ip, path := Trim(o.remoteIP), Trim(o.path);
    Summary(s.count + 1,
            if ip != "" then s.ips + {ip} else s.ips,
            if path != "" then s.paths[path := (if path in s.paths then s.paths[path] else 0) + 1] else s.paths,
            if o.code > 0 then o.code else s.lastCode,
            if o.score > s.maxScore then o.score else s.maxScore,
            Trim(o.requestID))
  }

  function Summarize(q: seq<Obs>): Summary {
    if q == [] then EMPTY else Noted(Summarize(q[..|q| - 1]), q[|q| - 1])
  }

  function Visits(q: seq<Obs>, path: string): nat {
    if q == [] then 0 else Visits(q[..|q| - 1], path) + if Trim(q[|q| - 1].path) == path then 1 else 0
  }

  predicate CameFrom(q: seq<Obs>, ip: string) {
    exists o :: o in q && Trim(o.remoteIP) == ip
  }

  lemma CameFromLast(init: seq<Obs>, o: Obs, ip: string)
    ensures CameFrom(init + [o], ip) <==> CameFrom(init, ip) || Trim(o.remoteIP) == ip
  {
    var q := init + [o];
    assert o in q && forall x :: x in init ==> x in q;
  }

  predicate HasAddress(s: Summary, q: seq<Obs>, ip: string) {
    ip in s.ips <==> ip != "" && CameFrom(q, ip)
  }

  lemma NotedAddress(s: Summary, init: seq<Obs>, o: Obs, ip: string)
    requires HasAddress(s, init, ip)
    ensures HasAddress(Noted(s, o), init + [o], ip)
  {
    CameFromLast(init, o, ip);
  }

  lemma {:induction false} SummaryAddress(q: seq<Obs>, ip: string)
    ensures HasAddress(Summarize(q), q, ip)
  {
    if q != [] {
      var init, o := q[..|q| - 1], q[|q| - 1];
      SummaryAddress(init, ip);
      NotedAddress(Summarize(init), init, o, ip);
      assert q == init + [o];
    }
  }

  /** A summary has the number of observations and the distinct addresses they came from. */
  lemma {:induction false} SummaryCounts(q: seq<Obs>)
    ensures Summarize(q).count == |q|
    ensures forall ip :: ip in Summarize(q).ips <==> ip != "" && CameFrom(q, ip)
  {
    if q != [] {
      SummaryCounts(q[..|q| - 1]);
    }
    forall ip ensures ip in Summarize(q).ips <==> ip != "" && CameFrom(q, ip) {
      SummaryAddress(q, ip);
    }
  }

  /** Its score is the highest of them, or 0 if none is positive. */
  lemma {:induction false} SummaryPeaks(q: seq<Obs>)
    ensures forall i :: 0 <= i < |q| ==> q[i].score <= Summarize(q).maxScore
    ensures Summarize(q).maxScore == 0 || exists i :: 0 <= i < |q| && q[i].score == Summarize(q).maxScore
  {
    if q != [] {
      var init, o := q[..|q| - 1], q[|q| - 1];
      SummaryPeaks(init);
      forall i | 0 <= i < |q| ensures q[i].score <= Summarize(q).maxScore {
        if i < |init| {
          assert init[i] == q[i];
        }
      }
    }
  }

  /** Its code is the last positive one, and its request the last one. */
  lemma {:induction false} SummaryLast(q: seq<Obs>, k: nat)
    requires k < |q| && q[k].code > 0 && forall i :: k < i < |q| ==> q[i].code <= 0
    ensures Summarize(q).lastCode == q[k].code && Summarize(q).lastRequest == Trim(q[|q| - 1].requestID)
    decreases |q|
  {
    var init := q[..|q| - 1];
    if k < |init| {
      assert forall i :: 0 <= i < |init| ==> init[i] == q[i];
      SummaryLast(init, k);
    }
  }

  /** And it counts the visits of every path. */
  lemma {:induction false} SummaryVisits(q: seq<Obs>, path: string)
    requires path != ""
    ensures (if path in Summarize(q).paths then Summarize(q).paths[path] else 0) == Visits(q, path)
  {
    if q != [] {
      SummaryVisits(q[..|q| - 1], path);
    }
  }

  // ----- One alert -------------------------------------------------------------------

  function Classify(t: Trigger, count: int): Status {
    if count >= t.escalated then Escalated else if count >= t.active then Active else Quiet
  }

  function BucketOf(at: nat, window: int): nat
    requires window > 0
  {
    at / SECOND / window
  }

  predicate MaySend(cfg: Config, lastSent: Option<nat>, now: nat) {
    cfg.enabledSinks > 0 && (lastSent.None? || now - lastSent.value >= cfg.cooldown * SECOND)
  }

  /** Closing the current window when a later one begins; the flag says that a dispatch goes out. */
  function Advanced(cfg: Config, t: Trigger, a: Alert, next: int, now: nat): (Alert, bool) {
    if a.bucket == 0 || a.bucket >= next then (a, false)
    else
      var status := Classify(t, a.current.count);
      var closed := a.(last := ViewOf(a.current), current := EMPTY, bucket := next);
      if status == a.status then (closed, false)
      else
        var send := MaySend(cfg, a.lastSent, now);
        (closed.(status := status, lastTransition := Some(now), lastSent := if send then Some(now) else a.lastSent), send)
  }

  function Recorded(a: Alert, bucket: int, o: Obs): Alert {
    var current := if a.bucket != 0 && a.bucket != bucket then EMPTY else a.current;
    a.(bucket := bucket, current := Noted(current, o))
  }

  function NewAlert(category: string, source: string): Alert {
    Alert(category, source, Quiet, 0, EMPTY, ViewOf(EMPTY), None, None)
  }

  class AlertState {
    const category: string
    const source: string
    var status: Status
    var bucket: int
    var current: Summary
    var last: View
    var lastTransition: Option<nat>
    var lastSent: Option<nat>

    ghost function Value(): Alert
      reads this
    {
      Alert(category, source, status, bucket, current, last, lastTransition, lastSent)
    }

    constructor (category: string, source: string)
      ensures Value() == NewAlert(category, source)
    {
      this.category, this.source := category, source;
      status, bucket, current, last := Quiet, 0, EMPTY, ViewOf(EMPTY);
      lastTransition, lastSent := None, None;
    }

    method Advance(cfg: Config, t: Trigger, next: int, now: nat) returns (sent: bool)
      modifies this
      ensures (Value(), sent) == Advanced(cfg, t, old(Value()), next, now)
    {
      if bucket == 0 || bucket >= next {
        return false;
      }
      var before := status;
      last := ViewOf(current);
      var status' := Classify(t, last.count);
      current, bucket := EMPTY, next;
      if status' == before {
        return false;
      }
      status, lastTransition := status', Some(now);
      sent := MaySend(cfg, lastSent, now);
      if sent {
        lastSent := Some(now);
      }
    }

    method Record(b: int, o: Obs)
      modifies this
      ensures Value() == Recorded(old(Value()), b, o)
    {
      if bucket == 0 {
        bucket := b;
      }
      if bucket != b {
        bucket, current := b, EMPTY;
      }
      current := Noted(current, o);
    }
  }

  // ----- The manager -----------------------------------------------------------------

  function KeyOf(category: string, source: string): string {
    category + ":" + source
  }

  function Observed(cfg: Config, t: Trigger, before: Option<Alert>, o: Obs): (Alert, bool)
    requires t.window > 0
  {
    var a := if before.Some? then before.value else NewAlert(o.category, o.source);
    var bucket := BucketOf(o.at, t.window);
    var (advanced, sent) := Advanced(cfg, t, a, bucket, o.at);
    (Recorded(advanced, bucket, o), sent)
  }

  function Flushed(cfg: Config, a: Alert, now: nat): (Alert, bool)
    requires Usable(cfg)
  {
    var t := TriggerFor(cfg, a.category, a.source);
    if t.None? then (a, false) else Advanced(cfg, t.value, a, BucketOf(now, t.value.window), now)
  }

  /** An alert not yet flushed is as it was; one flushed has its window closed, and is among those
      a dispatch goes out for if that changed its status. */
  predicate Settled(was: Alert, flushed: (Alert, bool), current: Alert, told: bool, done: bool) {
    current == (if done then flushed.0 else was) && told == (done && flushed.1)
  }

  predicate Distinct(m: map<string, AlertState>, j: string, k: string) {
    j in m && k in m && j != k ==> m[j] != m[k]
  }

  class Manager {
    var cfg: Config
    var states: map<string, AlertState>

    ghost predicate Valid()
      reads this
    {
      Usable(cfg) && forall j, k :: Distinct(states, j, k)
    }

    ghost function States(): set<object>
      reads this
    {
      set k | k in states :: states[k]
    }

    ghost function Of(key: string): Option<Alert>
      reads this, States()
    {
      if key in states then Some(states[key].Value()) else None
    }

    constructor ()
      ensures Valid() && cfg == BLANK && states == map[]
    {
      cfg, states := BLANK, map[];
    }

    /** A new configuration forgets every alert. */
    method Update(cfg: Config)
      requires Usable(cfg)
      modifies this`cfg, this`states
      ensures Valid() && this.cfg == cfg && states == map[]
    {
      this.cfg, states := cfg, map[];
    }

    method StateFor(category: string, source: string) returns (s: AlertState)
      requires Valid()
      modifies this`states
      ensures Valid() && KeyOf(category, source) in states && s == states[KeyOf(category, source)]
      ensures forall k :: k != KeyOf(category, source) ==>
                (k in states <==> k in old(states)) && (k in states ==> states[k] == old(states)[k] && states[k] != s)
      ensures KeyOf(category, source) in old(states) ==> states == old(states)
      ensures KeyOf(category, source) !in old(states) ==> fresh(s) && s.Value() == NewAlert(category, source)
    {
      var key := KeyOf(category, source);
      if key in states {
        s := states[key];
        forall k | k in states && k != key ensures states[k] != s {
          assert Distinct(states, k, key);
        }
        return;
      }
      s := new AlertState(category, source);
      var next := states[key := s];
      forall j, k ensures Distinct(next, j, k) {
        assert Distinct(states, j, k);
      }
      states := next;
    }

    /** Counts an observation; the flag says that a dispatch for its alert is started. */
    method Observe(o: Obs) returns (sent: bool)
      requires Valid()
      modifies this`states, States()
      ensures Valid()
      ensures
        var key, t := KeyOf(o.category, o.source), TriggerFor(cfg, o.category, o.source);
        if !cfg.enabled || t.None? then
          !sent && states == old(states) && forall k :: Of(k) == old(Of(k))
        else
          Of(key).Some? && (Of(key).value, sent) == Observed(cfg, t.value, old(Of(key)), o) &&
          forall k :: k != key ==> Of(k) == old(Of(k))
    {
      if !cfg.enabled {
        return false;
      }
      var t := FindTrigger(cfg, o.category, o.source);
      if t.None? {
        return false;
      }
      var s := StateFor(o.category, o.source);
      var bucket := BucketOf(o.at, t.value.window);
      sent := s.Advance(cfg, t.value, bucket, o.at);
      s.Record(bucket, o);
    }

    /** Closes the finished windows of every alert, and names those a dispatch is started for. */
    method FlushExpired(now: nat) returns (sent: set<string>)
      requires Valid()
      modifies States()
      ensures Valid() && sent <= states.Keys
      ensures forall k :: k in states ==>
                var was := old(states[k].Value());
                Settled(was, Flushed(cfg, was, now), states[k].Value(), k in sent, true)
    {
      ghost var was := map k | k in states :: states[k].Value();
      ghost var flushed := map k | k in states :: Flushed(cfg, was[k], now);
      var todo := states.Keys;
      sent := {};
      while todo != {}
        invariant todo <= states.Keys && sent <= states.Keys
        invariant forall k :: k in states ==> Settled(was[k], flushed[k], states[k].Value(), k in sent, k !in todo)
        decreases todo
      {
        var key :| key in todo;
        assert Settled(was[key], flushed[key], states[key].Value(), key in sent, false);
        var one := FlushOne(key, now);
        if one {
          sent := sent + {key};
        }
        todo := todo - {key};
      }
    }

    method FlushOne(key: string, now: nat) returns (sent: bool)
      requires Valid() && key in states
      modifies states[key]
      ensures (states[key].Value(), sent) == Flushed(cfg, old(states[key].Value()), now)
      ensures forall k :: k in states && k != key ==> states[k].Value() == old(states[k].Value())
    {
      var s := states[key];
      forall k | k in states && k != key ensures states[k] != s {
        assert Distinct(states, k, key);
      }
      var t := FindTrigger(cfg, s.category, s.source);
      if t.None? {
        return false;
      }
      TriggerIsOk(cfg, s.category, s.source);
      sent := s.Advance(cfg, t.value, BucketOf(now, t.value.window), now);
    }
  }

  // ----- Runs of one alert -----------------------------------------------------------

  datatype Event = Seen(o: Obs) | Tick(now: nat)

  function TimeOf(e: Event): nat {
    if e.Seen? then e.o.at else e.now
  }

  ghost predicate InTime(es: seq<Event>) {
    forall i :: 0 < i < |es| ==> TimeOf(es[i - 1]) <= TimeOf(es[i])
  }

  /** An alert and its past: the observations it accepted, how many were in closed windows, the
      last closed window, and the dispatches. */
  datatype Track = Track(alert: Option<Alert>, seen: seq<Obs>, closed: nat, closedBucket: int, sent: seq<nat>)

  const NO_TRACK := Track(None, [], 0, 0, [])

  function Closing(cfg: Config, trigger: Trigger, t: Track, now: nat): Track
    requires trigger.window > 0
  {
    if t.alert.None? then t
    else
      var a, next := t.alert.value, BucketOf(now, trigger.window);
      var (a', sends) := Advanced(cfg, trigger, a, next, now);
      if a.bucket == 0 || a.bucket >= next then t
      else
        Track(Some(a'), t.seen, t.closed + a.current.count, a.bucket, if sends then t.sent + [now] else t.sent)
  }

  function Recording(trigger: Trigger, t: Track, o: Obs): Track
    requires trigger.window > 0
  {
    var a := if t.alert.Some? then t.alert.value else NewAlert(o.category, o.source);
    t.(alert := Some(Recorded(a, BucketOf(o.at, trigger.window), o)), seen := t.seen + [o])
  }

  predicate Accepts(cfg: Config, category: string, source: string, o: Obs) {
    cfg.enabled && o.category == category && o.source == source
  }

  function After(cfg: Config, category: string, source: string, es: seq<Event>): Track
    requires ConfigOk(cfg)
  {
    var trigger := TriggerFor(cfg, category, source);
    if es == [] || trigger.None? then NO_TRACK
    else
      var before, e := After(cfg, category, source, es[..|es| - 1]), es[|es| - 1];
      if e.Tick? then Closing(cfg, trigger.value, before, e.now)
      else if !Accepts(cfg, category, source, e.o) then before
      else Recording(trigger.value, Closing(cfg, trigger.value, before, e.o.at), e.o)
  }

  /** The run's steps are the manager's: the same alert, and a dispatch exactly when it sends one. */
  lemma TrackFollowsManager(cfg: Config, category: string, source: string, t: Track, o: Obs, now: nat)
    requires ConfigOk(cfg) && TriggerFor(cfg, category, source).Some? && o.category == category && o.source == source
    requires t.alert.Some? ==> t.alert.value.category == category && t.alert.value.source == source
    ensures
      var trigger := TriggerFor(cfg, category, source).value;
      var (a, sends) := Observed(cfg, trigger, t.alert, o);
      var next := Recording(trigger, Closing(cfg, trigger, t, o.at), o);
      next.alert == Some(a) && next.sent == if sends then t.sent + [o.at] else t.sent
    ensures
      t.alert.Some? ==>
        var next := Closing(cfg, TriggerFor(cfg, category, source).value, t, now);
        var (a, sends) := Flushed(cfg, t.alert.value, now);
        next.alert == Some(a) && next.sent == if sends then t.sent + [now] else t.sent
  {
  }

  function InBucket(q: seq<Obs>, window: int, bucket: int): seq<Obs>
    requires window > 0
  {
    if q == [] then []
    else
      var o := q[|q| - 1];
      InBucket(q[..|q| - 1], window, bucket) + if BucketOf(o.at, window) == bucket then [o] else []
  }

  lemma InBucketPush(q: seq<Obs>, o: Obs, window: int, bucket: int)
    requires window > 0
    ensures InBucket(q + [o], window, bucket) ==
            InBucket(q, window, bucket) + if BucketOf(o.at, window) == bucket then [o] else []
  {
    assert (q + [o])[..|q|] == q;
  }

  predicate UpTo(q: seq<Obs>, window: int, bucket: int, i: nat)
    requires window > 0
  {
    i < |q| ==> BucketOf(q[i].at, window) <= bucket
  }

  ghost predicate AllUpTo(q: seq<Obs>, window: int, bucket: int)
    requires window > 0
  {
    forall i: nat :: UpTo(q, window, bucket, i)
  }

  lemma {:induction false} NoneInLater(q: seq<Obs>, window: int, bucket: int, later: int)
    requires window > 0 && AllUpTo(q, window, bucket) && bucket < later
    ensures InBucket(q, window, later) == []
  {
    if q != [] {
      var init := q[..|q| - 1];
      assert UpTo(q, window, bucket, |q| - 1);
      forall i: nat ensures UpTo(init, window, bucket, i) {
        assert UpTo(q, window, bucket, i);
      }
      NoneInLater(init, window, bucket, later);
    }
  }

  lemma ProductsStep(p: int, q: int, w: int)
    requires w > 0
    ensures p > q ==> p * w >= q * w + w
  {
    if p > q {
      assert (p - q - 1) * w >= 0;
    }
  }

  lemma DivisionIsMonotone(a: nat, b: nat, w: int)
    requires a <= b && w > 0
    ensures a / w <= b / w
  {
    ProductsStep(a / w, b / w, w);
  }

  lemma BucketsAreMonotone(a: nat, b: nat, window: int)
    requires a <= b && window > 0
    ensures BucketOf(a, window) <= BucketOf(b, window)
  {
    DivisionIsMonotone(a / SECOND, b / SECOND, window);
  }

  // ----- What the windows count ------------------------------------------------------

  /** The first window but number 0 that has an observation; 0 if none has. */
  function FirstLater(q: seq<Obs>, window: int): nat
    requires window > 0
  {
    if q == [] then 0
    else
      var first := FirstLater(q[..|q| - 1], window);
      if first > 0 then first else BucketOf(q[|q| - 1].at, window)
  }

  lemma FirstLaterPush(q: seq<Obs>, o: Obs, window: int)
    requires window > 0
    ensures FirstLater(q + [o], window) ==
            if FirstLater(q, window) > 0 then FirstLater(q, window) else BucketOf(o.at, window)
  {
    assert (q + [o])[..|q|] == q;
  }

  /** What is counted in a window: its observations, and in the first later one those of window 0
      before them. */
  function Filed(q: seq<Obs>, window: int, bucket: int): seq<Obs>
    requires window > 0
  {
    (if 0 < bucket == FirstLater(q, window) then InBucket(q, window, 0) else []) + InBucket(q, window, bucket)
  }

  lemma FiledPush(q: seq<Obs>, o: Obs, window: int, bucket: int)
    requires window > 0
    requires FirstLater(q, window) > 0 ==> BucketOf(o.at, window) > 0
    requires FirstLater(q, window) == 0 ==> bucket == BucketOf(o.at, window)
    ensures Filed(q + [o], window, bucket) ==
            (if FirstLater(q, window) == 0 < bucket then InBucket(q, window, 0) + InBucket(q, window, bucket)
             else Filed(q, window, bucket)) +
            if BucketOf(o.at, window) == bucket then [o] else []
  {
    FirstLaterPush(q, o, window);
    InBucketPush(q, o, window, bucket);
    InBucketPush(q, o, window, 0);
    var own := if BucketOf(o.at, window) == bucket then [o] else [];
    Regroup(InBucket(q, window, 0), InBucket(q, window, bucket), own);
    Regroup([], InBucket(q, window, bucket), own);
    assert InBucket(q, window, 0) + [] == InBucket(q, window, 0);
  }

  lemma Regroup(a: seq<Obs>, b: seq<Obs>, c: seq<Obs>)
    ensures a + (b + c) == (a + b) + c
  {
  }

  lemma {:induction false} FirstLaterIsBelow(q: seq<Obs>, window: int, bucket: nat)
    requires window > 0 && AllUpTo(q, window, bucket)
    ensures FirstLater(q, window) <= bucket
  {
    if q != [] {
      var init := q[..|q| - 1];
      assert UpTo(q, window, bucket, |q| - 1);
      forall i: nat ensures UpTo(init, window, bucket, i) {
        assert UpTo(q, window, bucket, i);
      }
      FirstLaterIsBelow(init, window, bucket);
    }
  }

  /** Current and last closed window hold what is filed under them, and nothing is lost. */
  ghost predicate Counted(trigger: Trigger, t: Track, a: Alert)
    requires trigger.window > 0
  {
    a.current == Summarize(Filed(t.seen, trigger.window, a.bucket)) && t.closed + a.current.count == |t.seen|
  }

  ghost predicate Judged(trigger: Trigger, t: Track, a: Alert)
    requires trigger.window > 0
  {
    a.status == Classify(trigger, a.last.count) &&
    a.last == ViewOf(if t.closedBucket == 0 then EMPTY else Summarize(Filed(t.seen, trigger.window, t.closedBucket)))
  }

  /** Windows in order: nothing is closed while the first later window is in progress. */
  predicate InPlace(trigger: Trigger, t: Track, a: Alert)
    requires trigger.window > 0
  {
    var first := FirstLater(t.seen, trigger.window);
    if t.closedBucket == 0 then a.bucket == first else 0 < first <= t.closedBucket < a.bucket
  }

  ghost predicate Faithful(trigger: Trigger, t: Track, clock: nat)
    requires trigger.window > 0
  {
    if t.alert.None? then t == NO_TRACK
    else
      var a := t.alert.value;
      0 <= a.bucket <= BucketOf(clock, trigger.window) && AllUpTo(t.seen, trigger.window, a.bucket) && t.seen != [] &&
      InPlace(trigger, t, a) && Counted(trigger, t, a) && Judged(trigger, t, a)
  }

  lemma ClosingIsFaithful(cfg: Config, trigger: Trigger, t: Track, clock: nat, now: nat)
    requires TriggerOk(trigger) && Faithful(trigger, t, clock) && clock <= now
    ensures Faithful(trigger, Closing(cfg, trigger, t, now), now)
    ensures t.alert.Some? ==>
              var bucket := Closing(cfg, trigger, t, now).alert.value.bucket;
              bucket == if t.alert.value.bucket == 0 then 0 else BucketOf(now, trigger.window)
  {
    BucketsAreMonotone(clock, now, trigger.window);
    if t.alert.Some? {
      var a, next := t.alert.value, BucketOf(now, trigger.window);
      if 0 < a.bucket < next {
        NoneInLater(t.seen, trigger.window, a.bucket, next);
        forall i: nat ensures UpTo(t.seen, trigger.window, next, i) {
          assert UpTo(t.seen, trigger.window, a.bucket, i);
        }
      }
    }
  }

  /** What recording needs of the track: the alert has no window yet, or is in that of `o`. */
  ghost predicate Ready(trigger: Trigger, t: Track, o: Obs)
    requires trigger.window > 0
  {
    Faithful(trigger, t, o.at) &&
    (t.alert.Some? ==> t.alert.value.bucket == 0 || t.alert.value.bucket == BucketOf(o.at, trigger.window))
  }

  lemma RecordingFiles(trigger: Trigger, t: Track, o: Obs)
    requires TriggerOk(trigger) && Ready(trigger, t, o)
    ensures
      var w, bucket := trigger.window, BucketOf(o.at, trigger.window);
      Filed(t.seen + [o], w, bucket) == (if t.alert.Some? then Filed(t.seen, w, t.alert.value.bucket) else []) + [o]
  {
    var w, bucket := trigger.window, BucketOf(o.at, trigger.window);
    FiledPush(t.seen, o, w, bucket);
    if t.alert.Some? && t.alert.value.bucket < bucket {
      NoneInLater(t.seen, w, 0, bucket);
    }
  }

  lemma RecordingCounts(trigger: Trigger, t: Track, o: Obs)
    requires TriggerOk(trigger) && Ready(trigger, t, o)
    ensures Counted(trigger, Recording(trigger, t, o), Recording(trigger, t, o).alert.value)
  {
    var q := if t.alert.Some? then Filed(t.seen, trigger.window, t.alert.value.bucket) else [];
    RecordingFiles(trigger, t, o);
    SummarizePush(q, o);
  }

  lemma SummarizePush(q: seq<Obs>, o: Obs)
    ensures Summarize(q + [o]) == Noted(Summarize(q), o)
    ensures Summarize(q + [o]).count == Summarize(q).count + 1 && Summarize([]) == EMPTY
  {
    assert (q + [o])[..|q|] == q;
  }

  lemma RecordingJudges(trigger: Trigger, t: Track, o: Obs)
    requires TriggerOk(trigger) && Ready(trigger, t, o)
    ensures Judged(trigger, Recording(trigger, t, o), Recording(trigger, t, o).alert.value)
  {
    if t.alert.Some? && t.closedBucket > 0 {
      FiledPush(t.seen, o, trigger.window, t.closedBucket);
      assert Filed(t.seen + [o], trigger.window, t.closedBucket) == Filed(t.seen, trigger.window, t.closedBucket);
    }
  }

  lemma RecordingIsInPlace(trigger: Trigger, t: Track, o: Obs)
    requires TriggerOk(trigger) && Ready(trigger, t, o)
    ensures InPlace(trigger, Recording(trigger, t, o), Recording(trigger, t, o).alert.value)
    ensures AllUpTo(t.seen + [o], trigger.window, BucketOf(o.at, trigger.window))
  {
    var w, bucket := trigger.window, BucketOf(o.at, trigger.window);
    var seen := t.seen + [o];
    FirstLaterPush(t.seen, o, w);
    forall i: nat ensures UpTo(seen, w, bucket, i) {
      assert t.alert.Some? ==> UpTo(t.seen, w, t.alert.value.bucket, i);
    }
  }

  lemma RecordingIsFaithful(trigger: Trigger, t: Track, o: Obs)
    requires TriggerOk(trigger) && Ready(trigger, t, o)
    ensures Faithful(trigger, Recording(trigger, t, o), o.at)
  {
    RecordingCounts(trigger, t, o);
    RecordingJudges(trigger, t, o);
    RecordingIsInPlace(trigger, t, o);
  }

  function ClockOf(es: seq<Event>): nat {
    if es == [] then 0 else TimeOf(es[|es| - 1])
  }

  lemma InTimeInit(es: seq<Event>)
    requires InTime(es) && es != []
    ensures InTime(es[..|es| - 1]) && ClockOf(es[..|es| - 1]) <= ClockOf(es)
  {
  }

  lemma {:induction false} RunIsFaithful(cfg: Config, category: string, source: string, es: seq<Event>)
    requires ConfigOk(cfg) && TriggerFor(cfg, category, source).Some? && InTime(es)
    ensures Faithful(TriggerFor(cfg, category, source).value, After(cfg, category, source, es), ClockOf(es))
  {
    if es != [] {
      var init, e := es[..|es| - 1], es[|es| - 1];
      var trigger, before := TriggerFor(cfg, category, source).value, After(cfg, category, source, init);
      TriggerIsOk(cfg, category, source);
      InTimeInit(es);
      RunIsFaithful(cfg, category, source, init);
      BucketsAreMonotone(ClockOf(init), TimeOf(e), trigger.window);
      ClosingIsFaithful(cfg, trigger, before, ClockOf(init), TimeOf(e));
      if e.Seen? && Accepts(cfg, category, source, e.o) {
        RecordingIsFaithful(trigger, Closing(cfg, trigger, before, e.o.at), e.o);
      }
    }
  }

  /** In every run in time order: every accepted observation is in a closed window or in the current
      one, and the current summary is that of the observations filed under the current window. */
  lemma NothingIsLost(cfg: Config, category: string, source: string, es: seq<Event>)
    requires ConfigOk(cfg) && TriggerFor(cfg, category, source).Some? && InTime(es)
    requires After(cfg, category, source, es).alert.Some?
    ensures
      var trigger, t := TriggerFor(cfg, category, source).value, After(cfg, category, source, es);
      var a := t.alert.value;
      t.closed + a.current.count == |t.seen| &&
      a.current == Summarize(Filed(t.seen, trigger.window, a.bucket)) &&
      a.current.count == |Filed(t.seen, trigger.window, a.bucket)|
  {
    var trigger, t := TriggerFor(cfg, category, source).value, After(cfg, category, source, es);
    RunIsFaithful(cfg, category, source, es);
    SummaryCounts(Filed(t.seen, trigger.window, t.alert.value.bucket));
  }

  /** And the status is the classification of the observations filed under the last closed window. */
  lemma StatusIsLastClosedWindow(cfg: Config, category: string, source: string, es: seq<Event>)
    requires ConfigOk(cfg) && TriggerFor(cfg, category, source).Some? && InTime(es)
    requires After(cfg, category, source, es).alert.Some?
    ensures
      var trigger, t := TriggerFor(cfg, category, source).value, After(cfg, category, source, es);
      t.alert.value.status ==
      if t.closedBucket == 0 then Quiet else Classify(trigger, |Filed(t.seen, trigger.window, t.closedBucket)|)
  {
    var trigger, t := TriggerFor(cfg, category, source).value, After(cfg, category, source, es);
    TriggerIsOk(cfg, category, source);
    RunIsFaithful(cfg, category, source, es);
    SummaryCounts(Filed(t.seen, trigger.window, t.closedBucket));
  }

  // ----- When a window counts its own observations only ------------------------------

  /** The observations of the events that the alert accepts. */
  function Taken(cfg: Config, category: string, source: string, es: seq<Event>): seq<Obs> {
    if es == [] then []
    else
      var e := es[|es| - 1];
      Taken(cfg, category, source, es[..|es| - 1]) + if e.Seen? && Accepts(cfg, category, source, e.o) then [e.o] else []
  }

  lemma {:induction false} SeenIsTaken(cfg: Config, category: string, source: string, es: seq<Event>)
    requires ConfigOk(cfg) && TriggerFor(cfg, category, source).Some?
    ensures After(cfg, category, source, es).seen == Taken(cfg, category, source, es)
  {
    if es != [] {
      SeenIsTaken(cfg, category, source, es[..|es| - 1]);
    }
  }

  /** Either every observation falls in window 0 or none does. */
  predicate OneSided(q: seq<Obs>, window: int)
    requires window > 0
  {
    InBucket(q, window, 0) == [] || FirstLater(q, window) == 0
  }

  lemma {:induction false} NoneInFirstIff(q: seq<Obs>, window: int)
    requires window > 0
    ensures InBucket(q, window, 0) == [] <==> forall o :: o in q ==> BucketOf(o.at, window) != 0
  {
    if q != [] {
      var init, last := q[..|q| - 1], q[|q| - 1];
      NoneInFirstIff(init, window);
      assert q == init + [last];
      assert last in q && forall o :: o in init ==> o in q;
    }
  }

  lemma {:induction false} AllInFirstIff(q: seq<Obs>, window: int)
    requires window > 0
    ensures FirstLater(q, window) == 0 <==> forall o :: o in q ==> BucketOf(o.at, window) == 0
  {
    if q != [] {
      var init, last := q[..|q| - 1], q[|q| - 1];
      AllInFirstIff(init, window);
      assert q == init + [last];
      assert last in q && forall o :: o in init ==> o in q;
    }
  }

  /** What OneSided says, observation by observation. */
  lemma OneSidedIff(q: seq<Obs>, window: int)
    requires window > 0
    ensures OneSided(q, window) <==>
            (forall o :: o in q ==> BucketOf(o.at, window) != 0) || (forall o :: o in q ==> BucketOf(o.at, window) == 0)
  {
    NoneInFirstIff(q, window);
    AllInFirstIff(q, window);
  }

  /** The current summary is that of the current window's observations, and nothing is lost. */
  ghost predicate CountsTrue(trigger: Trigger, t: Track)
    requires trigger.window > 0
  {
    t.alert.Some? ==>
      t.alert.value.current == Summarize(InBucket(t.seen, trigger.window, t.alert.value.bucket)) &&
      t.closed + t.alert.value.current.count == |t.seen|
  }

  /** The status is the classification of the last closed window's observations. */
  predicate StatusTrue(trigger: Trigger, t: Track)
    requires trigger.window > 0
  {
    t.alert.Some? ==>
      t.alert.value.status ==
      if t.closedBucket == 0 then Quiet else Classify(trigger, |InBucket(t.seen, trigger.window, t.closedBucket)|)
  }

  /** At one moment the count is true unless observations of window 0 sit in the current window. */
  lemma CountIsTrueIff(trigger: Trigger, t: Track, clock: nat)
    requires TriggerOk(trigger) && Faithful(trigger, t, clock)
    ensures CountsTrue(trigger, t) <==>
            OneSided(t.seen, trigger.window) || t.alert.value.bucket != FirstLater(t.seen, trigger.window)
  {
    if t.alert.Some? {
      var w, bucket := trigger.window, t.alert.value.bucket;
      SummaryCounts(Filed(t.seen, w, bucket));
      SummaryCounts(InBucket(t.seen, w, bucket));
      assert [] + InBucket(t.seen, w, bucket) == InBucket(t.seen, w, bucket);
    }
  }

  /** At one moment the status is true unless they sat in the last closed window and changed its
      classification. */
  lemma StatusAtIff(trigger: Trigger, t: Track, clock: nat)
    requires TriggerOk(trigger) && Faithful(trigger, t, clock)
    ensures StatusTrue(trigger, t) <==>
            (t.closedBucket > 0 && t.closedBucket == FirstLater(t.seen, trigger.window) ==>
               SameClass(trigger, t.seen))
  {
    if t.alert.Some? {
      SummaryCounts(Filed(t.seen, trigger.window, t.closedBucket));
    }
  }

  /** Counting window 0 together with the first later window does not change the classification of
      the latter. */
  predicate SameClass(trigger: Trigger, q: seq<Obs>)
    requires trigger.window > 0
  {
    var own := |InBucket(q, trigger.window, FirstLater(q, trigger.window))|;
    Classify(trigger, |InBucket(q, trigger.window, 0)| + own) == Classify(trigger, own)
  }

  ghost predicate CountsTrueAt(cfg: Config, category: string, source: string, es: seq<Event>, n: nat)
    requires ConfigOk(cfg) && TriggerFor(cfg, category, source).Some? && n <= |es|
  {
    CountsTrue(TriggerFor(cfg, category, source).value, After(cfg, category, source, es[..n]))
  }

  predicate StatusTrueAt(cfg: Config, category: string, source: string, es: seq<Event>, n: nat)
    requires ConfigOk(cfg) && TriggerFor(cfg, category, source).Some? && n <= |es|
  {
    StatusTrue(TriggerFor(cfg, category, source).value, After(cfg, category, source, es[..n]))
  }

  lemma InTimePrefix(es: seq<Event>, n: nat)
    requires InTime(es) && n <= |es|
    ensures InTime(es[..n])
  {
  }

  lemma {:induction false} TakenOneSided(cfg: Config, category: string, source: string, es: seq<Event>, n: nat, window: int)
    requires window > 0 && n <= |es| && OneSided(Taken(cfg, category, source, es), window)
    ensures OneSided(Taken(cfg, category, source, es[..n]), window)
    decreases |es|
  {
    if n < |es| {
      var init, e := es[..|es| - 1], es[|es| - 1];
      var q := Taken(cfg, category, source, init);
      if e.Seen? && Accepts(cfg, category, source, e.o) {
        FirstLaterPush(q, e.o, window);
        InBucketPush(q, e.o, window, 0);
      } else {
        assert q + [] == q;
      }
      TakenOneSided(cfg, category, source, init, n, window);
      assert init[..n] == es[..n];
    } else {
      assert es[..n] == es;
    }
  }

  /** The first prefix that has observations on both sides: its track is still in the first window. */
  lemma {:induction false} FirstStraddling(cfg: Config, category: string, source: string, es: seq<Event>) returns (n: nat)
    requires ConfigOk(cfg) && TriggerFor(cfg, category, source).Some? && InTime(es)
    requires !OneSided(Taken(cfg, category, source, es), TriggerFor(cfg, category, source).value.window)
    ensures
      var trigger := TriggerFor(cfg, category, source).value;
      n <= |es| && !OneSided(Taken(cfg, category, source, es[..n]), trigger.window) &&
      After(cfg, category, source, es[..n]).closedBucket == 0
  {
    var trigger, init, e := TriggerFor(cfg, category, source).value, es[..|es| - 1], es[|es| - 1];
    InTimeInit(es);
    if !OneSided(Taken(cfg, category, source, init), trigger.window) {
      n := FirstStraddling(cfg, category, source, init);
      assert init[..n] == es[..n];
    } else {
      n := |es|;
      assert es[..n] == es;
      Straddling(cfg, category, source, es);
    }
  }

  lemma Straddling(cfg: Config, category: string, source: string, es: seq<Event>)
    requires ConfigOk(cfg) && TriggerFor(cfg, category, source).Some? && InTime(es) && es != []
    requires
      var w := TriggerFor(cfg, category, source).value.window;
      !OneSided(Taken(cfg, category, source, es), w) && OneSided(Taken(cfg, category, source, es[..|es| - 1]), w)
    ensures After(cfg, category, source, es).closedBucket == 0
  {
    var trigger, init, e := TriggerFor(cfg, category, source).value, es[..|es| - 1], es[|es| - 1];
    var q, before := Taken(cfg, category, source, init), After(cfg, category, source, init);
    TriggerIsOk(cfg, category, source);
    InTimeInit(es);
    RunIsFaithful(cfg, category, source, init);
    SeenIsTaken(cfg, category, source, init);
    assert q + [] == q;
    FirstLaterPush(q, e.o, trigger.window);
    InBucketPush(q, e.o, trigger.window, 0);
    BucketsAreMonotone(ClockOf(init), TimeOf(e), trigger.window);
  }

  /** At every moment of a run in time order the current summary is that of the current window's
      observations, if and only if the accepted observations are all in window 0 or none is. */
  lemma CountsAreTrueIff(cfg: Config, category: string, source: string, es: seq<Event>)
    requires ConfigOk(cfg) && TriggerFor(cfg, category, source).Some? && InTime(es)
    ensures (forall n :: 0 <= n <= |es| ==> CountsTrueAt(cfg, category, source, es, n)) <==>
            OneSided(Taken(cfg, category, source, es), TriggerFor(cfg, category, source).value.window)
  {
    var trigger := TriggerFor(cfg, category, source).value;
    TriggerIsOk(cfg, category, source);
    if OneSided(Taken(cfg, category, source, es), trigger.window) {
      forall n | 0 <= n <= |es| ensures CountsTrueAt(cfg, category, source, es, n) {
        TakenOneSided(cfg, category, source, es, n, trigger.window);
        CountAtPrefix(cfg, category, source, es, n);
      }
    } else {
      var n := FirstStraddling(cfg, category, source, es);
      CountAtPrefix(cfg, category, source, es, n);
      assert !CountsTrueAt(cfg, category, source, es, n);
    }
  }

  lemma CountAtPrefix(cfg: Config, category: string, source: string, es: seq<Event>, n: nat)
    requires ConfigOk(cfg) && TriggerFor(cfg, category, source).Some? && InTime(es) && n <= |es|
    ensures
      var w := TriggerFor(cfg, category, source).value.window;
      OneSided(Taken(cfg, category, source, es[..n]), w) ==> CountsTrueAt(cfg, category, source, es, n)
    ensures
      var w := TriggerFor(cfg, category, source).value.window;
      !OneSided(Taken(cfg, category, source, es[..n]), w) && After(cfg, category, source, es[..n]).closedBucket == 0 ==>
        !CountsTrueAt(cfg, category, source, es, n)
  {
    var trigger, t := TriggerFor(cfg, category, source).value, After(cfg, category, source, es[..n]);
    TriggerIsOk(cfg, category, source);
    InTimePrefix(es, n);
    RunIsFaithful(cfg, category, source, es[..n]);
    SeenIsTaken(cfg, category, source, es[..n]);
    CountIsTrueIff(trigger, t, ClockOf(es[..n]));
  }

  /** A tick, or an observation the alert accepts. */
  predicate Moves(cfg: Config, category: string, source: string, e: Event) {
    e.Tick? || Accepts(cfg, category, source, e.o)
  }

  predicate MovesPast(cfg: Config, category: string, source: string, e: Event, window: int, bucket: int)
    requires window > 0
  {
    Moves(cfg, category, source, e) && BucketOf(TimeOf(e), window) > bucket
  }

  /** The first later window with an observation is over by the end of these events. */
  predicate FirstCloses(cfg: Config, category: string, source: string, es: seq<Event>, window: int)
    requires window > 0
  {
    var first := FirstLater(Taken(cfg, category, source, es), window);
    first > 0 && OneMovesPast(cfg, category, source, es, window, first)
  }

  predicate OneMovesPast(cfg: Config, category: string, source: string, es: seq<Event>, window: int, bucket: int)
    requires window > 0
  {
    exists i :: 0 <= i < |es| && MovesPast(cfg, category, source, es[i], window, bucket)
  }

  lemma AfterStep(cfg: Config, category: string, source: string, es: seq<Event>)
    requires ConfigOk(cfg) && TriggerFor(cfg, category, source).Some? && InTime(es) && es != []
    ensures
      var trigger, e := TriggerFor(cfg, category, source).value, es[|es| - 1];
      var before, after := After(cfg, category, source, es[..|es| - 1]), After(cfg, category, source, es);
      var next := BucketOf(TimeOf(e), trigger.window);
      if !Moves(cfg, category, source, e) then after == before
      else
        (after.alert.Some? && after.alert.value.bucket > 0 ==> after.alert.value.bucket == next) &&
        (after.alert.Some? && after.alert.value.bucket == 0 ==> e.Tick? || next == 0) &&
        (before.alert.Some? && 0 < before.alert.value.bucket < next ==> after.closedBucket == before.alert.value.bucket) &&
        (!(before.alert.Some? && 0 < before.alert.value.bucket < next) ==> after.closedBucket == before.closedBucket)
  {
    var trigger, init, e := TriggerFor(cfg, category, source).value, es[..|es| - 1], es[|es| - 1];
    var before := After(cfg, category, source, init);
    TriggerIsOk(cfg, category, source);
    InTimeInit(es);
    RunIsFaithful(cfg, category, source, init);
    ClosingIsFaithful(cfg, trigger, before, ClockOf(init), TimeOf(e));
  }

  /** A window in progress other than number 0 is that of the latest event that moves the alert. */
  lemma {:induction false} WindowIsLatest(cfg: Config, category: string, source: string, es: seq<Event>, bucket: int)
    requires ConfigOk(cfg) && TriggerFor(cfg, category, source).Some? && InTime(es)
    requires After(cfg, category, source, es).alert.Some? && After(cfg, category, source, es).alert.value.bucket > 0
    ensures
      var w := TriggerFor(cfg, category, source).value.window;
      OneMovesPast(cfg, category, source, es, w, bucket) <==>
      bucket < After(cfg, category, source, es).alert.value.bucket
  {
    var w, n := TriggerFor(cfg, category, source).value.window, |es| - 1;
    var init, last, current := es[..n], es[n], After(cfg, category, source, es).alert.value.bucket;
    AfterStep(cfg, category, source, es);
    if Moves(cfg, category, source, last) {
      assert current == BucketOf(TimeOf(last), w);
      if i :| 0 <= i < |es| && MovesPast(cfg, category, source, es[i], w, bucket) {
        LaterLater(es, i, n);
        BucketsAreMonotone(TimeOf(es[i]), TimeOf(last), w);
      }
      assert bucket < current ==> MovesPast(cfg, category, source, es[n], w, bucket);
    } else {
      InTimeInit(es);
      WindowIsLatest(cfg, category, source, init, bucket);
      LastDoesNot(cfg, category, source, es, w, bucket);
    }
  }

  lemma LastDoesNot(cfg: Config, category: string, source: string, es: seq<Event>, window: int, bucket: int)
    requires window > 0 && es != [] && !Moves(cfg, category, source, es[|es| - 1])
    ensures OneMovesPast(cfg, category, source, es, window, bucket) <==>
            OneMovesPast(cfg, category, source, es[..|es| - 1], window, bucket)
  {
    var init := es[..|es| - 1];
    if i :| 0 <= i < |es| && MovesPast(cfg, category, source, es[i], window, bucket) {
      assert init[i] == es[i];
    }
    if i :| 0 <= i < |init| && MovesPast(cfg, category, source, init[i], window, bucket) {
      assert es[i] == init[i];
    }
  }

  lemma {:induction false} LaterLater(es: seq<Event>, i: nat, j: nat)
    requires InTime(es) && i <= j < |es|
    ensures TimeOf(es[i]) <= TimeOf(es[j])
    decreases j
  {
    if i < j {
      LaterLater(es, i, j - 1);
    }
  }

  /** The alert has closed a window exactly when its first later window is over. */
  lemma ClosedIffFirstCloses(cfg: Config, category: string, source: string, es: seq<Event>)
    requires ConfigOk(cfg) && TriggerFor(cfg, category, source).Some? && InTime(es)
    ensures After(cfg, category, source, es).closedBucket > 0 <==>
            FirstCloses(cfg, category, source, es, TriggerFor(cfg, category, source).value.window)
  {
    var trigger, t := TriggerFor(cfg, category, source).value, After(cfg, category, source, es);
    var first := FirstLater(t.seen, trigger.window);
    RunIsFaithful(cfg, category, source, es);
    SeenIsTaken(cfg, category, source, es);
    if t.alert.Some? && t.alert.value.bucket > 0 {
      WindowIsLatest(cfg, category, source, es, first);
    }
  }

  /** The first prefix that has closed a window: it is the first later one. */
  lemma {:induction false} FirstClosing(cfg: Config, category: string, source: string, es: seq<Event>) returns (n: nat)
    requires ConfigOk(cfg) && TriggerFor(cfg, category, source).Some? && InTime(es)
    requires After(cfg, category, source, es).closedBucket > 0
    ensures
      n <= |es| && After(cfg, category, source, es[..n]).closedBucket > 0 &&
      After(cfg, category, source, es[..n]).closedBucket ==
      FirstLater(After(cfg, category, source, es[..n]).seen, TriggerFor(cfg, category, source).value.window)
  {
    var trigger, init := TriggerFor(cfg, category, source).value, es[..|es| - 1];
    InTimeInit(es);
    if After(cfg, category, source, init).closedBucket > 0 {
      n := FirstClosing(cfg, category, source, init);
      assert init[..n] == es[..n];
    } else {
      n := |es|;
      assert es[..n] == es;
      AfterStep(cfg, category, source, es);
      RunIsFaithful(cfg, category, source, init);
      RunIsFaithful(cfg, category, source, es);
      FirstLaterStays(cfg, category, source, es);
    }
  }

  lemma FirstLaterStays(cfg: Config, category: string, source: string, es: seq<Event>)
    requires ConfigOk(cfg) && TriggerFor(cfg, category, source).Some? && es != []
    ensures
      var w := TriggerFor(cfg, category, source).value.window;
      var before, after := After(cfg, category, source, es[..|es| - 1]).seen, After(cfg, category, source, es).seen;
      FirstLater(before, w) > 0 ==> FirstLater(after, w) == FirstLater(before, w)
  {
    var w, init, e := TriggerFor(cfg, category, source).value.window, es[..|es| - 1], es[|es| - 1];
    var before := Taken(cfg, category, source, init);
    SeenIsTaken(cfg, category, source, init);
    SeenIsTaken(cfg, category, source, es);
    assert before + [] == before;
    if e.Seen? && Accepts(cfg, category, source, e.o) {
      FirstLaterPush(before, e.o, w);
    }
  }

  /** Once it is closed, neither it nor window 0 gets any more observations. */
  lemma {:induction false} ClosedStays(cfg: Config, category: string, source: string, es: seq<Event>, n: nat)
    requires ConfigOk(cfg) && TriggerFor(cfg, category, source).Some? && InTime(es) && n <= |es|
    requires After(cfg, category, source, es[..n]).closedBucket > 0
    ensures
      var w := TriggerFor(cfg, category, source).value.window;
      var q, part := Taken(cfg, category, source, es), Taken(cfg, category, source, es[..n]);
      After(cfg, category, source, es).closedBucket > 0 && FirstLater(q, w) == FirstLater(part, w) &&
      InBucket(q, w, 0) == InBucket(part, w, 0) && InBucket(q, w, FirstLater(q, w)) == InBucket(part, w, FirstLater(q, w))
    decreases |es|
  {
    if n == |es| {
      assert es[..n] == es;
    } else {
      var init := es[..|es| - 1];
      assert init[..n] == es[..n];
      InTimeInit(es);
      ClosedStays(cfg, category, source, init, n);
      ClosedStep(cfg, category, source, es);
    }
  }

  lemma ClosedStep(cfg: Config, category: string, source: string, es: seq<Event>)
    requires ConfigOk(cfg) && TriggerFor(cfg, category, source).Some? && InTime(es) && es != []
    requires After(cfg, category, source, es[..|es| - 1]).closedBucket > 0
    ensures
      var w := TriggerFor(cfg, category, source).value.window;
      var q, part := Taken(cfg, category, source, es), Taken(cfg, category, source, es[..|es| - 1]);
      After(cfg, category, source, es).closedBucket > 0 && FirstLater(q, w) == FirstLater(part, w) &&
      InBucket(q, w, 0) == InBucket(part, w, 0) && InBucket(q, w, FirstLater(q, w)) == InBucket(part, w, FirstLater(q, w))
  {
    var trigger, init, e := TriggerFor(cfg, category, source).value, es[..|es| - 1], es[|es| - 1];
    var part, w := Taken(cfg, category, source, init), trigger.window;
    AfterStep(cfg, category, source, es);
    InTimeInit(es);
    RunIsFaithful(cfg, category, source, init);
    SeenIsTaken(cfg, category, source, init);
    assert part + [] == part;
    if e.Seen? && Accepts(cfg, category, source, e.o) {
      BucketsAreMonotone(ClockOf(init), TimeOf(e), w);
      FirstLaterPush(part, e.o, w);
      InBucketPush(part, e.o, w, 0);
      InBucketPush(part, e.o, w, FirstLater(part, w));
    }
  }

  lemma StatusAtPrefix(cfg: Config, category: string, source: string, es: seq<Event>, n: nat)
    requires ConfigOk(cfg) && TriggerFor(cfg, category, source).Some? && InTime(es) && n <= |es|
    ensures
      var trigger, t := TriggerFor(cfg, category, source).value, After(cfg, category, source, es[..n]);
      StatusTrueAt(cfg, category, source, es, n) <==>
      (t.closedBucket > 0 && t.closedBucket == FirstLater(t.seen, trigger.window) ==>
         SameClass(trigger, Taken(cfg, category, source, es)))
  {
    var trigger, t := TriggerFor(cfg, category, source).value, After(cfg, category, source, es[..n]);
    TriggerIsOk(cfg, category, source);
    InTimePrefix(es, n);
    RunIsFaithful(cfg, category, source, es[..n]);
    StatusAtIff(trigger, t, ClockOf(es[..n]));
    SeenIsTaken(cfg, category, source, es[..n]);
    if t.closedBucket > 0 {
      ClosedStays(cfg, category, source, es, n);
    }
  }

  /** At every moment of a run in time order the status is the classification of the last closed
      window's observations, if and only if the first later window is not over yet or counting
      those of window 0 with it does not change its classification. */
  lemma StatusIsTrueIff(cfg: Config, category: string, source: string, es: seq<Event>)
    requires ConfigOk(cfg) && TriggerFor(cfg, category, source).Some? && InTime(es)
    ensures
      var trigger := TriggerFor(cfg, category, source).value;
      (forall n :: 0 <= n <= |es| ==> StatusTrueAt(cfg, category, source, es, n)) <==>
      !FirstCloses(cfg, category, source, es, trigger.window) || SameClass(trigger, Taken(cfg, category, source, es))
  {
    var trigger := TriggerFor(cfg, category, source).value;
    ClosedIffFirstCloses(cfg, category, source, es);
    if FirstCloses(cfg, category, source, es, trigger.window) {
      var m := FirstClosing(cfg, category, source, es);
      StatusAtPrefix(cfg, category, source, es, m);
      forall n | 0 <= n <= |es|
        ensures SameClass(trigger, Taken(cfg, category, source, es)) ==> StatusTrueAt(cfg, category, source, es, n)
      {
        StatusAtPrefix(cfg, category, source, es, n);
      }
    } else {
      forall n | 0 <= n <= |es| ensures StatusTrueAt(cfg, category, source, es, n) {
        StatusAtPrefix(cfg, category, source, es, n);
        NotClosedBefore(cfg, category, source, es, n);
      }
    }
  }

  lemma NotClosedBefore(cfg: Config, category: string, source: string, es: seq<Event>, n: nat)
    requires ConfigOk(cfg) && TriggerFor(cfg, category, source).Some? && InTime(es) && n <= |es|
    ensures After(cfg, category, source, es[..n]).closedBucket > 0 ==> After(cfg, category, source, es).closedBucket > 0
  {
    if After(cfg, category, source, es[..n]).closedBucket > 0 {
      ClosedStays(cfg, category, source, es, n);
    }
  }

  /** In particular the status is true of runs that are all in window 0 or all out of it. */
  lemma OneSidedStatusIsTrue(cfg: Config, category: string, source: string, es: seq<Event>)
    requires ConfigOk(cfg) && TriggerFor(cfg, category, source).Some? && InTime(es)
    requires OneSided(Taken(cfg, category, source, es), TriggerFor(cfg, category, source).value.window)
    ensures StatusTrueAt(cfg, category, source, es, |es|)
  {
    StatusIsTrueIff(cfg, category, source, es);
  }

  // ----- Statuses and dispatches -----------------------------------------------------

  /** A moment is in a window exactly when it lies between its start and that of the next. */
  lemma BucketOfIff(at: nat, window: int, bucket: nat)
    requires window > 0
    ensures BucketOf(at, window) == bucket <==>
            bucket * window * SECOND <= at < (bucket + 1) * window * SECOND
  {
    var s, d := at / SECOND, at / SECOND / window;
    assert at == s * SECOND + at % SECOND && s == d * window + s % window;
    assert (bucket + 1) * window == bucket * window + window;
    if d < bucket {
      ProductsStep(bucket, d, window);
    } else if bucket < d {
      ProductsStep(d, bucket, window);
    }
  }

  /** In every run in time order a status says how many observations were filed under the last closed
      window: escalated from the one threshold on, active from the other, quiet below or before any
      is closed. */
  lemma StatusMeans(cfg: Config, category: string, source: string, es: seq<Event>)
    requires ConfigOk(cfg) && TriggerFor(cfg, category, source).Some? && InTime(es)
    requires After(cfg, category, source, es).alert.Some?
    ensures
      var trigger, t := TriggerFor(cfg, category, source).value, After(cfg, category, source, es);
      var status, n := t.alert.value.status, if t.closedBucket == 0 then 0 else |Filed(t.seen, trigger.window, t.closedBucket)|;
      (status == Escalated <==> n >= trigger.escalated) && (status == Active <==> trigger.active <= n < trigger.escalated) &&
      (status == Quiet <==> n < trigger.active)
  {
    TriggerIsOk(cfg, category, source);
    StatusIsLastClosedWindow(cfg, category, source, es);
  }

  function StatusOf(t: Track): Status {
    if t.alert.Some? then t.alert.value.status else Quiet
  }

  /** Of two tracks, the later has one dispatch more, at `now`, if the status changed, a sink is
      enabled, and the last dispatch, if there was one, is at least the cooldown ago; else none. */
  predicate SendsWhenDue(cfg: Config, before: Track, after: Track, now: nat) {
    after.sent ==
    if StatusOf(after) != StatusOf(before) && cfg.enabledSinks > 0 &&
       (before.sent == [] || now - before.sent[|before.sent| - 1] >= cfg.cooldown * SECOND)
    then before.sent + [now] else before.sent
  }

  lemma ClosingSendsWhenDue(cfg: Config, trigger: Trigger, t: Track, now: nat)
    requires trigger.window > 0 && Spaced(cfg, t)
    ensures SendsWhenDue(cfg, t, Closing(cfg, trigger, t, now), now)
  {
  }

  lemma RecordingSendsNone(trigger: Trigger, t: Track, o: Obs)
    requires trigger.window > 0
    ensures Recording(trigger, t, o).sent == t.sent && StatusOf(Recording(trigger, t, o)) == StatusOf(t)
  {
  }

  /** The last event of a run starts a dispatch if and only if it changes the status, a sink is
      enabled, and the last dispatch, if there was one, is at least the cooldown ago. */
  lemma DispatchIff(cfg: Config, category: string, source: string, es: seq<Event>)
    requires ConfigOk(cfg) && TriggerFor(cfg, category, source).Some? && es != []
    ensures SendsWhenDue(cfg, After(cfg, category, source, es[..|es| - 1]), After(cfg, category, source, es), TimeOf(es[|es| - 1]))
  {
    var trigger, init, e := TriggerFor(cfg, category, source).value, es[..|es| - 1], es[|es| - 1];
    var before := After(cfg, category, source, init);
    DispatchesAreSpaced(cfg, category, source, init);
    ClosingSendsWhenDue(cfg, trigger, before, TimeOf(e));
    if e.Seen? {
      RecordingSendsNone(trigger, Closing(cfg, trigger, before, TimeOf(e)), e.o);
    }
  }

  ghost predicate Spaced(cfg: Config, t: Track) {
    (forall i :: 0 < i < |t.sent| ==> t.sent[i] - t.sent[i - 1] >= cfg.cooldown * SECOND) &&
    (if t.alert.None? then t.sent == []
     else t.alert.value.lastSent == if t.sent == [] then None else Some(t.sent[|t.sent| - 1]))
  }

  lemma ClosingIsSpaced(cfg: Config, trigger: Trigger, t: Track, now: nat)
    requires trigger.window > 0 && Spaced(cfg, t)
    ensures Spaced(cfg, Closing(cfg, trigger, t, now))
  {
  }

  lemma RecordingIsSpaced(cfg: Config, trigger: Trigger, t: Track, o: Obs)
    requires trigger.window > 0 && Spaced(cfg, t)
    ensures Spaced(cfg, Recording(trigger, t, o))
  {
  }

  /** Two dispatches of an alert are at least the cooldown apart, whatever the clock does. */
  lemma {:induction false} DispatchesAreSpaced(cfg: Config, category: string, source: string, es: seq<Event>)
    requires ConfigOk(cfg)
    ensures Spaced(cfg, After(cfg, category, source, es))
  {
    var trigger := TriggerFor(cfg, category, source);
    if es != [] && trigger.Some? {
      var before, e := After(cfg, category, source, es[..|es| - 1]), es[|es| - 1];
      DispatchesAreSpaced(cfg, category, source, es[..|es| - 1]);
      ClosingIsSpaced(cfg, trigger.value, before, TimeOf(e));
      if e.Seen? {
        RecordingIsSpaced(cfg, trigger.value, Closing(cfg, trigger.value, before, TimeOf(e)), e.o);
      }
    }
  }

  /** In the very first window the number 0 is taken for "no window": an observation made there is
      not closed with it but counted in the next one with an observation, whatever its length. */
  lemma FirstWindowIsCarriedOver(cfg: Config, t: Trigger, early: Obs, later: Obs)
    requires t.window > 0 && early.at < t.window * SECOND <= later.at
    ensures
      var (a, _) := Observed(cfg, t, None, early);
      var (b, _) := Observed(cfg, t, Some(a), later);
      b.bucket > 0 && b.current.count == 2 && |InBucket([early, later], t.window, b.bucket)| == 1
  {
    var bucket := BucketOf(later.at, t.window);
    assert [early, later][..1] == [early] && [early][..0] == [];
    DivisionIsMonotone(t.window, later.at / SECOND, t.window);
    assert BucketOf(early.at, t.window) == 0;
    assert InBucket([early], t.window, bucket) == [];
  }

  /** Two observations, one of them in window 0, raise an alert that takes two in a window. */
  lemma FirstWindowRaisesAlert(cfg: Config, t: Trigger, early: Obs, later: Obs, now: nat)
    requires TriggerOk(t) && t.active == 2 && early.at < t.window * SECOND <= later.at
    requires BucketOf(later.at, t.window) < BucketOf(now, t.window)
    ensures
      var (a, _) := Observed(cfg, t, None, early);
      var (b, _) := Observed(cfg, t, Some(a), later);
      var (c, _) := Advanced(cfg, t, b, BucketOf(now, t.window), now);
      c.status != Quiet && Classify(t, |InBucket([early, later], t.window, b.bucket)|) == Quiet
  {
    FirstWindowIsCarriedOver(cfg, t, early, later);
  }
}
