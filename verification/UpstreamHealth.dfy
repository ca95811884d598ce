// One upstream backend as the health monitor sees it: in-flight count, passive failures, circuit.
// Monitor is the lock-protected object; the functions are its steps on one backend, and the
// lemmas are about every run of those steps under a fixed configuration.
module UpstreamHealth {
  import Text
  import opened Wrappers

  const SECOND := 1_000_000_000

  datatype Circuit = Closed | Open | HalfOpen

  /** The configuration the monitor consults; probing means a health check path is set. */
  datatype Policy = Policy(
    probing: bool, passiveHealth: bool, breaker: bool,
    failureThreshold: int, openSec: int, halfOpenRequests: int)

  datatype Backend = Backend(
    key: string, name: string, weight: int, enabled: bool, healthy: bool, inFlight: nat,
    passiveFailures: nat, circuit: Circuit, reopenAt: Option<int>, halfOpen: nat)

  function Threshold(p: Policy): (n: int)
    ensures n > 0
  {
    if p.failureThreshold > 0 then p.failureThreshold else 3
  }

  function OpenFor(p: Policy): (d: int)
    ensures d > 0
  {
    (if p.openSec > 0 then p.openSec else 30) * SECOND
  }

  function HalfOpenLimit(p: Policy): (n: int)
    ensures n > 0
  {
    if p.halfOpenRequests > 0 then p.halfOpenRequests else 1
  }

  /** proxyBackendSelectableLocked */
  predicate Selectable(p: Policy, b: Backend, now: int) {
    b.enabled &&
    (p.breaker ==>
       !(b.circuit == Open && b.reopenAt.Some? && now < b.reopenAt.value) &&
       !(b.circuit == HalfOpen && b.halfOpen >= HalfOpenLimit(p))) &&
    (p.probing || p.passiveHealth ==> b.healthy)
  }

  function Acquire(p: Policy, b: Backend, now: int): Backend {
    var circuit := if p.breaker && b.circuit == Open && b.reopenAt.Some? && now >= b.reopenAt.value
                   then HalfOpen else b.circuit;
    b.(circuit := circuit, inFlight := b.inFlight + 1,
       halfOpen := if circuit == HalfOpen then b.halfOpen + 1 else b.halfOpen)
  }

  function Release(b: Backend): Backend {
    b.(inFlight := if b.inFlight > 0 then b.inFlight - 1 else 0,
       halfOpen := if b.halfOpen > 0 then b.halfOpen - 1 else 0)
  }

  function Fail(p: Policy, b: Backend, now: int): Backend {
    var failures := b.passiveFailures + 1;
    var tripped := failures >= Threshold(p);
    b.(passiveFailures := failures,
       healthy := if p.passiveHealth && tripped then false else b.healthy,
       circuit := if p.breaker && tripped then Open else b.circuit,
       reopenAt := if p.breaker && tripped then Some(now + OpenFor(p)) else b.reopenAt)
  }

  /** A passive success and a successful probe clear the same fields. */
  function Succeed(b: Backend): Backend {
    b.(passiveFailures := 0, healthy := true, circuit := Closed, reopenAt := None, halfOpen := 0)
  }

  function Probe(b: Backend, ok: bool): Backend {
    if ok then Succeed(b) else b.(healthy := false)
  }

  /** What happens to a backend, as one of its monitor's locked operations. */
  datatype Event = Acquired | Refused | Failed | Succeeded | Released | Probed(ok: bool)

  function Step(p: Policy, b: Backend, e: Event, now: int): Backend {
    match e
    case Acquired => Acquire(p, b, now)
    case Refused => b
    case Failed => Fail(p, b, now)
    case Succeeded => Succeed(b)
    case Released => Release(b)
    case Probed(ok) => Probe(b, ok)
  }

  // ----- The monitor -----------------------------------------------------------------

  function IndexOf(backends: seq<Backend>, key: string): Option<nat> {
    if backends == [] then None
    else if backends[0].key == key then Some(0)
    else
      match IndexOf(backends[1..], key)
      case None => None
      case Some(i) => Some(i + 1)
  }

  lemma {:induction false} IndexOfFirst(backends: seq<Backend>, key: string)
    ensures IndexOf(backends, key).None? ==> forall i :: 0 <= i < |backends| ==> backends[i].key != key
    ensures IndexOf(backends, key).Some? ==>
              var n := IndexOf(backends, key).value;
              n < |backends| && backends[n].key == key && forall i :: 0 <= i < n ==> backends[i].key != key
  {
    if backends != [] && backends[0].key != key {
      IndexOfFirst(backends[1..], key);
      match IndexOf(backends[1..], key)
      case None =>
        forall i | 0 <= i < |backends| ensures backends[i].key != key {
          if i > 0 { assert backends[1..][i - 1] == backends[i]; }
        }
      case Some(n) =>
        forall i | 0 <= i < n + 1 ensures backends[i].key != key {
          if i > 0 { assert backends[1..][i - 1] == backends[i]; }
        }
    }
  }

  lemma IndexOfIs(backends: seq<Backend>, key: string, n: nat)
    requires n < |backends| && backends[n].key == key && forall i :: 0 <= i < n ==> backends[i].key != key
    ensures IndexOf(backends, key) == Some(n)
  {
    IndexOfFirst(backends, key);
  }

  lemma IndexOfNone(backends: seq<Backend>, key: string)
    requires forall i :: 0 <= i < |backends| ==> backends[i].key != key
    ensures IndexOf(backends, key) == None
  {
    IndexOfFirst(backends, key);
  }

  /** One upstream of the configuration, with the lookup key its name and URL give. */
  datatype Definition = Definition(key: string, name: string, weight: int, enabled: bool)

  function LastWithKey(prev: seq<Backend>, key: string): Option<Backend> {
    if prev == [] then None
    else if prev[|prev| - 1].key == key then Some(prev[|prev| - 1])
    else LastWithKey(prev[..|prev| - 1], key)
  }

  function Carried(d: Definition, prev: seq<Backend>): Backend {
    var weight := if d.weight <= 0 then 1 else d.weight;
    match LastWithKey(prev, d.key)
    case None => Backend(d.key, d.name, weight, d.enabled, true, 0, 0, Closed, None, 0)
    case Some(b) => b.(key := d.key, name := d.name, weight := weight, enabled := d.enabled)
  }

  /** buildProxyBackendStates: runtime state follows the key, everything else is new. */
  function Rebuild(defs: seq<Definition>, prev: seq<Backend>): seq<Backend> {
    seq(|defs|, i requires 0 <= i < |defs| => Carried(defs[i], prev))
  }

  predicate LastOfKey(prev: seq<Backend>, key: string, k: nat)
    requires k < |prev|
  {
    prev[k].key == key && forall j :: k < j < |prev| ==> prev[j].key != key
  }

  lemma {:induction false} LastWithKeyIs(prev: seq<Backend>, key: string, k: nat)
    requires k < |prev| && LastOfKey(prev, key, k)
    ensures LastWithKey(prev, key) == Some(prev[k])
    decreases |prev|
  {
    if k < |prev| - 1 {
      var init := prev[..|prev| - 1];
      assert forall j :: 0 <= j < |init| ==> init[j] == prev[j];
      LastWithKeyIs(init, key, k);
    }
  }

  lemma {:induction false} LastWithKeyNone(prev: seq<Backend>, key: string)
    requires forall j :: 0 <= j < |prev| ==> prev[j].key != key
    ensures LastWithKey(prev, key) == None
  {
    if prev != [] {
      var init := prev[..|prev| - 1];
      assert forall j :: 0 <= j < |init| ==> init[j] == prev[j];
      LastWithKeyNone(init, key);
    }
  }

  /** What a configured upstream and a backend have in common: everything but the runtime state. */
  predicate Describes(d: Definition, b: Backend) {
    b.key == d.key && b.name == d.name && b.enabled == d.enabled && b.weight == if d.weight <= 0 then 1 else d.weight
  }

  predicate SameState(a: Backend, b: Backend) {
    a == b.(key := a.key, name := a.name, weight := a.weight, enabled := a.enabled)
  }

  /** After an update every upstream has the state of the last previous backend with its key, and
      is new if there was none. */
  lemma RebuildFollowsKeys(defs: seq<Definition>, prev: seq<Backend>, i: nat)
    requires i < |defs|
    ensures |Rebuild(defs, prev)| == |defs| && Describes(defs[i], Rebuild(defs, prev)[i])
    ensures (forall j :: 0 <= j < |prev| ==> prev[j].key != defs[i].key) ==> Fresh(Rebuild(defs, prev)[i])
    ensures forall k :: 0 <= k < |prev| && LastOfKey(prev, defs[i].key, k) ==> SameState(Rebuild(defs, prev)[i], prev[k])
  {
    var key := defs[i].key;
    if forall j :: 0 <= j < |prev| ==> prev[j].key != key {
      LastWithKeyNone(prev, key);
    }
    forall k | 0 <= k < |prev| && LastOfKey(prev, key, k) ensures SameState(Rebuild(defs, prev)[i], prev[k]) {
      LastWithKeyIs(prev, key, k);
    }
  }

  /** A new monitor has nothing in flight, every upstream healthy and every circuit closed. */
  lemma NewMonitorIsIdle(defs: seq<Definition>)
    ensures forall i :: 0 <= i < |defs| ==> Describes(defs[i], Rebuild(defs, [])[i]) && Fresh(Rebuild(defs, [])[i])
  {
    forall i | 0 <= i < |defs| ensures Describes(defs[i], Rebuild(defs, [])[i]) && Fresh(Rebuild(defs, [])[i]) {
      RebuildFollowsKeys(defs, [], i);
    }
  }

  lemma {:induction false} LastCarries(defs: seq<Definition>, prev: seq<Backend>, key: string, n: nat)
    requires n <= |defs| && exists i :: 0 <= i < n && defs[i].key == key
    ensures LastWithKey(Rebuild(defs, prev)[..n], key).Some?
    ensures SameState(LastWithKey(Rebuild(defs, prev)[..n], key).value, Carried(Definition(key, "", 0, true), prev))
  {
    var all := Rebuild(defs, prev);
    assert all[..n][..n - 1] == all[..n - 1];
    if defs[n - 1].key != key {
      LastCarries(defs, prev, key, n - 1);
    }
  }

  /** Applying a configuration a second time changes nothing. */
  lemma RebuildTwice(defs: seq<Definition>, prev: seq<Backend>)
    ensures Rebuild(defs, Rebuild(defs, prev)) == Rebuild(defs, prev)
  {
    var once := Rebuild(defs, prev);
    assert once[..|defs|] == once;
    forall i | 0 <= i < |defs| ensures Carried(defs[i], once) == once[i] {
      LastCarries(defs, prev, defs[i].key, |defs|);
    }
  }

  function Touch(p: Policy, backends: seq<Backend>, key: string, e: Event, now: int): seq<Backend> {
    match IndexOf(backends, key)
    case None => backends
    case Some(i) =>
      IndexOfFirst(backends, key);
      backends[i := Step(p, backends[i], e, now)]
  }

  /** Whether AcquireTarget says yes: unknown and blank keys are not tracked. */
  predicate Grants(p: Policy, backends: seq<Backend>, key: string, now: int) {
    match IndexOf(backends, key)
    case None => true
    case Some(i) =>
      IndexOfFirst(backends, key);
      Text.Blank(key) || Selectable(p, backends[i], now)
  }

  /** The first backend of this key. */
  predicate IsFirstOfKey(backends: seq<Backend>, key: string, i: nat) {
    i < |backends| && backends[i].key == key && forall j: nat | j < i :: backends[j].key != key
  }

  /** The answer is yes if and only if the key is blank, or no backend has it, or the first one that has
      it can be selected. */
  lemma GrantsIff(p: Policy, backends: seq<Backend>, key: string, now: int)
    ensures Grants(p, backends, key, now) <==>
            Text.Blank(key) || (forall b :: b in backends ==> b.key != key) ||
            exists i: nat | i < |backends| :: IsFirstOfKey(backends, key, i) && Selectable(p, backends[i], now)
  {
    IndexOfFirst(backends, key);
    if i: nat :| i < |backends| && IsFirstOfKey(backends, key, i) {
      IndexOfIs(backends, key, i);
    }
    match IndexOf(backends, key)
    case None => {}
    case Some(i) =>
      assert IsFirstOfKey(backends, key, i) && backends[i] in backends;
  }

  /** One locked operation on the backend the key names; blank keys are ignored. */
  function Tracked(p: Policy, backends: seq<Backend>, key: string, e: Event, now: int): seq<Backend> {
    if Text.Blank(key) then backends else Touch(p, backends, key, e, now)
  }

  class Monitor {
    var policy: Policy
    var backends: seq<Backend>

    constructor (policy: Policy, defs: seq<Definition>)
      ensures this.policy == policy && backends == Rebuild(defs, [])
    {
      this.policy, this.backends := policy, Rebuild(defs, []);
    }

    /** The scan every locked operation starts with: the first backend with the key. */
    method Find(key: string) returns (i: nat)
      ensures i <= |backends|
      ensures IndexOf(backends, key) == if i < |backends| then Some(i) else None
    {
      i := 0;
      while i < |backends| && backends[i].key != key
        invariant i <= |backends|
        invariant forall j :: 0 <= j < i ==> backends[j].key != key
      {
        i := i + 1;
      }
      if i < |backends| {
        IndexOfIs(backends, key, i);
      } else {
        IndexOfNone(backends, key);
      }
    }

    method AcquireTarget(key: string, now: int) returns (ok: bool)
      modifies this`backends
      ensures ok <==> Grants(policy, old(backends), key, now)
      ensures backends == if ok then Tracked(policy, old(backends), key, Acquired, now) else old(backends)
    {
      if Text.Blank(key) {
        return true;
      }
      var i := Find(key);
      if i == |backends| {
        return true;
      }
      var b := backends[i];
      if !Selectable(policy, b, now) {
        return false;
      }
      if policy.breaker && b.circuit == Open && b.reopenAt.Some? && now >= b.reopenAt.value {
        b := b.(circuit := HalfOpen);
      }
      b := b.(inFlight := b.inFlight + 1);
      if b.circuit == HalfOpen {
        b := b.(halfOpen := b.halfOpen + 1);
      }
      backends := backends[i := b];
      return true;
    }

    method ReleaseTarget(key: string)
      modifies this`backends
      ensures backends == Tracked(policy, old(backends), key, Released, 0)
    {
      if Text.Blank(key) {
        return;
      }
      var i := Find(key);
      if i < |backends| {
        var b := backends[i];
        if b.inFlight > 0 {
          b := b.(inFlight := b.inFlight - 1);
        }
        if b.halfOpen > 0 {
          b := b.(halfOpen := b.halfOpen - 1);
        }
        backends := backends[i := b];
      }
    }

    method RecordPassiveFailure(key: string, now: int)
      modifies this`backends
      ensures backends == Tracked(policy, old(backends), key, Failed, now)
    {
      if Text.Blank(key) {
        return;
      }
      var i := Find(key);
      if i < |backends| {
        var b := backends[i];
        b := b.(passiveFailures := b.passiveFailures + 1);
        if policy.passiveHealth && b.passiveFailures >= Threshold(policy) {
          b := b.(healthy := false);
        }
        if policy.breaker && b.passiveFailures >= Threshold(policy) {
          b := b.(circuit := Open, reopenAt := Some(now + OpenFor(policy)));
        }
        backends := backends[i := b];
      }
    }

    method RecordPassiveSuccess(key: string)
      modifies this`backends
      ensures backends == Tracked(policy, old(backends), key, Succeeded, 0)
    {
      if Text.Blank(key) {
        return;
      }
      var i := Find(key);
      if i < |backends| {
        backends := backends[i := Succeed(backends[i])];
      }
    }

    /** The result of one active health check. */
    method RecordResult(key: string, ok: bool)
      modifies this`backends
      ensures backends == Touch(policy, old(backends), key, Probed(ok), 0)
    {
      var i := Find(key);
      if i < |backends| {
        backends := backends[i := Probe(backends[i], ok)];
      }
    }

    method Update(policy: Policy, defs: seq<Definition>)
      modifies this
      ensures this.policy == policy && backends == Rebuild(defs, old(backends))
    {
      this.policy, this.backends := policy, Rebuild(defs, backends);
    }
  }

  // ----- One backend over a run ------------------------------------------------------

  /** What the monitor and the request protocol allow next. `out` requests hold the backend. */
  predicate Can(p: Policy, b: Backend, out: nat, e: Event, now: int) {
    match e
    case Acquired => Selectable(p, b, now)
    case Refused => !Selectable(p, b, now)
    case Probed(_) => p.probing
    case _ => out > 0
  }

  function Outstanding(out: nat, e: Event): nat {
    match e
    case Acquired => out + 1
    case Released => if out > 0 then out - 1 else 0
    case _ => out
  }

  function After(p: Policy, b: Backend, es: seq<(Event, int)>): Backend {
    if es == [] then b
    else
      var n := |es| - 1;
      Step(p, After(p, b, es[..n]), es[n].0, es[n].1)
  }

  function OutAfter(out: nat, es: seq<(Event, int)>): nat {
    if es == [] then out else Outstanding(OutAfter(out, es[..|es| - 1]), es[|es| - 1].0)
  }

  /** A run from `b` with `out` holders: every event possible, clocks never going back. */
  predicate Legal(p: Policy, b: Backend, out: nat, es: seq<(Event, int)>) {
    es != [] ==>
      var n := |es| - 1;
      Legal(p, b, out, es[..n]) &&
      Can(p, After(p, b, es[..n]), OutAfter(out, es[..n]), es[n].0, es[n].1) &&
      (n > 0 ==> es[n - 1].1 <= es[n].1)
  }

  predicate Fresh(b: Backend) {
    b.healthy && b.inFlight == 0 && b.passiveFailures == 0 && b.circuit == Closed &&
    b.reopenAt == None && b.halfOpen == 0
  }

  predicate Clears(e: Event) {
    e.Succeeded? || e == Probed(true)
  }

  /** Passive failures after the last passive or probed success. */
  function FailuresSinceSuccess(es: seq<(Event, int)>): nat {
    if es == [] then 0
    else
      var last := es[|es| - 1].0;
      if Clears(last) then 0
      else FailuresSinceSuccess(es[..|es| - 1]) + if last.Failed? then 1 else 0
  }

  /** The failure counter counts failures since the last success, the circuit is not closed
      exactly when that count has reached the threshold, and without probes passive health is
      lost exactly then too. */
  lemma {:induction false} CircuitTracksFailures(p: Policy, b: Backend, es: seq<(Event, int)>)
    requires Fresh(b)
    ensures
      var a := After(p, b, es);
      a.passiveFailures == FailuresSinceSuccess(es) &&
      (a.circuit != Closed <==> p.breaker && FailuresSinceSuccess(es) >= Threshold(p)) &&
      (a.circuit != Closed <==> a.reopenAt.Some?) &&
      (Legal(p, b, 0, es) && !p.probing ==>
        (!a.healthy <==> p.passiveHealth && FailuresSinceSuccess(es) >= Threshold(p)))
  {
    if es != [] {
      CircuitTracksFailures(p, b, es[..|es| - 1]);
    }
  }

  predicate NoSuccess(es: seq<(Event, int)>, from: nat, to: nat) {
    forall k :: from <= k < to && k < |es| ==> !Clears(es[k].0)
  }

  predicate Reopens(b: Backend, since: int) {
    b.circuit != Closed && b.reopenAt.Some? && b.reopenAt.value >= since
  }

  lemma StaysTripped(p: Policy, b: Backend, e: Event, now: int, since: int)
    requires Reopens(b, since) && !Clears(e) && since <= now + OpenFor(p)
    ensures Reopens(Step(p, b, e, now), since)
    ensures Step(p, b, e, now).circuit == HalfOpen ==> b.circuit == HalfOpen || e == Acquired
  {
  }

  predicate Retried(es: seq<(Event, int)>, i: nat) {
    exists k :: i < k < |es| && es[k].0 == Acquired
  }

  lemma RetriedMore(es: seq<(Event, int)>, i: nat)
    requires i + 1 < |es|
    ensures Retried(es, i) <==> Retried(es[..|es| - 1], i) || es[|es| - 1].0 == Acquired
  {
    var init := es[..|es| - 1];
    if Retried(init, i) {
      var k :| i < k < |init| && init[k].0 == Acquired;
      assert es[k].0 == Acquired;
    }
    if k :| i < k < |es| && es[k].0 == Acquired && k < |init| {
      assert init[k].0 == Acquired;
    }
  }

  /** While no success intervenes, a tripped circuit keeps a reopening time at least OpenFor away
      from the failure that tripped it. */
  lemma {:induction false} ReopenAfter(p: Policy, b: Backend, es: seq<(Event, int)>, i: nat)
    requires Fresh(b) && p.breaker && Legal(p, b, 0, es)
    requires i < |es| && es[i].0 == Failed && FailuresSinceSuccess(es[..i + 1]) >= Threshold(p)
    requires NoSuccess(es, i, |es|)
    requires forall k :: i < k < |es| && es[k].0 == Acquired ==> es[k].1 >= es[i].1 + OpenFor(p)
    ensures FailuresSinceSuccess(es) >= Threshold(p)
    ensures Reopens(After(p, b, es), es[i].1 + OpenFor(p)) && es[|es| - 1].1 >= es[i].1
    ensures After(p, b, es).circuit == HalfOpen ==> Retried(es, i)
    decreases |es|
  {
    var n := |es| - 1;
    CircuitTracksFailures(p, b, es);
    if i == n {
      assert es[..i + 1] == es;
    } else {
      var init := es[..n];
      assert init[..i + 1] == es[..i + 1];
      assert forall k :: 0 <= k < n ==> init[k] == es[k];
      ReopenAfter(p, b, init, i);
      StaysTripped(p, After(p, b, init), es[n].0, es[n].1, es[i].1 + OpenFor(p));
      RetriedMore(es, i);
    }
  }

  /** The acquire at `j` finds the circuit as the trip at `i` left it, or a trial before it. */
  lemma AcquireFindsReopened(p: Policy, b: Backend, es: seq<(Event, int)>, j: nat)
    requires Legal(p, b, 0, es) && j < |es| && es[j].0 == Acquired
    ensures Legal(p, b, 0, es[..j]) && Selectable(p, After(p, b, es[..j]), es[j].1)
  {
    LegalPrefix(p, b, 0, es, j);
    LegalPrefix(p, b, 0, es, j + 1);
    assert es[..j + 1][..j] == es[..j];
  }

  /** After the circuit trips at time t, no acquire succeeds before t plus the open duration
      unless a success comes in between. */
  lemma {:induction false} NoAcquireWhileOpen(p: Policy, b: Backend, es: seq<(Event, int)>, i: nat, j: nat)
    requires Fresh(b) && p.breaker && Legal(p, b, 0, es)
    requires i < j < |es| && es[i].0 == Failed && es[j].0 == Acquired && NoSuccess(es, i, j)
    requires FailuresSinceSuccess(es[..i + 1]) >= Threshold(p)
    ensures es[j].1 >= es[i].1 + OpenFor(p)
    decreases j
  {
    forall k | i < k < j && es[k].0 == Acquired ensures es[k].1 >= es[i].1 + OpenFor(p) {
      NoAcquireWhileOpen(p, b, es, i, k);
    }
    var before := es[..j];
    AcquireFindsReopened(p, b, es, j);
    assert before[..i + 1] == es[..i + 1];
    assert forall k :: 0 <= k < j ==> before[k] == es[k];
    ReopenAfter(p, b, before, i);
    var a := After(p, b, before);
    if a.circuit == HalfOpen {
      var k :| i < k < |before| && before[k].0 == Acquired;
      LegalOrdered(p, b, 0, es, k, j);
    }
  }

  lemma {:induction false} LegalPrefix(p: Policy, b: Backend, out: nat, es: seq<(Event, int)>, n: nat)
    requires Legal(p, b, out, es) && n <= |es|
    ensures Legal(p, b, out, es[..n])
    decreases |es|
  {
    if n == |es| {
      assert es[..n] == es;
    } else {
      LegalPrefix(p, b, out, es[..|es| - 1], n);
      assert es[..|es| - 1][..n] == es[..n];
    }
  }

  lemma {:induction false} LegalOrdered(p: Policy, b: Backend, out: nat, es: seq<(Event, int)>, i: nat, j: nat)
    requires Legal(p, b, out, es) && i <= j < |es|
    ensures es[i].1 <= es[j].1
    decreases |es|
  {
    var init := es[..|es| - 1];
    if j < |es| - 1 {
      LegalOrdered(p, b, out, init, i, j);
      assert init[i] == es[i] && init[j] == es[j];
    } else if i < j {
      LegalOrdered(p, b, out, init, i, j - 1);
      assert init[i] == es[i] && init[j - 1] == es[j - 1];
    }
  }

  /** Half-open trials never outnumber the requests in flight, whatever the order of events. */
  lemma {:induction false} HalfOpenWithinInFlight(p: Policy, b: Backend, es: seq<(Event, int)>)
    requires b.halfOpen <= b.inFlight
    ensures After(p, b, es).halfOpen <= After(p, b, es).inFlight
  {
    if es != [] {
      HalfOpenWithinInFlight(p, b, es[..|es| - 1]);
    }
  }

  // ----- The half-open limit ---------------------------------------------------------

  /** Every failure is followed by its release before anything else happens: `Failed` then
      `Released` at the same time. */
  predicate FailuresRelease(es: seq<(Event, int)>) {
    forall k :: 0 <= k < |es| && es[k].0 == Failed ==> k + 1 < |es| && es[k + 1] == (Released, es[k].1)
  }

  predicate WithinLimit(p: Policy, b: Backend) {
    b.circuit != Closed ==>
      p.breaker && b.reopenAt.Some? &&
      b.halfOpen <= HalfOpenLimit(p) - (if b.circuit == Open then 1 else 0)
  }

  predicate CountedTrials(p: Policy, b: Backend) {
    WithinLimit(p, b) && (b.circuit == Closed ==> b.halfOpen == 0)
  }

  lemma StepWithinLimit(p: Policy, b: Backend, e: Event, now: int)
    requires CountedTrials(p, b) && !e.Failed?
    requires e == Acquired ==> Selectable(p, b, now)
    ensures CountedTrials(p, Step(p, b, e, now))
  {
  }

  lemma FailReleaseWithinLimit(p: Policy, b: Backend, now: int)
    requires CountedTrials(p, b)
    ensures CountedTrials(p, Release(Fail(p, b, now)))
  {
  }

  /** With failure and release taken as one step, the half-open counter stays within the limit,
      strictly below it while open, and is zero while closed, between all other steps. */
  lemma {:induction false} HalfOpenLimitHolds(p: Policy, b: Backend, out: nat, es: seq<(Event, int)>)
    requires CountedTrials(p, b) && Legal(p, b, out, es) && FailuresRelease(es)
    ensures CountedTrials(p, After(p, b, es))
    decreases |es|
  {
    if es != [] {
      var n := |es| - 1;
      assert es[n].0 != Failed;
      if n > 0 && es[n - 1].0 == Failed {
        var init := es[..n - 1];
        assert es[..n][..n - 1] == init && es[..n][n - 1] == es[n - 1];
        LegalPrefix(p, b, out, es, n - 1);
        assert FailuresRelease(init) by {
          forall k | 0 <= k < |init| && init[k].0 == Failed
            ensures k + 1 < |init| && init[k + 1] == (Released, init[k].1)
          {
            assert es[k].0 == Failed;
          }
        }
        HalfOpenLimitHolds(p, b, out, init);
        FailReleaseWithinLimit(p, After(p, b, init), es[n - 1].1);
      } else {
        var init := es[..n];
        assert FailuresRelease(init) by {
          forall k | 0 <= k < |init| && init[k].0 == Failed
            ensures k + 1 < |init| && init[k + 1] == (Released, init[k].1)
          {
            assert es[k].0 == Failed;
          }
        }
        HalfOpenLimitHolds(p, b, out, init);
        StepWithinLimit(p, After(p, b, init), es[n].0, es[n].1);
      }
    }
  }

  /** The counter after `n` events. */
  function CounterAt(p: Policy, b: Backend, es: seq<(Event, int)>, n: nat): nat
    requires n <= |es|
  {
    After(p, b, es[..n]).halfOpen
  }

  /** The guard that acquiring from an open circuit lacks. */
  predicate Guarded(p: Policy, b: Backend, es: seq<(Event, int)>, n: nat)
    requires n < |es|
  {
    es[n].0 == Acquired && After(p, b, es[..n]).circuit == Open ==> CounterAt(p, b, es, n) < HalfOpenLimit(p)
  }

  predicate CountsTrials(p: Policy, b: Backend) {
    (b.circuit != Closed ==> p.breaker && b.reopenAt.Some?) && (b.circuit == Closed ==> b.halfOpen == 0)
  }

  /** In one step the counter passes the limit only by an acquire that finds the circuit open and
      the counter at the limit. */
  lemma StepPassesLimitIff(p: Policy, b: Backend, e: Event, now: int)
    requires CountsTrials(p, b) && b.halfOpen <= HalfOpenLimit(p) && (e == Acquired ==> Selectable(p, b, now))
    ensures CountsTrials(p, Step(p, b, e, now))
    ensures Step(p, b, e, now).halfOpen <= HalfOpenLimit(p) <==>
            !(e == Acquired && b.circuit == Open && b.halfOpen >= HalfOpenLimit(p))
  {
  }

  lemma {:induction false} CountsTrialsAfter(p: Policy, b: Backend, es: seq<(Event, int)>)
    requires CountsTrials(p, b)
    ensures CountsTrials(p, After(p, b, es))
  {
    if es != [] {
      CountsTrialsAfter(p, b, es[..|es| - 1]);
    }
  }

  lemma NthStep(p: Policy, b: Backend, out: nat, es: seq<(Event, int)>, n: nat)
    requires Legal(p, b, out, es) && n < |es|
    ensures After(p, b, es[..n + 1]) == Step(p, After(p, b, es[..n]), es[n].0, es[n].1)
    ensures es[n].0 == Acquired ==> Selectable(p, After(p, b, es[..n]), es[n].1)
  {
    LegalPrefix(p, b, out, es, n + 1);
    assert es[..n + 1][..n] == es[..n];
  }

  lemma NthPassesLimitIff(p: Policy, b: Backend, out: nat, es: seq<(Event, int)>, n: nat)
    requires CountsTrials(p, b) && Legal(p, b, out, es) && n < |es| && CounterAt(p, b, es, n) <= HalfOpenLimit(p)
    ensures CounterAt(p, b, es, n + 1) <= HalfOpenLimit(p) <==> Guarded(p, b, es, n)
  {
    NthStep(p, b, out, es, n);
    CountsTrialsAfter(p, b, es[..n]);
    StepPassesLimitIff(p, After(p, b, es[..n]), es[n].0, es[n].1);
  }

  lemma {:induction false} GuardedStaysWithin(p: Policy, b: Backend, out: nat, es: seq<(Event, int)>, n: nat)
    requires CountsTrials(p, b) && b.halfOpen <= HalfOpenLimit(p) && Legal(p, b, out, es) && n <= |es|
    requires forall k :: 0 <= k < n ==> Guarded(p, b, es, k)
    ensures CounterAt(p, b, es, n) <= HalfOpenLimit(p)
  {
    if n > 0 {
      GuardedStaysWithin(p, b, out, es, n - 1);
      NthPassesLimitIff(p, b, out, es, n - 1);
    }
  }

  /** The half-open counter stays within the limit throughout a run if and only if every acquire
      that finds the circuit open finds the counter below the limit. A new backend meets the
      first requirement. */
  lemma HalfOpenLimitHoldsIff(p: Policy, b: Backend, out: nat, es: seq<(Event, int)>)
    requires CountsTrials(p, b) && b.halfOpen <= HalfOpenLimit(p) && Legal(p, b, out, es)
    ensures (forall n :: 0 <= n <= |es| ==> CounterAt(p, b, es, n) <= HalfOpenLimit(p)) <==>
            (forall n :: 0 <= n < |es| ==> Guarded(p, b, es, n))
  {
    if forall n :: 0 <= n < |es| ==> Guarded(p, b, es, n) {
      forall n | 0 <= n <= |es| ensures CounterAt(p, b, es, n) <= HalfOpenLimit(p) {
        GuardedStaysWithin(p, b, out, es, n);
      }
    } else if forall n :: 0 <= n <= |es| ==> CounterAt(p, b, es, n) <= HalfOpenLimit(p) {
      forall n | 0 <= n < |es| ensures Guarded(p, b, es, n) {
        assert CounterAt(p, b, es, n) <= HalfOpenLimit(p) && CounterAt(p, b, es, n + 1) <= HalfOpenLimit(p);
        NthPassesLimitIff(p, b, out, es, n);
      }
    }
  }

  const SAMPLE := Policy(false, false, true, 1, 30, 1)
  const BACKEND := Backend("k", "n", 1, true, true, 0, 0, Closed, None, 0)

  /** Without that coupling the counter passes its limit: two trials whose bodies stay open
      after their failures were recorded (limit 1, threshold 1). */
  lemma HalfOpenLimitNeedsCoupling()
    ensures
      var es := [(Acquired, 0), (Failed, 0), (Acquired, 30 * SECOND), (Failed, 30 * SECOND), (Acquired, 60 * SECOND)];
      Legal(SAMPLE, BACKEND, 0, es) && After(SAMPLE, BACKEND, es).halfOpen == 2 > HalfOpenLimit(SAMPLE)
  {
    var e1, e2 := (Acquired, 0), (Failed, 0);
    var e3, e4, e5 := (Acquired, 30 * SECOND), (Failed, 30 * SECOND), (Acquired, 60 * SECOND);
    Extend(SAMPLE, BACKEND, 0, [], e1);
    assert [] + [e1] == [e1];
    Extend(SAMPLE, BACKEND, 0, [e1], e2);
    assert [e1] + [e2] == [e1, e2];
    Extend(SAMPLE, BACKEND, 0, [e1, e2], e3);
    assert [e1, e2] + [e3] == [e1, e2, e3];
    Extend(SAMPLE, BACKEND, 0, [e1, e2, e3], e4);
    assert [e1, e2, e3] + [e4] == [e1, e2, e3, e4];
    Extend(SAMPLE, BACKEND, 0, [e1, e2, e3, e4], e5);
    assert [e1, e2, e3, e4] + [e5] == [e1, e2, e3, e4, e5];
  }

  lemma Extend(p: Policy, b: Backend, out: nat, es: seq<(Event, int)>, e: (Event, int))
    ensures After(p, b, es + [e]) == Step(p, After(p, b, es), e.0, e.1)
    ensures OutAfter(out, es + [e]) == Outstanding(OutAfter(out, es), e.0)
    ensures (Legal(p, b, out, es) && Can(p, After(p, b, es), OutAfter(out, es), e.0, e.1) &&
             (es != [] ==> es[|es| - 1].1 <= e.1))
            ==> Legal(p, b, out, es + [e])
  {
    assert (es + [e])[..|es|] == es;
  }

  /** When nothing is in flight as the first trial starts, and no success closes the circuit, the
      counter is the number of requests in flight, so the limit bounds real concurrency. */
  lemma {:induction false} DrainedTrialsAreReal(p: Policy, b: Backend, out: nat, es: seq<(Event, int)>)
    requires CountedTrials(p, b) && b.circuit == Open && b.inFlight == b.halfOpen == 0
    requires b.passiveFailures >= Threshold(p)
    requires Legal(p, b, out, es) && FailuresRelease(es) && NoSuccess(es, 0, |es|)
    ensures After(p, b, es).inFlight == After(p, b, es).halfOpen <= HalfOpenLimit(p)
  {
    HalfOpenLimitHolds(p, b, out, es);
    EqualCounters(p, b, out, es);
  }

  lemma {:induction false} EqualCounters(p: Policy, b: Backend, out: nat, es: seq<(Event, int)>)
    requires p.breaker && b.circuit != Closed && b.reopenAt.Some? && b.inFlight == b.halfOpen
    requires b.passiveFailures >= Threshold(p) && Legal(p, b, out, es) && NoSuccess(es, 0, |es|)
    ensures
      var a := After(p, b, es);
      a.inFlight == a.halfOpen && a.circuit != Closed && a.reopenAt.Some? && a.passiveFailures >= Threshold(p)
  {
    if es != [] {
      var init := es[..|es| - 1];
      assert forall k :: 0 <= k < |init| ==> init[k] == es[k];
      EqualCounters(p, b, out, init);
      assert !Clears(es[|es| - 1].0);
    }
  }

  // ----- When a backend is acquired --------------------------------------------------

  /** Marks the backend unhealthy: a failed probe, or with passive health a failure that reaches the
      threshold. */
  predicate Downs(p: Policy, es: seq<(Event, int)>, k: nat)
    requires k < |es|
  {
    es[k].0 == Probed(false) ||
    (es[k].0 == Failed && p.passiveHealth &&
     FailuresSinceSuccess(es[..k + 1]) >= if p.failureThreshold > 0 then p.failureThreshold else 3)
  }

  /** Something has marked it unhealthy and no success has come since. */
  predicate IsDown(p: Policy, es: seq<(Event, int)>) {
    exists k :: 0 <= k < |es| && Downs(p, es, k) && NoSuccess(es, k, |es|)
  }

  lemma IsDownStep(p: Policy, es: seq<(Event, int)>)
    requires es != []
    ensures
      var n := |es| - 1;
      IsDown(p, es) <==> !Clears(es[n].0) && (Downs(p, es, n) || IsDown(p, es[..n]))
  {
    var n := |es| - 1;
    var init := es[..n];
    if IsDown(p, es) {
      var k :| 0 <= k < |es| && Downs(p, es, k) && NoSuccess(es, k, |es|);
      assert !Clears(es[n].0);
      if k < n {
        assert es[..k + 1] == init[..k + 1];
        assert Downs(p, init, k) && NoSuccess(init, k, n);
      }
    }
    if !Clears(es[n].0) && IsDown(p, init) {
      var k :| 0 <= k < |init| && Downs(p, init, k) && NoSuccess(init, k, |init|);
      assert es[..k + 1] == init[..k + 1];
      assert Downs(p, es, k) && NoSuccess(es, k, |es|);
    }
    if !Clears(es[n].0) && Downs(p, es, n) {
      assert NoSuccess(es, n, |es|);
    }
  }

  lemma {:induction false} HealthyIff(p: Policy, b: Backend, es: seq<(Event, int)>)
    requires Fresh(b)
    ensures After(p, b, es).healthy <==> !IsDown(p, es)
  {
    if es != [] {
      var n := |es| - 1;
      HealthyIff(p, b, es[..n]);
      CircuitTracksFailures(p, b, es[..n]);
      IsDownStep(p, es);
      assert es[..n + 1] == es;
    }
  }

  /** The time of the last passive failure. */
  function LastFailure(es: seq<(Event, int)>): int {
    if es == [] then 0
    else if es[|es| - 1].0 == Failed then es[|es| - 1].1
    else LastFailure(es[..|es| - 1])
  }

  /** Something has been acquired since the last passive failure. */
  predicate TriedSince(es: seq<(Event, int)>) {
    es != [] && es[|es| - 1].0 != Failed && (es[|es| - 1].0 == Acquired || TriedSince(es[..|es| - 1]))
  }

  /** A tripped circuit, by the history: it reopens the open duration after the last failure, and is
      half open once something was acquired after it. */
  predicate TrippedBy(p: Policy, b: Backend, es: seq<(Event, int)>) {
    b.reopenAt == Some(LastFailure(es) + (if p.openSec > 0 then p.openSec else 30) * SECOND) &&
    (b.circuit == HalfOpen <==> TriedSince(es)) && b.circuit != Closed
  }

  predicate HasTripped(p: Policy, es: seq<(Event, int)>) {
    p.breaker && FailuresSinceSuccess(es) >= if p.failureThreshold > 0 then p.failureThreshold else 3
  }

  lemma TripStep(p: Policy, b: Backend, es: seq<(Event, int)>)
    requires es != [] && HasTripped(p, es)
    requires
      var n := |es| - 1;
      (HasTripped(p, es[..n]) ==> TrippedBy(p, b, es[..n])) && b.passiveFailures == FailuresSinceSuccess(es[..n]) &&
      (es[n].0 == Acquired ==> Selectable(p, b, es[n].1))
    ensures TrippedBy(p, Step(p, b, es[|es| - 1].0, es[|es| - 1].1), es)
  {
  }

  lemma {:induction false} TrippedIs(p: Policy, b: Backend, out: nat, es: seq<(Event, int)>)
    requires Fresh(b) && Legal(p, b, out, es) && HasTripped(p, es)
    ensures TrippedBy(p, After(p, b, es), es)
  {
    var n := |es| - 1;
    CircuitTracksFailures(p, b, es[..n]);
    if HasTripped(p, es[..n]) {
      TrippedIs(p, b, out, es[..n]);
    }
    TripStep(p, After(p, b, es[..n]), es);
  }

  lemma {:induction false} EnabledStays(p: Policy, b: Backend, es: seq<(Event, int)>)
    ensures After(p, b, es).enabled == b.enabled
  {
    if es != [] {
      EnabledStays(p, b, es[..|es| - 1]);
    }
  }

  /** After any run of a new backend, an acquire succeeds if and only if: the backend is enabled;
      with probing or passive health, nothing has marked it unhealthy since the last success; and, if
      the breaker has tripped, either nothing was acquired since the last failure and the open
      duration after it is over, or the half-open trials are fewer than the limit. */
  lemma AcquiredIff(p: Policy, b: Backend, out: nat, es: seq<(Event, int)>, now: int)
    requires Fresh(b) && Legal(p, b, out, es)
    ensures Can(p, After(p, b, es), out, Acquired, now) <==>
            b.enabled && (p.probing || p.passiveHealth ==> !IsDown(p, es)) &&
            (HasTripped(p, es) ==>
               if TriedSince(es) then After(p, b, es).halfOpen < (if p.halfOpenRequests > 0 then p.halfOpenRequests else 1)
               else now >= LastFailure(es) + (if p.openSec > 0 then p.openSec else 30) * SECOND)
  {
    HealthyIff(p, b, es);
    EnabledStays(p, b, es);
    CircuitTracksFailures(p, b, es);
    if HasTripped(p, es) {
      TrippedIs(p, b, out, es);
    }
  }

  /** With probing, after a failed probe nothing is acquired until a success. */
  lemma FailedProbeRefuses(p: Policy, b: Backend, es: seq<(Event, int)>, i: nat, j: nat)
    requires Fresh(b) && p.probing && Legal(p, b, 0, es)
    requires i < j < |es| && es[i].0 == Probed(false) && NoSuccess(es, i, j)
    ensures es[j].0 != Acquired
  {
    var before := es[..j];
    LegalPrefix(p, b, 0, es, j);
    LegalPrefix(p, b, 0, es, j + 1);
    assert es[..j + 1][..j] == before;
    assert forall k :: 0 <= k < j ==> before[k] == es[k];
    assert Downs(p, before, i) && NoSuccess(before, i, j);
    AcquiredIff(p, b, 0, before, es[j].1);
  }

  /** A disabled backend is never acquired. */
  lemma DisabledIsNeverAcquired(p: Policy, b: Backend, es: seq<(Event, int)>, j: nat)
    requires Fresh(b) && !b.enabled && Legal(p, b, 0, es) && j < |es|
    ensures es[j].0 != Acquired
  {
    LegalPrefix(p, b, 0, es, j);
    LegalPrefix(p, b, 0, es, j + 1);
    assert es[..j + 1][..j] == es[..j];
    AcquiredIff(p, b, 0, es[..j], es[j].1);
  }

  // ----- Recovery --------------------------------------------------------------------

  /** Under a fixed configuration the in-flight count is the number of unreleased acquires. */
  lemma {:induction false} InFlightIsOutstanding(p: Policy, b: Backend, es: seq<(Event, int)>)
    requires Legal(p, b, b.inFlight, es)
    ensures After(p, b, es).inFlight == OutAfter(b.inFlight, es)
    ensures After(p, b, es).enabled == b.enabled
  {
    if es != [] {
      InFlightIsOutstanding(p, b, es[..|es| - 1]);
    }
  }

  /** Without active probes, an idle backend whose breaker has tripped can be acquired again at
      some time exactly when passive health is off: nothing else would mark it healthy. */
  lemma TrippedBackendRecoversIff(p: Policy, b: Backend, es: seq<(Event, int)>)
    requires Fresh(b) && b.enabled && p.breaker && !p.probing && Legal(p, b, 0, es)
    requires OutAfter(0, es) == 0 && FailuresSinceSuccess(es) >= Threshold(p)
    ensures (exists now :: Selectable(p, After(p, b, es), now)) <==> !p.passiveHealth
  {
    CircuitTracksFailures(p, b, es);
    InFlightIsOutstanding(p, b, es);
    HalfOpenWithinInFlight(p, b, es);
    var a := After(p, b, es);
    assert !p.passiveHealth ==> Selectable(p, a, a.reopenAt.value);
  }

  const PASSIVE := Policy(false, true, true, 1, 30, 1)

  /** One failed request, and the backend is idle and never selectable again. */
  lemma OneFailureIsForever()
    ensures
      var es := [(Acquired, 0), (Failed, 0), (Released, 0)];
      Legal(PASSIVE, BACKEND, 0, es) && OutAfter(0, es) == 0 &&
      forall now :: !Selectable(PASSIVE, After(PASSIVE, BACKEND, es), now)
  {
    var e1, e2, e3 := (Acquired, 0), (Failed, 0), (Released, 0);
    Extend(PASSIVE, BACKEND, 0, [], e1);
    assert [] + [e1] == [e1];
    Extend(PASSIVE, BACKEND, 0, [e1], e2);
    assert [e1] + [e2] == [e1, e2];
    Extend(PASSIVE, BACKEND, 0, [e1, e2], e3);
    assert [e1, e2] + [e3] == [e1, e2, e3];
  }

  /** And with passive health on it stays refused for ever: every later event is a refusal. */
  lemma {:induction false} UnprobedBackendStaysRefused(p: Policy, b: Backend, es: seq<(Event, int)>)
    requires p.passiveHealth && !p.probing && !b.healthy && Legal(p, b, 0, es)
    ensures After(p, b, es) == b && OutAfter(0, es) == 0
    ensures forall k :: 0 <= k < |es| ==> es[k].0 == Refused
  {
    if es != [] {
      var init := es[..|es| - 1];
      UnprobedBackendStaysRefused(p, b, init);
      assert forall k :: 0 <= k < |init| ==> init[k] == es[k];
    }
  }
}
