// The half-open counter of one backend against the trials really in flight. The counter does not
// know whose release it counts; here every trial has the name of its request.
module Trials {
  import opened UpstreamHealth
  import opened Transport
  import Text
  import opened Wrappers

  /** What happens to one backend: a request's operation, a probe's result, a release without an
      acquire. */
  datatype Move = By(tid: nat, event: Event) | Checked(ok: bool) | Loose

  function EventOf(m: Move): Event {
    match m
    case By(_, event) => event
    case Checked(ok) => Probed(ok)
    case Loose => Released
  }

  /** The backend, the requests that hold it, and those among them that it let in as trials since
      the circuit was last closed. */
  datatype View = View(b: Backend, holders: set<nat>, trials: set<nat>)

  function HoldersAfter(holders: set<nat>, m: Move): set<nat> {
    if m.By? && m.event == Acquired then holders + {m.tid}
    else if m.By? && m.event == Released then holders - {m.tid}
    else holders
  }

  function TrialsAfter(trials: set<nat>, m: Move, b: Backend): set<nat> {
    if Clears(EventOf(m)) then {}
    else if m.By? && m.event == Acquired && b.circuit == HalfOpen then trials + {m.tid}
    else if m.By? && m.event == Released then trials - {m.tid}
    else trials
  }

  function Follow(p: Policy, v: View, m: Move, now: int): View {
    var b := Step(p, v.b, EventOf(m), now);
    View(b, HoldersAfter(v.holders, m), TrialsAfter(v.trials, m, b))
  }

  predicate May(p: Policy, v: View, m: Move, now: int) {
    m.By? ==>
      match m.event
      case Acquired => m.tid !in v.holders && Selectable(p, v.b, now)
      case Refused => !Selectable(p, v.b, now)
      case Probed(_) => false
      case _ => m.tid in v.holders
  }

  function At(p: Policy, v: View, ms: seq<(Move, int)>): View {
    if ms == [] then v
    else
      var n := |ms| - 1;
      Follow(p, At(p, v, ms[..n]), ms[n].0, ms[n].1)
  }

  predicate Allowed(p: Policy, v: View, ms: seq<(Move, int)>) {
    ms != [] ==>
      var n := |ms| - 1;
      Allowed(p, v, ms[..n]) && May(p, At(p, v, ms[..n]), ms[n].0, ms[n].1)
  }

  lemma {:induction false} AllowedPrefix(p: Policy, v: View, ms: seq<(Move, int)>, n: nat)
    requires Allowed(p, v, ms) && n <= |ms|
    ensures Allowed(p, v, ms[..n])
    decreases |ms|
  {
    if n == |ms| {
      assert ms[..n] == ms;
    } else {
      AllowedPrefix(p, v, ms[..|ms| - 1], n);
      assert ms[..|ms| - 1][..n] == ms[..n];
    }
  }

  lemma NthMove(p: Policy, v: View, ms: seq<(Move, int)>, n: nat)
    requires Allowed(p, v, ms) && n < |ms|
    ensures At(p, v, ms[..n + 1]) == Follow(p, At(p, v, ms[..n]), ms[n].0, ms[n].1)
    ensures May(p, At(p, v, ms[..n]), ms[n].0, ms[n].1)
  {
    AllowedPrefix(p, v, ms, n + 1);
    assert ms[..n + 1][..n] == ms[..n];
  }

  /** Trials hold the backend, none are left while the circuit is closed, and the counter counts
      no more than there are. */
  predicate Consistent(p: Policy, v: View) {
    CountsTrials(p, v.b) && v.trials <= v.holders && (v.b.circuit == Closed ==> v.trials == {}) &&
    v.b.halfOpen <= |v.trials|
  }

  lemma TrialsGrow(trials: set<nat>, tid: nat)
    ensures tid !in trials ==> |trials + {tid}| == |trials| + 1
    ensures tid in trials ==> |trials - {tid}| == |trials| - 1
    ensures tid !in trials ==> trials - {tid} == trials
  {
  }

  lemma MoveKeepsConsistent(p: Policy, v: View, m: Move, now: int)
    requires Consistent(p, v) && May(p, v, m, now)
    ensures Consistent(p, Follow(p, v, m, now))
  {
    if m.By? {
      TrialsGrow(v.trials, m.tid);
    }
  }

  /** The counter never says more trials than there are, whatever is released. */
  lemma {:induction false} CounterNeverOverstates(p: Policy, v: View, ms: seq<(Move, int)>)
    requires Consistent(p, v) && Allowed(p, v, ms)
    ensures Consistent(p, At(p, v, ms))
  {
    if ms != [] {
      var n := |ms| - 1;
      CounterNeverOverstates(p, v, ms[..n]);
      MoveKeepsConsistent(p, At(p, v, ms[..n]), ms[n].0, ms[n].1);
    }
  }

  // ----- When the counter is exact ---------------------------------------------------

  /** A release that takes something off the counter is a trial's own. */
  predicate OwnRelease(v: View, m: Move) {
    EventOf(m) == Released && v.b.halfOpen > 0 ==> m.By? && m.tid in v.trials
  }

  predicate CountsAll(v: View) {
    v.b.halfOpen == |v.trials|
  }

  lemma MoveCountsAllIff(p: Policy, v: View, m: Move, now: int)
    requires Consistent(p, v) && CountsAll(v) && May(p, v, m, now)
    ensures CountsAll(Follow(p, v, m, now)) <==> OwnRelease(v, m)
  {
    if m.By? {
      TrialsGrow(v.trials, m.tid);
    }
  }

  predicate CountsAllAt(p: Policy, v: View, ms: seq<(Move, int)>, n: nat)
    requires n <= |ms|
  {
    CountsAll(At(p, v, ms[..n]))
  }

  predicate OwnReleaseAt(p: Policy, v: View, ms: seq<(Move, int)>, n: nat)
    requires n < |ms|
  {
    OwnRelease(At(p, v, ms[..n]), ms[n].0)
  }

  lemma NthCountsAllIff(p: Policy, v: View, ms: seq<(Move, int)>, n: nat)
    requires Consistent(p, v) && Allowed(p, v, ms) && n < |ms| && CountsAllAt(p, v, ms, n)
    ensures CountsAllAt(p, v, ms, n + 1) <==> OwnReleaseAt(p, v, ms, n)
  {
    NthMove(p, v, ms, n);
    AllowedPrefix(p, v, ms, n);
    CounterNeverOverstates(p, v, ms[..n]);
    MoveCountsAllIff(p, At(p, v, ms[..n]), ms[n].0, ms[n].1);
  }

  lemma {:induction false} OwnReleasesCountAll(p: Policy, v: View, ms: seq<(Move, int)>, n: nat)
    requires Consistent(p, v) && CountsAll(v) && Allowed(p, v, ms) && n <= |ms|
    requires forall k :: 0 <= k < n ==> OwnReleaseAt(p, v, ms, k)
    ensures CountsAllAt(p, v, ms, n)
  {
    if n > 0 {
      OwnReleasesCountAll(p, v, ms, n - 1);
      NthCountsAllIff(p, v, ms, n - 1);
    }
  }

  /** The counter is the number of real trials throughout a run if and only if every release that
      finds it above zero is a trial's own. */
  lemma CounterIsTrialsIff(p: Policy, v: View, ms: seq<(Move, int)>)
    requires Consistent(p, v) && CountsAll(v) && Allowed(p, v, ms)
    ensures (forall n :: 0 <= n <= |ms| ==> CountsAllAt(p, v, ms, n)) <==>
            (forall n :: 0 <= n < |ms| ==> OwnReleaseAt(p, v, ms, n))
  {
    if forall n :: 0 <= n < |ms| ==> OwnReleaseAt(p, v, ms, n) {
      forall n | 0 <= n <= |ms| ensures CountsAllAt(p, v, ms, n) {
        OwnReleasesCountAll(p, v, ms, n);
      }
    } else if forall n :: 0 <= n <= |ms| ==> CountsAllAt(p, v, ms, n) {
      forall n | 0 <= n < |ms| ensures OwnReleaseAt(p, v, ms, n) {
        assert CountsAllAt(p, v, ms, n) && CountsAllAt(p, v, ms, n + 1);
        NthCountsAllIff(p, v, ms, n);
      }
    }
  }

  // ----- When the limit bounds them --------------------------------------------------

  predicate WithinAt(p: Policy, v: View, ms: seq<(Move, int)>, n: nat)
    requires n <= |ms|
  {
    |At(p, v, ms[..n]).trials| <= HalfOpenLimit(p)
  }

  predicate IsAcquire(m: Move) {
    m.By? && m.event == Acquired
  }

  /** An acquire that finds the circuit not closed finds fewer trials than the limit. */
  predicate RoomAt(p: Policy, v: View, ms: seq<(Move, int)>, n: nat)
    requires n < |ms|
  {
    var u := At(p, v, ms[..n]);
    IsAcquire(ms[n].0) && u.b.circuit != Closed ==> |u.trials| < HalfOpenLimit(p)
  }

  /** The half that the source leaves out: it looks at a counter only when the circuit is half
      open already. */
  predicate RoomFromOpenAt(p: Policy, v: View, ms: seq<(Move, int)>, n: nat)
    requires n < |ms|
  {
    var u := At(p, v, ms[..n]);
    IsAcquire(ms[n].0) && u.b.circuit == Open ==> u.b.halfOpen < HalfOpenLimit(p)
  }

  lemma AcquireStartsTrial(p: Policy, v: View, m: Move, now: int)
    requires Consistent(p, v) && May(p, v, m, now)
    ensures
      var u := Follow(p, v, m, now);
      if IsAcquire(m) && v.b.circuit != Closed then |u.trials| == |v.trials| + 1 else |u.trials| <= |v.trials|
  {
    if m.By? {
      TrialsGrow(v.trials, m.tid);
    }
  }

  lemma NthWithinIff(p: Policy, v: View, ms: seq<(Move, int)>, n: nat)
    requires Consistent(p, v) && Allowed(p, v, ms) && n < |ms| && WithinAt(p, v, ms, n)
    ensures WithinAt(p, v, ms, n + 1) <==> RoomAt(p, v, ms, n)
  {
    NthMove(p, v, ms, n);
    AllowedPrefix(p, v, ms, n);
    CounterNeverOverstates(p, v, ms[..n]);
    AcquireStartsTrial(p, At(p, v, ms[..n]), ms[n].0, ms[n].1);
  }

  lemma {:induction false} RoomKeepsWithin(p: Policy, v: View, ms: seq<(Move, int)>, n: nat)
    requires Consistent(p, v) && Allowed(p, v, ms) && n <= |ms| && |v.trials| <= HalfOpenLimit(p)
    requires forall k :: 0 <= k < n ==> RoomAt(p, v, ms, k)
    ensures WithinAt(p, v, ms, n)
  {
    if n > 0 {
      RoomKeepsWithin(p, v, ms, n - 1);
      NthWithinIff(p, v, ms, n - 1);
    }
  }

  /** The real trials stay within the limit throughout a run if and only if every acquire that
      finds the circuit not closed finds fewer of them than the limit. */
  lemma TrialsWithinLimitIff(p: Policy, v: View, ms: seq<(Move, int)>)
    requires Consistent(p, v) && Allowed(p, v, ms) && |v.trials| <= HalfOpenLimit(p)
    ensures (forall n :: 0 <= n <= |ms| ==> WithinAt(p, v, ms, n)) <==>
            (forall n :: 0 <= n < |ms| ==> RoomAt(p, v, ms, n))
  {
    if forall n :: 0 <= n < |ms| ==> RoomAt(p, v, ms, n) {
      forall n | 0 <= n <= |ms| ensures WithinAt(p, v, ms, n) {
        RoomKeepsWithin(p, v, ms, n);
      }
    } else if forall n :: 0 <= n <= |ms| ==> WithinAt(p, v, ms, n) {
      forall n | 0 <= n < |ms| ensures RoomAt(p, v, ms, n) {
        assert WithinAt(p, v, ms, n) && WithinAt(p, v, ms, n + 1);
        NthWithinIff(p, v, ms, n);
      }
    }
  }

  lemma RoomIffFromOpen(p: Policy, v: View, ms: seq<(Move, int)>, n: nat)
    requires Consistent(p, v) && Allowed(p, v, ms) && n < |ms| && CountsAllAt(p, v, ms, n)
    ensures RoomAt(p, v, ms, n) <==> RoomFromOpenAt(p, v, ms, n)
  {
    NthMove(p, v, ms, n);
    AllowedPrefix(p, v, ms, n);
    CounterNeverOverstates(p, v, ms[..n]);
  }

  /** Where releases are the trials' own, that is the guard missing from the open circuit alone. */
  lemma OwnTrialsWithinLimitIff(p: Policy, v: View, ms: seq<(Move, int)>)
    requires Consistent(p, v) && CountsAll(v) && Allowed(p, v, ms) && |v.trials| <= HalfOpenLimit(p)
    requires forall n :: 0 <= n < |ms| ==> OwnReleaseAt(p, v, ms, n)
    ensures (forall n :: 0 <= n <= |ms| ==> WithinAt(p, v, ms, n)) <==>
            (forall n :: 0 <= n < |ms| ==> RoomFromOpenAt(p, v, ms, n))
  {
    TrialsWithinLimitIff(p, v, ms);
    forall n | 0 <= n < |ms| ensures RoomAt(p, v, ms, n) <==> RoomFromOpenAt(p, v, ms, n) {
      OwnReleasesCountAll(p, v, ms, n);
      RoomIffFromOpen(p, v, ms, n);
    }
  }

  // ----- One backend of the transport ------------------------------------------------

  function MoveOn(key: string, e: SysEvent): seq<Move> {
    match e
    case Request(tid, Track(k, event)) => if k == key then [By(tid, event)] else []
    case ProbeResult(k, ok) => if k == key then [Checked(ok)] else []
    case Stray(k) => if k == key then [Loose] else []
    case _ => []
  }

  function Timed(ms: seq<Move>, now: int): seq<(Move, int)> {
    seq(|ms|, i requires 0 <= i < |ms| => (ms[i], now))
  }

  /** What a run of the transport does to one key. */
  function MovesOn(key: string, es: seq<(SysEvent, int)>): seq<(Move, int)> {
    if es == [] then []
    else MovesOn(key, es[..|es| - 1]) + Timed(MoveOn(key, es[|es| - 1].0), es[|es| - 1].1)
  }

  predicate Sees(s: System, i: nat, v: View)
    requires i < |s.backends|
  {
    v.b == s.backends[i] && v.holders == Holders(s.held, s.backends[i].key)
  }

  lemma SameHolders(held: map<nat, string>, tid: nat, key: string, other: string)
    ensures tid !in held ==>
              Holders(held[tid := key], other) == if other == key then Holders(held, other) + {tid} else Holders(held, other)
    ensures tid in held ==>
              Holders(held - {tid}, other) == if other == held[tid] then Holders(held, other) - {tid} else Holders(held, other)
  {
  }

  lemma AppendMove(p: Policy, v: View, ms: seq<(Move, int)>, m: Move, now: int)
    ensures At(p, v, ms + [(m, now)]) == Follow(p, At(p, v, ms), m, now)
    ensures Allowed(p, v, ms) && May(p, At(p, v, ms), m, now) ==> Allowed(p, v, ms + [(m, now)])
  {
    assert (ms + [(m, now)])[..|ms|] == ms;
  }

  /** The backend at `i` is the first of its key. */
  predicate Leads(backends: seq<Backend>, i: nat) {
    i < |backends| && IndexOf(backends, backends[i].key) == Some(i) && !Text.Blank(backends[i].key)
  }

  /** An operation on a key changes the backend that leads it, and no other. */
  lemma TouchLeads(p: Policy, backends: seq<Backend>, i: nat, key: string, e: Event, now: int)
    requires Leads(backends, i)
    ensures
      var after := Touch(p, backends, key, e, now);
      Leads(after, i) && after[i].key == backends[i].key &&
      after[i] == if key == backends[i].key then Step(p, backends[i], e, now) else backends[i]
  {
    TouchKeepsIndex(p, backends, key, e, now, backends[i].key);
    IndexOfFirst(backends, key);
  }

  lemma RequestMoves(s: System, i: nat, v: View, tid: nat, event: Event, now: int)
    requires Leads(s.backends, i) && Sees(s, i, v)
    requires Possible(s, Request(tid, Track(s.backends[i].key, event)), now)
    ensures
      var key := s.backends[i].key;
      var t := Next(s, Request(tid, Track(key, event)), now);
      May(s.policy, v, By(tid, event), now) && i < |t.backends| && t.backends[i].key == key &&
      Sees(t, i, Follow(s.policy, v, By(tid, event), now))
  {
    var key := s.backends[i].key;
    TouchLeads(s.policy, s.backends, i, key, event, now);
    SameHolders(s.held, tid, key, key);
  }

  lemma OtherRequestMoves(s: System, i: nat, v: View, tid: nat, key: string, event: Event, now: int)
    requires Leads(s.backends, i) && Sees(s, i, v) && key != s.backends[i].key
    requires Possible(s, Request(tid, Track(key, event)), now)
    ensures
      var t := Next(s, Request(tid, Track(key, event)), now);
      i < |t.backends| && Sees(t, i, v)
  {
    TouchLeads(s.policy, s.backends, i, key, event, now);
    SameHolders(s.held, tid, key, s.backends[i].key);
  }

  lemma OutsideMoves(s: System, i: nat, v: View, e: SysEvent, now: int)
    requires Leads(s.backends, i) && Sees(s, i, v) && (e.ProbeResult? || e.Stray?)
    ensures
      var t, key := Next(s, e, now), s.backends[i].key;
      i < |t.backends| && t.backends[i].key == key &&
      if e.target != key then Sees(t, i, v)
      else Sees(t, i, Follow(s.policy, v, if e.Stray? then Loose else Checked(e.ok), now))
  {
    TouchLeads(s.policy, s.backends, i, e.target, if e.Stray? then Released else Probed(e.ok), now);
  }

  /** A run of the transport under one configuration is, for the first backend of each key, a run of
      this kind. */
  lemma {:induction false} TransportRunsAreTrials(s: System, i: nat, trials: set<nat>, es: seq<(SysEvent, int)>)
    requires Leads(s.backends, i) && Run(s, es)
    requires forall k :: 0 <= k < |es| ==> !es[k].0.Reconfigured?
    ensures
      var key, t := s.backends[i].key, RunTo(s, es);
      var v := View(s.backends[i], Holders(s.held, key), trials);
      t.policy == s.policy && Leads(t.backends, i) && t.backends[i].key == key &&
      Allowed(s.policy, v, MovesOn(key, es)) && Sees(t, i, At(s.policy, v, MovesOn(key, es)))
  {
    if es != [] {
      var key := s.backends[i].key;
      var init, e, now := es[..|es| - 1], es[|es| - 1].0, es[|es| - 1].1;
      assert forall k :: 0 <= k < |init| ==> init[k] == es[k];
      TransportRunsAreTrials(s, i, trials, init);
      var v := View(s.backends[i], Holders(s.held, key), trials);
      LastMove(RunTo(s, init), i, s.policy, v, MovesOn(key, init), e, now);
    }
  }

  lemma LastMove(s: System, i: nat, p: Policy, v: View, ms: seq<(Move, int)>, e: SysEvent, now: int)
    requires s.policy == p && Leads(s.backends, i) && Possible(s, e, now) && !e.Reconfigured?
    requires Allowed(p, v, ms) && Sees(s, i, At(p, v, ms))
    ensures
      var t, key := Next(s, e, now), s.backends[i].key;
      var next := ms + Timed(MoveOn(key, e), now);
      t.policy == p && Leads(t.backends, i) && t.backends[i].key == key &&
      Allowed(p, v, next) && Sees(t, i, At(p, v, next))
  {
    var key, u := s.backends[i].key, At(p, v, ms);
    match e {
      case Request(tid, Send(_)) =>
        assert ms + Timed([], now) == ms;
      case Request(tid, Track(k, event)) =>
        TouchLeads(s.policy, s.backends, i, k, event, now);
        if k == key {
          RequestMoves(s, i, u, tid, event, now);
          AppendMove(p, v, ms, By(tid, event), now);
          assert Timed([By(tid, event)], now) == [(By(tid, event), now)];
        } else {
          OtherRequestMoves(s, i, u, tid, k, event, now);
          assert ms + Timed([], now) == ms;
        }
      case ProbeResult(k, ok) =>
        OutsideMoves(s, i, u, e, now);
        TouchLeads(s.policy, s.backends, i, k, Probed(ok), now);
        AppendMove(p, v, ms, Checked(ok), now);
        assert Timed([Checked(ok)], now) == [(Checked(ok), now)];
        assert ms + Timed([], now) == ms;
      case Stray(k) =>
        OutsideMoves(s, i, u, e, now);
        TouchLeads(s.policy, s.backends, i, k, Released, now);
        AppendMove(p, v, ms, Loose, now);
        assert Timed([Loose], now) == [(Loose, now)];
        assert ms + Timed([], now) == ms;
    }
  }
}
