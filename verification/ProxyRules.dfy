// Applying and rolling back proxy rules: three writes that succeed together or are compensated,
// and a bounded stack of earlier texts. Preparing a text and hashing stay abstract; RulesText puts
// the preparation of a configuration in their place.
module ProxyRules {
  import Text
  import Routing
  import opened Wrappers

  type Config = Routing.Config

  /** What a rules text prepares to: the configuration and its normalized text. */
  datatype Prepared = Prepared(cfg: Config, raw: string)

  datatype Snapshot = Snapshot(raw: string, at: string)

  datatype Env = Env(
    prepare: string -> Option<Prepared>, etagOf: string -> string, hasStore: bool, rollbackMax: int)

  datatype State = State(
    raw: string, etag: string, cfg: Config,
    live: Config,                     // what the transport and the health monitor were last given
    file: string, blob: Option<(string, string)>, stack: seq<Snapshot>)

  /** Whether each write of one call succeeds, the compensating ones included. */
  datatype Io = Io(persist: bool, upsert: bool, transport: bool, restoreFile: bool, restoreBlob: bool)

  datatype Outcome = Done | Invalid | Conflict | NoSnapshot | PersistFailed | UpsertFailed | TransportFailed

  function ClampRollbackMax(v: int): (r: int)
    ensures 1 <= r <= 64
  {
    if v <= 0 then 8 else if v > 64 then 64 else v
  }

  /** pushRollbackLocked */
  function Push(stack: seq<Snapshot>, e: Snapshot, max: int): seq<Snapshot> {
    if Text.Blank(e.raw) || max <= 0 then stack
    else
      var pushed := stack + [e];
      if |pushed| > max then pushed[|pushed| - max..] else pushed
  }

  /** The writes both operations share: file, then blob, then transport, undone in part on failure. */
  function Install(env: Env, s: State, p: Prepared, io: Io): (State, Outcome) {
    if !io.persist then (s, PersistFailed)
    else
      var file := if io.restoreFile then s.raw else p.raw;
      if env.hasStore && !io.upsert then (s.(file := file), UpsertFailed)
      else
        var blob := if env.hasStore then Some((p.raw, env.etagOf(p.raw))) else s.blob;
        if !io.transport then
          (s.(file := file, blob := if env.hasStore && io.restoreBlob then Some((s.raw, s.etag)) else blob),
           TransportFailed)
        else
          (State(p.raw, env.etagOf(p.raw), p.cfg, p.cfg, p.raw, blob, s.stack), Done)
  }

  function ApplyTo(env: Env, s: State, ifMatch: string, text: string, at: string, io: Io): (State, Outcome) {
    match env.prepare(text)
    case None => (s, Invalid)
    case Some(p) =>
      var tag := Text.Trim(ifMatch);
      if tag != "" && tag != s.etag then (s, Conflict)
      else
        var (t, outcome) := Install(env, s, p, io);
        if outcome == Done then (t.(stack := Push(s.stack, Snapshot(s.raw, at), env.rollbackMax)), Done)
        else (t, outcome)
  }

  function RollbackOf(env: Env, s: State, io: Io): (State, Outcome) {
    if s.stack == [] then (s, NoSnapshot)
    else
      var top, rest := s.stack[|s.stack| - 1], s.stack[..|s.stack| - 1];
      match env.prepare(top.raw)
      case None => (s.(stack := Push(rest, top, env.rollbackMax)), Invalid)
      case Some(p) =>
        var (t, outcome) := Install(env, s.(stack := rest), p, io);
        if outcome == Done then (t, Done)
        else (t.(stack := Push(rest, top, env.rollbackMax)), outcome)
  }

  /** Right after start: the text is prepared, the file is as it was found. */
  function Started(env: Env, p: Prepared, file: string, blob: Option<(string, string)>): State {
    State(p.raw, env.etagOf(p.raw), p.cfg, p.cfg, file, blob, [])
  }

  class Runtime {
    const env: Env
    var raw: string
    var etag: string
    var cfg: Config
    var live: Config
    var file: string
    var blob: Option<(string, string)>
    var stack: seq<Snapshot>

    ghost function Abs(): State
      reads this
    {
      State(raw, etag, cfg, live, file, blob, stack)
    }

    /** InitProxyRuntime over a file whose text prepares; the file itself is not rewritten. */
    constructor (base: Env, p: Prepared, file: string, blob: Option<(string, string)>)
      requires base.prepare(file) == Some(p)
      ensures env == base.(rollbackMax := ClampRollbackMax(base.rollbackMax))
      ensures Abs() == Started(env, p, file, blob) && Coherent(env, Abs())
    {
      env := base.(rollbackMax := ClampRollbackMax(base.rollbackMax));
      raw, etag, cfg, live := p.raw, base.etagOf(p.raw), p.cfg, p.cfg;
      this.file, this.blob, stack := file, blob, [];
    }

    method Persist(text: string, ok: bool)
      modifies this`file
      ensures file == if ok then text else old(file)
    {
      if ok {
        file := text;
      }
    }

    /** Without a store the upsert succeeds and does nothing. */
    method Upsert(text: string, tag: string, works: bool) returns (ok: bool)
      modifies this`blob
      ensures ok <==> !env.hasStore || works
      ensures blob == if env.hasStore && works then Some((text, tag)) else old(blob)
    {
      if env.hasStore && works {
        blob := Some((text, tag));
      }
      return !env.hasStore || works;
    }

    method PushSnapshot(e: Snapshot)
      modifies this`stack
      ensures stack == Push(old(stack), e, env.rollbackMax)
    {
      if Text.Blank(e.raw) || env.rollbackMax <= 0 {
        return;
      }
      stack := stack + [e];
      if |stack| > env.rollbackMax {
        stack := stack[|stack| - env.rollbackMax..];
      }
    }

    /** File, then blob, then transport; on a failure what was already written is put back. */
    method InstallRules(p: Prepared, io: Io) returns (outcome: Outcome)
      modifies this`raw, this`etag, this`cfg, this`live, this`file, this`blob
      ensures (Abs(), outcome) == Install(env, old(Abs()), p, io)
    {
      var prevRaw, prevETag := raw, etag;
      Persist(p.raw, io.persist);
      if !io.persist {
        return PersistFailed;
      }
      var stored := Upsert(p.raw, env.etagOf(p.raw), io.upsert);
      if !stored {
        Persist(prevRaw, io.restoreFile);
        return UpsertFailed;
      }
      if !io.transport {
        Persist(prevRaw, io.restoreFile);
        var _ := Upsert(prevRaw, prevETag, io.restoreBlob);
        return TransportFailed;
      }
      raw, etag, cfg, live := p.raw, env.etagOf(p.raw), p.cfg, p.cfg;
      return Done;
    }

    method Apply(ifMatch: string, text: string, at: string, io: Io) returns (outcome: Outcome)
      modifies this
      ensures (Abs(), outcome) == ApplyTo(env, old(Abs()), ifMatch, text, at, io)
      ensures outcome == Invalid <==> env.prepare(text).None?
      ensures outcome == Conflict <==> env.prepare(text).Some? && Text.Trim(ifMatch) != "" && Text.Trim(ifMatch) != old(etag)
      ensures outcome == Invalid || outcome == Conflict ==> Abs() == old(Abs())
      ensures outcome == Done ==>
                env.prepare(text) == Some(Prepared(cfg, raw)) && etag == env.etagOf(raw) && live == cfg && file == raw
    {
      var prepared := env.prepare(text);
      if prepared.None? {
        return Invalid;
      }
      var p := prepared.value;
      var tag := Text.Trim(ifMatch);
      if tag != "" && tag != etag {
        return Conflict;
      }
      var prevRaw := raw;
      outcome := InstallRules(p, io);
      if outcome == Done {
        PushSnapshot(Snapshot(prevRaw, at));
      }
    }

    method Rollback(io: Io) returns (outcome: Outcome)
      modifies this
      ensures (Abs(), outcome) == RollbackOf(env, old(Abs()), io)
    {
      if |stack| == 0 {
        return NoSnapshot;
      }
      var entry := stack[|stack| - 1];
      stack := stack[..|stack| - 1];
      var prepared := env.prepare(entry.raw);
      if prepared.None? {
        PushSnapshot(entry);
        return Invalid;
      }
      outcome := InstallRules(prepared.value, io);
      if outcome != Done {
        PushSnapshot(entry);
      }
    }
  }

  // ----- Runs ------------------------------------------------------------------------

  datatype Op = Apply(ifMatch: string, text: string, at: string, io: Io) | Rollback(io: Io)

  function Do(env: Env, s: State, op: Op): (State, Outcome) {
    match op
    case Apply(ifMatch, text, at, io) => ApplyTo(env, s, ifMatch, text, at, io)
    case Rollback(io) => RollbackOf(env, s, io)
  }

  function After(env: Env, s: State, ops: seq<Op>): State {
    if ops == [] then s else Do(env, After(env, s, ops[..|ops| - 1]), ops[|ops| - 1]).0
  }

  predicate PrintsAt(env: Env, t: string) {
    env.prepare(t).Some? ==> !Text.Blank(env.prepare(t).value.raw)
  }

  /** What preparation prints is never blank: it is a JSON object. */
  ghost predicate Prints(env: Env) {
    forall t :: PrintsAt(env, t)
  }

  /** Some text prepares to this one. Whether this one prepares, and to what, is another matter. */
  ghost predicate Printed(env: Env, raw: string) {
    exists t :: env.prepare(t).Some? && env.prepare(t).value.raw == raw
  }

  ghost predicate AllPrinted(env: Env, stack: seq<Snapshot>) {
    forall e :: e in stack ==> Printed(env, e.raw)
  }

  /** Text, tag, configuration and what the transport runs come from one preparation; the stack is
      bounded and holds texts that preparation printed. */
  ghost predicate Coherent(env: Env, s: State) {
    (exists t :: env.prepare(t) == Some(Prepared(s.cfg, s.raw))) && s.live == s.cfg && s.etag == env.etagOf(s.raw) &&
    |s.stack| <= env.rollbackMax && AllPrinted(env, s.stack)
  }

  /** The file and the blob carry the current text. */
  predicate Saved(env: Env, s: State) {
    s.file == s.raw && (env.hasStore ==> s.blob == Some((s.raw, s.etag)))
  }

  lemma PushBounded(stack: seq<Snapshot>, e: Snapshot, max: int)
    requires max > 0 && |stack| <= max && !Text.Blank(e.raw)
    ensures 0 < |Push(stack, e, max)| <= max && Push(stack, e, max)[|Push(stack, e, max)| - 1] == e
    ensures |stack| < max ==> Push(stack, e, max) == stack + [e]
    ensures |stack| == max ==> Push(stack, e, max) == stack[1..] + [e]
  {
  }

  lemma PrintedIsNotBlank(env: Env, raw: string)
    requires Prints(env) && Printed(env, raw)
    ensures !Text.Blank(raw)
  {
    var t :| env.prepare(t).Some? && env.prepare(t).value.raw == raw;
    assert PrintsAt(env, t);
  }

  lemma CurrentIsPrinted(env: Env, s: State)
    requires Prints(env) && Coherent(env, s)
    ensures Printed(env, s.raw) && !Text.Blank(s.raw)
  {
    var t :| env.prepare(t) == Some(Prepared(s.cfg, s.raw));
    assert env.prepare(t).value.raw == s.raw;
    PrintedIsNotBlank(env, s.raw);
  }

  lemma InstallCoherent(env: Env, s: State, text: string, io: Io)
    requires Coherent(env, s) && env.prepare(text).Some?
    ensures
      var (t, outcome) := Install(env, s, env.prepare(text).value, io);
      Coherent(env, t) && t.stack == s.stack &&
      (outcome == Done ==> t.raw == env.prepare(text).value.raw && (!env.hasStore || io.upsert)) &&
      (outcome == Done ==> Saved(env, t)) &&
      (outcome != Done ==> t == s.(file := t.file, blob := t.blob))
  {
  }

  lemma ApplyCoherent(env: Env, s: State, op: Op)
    requires Prints(env) && env.rollbackMax > 0 && Coherent(env, s) && op.Apply?
    ensures Coherent(env, Do(env, s, op).0)
    ensures Do(env, s, op).1 != Done ==>
              Do(env, s, op).0 == s.(file := Do(env, s, op).0.file, blob := Do(env, s, op).0.blob)
    ensures Do(env, s, op).1 == Done ==>
              Saved(env, Do(env, s, op).0) && env.prepare(op.text).Some? &&
              Do(env, s, op).0.raw == env.prepare(op.text).value.raw &&
              Do(env, s, op).0.stack == Push(s.stack, Snapshot(s.raw, op.at), env.rollbackMax)
  {
    if env.prepare(op.text).Some? {
      InstallCoherent(env, s, op.text, op.io);
      CurrentIsPrinted(env, s);
      PushBounded(s.stack, Snapshot(s.raw, op.at), env.rollbackMax);
    }
  }

  lemma RollbackCoherent(env: Env, s: State, io: Io)
    requires Prints(env) && env.rollbackMax > 0 && Coherent(env, s)
    ensures
      var (t, outcome) := RollbackOf(env, s, io);
      Coherent(env, t) && (outcome != Done ==> t == s.(file := t.file, blob := t.blob)) &&
      (outcome == Done ==> s.stack != [] && Saved(env, t) && t.stack == s.stack[..|s.stack| - 1] &&
                           env.prepare(s.stack[|s.stack| - 1].raw) == Some(Prepared(t.cfg, t.raw)))
  {
    if s.stack != [] {
      var n := |s.stack| - 1;
      assert s.stack == s.stack[..n] + [s.stack[n]];
      assert s.stack[n] in s.stack;
      if env.prepare(s.stack[n].raw).Some? {
        InstallCoherent(env, s.(stack := s.stack[..n]), s.stack[n].raw, io);
      }
      PrintedIsNotBlank(env, s.stack[n].raw);
      PushBounded(s.stack[..n], s.stack[n], env.rollbackMax);
    }
  }

  lemma {:induction false} StepKeepsCoherent(env: Env, s: State, op: Op)
    requires Prints(env) && env.rollbackMax > 0 && Coherent(env, s)
    ensures Coherent(env, Do(env, s, op).0)
    ensures Do(env, s, op).1 != Done ==>
              Do(env, s, op).0 == s.(file := Do(env, s, op).0.file, blob := Do(env, s, op).0.blob)
    ensures Do(env, s, op).1 == Done ==> Saved(env, Do(env, s, op).0)
  {
    match op
    case Apply(_, _, _, _) => ApplyCoherent(env, s, op);
    case Rollback(io) => RollbackCoherent(env, s, io);
  }

  /** Every run keeps text, tag, configuration, transport and stack coherent, and the stack bounded. */
  lemma {:induction false} RunKeepsCoherent(env: Env, s: State, ops: seq<Op>)
    requires Prints(env) && env.rollbackMax > 0 && Coherent(env, s)
    ensures Coherent(env, After(env, s, ops))
  {
    if ops != [] {
      RunKeepsCoherent(env, s, ops[..|ops| - 1]);
      StepKeepsCoherent(env, After(env, s, ops[..|ops| - 1]), ops[|ops| - 1]);
    }
  }

  predicate Restores(io: Io) {
    io.restoreFile && io.restoreBlob
  }

  /** When compensating writes succeed, a step that fails leaves everything exactly as it was if
      and only if nothing had to be compensated or what is compensated was already saved: right
      after start the file may hold an unnormalized text, and then it is replaced. */
  lemma FailedStepLeavesStateIff(env: Env, s: State, op: Op)
    requires Prints(env) && env.rollbackMax > 0 && Coherent(env, s)
    requires Restores(op.io) && Do(env, s, op).1 != Done
    ensures
      var (t, outcome) := Do(env, s, op);
      t == s <==> match outcome
                  case UpsertFailed => s.file == s.raw
                  case TransportFailed => Saved(env, s)
                  case _ => true
  {
    StepKeepsCoherent(env, s, op);
  }

  predicate LeavesState(env: Env, s: State, op: Op) {
    Restores(op.io) && Do(env, s, op).1 != Done ==> Do(env, s, op).0 == s
  }

  /** So before the call: every step that may fail with its compensation working will leave the state
      as it is, if and only if file and blob carry the current text. */
  lemma FailuresLeaveStateIff(env: Env, s: State)
    requires Prints(env) && env.rollbackMax > 0 && Coherent(env, s)
    ensures (forall op :: LeavesState(env, s, op)) <==> Saved(env, s)
  {
    if Saved(env, s) {
      forall op ensures LeavesState(env, s, op) {
        if Restores(op.io) && Do(env, s, op).1 != Done {
          FailedStepLeavesStateIff(env, s, op);
        }
      }
    } else {
      var text :| env.prepare(text) == Some(Prepared(s.cfg, s.raw));
      var op := Apply("", text, "", WORKS.(transport := false));
      assert Text.Trim("") == "";
      FailedStepLeavesStateIff(env, s, op);
      assert !LeavesState(env, s, op);
    }
  }

  /** Once saved, always saved: file and blob follow the text through every run. */
  lemma {:induction false} RunKeepsSaved(env: Env, s: State, ops: seq<Op>)
    requires Prints(env) && env.rollbackMax > 0 && Coherent(env, s) && Saved(env, s)
    requires forall k :: 0 <= k < |ops| ==> Restores(ops[k].io)
    ensures Saved(env, After(env, s, ops))
  {
    if ops != [] {
      var init := ops[..|ops| - 1];
      assert forall k :: 0 <= k < |init| ==> init[k] == ops[k];
      RunKeepsSaved(env, s, init);
      RunKeepsCoherent(env, s, init);
      StepKeepsCoherent(env, After(env, s, init), ops[|ops| - 1]);
    }
  }

  // ----- The bounded stack against an unbounded one ----------------------------------

  /** The same run with a stack that forgets nothing. */
  function Ideal(env: Env, s: State, ops: seq<Op>, all: seq<Snapshot>): seq<Snapshot> {
    if ops == [] then all
    else
      var n := |ops| - 1;
      var before := After(env, s, ops[..n]);
      var ideal := Ideal(env, s, ops[..n], all);
      if Do(env, before, ops[n]).1 != Done then ideal
      else if ops[n].Apply? then ideal + [Snapshot(before.raw, ops[n].at)]
      else if ideal == [] then [] else ideal[..|ideal| - 1]
  }

  predicate IsSuffix<T(==)>(a: seq<T>, b: seq<T>) {
    |a| <= |b| && a == b[|b| - |a|..]
  }

  lemma SuffixPush(a: seq<Snapshot>, b: seq<Snapshot>, e: Snapshot, max: int)
    requires IsSuffix(a, b) && max > 0 && |a| <= max && !Text.Blank(e.raw)
    ensures IsSuffix(Push(a, e, max), b + [e])
  {
    PushBounded(a, e, max);
  }

  lemma SuffixPop(a: seq<Snapshot>, b: seq<Snapshot>)
    requires IsSuffix(a, b) && a != []
    ensures IsSuffix(a[..|a| - 1], b[..|b| - 1]) && a[|a| - 1] == b[|b| - 1]
  {
  }

  /** The stack is always the most recent part of the unbounded one. */
  lemma {:induction false} StackIsRecentHistory(env: Env, s: State, ops: seq<Op>, all: seq<Snapshot>)
    requires Prints(env) && env.rollbackMax > 0 && Coherent(env, s) && IsSuffix(s.stack, all)
    ensures IsSuffix(After(env, s, ops).stack, Ideal(env, s, ops, all))
  {
    if ops != [] {
      var n := |ops| - 1;
      StackIsRecentHistory(env, s, ops[..n], all);
      RunKeepsCoherent(env, s, ops[..n]);
      var before, ideal := After(env, s, ops[..n]), Ideal(env, s, ops[..n], all);
      match ops[n]
      case Apply(_, _, at, _) =>
        ApplyCoherent(env, before, ops[n]);
        CurrentIsPrinted(env, before);
        SuffixPush(before.stack, ideal, Snapshot(before.raw, at), env.rollbackMax);
      case Rollback(io) =>
        RollbackCoherent(env, before, io);
        if before.stack != [] {
          SuffixPop(before.stack, ideal);
        }
    }
  }

  const WORKS := Io(true, true, true, true, true)

  function ApplyAll(env: Env, s: State, texts: seq<(string, string)>): State {
    if texts == [] then s
    else
      var n := |texts| - 1;
      ApplyTo(env, ApplyAll(env, s, texts[..n]), "", texts[n].0, texts[n].1, WORKS).0
  }

  function RollbackTimes(env: Env, s: State, j: nat): State
    decreases j
  {
    if j == 0 then s else RollbackTimes(env, RollbackOf(env, s, WORKS).0, j - 1)
  }

  /** The text current after the first `n` of these applies. */
  function RawAfter(env: Env, s: State, texts: seq<(string, string)>, n: nat): string
    requires n <= |texts| && AllPrepare(env, texts)
  {
    if n == 0 then s.raw else env.prepare(texts[n - 1].0).value.raw
  }

  predicate AllPrepare(env: Env, texts: seq<(string, string)>) {
    forall k :: 0 <= k < |texts| ==> env.prepare(texts[k].0).Some?
  }

  /** Everything the applies pushed, on top of the old stack. */
  function History(env: Env, s: State, texts: seq<(string, string)>): seq<Snapshot>
    requires AllPrepare(env, texts)
  {
    s.stack + seq(|texts|, i requires 0 <= i < |texts| => Snapshot(RawAfter(env, s, texts, i), texts[i].1))
  }

  lemma HistoryPush(env: Env, s: State, texts: seq<(string, string)>)
    requires AllPrepare(env, texts) && texts != []
    ensures AllPrepare(env, texts[..|texts| - 1])
    ensures
      var init := texts[..|texts| - 1];
      History(env, s, texts) ==
      History(env, s, init) + [Snapshot(RawAfter(env, s, init, |init|), texts[|texts| - 1].1)]
  {
    var init := texts[..|texts| - 1];
    assert forall k :: 0 <= k < |init| ==> init[k] == texts[k];
  }

  lemma ApplyWorks(env: Env, s: State, text: string, at: string)
    requires Prints(env) && env.rollbackMax > 0 && Coherent(env, s) && env.prepare(text).Some?
    ensures
      var t := ApplyTo(env, s, "", text, at, WORKS).0;
      Coherent(env, t) && Saved(env, t) && t.raw == env.prepare(text).value.raw &&
      t.stack == Push(s.stack, Snapshot(s.raw, at), env.rollbackMax)
  {
    assert Text.Trim("") == "";
    ApplyCoherent(env, s, Apply("", text, at, WORKS));
  }

  /** What some applies make of a state. */
  ghost predicate Stacked(env: Env, s: State, texts: seq<(string, string)>, t: State)
    requires AllPrepare(env, texts)
  {
    Coherent(env, t) && (texts != [] ==> Saved(env, t)) && t.raw == RawAfter(env, s, texts, |texts|) &&
    IsSuffix(t.stack, History(env, s, texts)) && (|t.stack| < env.rollbackMax ==> |texts| <= |t.stack|)
  }

  lemma OneMoreApply(env: Env, s: State, texts: seq<(string, string)>, u: State)
    requires Prints(env) && env.rollbackMax > 0 && AllPrepare(env, texts) && texts != []
    requires AllPrepare(env, texts[..|texts| - 1]) && Stacked(env, s, texts[..|texts| - 1], u)
    ensures Stacked(env, s, texts, ApplyTo(env, u, "", texts[|texts| - 1].0, texts[|texts| - 1].1, WORKS).0)
  {
    var n := |texts| - 1;
    HistoryPush(env, s, texts);
    ApplyWorks(env, u, texts[n].0, texts[n].1);
    CurrentIsPrinted(env, u);
    SuffixPush(u.stack, History(env, s, texts[..n]), Snapshot(u.raw, texts[n].1), env.rollbackMax);
    PushBounded(u.stack, Snapshot(u.raw, texts[n].1), env.rollbackMax);
  }

  lemma {:induction false} ApplyAllStacks(env: Env, s: State, texts: seq<(string, string)>)
    requires Prints(env) && env.rollbackMax > 0 && Coherent(env, s) && AllPrepare(env, texts)
    ensures Stacked(env, s, texts, ApplyAll(env, s, texts))
  {
    if texts != [] {
      HistoryPush(env, s, texts);
      ApplyAllStacks(env, s, texts[..|texts| - 1]);
      OneMoreApply(env, s, texts, ApplyAll(env, s, texts[..|texts| - 1]));
    }
  }

  lemma HistoryAt(env: Env, s: State, texts: seq<(string, string)>, j: nat)
    requires AllPrepare(env, texts) && 0 < j <= |texts|
    ensures
      var h := History(env, s, texts);
      |h| == |s.stack| + |texts| && h[|h| - j].raw == RawAfter(env, s, texts, |texts| - j)
  {
  }

  lemma SuffixAt(a: seq<Snapshot>, b: seq<Snapshot>, j: nat)
    requires IsSuffix(a, b) && 0 < j <= |b|
    ensures j <= |a| ==> a[|a| - j] == b[|b| - j]
  {
  }

  /** The j-th entry from the top of the stack is the text current before the last j applies. */
  lemma SnapshotAt(env: Env, s: State, texts: seq<(string, string)>, j: nat)
    requires Prints(env) && env.rollbackMax > 0 && Coherent(env, s) && AllPrepare(env, texts)
    requires 0 < j <= |texts| && j <= env.rollbackMax
    ensures
      var stack := ApplyAll(env, s, texts).stack;
      j <= |stack| && stack[|stack| - j].raw == RawAfter(env, s, texts, |texts| - j)
  {
    ApplyAllStacks(env, s, texts);
    HistoryAt(env, s, texts, j);
    SuffixAt(ApplyAll(env, s, texts).stack, History(env, s, texts), j);
  }

  // ----- Tags ------------------------------------------------------------------------

  /** An apply of a valid text is refused as a conflict, changing nothing, if and only if its tag is
      not blank and is not the current one. Otherwise, with working writes, its text is in force. */
  lemma ConflictIff(env: Env, s: State, ifMatch: string, text: string, at: string, io: Io)
    requires env.prepare(text).Some?
    ensures
      var (t, outcome) := Do(env, s, Apply(ifMatch, text, at, io));
      var tag, p := Text.Trim(ifMatch), env.prepare(text).value;
      (outcome == Conflict <==> tag != "" && tag != s.etag) &&
      (outcome == Conflict ==> t == s) &&
      (outcome != Conflict && io.persist && io.upsert && io.transport ==>
         outcome == Done && t.raw == p.raw && t.cfg == p.cfg == t.live && t.etag == env.etagOf(p.raw) && t.file == p.raw &&
         (env.hasStore ==> t.blob == Some((p.raw, env.etagOf(p.raw)))))
  {
  }

  /** A text that does not prepare is refused as invalid, whatever the tag, and changes nothing. */
  lemma InvalidIff(env: Env, s: State, ifMatch: string, text: string, at: string, io: Io)
    ensures
      var (t, outcome) := Do(env, s, Apply(ifMatch, text, at, io));
      (outcome == Invalid <==> env.prepare(text).None?) && (outcome == Invalid ==> t == s)
  {
  }

  predicate DoneAt(env: Env, s: State, ops: seq<Op>, n: nat)
    requires n < |ops|
  {
    Do(env, After(env, s, ops[..n]), ops[n]).1 == Done
  }

  lemma TagStays(env: Env, s: State, op: Op)
    requires Do(env, s, op).1 != Done
    ensures Do(env, s, op).0.etag == s.etag
  {
  }

  /** A tag that is not current stays so until something done brings it back. */
  lemma {:induction false} TagStaysAway(env: Env, s: State, ops: seq<Op>, tag: string, i: nat, j: nat)
    requires i <= j <= |ops| && After(env, s, ops[..i]).etag != tag
    requires forall k :: i <= k < j && DoneAt(env, s, ops, k) ==> !BringsBack(env, s, ops, tag, k)
    ensures After(env, s, ops[..j]).etag != tag
    decreases j
  {
    if i < j {
      TagStaysAway(env, s, ops, tag, i, j - 1);
      assert ops[..j][..j - 1] == ops[..j - 1];
      if DoneAt(env, s, ops, j - 1) {
        assert !BringsBack(env, s, ops, tag, j - 1);
      } else {
        TagStays(env, After(env, s, ops[..j - 1]), ops[j - 1]);
      }
    }
  }

  predicate BringsBack(env: Env, s: State, ops: seq<Op>, tag: string, n: nat)
    requires n < |ops|
  {
    After(env, s, ops[..n + 1]).etag == tag
  }

  /** Whenever an apply that carries a tag succeeds, that tag was the current one; afterwards the
      current tag is that of its prepared text. */
  lemma SuccessNeedsCurrentTag(env: Env, s: State, ops: seq<Op>, i: nat)
    requires i < |ops| && ops[i].Apply? && Text.Trim(ops[i].ifMatch) != "" && DoneAt(env, s, ops, i)
    ensures env.prepare(ops[i].text).Some? && After(env, s, ops[..i]).etag == Text.Trim(ops[i].ifMatch)
    ensures After(env, s, ops[..i + 1]).etag == env.etagOf(env.prepare(ops[i].text).value.raw)
  {
    assert ops[..i + 1][..i] == ops[..i];
  }

  /** Nobody overwrites unseen: of two applies that carry the same tag, once the first has put a text
      of another tag in force, the second is refused as a conflict and changes nothing, unless an
      apply or a rollback in between has brought the tag back. */
  lemma SecondApplyConflicts(env: Env, s: State, ops: seq<Op>, i: nat, j: nat)
    requires i < j < |ops| && ops[i].Apply? && ops[j].Apply? && env.prepare(ops[j].text).Some?
    requires Text.Trim(ops[i].ifMatch) == Text.Trim(ops[j].ifMatch) != "" && DoneAt(env, s, ops, i)
    requires env.prepare(ops[i].text).Some? && env.etagOf(env.prepare(ops[i].text).value.raw) != Text.Trim(ops[i].ifMatch)
    requires forall k :: i < k < j && DoneAt(env, s, ops, k) ==> !BringsBack(env, s, ops, Text.Trim(ops[i].ifMatch), k)
    ensures Do(env, After(env, s, ops[..j]), ops[j]) == (After(env, s, ops[..j]), Conflict)
  {
    SuccessNeedsCurrentTag(env, s, ops, i);
    TagStaysAway(env, s, ops, Text.Trim(ops[i].ifMatch), i + 1, j);
    ConflictIff(env, After(env, s, ops[..j]), ops[j].ifMatch, ops[j].text, ops[j].at, ops[j].io);
  }

  // ----- How far rollbacks go --------------------------------------------------------

  /** How many of `j` rollbacks pop an entry: they go on up to the first text that no longer
      prepares. */
  function Pops(env: Env, stack: seq<Snapshot>, j: nat): (k: nat)
    ensures k <= j && k <= |stack|
  {
    if j == 0 || stack == [] || env.prepare(stack[|stack| - 1].raw).None? then 0
    else 1 + Pops(env, stack[..|stack| - 1], j - 1)
  }

  /** The text that a text prepares to. */
  function Again(env: Env, raw: string): Option<string> {
    if env.prepare(raw).Some? then Some(env.prepare(raw).value.raw) else None
  }

  /** The entry at this depth, counted from 1 at the top, still prepares. */
  predicate Passable(env: Env, stack: seq<Snapshot>, depth: nat)
    requires 0 < depth <= |stack|
  {
    Again(env, stack[|stack| - depth].raw).Some?
  }

  lemma PassableBelow(env: Env, stack: seq<Snapshot>, depth: nat)
    requires 0 < depth < |stack|
    ensures Passable(env, stack[..|stack| - 1], depth) <==> Passable(env, stack, depth + 1)
  {
  }

  predicate AllPassable(env: Env, stack: seq<Snapshot>, j: nat)
    requires j <= |stack|
  {
    forall d :: 0 < d <= j ==> Passable(env, stack, d)
  }

  lemma AllPassableStep(env: Env, stack: seq<Snapshot>, j: nat)
    requires 0 < j <= |stack|
    ensures AllPassable(env, stack, j) <==> Passable(env, stack, 1) && AllPassable(env, stack[..|stack| - 1], j - 1)
  {
    var rest := stack[..|stack| - 1];
    if AllPassable(env, stack, j) {
      forall d | 0 < d <= j - 1 ensures Passable(env, rest, d) {
        PassableBelow(env, stack, d);
        assert Passable(env, stack, d + 1);
      }
    }
    if Passable(env, stack, 1) && AllPassable(env, rest, j - 1) {
      forall d | 0 < d <= j ensures Passable(env, stack, d) {
        if d > 1 {
          PassableBelow(env, stack, d - 1);
        }
      }
    }
  }

  /** All of them do exactly when the top `j` texts prepare. */
  lemma {:induction false} PopsAllIff(env: Env, stack: seq<Snapshot>, j: nat)
    requires j <= |stack|
    ensures Pops(env, stack, j) == j <==> AllPassable(env, stack, j)
  {
    if j > 0 {
      PopsAllIff(env, stack[..|stack| - 1], j - 1);
      AllPassableStep(env, stack, j);
    }
  }

  /** A text on top that no longer prepares stays on top, and nothing else changes either,
      whichever writes would succeed. */
  lemma BlockedStays(env: Env, s: State, io: Io)
    requires Prints(env) && env.rollbackMax > 0 && Coherent(env, s)
    requires s.stack == [] || env.prepare(s.stack[|s.stack| - 1].raw).None?
    ensures RollbackOf(env, s, io).0 == s && RollbackOf(env, s, io).1 in {NoSnapshot, Invalid}
  {
    RollbackCoherent(env, s, io);
  }

  lemma {:induction false} BlockedForever(env: Env, s: State, j: nat)
    requires Prints(env) && env.rollbackMax > 0 && Coherent(env, s)
    requires s.stack == [] || env.prepare(s.stack[|s.stack| - 1].raw).None?
    ensures RollbackTimes(env, s, j) == s
  {
    if j > 0 {
      BlockedStays(env, s, WORKS);
      BlockedForever(env, s, j - 1);
    }
  }

  lemma RollbackWorks(env: Env, s: State)
    requires Prints(env) && env.rollbackMax > 0 && Coherent(env, s)
    requires s.stack != [] && env.prepare(s.stack[|s.stack| - 1].raw).Some?
    ensures
      var t := RollbackOf(env, s, WORKS).0;
      Coherent(env, t) && Saved(env, t) && t.stack == s.stack[..|s.stack| - 1] &&
      t.raw == env.prepare(s.stack[|s.stack| - 1].raw).value.raw
  {
    RollbackCoherent(env, s, WORKS);
  }

  predicate ReachedBy(env: Env, s: State, t: State, k: nat)
    requires k <= |s.stack|
  {
    t.stack == s.stack[..|s.stack| - k] &&
    if k == 0 then t == s
    else Saved(env, t) && Again(env, s.stack[|s.stack| - k].raw) == Some(t.raw)
  }

  lemma ReachedFurther(env: Env, s: State, u: State, t: State, k: nat)
    requires s.stack != [] && Again(env, s.stack[|s.stack| - 1].raw) == Some(u.raw) && Saved(env, u)
    requires u.stack == s.stack[..|s.stack| - 1] && k <= |u.stack| && ReachedBy(env, u, t, k)
    ensures ReachedBy(env, s, t, k + 1)
  {
    var n := |s.stack| - 1;
    assert s.stack[..n][..n - k] == s.stack[..n - k];
    if k > 0 {
      assert s.stack[..n][n - k] == s.stack[n - k];
    }
  }

  lemma ReachedExactlyIff(env: Env, u: State, t: State, k: nat, j: nat, raw: string)
    requires k <= j <= |u.stack| && 0 < j && ReachedBy(env, u, t, k)
    ensures t.raw == raw && t.stack == u.stack[..|u.stack| - j] <==>
            k == j && Again(env, u.stack[|u.stack| - j].raw) == Some(raw)
    ensures t == u || Saved(env, t)
  {
    assert |u.stack[..|u.stack| - k]| == |u.stack| - k;
  }

  /** Rollbacks walk down the stack as far as the texts prepare; what is current then is what the
      last of them prepares to, saved and coherent. */
  lemma {:induction false} RollbacksPop(env: Env, s: State, j: nat)
    requires Prints(env) && env.rollbackMax > 0 && Coherent(env, s)
    ensures Coherent(env, RollbackTimes(env, s, j))
    ensures ReachedBy(env, s, RollbackTimes(env, s, j), Pops(env, s.stack, j))
    decreases j
  {
    if j > 0 && (s.stack == [] || env.prepare(s.stack[|s.stack| - 1].raw).None?) {
      BlockedForever(env, s, j);
    } else if j > 0 {
      var u := RollbackOf(env, s, WORKS).0;
      RollbackWorks(env, s);
      RollbacksPop(env, u, j - 1);
      OneMorePop(env, s, u, RollbackTimes(env, u, j - 1), j);
    }
  }

  lemma OneMorePop(env: Env, s: State, u: State, t: State, j: nat)
    requires j > 0 && s.stack != [] && Again(env, s.stack[|s.stack| - 1].raw) == Some(u.raw) && Saved(env, u)
    requires u.stack == s.stack[..|s.stack| - 1] && ReachedBy(env, u, t, Pops(env, u.stack, j - 1))
    ensures ReachedBy(env, s, t, Pops(env, s.stack, j))
  {
    ReachedFurther(env, s, u, t, Pops(env, u.stack, j - 1));
  }

  /** The text current before the last `d` applies. */
  function Passed(env: Env, s: State, texts: seq<(string, string)>, d: nat): string
    requires AllPrepare(env, texts) && d <= |texts|
  {
    RawAfter(env, s, texts, |texts| - d)
  }

  /** The texts current before each of the last `j` applies all prepare, and the earliest of them
      prepares to itself. */
  predicate ComesBack(env: Env, s: State, texts: seq<(string, string)>, j: nat)
    requires AllPrepare(env, texts) && 0 < j <= |texts|
  {
    (forall d :: 0 < d <= j ==> Again(env, Passed(env, s, texts, d)).Some?) &&
    Again(env, Passed(env, s, texts, j)) == Some(Passed(env, s, texts, j))
  }

  lemma PassedIsOnStack(env: Env, s: State, texts: seq<(string, string)>, d: nat)
    requires Prints(env) && env.rollbackMax > 0 && Coherent(env, s) && AllPrepare(env, texts)
    requires 0 < d <= |texts| && d <= env.rollbackMax
    ensures
      var stack := ApplyAll(env, s, texts).stack;
      d <= |stack| && stack[|stack| - d].raw == Passed(env, s, texts, d) &&
      (Passable(env, stack, d) <==> Again(env, Passed(env, s, texts, d)).Some?)
  {
    SnapshotAt(env, s, texts, d);
  }

  lemma PopsOfApplies(env: Env, s: State, texts: seq<(string, string)>, j: nat)
    requires Prints(env) && env.rollbackMax > 0 && Coherent(env, s) && AllPrepare(env, texts)
    requires 0 < j <= |texts| && j <= env.rollbackMax
    ensures Pops(env, ApplyAll(env, s, texts).stack, j) == j <==>
            forall d :: 0 < d <= j ==> Again(env, Passed(env, s, texts, d)).Some?
  {
    var stack := ApplyAll(env, s, texts).stack;
    PassedIsOnStack(env, s, texts, j);
    PopsAllIff(env, stack, j);
    forall d | 0 < d <= j ensures Passable(env, stack, d) <==> Again(env, Passed(env, s, texts, d)).Some? {
      PassedIsOnStack(env, s, texts, d);
    }
  }

  /** After k successful applies, j <= min(k, rollbackMax) rollbacks bring back the text that was
      current before the last j applies, with the j entries gone from the stack, if and only if the
      texts they pass all prepare and the last prepares to itself. */
  lemma RollbacksUndoAppliesIff(env: Env, s: State, texts: seq<(string, string)>, j: nat)
    requires Prints(env) && env.rollbackMax > 0 && Coherent(env, s) && AllPrepare(env, texts)
    requires 0 < j <= |texts| && j <= env.rollbackMax
    ensures j <= |ApplyAll(env, s, texts).stack|
    ensures
      var u := ApplyAll(env, s, texts);
      var t := RollbackTimes(env, u, j);
      t.raw == Passed(env, s, texts, j) && t.stack == u.stack[..|u.stack| - j] <==> ComesBack(env, s, texts, j)
  {
    var u := ApplyAll(env, s, texts);
    ApplyAllStacks(env, s, texts);
    PassedIsOnStack(env, s, texts, j);
    PopsOfApplies(env, s, texts, j);
    RollbacksPop(env, u, j);
    ReachedExactlyIff(env, u, RollbackTimes(env, u, j), Pops(env, u.stack, j), j, Passed(env, s, texts, j));
  }

  /** Whether or not they bring the text back, what they leave is coherent and saved. */
  lemma RollbacksAfterAppliesSave(env: Env, s: State, texts: seq<(string, string)>, j: nat)
    requires Prints(env) && env.rollbackMax > 0 && Coherent(env, s) && AllPrepare(env, texts) && texts != []
    ensures
      var t := RollbackTimes(env, ApplyAll(env, s, texts), j);
      Coherent(env, t) && Saved(env, t)
  {
    ApplyAllStacks(env, s, texts);
    RollbacksPop(env, ApplyAll(env, s, texts), j);
  }

  /** A failing apply right after start replaces an unnormalized file by its normalized text. */
  lemma FailedApplyRewritesFile(env: Env, p: Prepared, file: string, blob: Option<(string, string)>, text: string, at: string)
    requires env.prepare(file) == Some(p) && file != p.raw && env.prepare(text).Some?
    ensures
      var s := Started(env, p, file, blob);
      var (t, outcome) := ApplyTo(env, s, "", text, at, WORKS.(transport := false));
      outcome == TransportFailed && t.file == p.raw != s.file
  {
    assert Text.Trim("") == "";
  }
}
