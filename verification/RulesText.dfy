// The texts of the proxy rules: decoding, preparing and printing a configuration. What applying and
// rolling back texts does, in terms of the configurations they stand for.
module RulesText {
  import opened Text
  import opened Wrappers
  import opened ProxyRules
  import Lib = Routing
  import P = Preparation

  /** Reading a configuration from JSON, and printing it. */
  datatype Codec = Codec(encode: Config -> string, decode: string -> Option<Config>)

  predicate LosslessAt(codec: Codec, c: Config) {
    codec.decode(codec.encode(c)) == Some(c) && !Blank(codec.encode(c))
  }

  ghost predicate Lossless(codec: Codec) {
    forall c :: LosslessAt(codec, c)
  }

  /** prepareProxyRulesRaw */
  function PrepareText(lib: Lib.Env, codec: Codec, text: string): Option<Prepared> {
    var decoded := codec.decode(text);
    if decoded.None? then None
    else
      var p := P.Prepared(lib, decoded.value);
      if p.None? then None else Some(Prepared(p.value, codec.encode(p.value)))
  }

  /** The surroundings of a runtime whose texts are prepared like this. */
  ghost predicate Reads(env: Env, lib: Lib.Env, codec: Codec) {
    (forall text :: env.prepare(text) == PrepareText(lib, codec, text)) && env.rollbackMax > 0
  }

  ghost predicate Usable(env: Env, lib: Lib.Env, codec: Codec) {
    Reads(env, lib, codec) && Lossless(codec) && Lib.Reparses(lib)
  }

  lemma TextsArePrinted(env: Env, lib: Lib.Env, codec: Codec)
    requires Usable(env, lib, codec)
    ensures Prints(env)
  {
    forall t ensures PrintsAt(env, t) {
      if env.prepare(t).Some? {
        assert LosslessAt(codec, env.prepare(t).value.cfg);
      }
    }
  }

  lemma EncodeIsInjective(codec: Codec, a: Config, b: Config)
    requires Lossless(codec)
    ensures codec.encode(a) == codec.encode(b) <==> a == b
  {
    assert LosslessAt(codec, a) && LosslessAt(codec, b);
  }

  /** A configuration that some other one is prepared to. */
  ghost predicate InForce(lib: Lib.Env, p: Config) {
    exists c :: P.Prepared(lib, c) == Some(p)
  }

  lemma PreparedTextIsEncoded(env: Env, lib: Lib.Env, codec: Codec, text: string)
    requires Reads(env, lib, codec) && env.prepare(text).Some?
    ensures InForce(lib, env.prepare(text).value.cfg)
    ensures env.prepare(text).value.raw == codec.encode(env.prepare(text).value.cfg)
  {
    assert P.Prepared(lib, codec.decode(text).value) == Some(env.prepare(text).value.cfg);
  }

  lemma CurrentIsEncoded(env: Env, lib: Lib.Env, codec: Codec, s: State)
    requires Reads(env, lib, codec) && Coherent(env, s)
    ensures InForce(lib, s.cfg) && s.raw == codec.encode(s.cfg)
  {
    var t :| env.prepare(t) == Some(Prepared(s.cfg, s.raw));
    PreparedTextIsEncoded(env, lib, codec, t);
  }

  lemma EncodedPrepares(env: Env, lib: Lib.Env, codec: Codec, c: Config)
    requires Reads(env, lib, codec) && Lossless(codec)
    ensures env.prepare(codec.encode(c)) ==
            if P.Prepared(lib, c).None? then None
            else Some(Prepared(P.Prepared(lib, c).value, codec.encode(P.Prepared(lib, c).value)))
  {
    assert LosslessAt(codec, c);
  }

  /** The text of a configuration in force prepares exactly when the configuration is restorable,
      and to itself exactly when it is stable. */
  lemma EncodedAgainIff(env: Env, lib: Lib.Env, codec: Codec, p: Config)
    requires Usable(env, lib, codec) && InForce(lib, p)
    ensures Again(env, codec.encode(p)).Some? <==> P.Restorable(p)
    ensures Again(env, codec.encode(p)) == Some(codec.encode(p)) <==> P.Stable(p)
  {
    var c :| P.Prepared(lib, c) == Some(p);
    EncodedPrepares(env, lib, codec, p);
    P.PreparesAgainIff(lib, c);
    P.PrepareIsIdempotentIff(lib, c);
    if P.Prepared(lib, p).Some? {
      EncodeIsInjective(codec, P.Prepared(lib, p).value, p);
    }
  }

  /** The configuration in force before the last `d` applies. */
  function PassedConfig(env: Env, s: State, texts: seq<(string, string)>, d: nat): Config
    requires AllPrepare(env, texts) && d <= |texts|
  {
    if d == |texts| then s.cfg else env.prepare(texts[|texts| - d - 1].0).value.cfg
  }

  lemma PassedIsEncoded(env: Env, lib: Lib.Env, codec: Codec, s: State, texts: seq<(string, string)>, d: nat)
    requires Reads(env, lib, codec) && Coherent(env, s) && AllPrepare(env, texts) && d <= |texts|
    ensures InForce(lib, PassedConfig(env, s, texts, d))
    ensures Passed(env, s, texts, d) == codec.encode(PassedConfig(env, s, texts, d))
  {
    CurrentIsEncoded(env, lib, codec, s);
    if d < |texts| {
      PreparedTextIsEncoded(env, lib, codec, texts[|texts| - d - 1].0);
    }
  }

  /** Every configuration on the way back is restorable, and the last of them is stable. */
  predicate Undoable(env: Env, s: State, texts: seq<(string, string)>, j: nat)
    requires AllPrepare(env, texts) && 0 < j <= |texts|
  {
    (forall d :: 0 < d <= j ==> P.Restorable(PassedConfig(env, s, texts, d))) &&
    P.Stable(PassedConfig(env, s, texts, j))
  }

  lemma UndoableIff(env: Env, lib: Lib.Env, codec: Codec, s: State, texts: seq<(string, string)>, j: nat)
    requires Usable(env, lib, codec) && Coherent(env, s) && AllPrepare(env, texts) && 0 < j <= |texts|
    ensures ComesBack(env, s, texts, j) <==> Undoable(env, s, texts, j)
  {
    forall d | 0 < d <= j
      ensures Again(env, Passed(env, s, texts, d)).Some? <==> P.Restorable(PassedConfig(env, s, texts, d))
    {
      PassedIsEncoded(env, lib, codec, s, texts, d);
      EncodedAgainIff(env, lib, codec, PassedConfig(env, s, texts, d));
    }
    PassedIsEncoded(env, lib, codec, s, texts, j);
    EncodedAgainIff(env, lib, codec, PassedConfig(env, s, texts, j));
  }

  /** After k successful applies, j rollbacks bring back the configuration that was in force before
      the last j of them, with the j entries gone from the stack, if and only if every
      configuration they pass keeps something of its hosts and prefixes under normalization, and
      the last keeps all. */
  lemma RollbacksRestoreIff(env: Env, lib: Lib.Env, codec: Codec, s: State, texts: seq<(string, string)>, j: nat)
    requires Usable(env, lib, codec) && Coherent(env, s) && AllPrepare(env, texts)
    requires 0 < j <= |texts| && j <= env.rollbackMax
    ensures j <= |ApplyAll(env, s, texts).stack|
    ensures
      var u := ApplyAll(env, s, texts);
      var t := RollbackTimes(env, u, j);
      t.cfg == PassedConfig(env, s, texts, j) && t.stack == u.stack[..|u.stack| - j] <==> Undoable(env, s, texts, j)
  {
    TextsArePrinted(env, lib, codec);
    RollbacksUndoAppliesIff(env, s, texts, j);
    UndoableIff(env, lib, codec, s, texts, j);
    RollbacksAfterAppliesSave(env, s, texts, j);
    var t := RollbackTimes(env, ApplyAll(env, s, texts), j);
    CurrentIsEncoded(env, lib, codec, t);
    PassedIsEncoded(env, lib, codec, s, texts, j);
    EncodeIsInjective(codec, t.cfg, PassedConfig(env, s, texts, j));
  }

  // ----- Where it fails --------------------------------------------------------------

  /** A runtime started on the text of a configuration. */
  function StartedOn(env: Env, codec: Codec, given: Config, p: Config): State {
    Started(env, Prepared(p, codec.encode(p)), codec.encode(given), None)
  }

  function AppliedTo(env: Env, codec: Codec, s: State, c: Config): State {
    ApplyTo(env, s, "", codec.encode(c), "", WORKS).0
  }

  lemma StartedIsCoherent(env: Env, lib: Lib.Env, codec: Codec, given: Config, p: Config)
    requires Usable(env, lib, codec) && P.Prepared(lib, given) == Some(p)
    ensures Coherent(env, StartedOn(env, codec, given, p))
  {
    EncodedPrepares(env, lib, codec, given);
    assert env.prepare(codec.encode(given)) == Some(Prepared(p, codec.encode(p)));
  }

  /** After one apply the text found at start is on top of the stack. */
  lemma StartedApplied(env: Env, lib: Lib.Env, codec: Codec, given: Config, p: Config, c: Config)
    requires Usable(env, lib, codec) && P.Prepared(lib, given) == Some(p) && P.Prepared(lib, c).Some?
    ensures
      var u := AppliedTo(env, codec, StartedOn(env, codec, given, p), c);
      Coherent(env, u) && u.stack == [Snapshot(codec.encode(p), "")]
  {
    var s := StartedOn(env, codec, given, p);
    TextsArePrinted(env, lib, codec);
    StartedIsCoherent(env, lib, codec, given, p);
    EncodedPrepares(env, lib, codec, c);
    ApplyWorks(env, s, codec.encode(c), "");
    CurrentIsPrinted(env, s);
  }

  /** Applying something and rolling back does not restore a route for the prefix "/a ", which is
      what "/a /" is prepared to: it becomes "/a". */
  lemma SpacedPrefixIsNotRestored(env: Env, lib: Lib.Env, codec: Codec)
    requires Usable(env, lib, codec) && lib.parse("http://a") == Some("http://a")
    ensures
      var s := StartedOn(env, codec, P.PrefixConfig("/a /"), P.PrefixConfig("/a "));
      var t := RollbackOf(env, AppliedTo(env, codec, s, P.PrefixConfig("/a")), WORKS).0;
      Coherent(env, s) && t.cfg == P.PrefixConfig("/a") != s.cfg && t.raw != s.raw
  {
    var given, p, c := P.PrefixConfig("/a /"), P.PrefixConfig("/a "), P.PrefixConfig("/a");
    P.SpacedPrefixChangesAgain(lib);
    P.PlainPrefixPrepares(lib);
    StartedIsCoherent(env, lib, codec, given, p);
    StartedApplied(env, lib, codec, given, p, c);
    TextsArePrinted(env, lib, codec);
    EncodedPrepares(env, lib, codec, p);
    EncodeIsInjective(codec, p, c);
    RollbackCoherent(env, AppliedTo(env, codec, StartedOn(env, codec, given, p), c), WORKS);
    assert p.routes[0].path.value.value == "/a " != "/a" == c.routes[0].path.value.value;
  }

  /** The host "*...", prepared to "*..", blocks the stack: its text is refused by every rollback
      and put back. */
  lemma DottedHostBlocksRollback(env: Env, lib: Lib.Env, codec: Codec, j: nat)
    requires Usable(env, lib, codec) && lib.parse("http://a") == Some("http://a")
    ensures
      var s := StartedOn(env, codec, P.HostConfig("*..."), P.HostConfig("*.."));
      var u := AppliedTo(env, codec, s, P.PrefixConfig("/a"));
      Coherent(env, s) && |u.stack| == 1 && RollbackOf(env, u, WORKS).1 == Invalid && RollbackTimes(env, u, j) == u
  {
    var given, p, c := P.HostConfig("*..."), P.HostConfig("*.."), P.PrefixConfig("/a");
    P.DottedHostFailsAgain(lib);
    P.PlainPrefixPrepares(lib);
    StartedIsCoherent(env, lib, codec, given, p);
    StartedApplied(env, lib, codec, given, p, c);
    RefusedTextBlocks(env, lib, codec, AppliedTo(env, codec, StartedOn(env, codec, given, p), c), p, j);
  }

  lemma RefusedTextBlocks(env: Env, lib: Lib.Env, codec: Codec, u: State, p: Config, j: nat)
    requires Usable(env, lib, codec) && Coherent(env, u) && P.Prepared(lib, p).None?
    requires u.stack == [Snapshot(codec.encode(p), "")]
    ensures RollbackOf(env, u, WORKS).1 == Invalid && RollbackTimes(env, u, j) == u
  {
    TextsArePrinted(env, lib, codec);
    EncodedPrepares(env, lib, codec, p);
    BlockedForever(env, u, j);
  }

  /** An apply that fails right after start on the text of the prefix "/a /" rewrites the file. */
  lemma FailedApplyRewritesSpacedPrefix(env: Env, lib: Lib.Env, codec: Codec)
    requires Usable(env, lib, codec) && lib.parse("http://a") == Some("http://a")
    ensures
      var s := StartedOn(env, codec, P.PrefixConfig("/a /"), P.PrefixConfig("/a "));
      var (t, outcome) := ApplyTo(env, s, "", codec.encode(P.PrefixConfig("/a")), "", WORKS.(transport := false));
      outcome == TransportFailed && s.file == codec.encode(P.PrefixConfig("/a /")) != t.file
  {
    var given, p, c := P.PrefixConfig("/a /"), P.PrefixConfig("/a "), P.PrefixConfig("/a");
    P.SpacedPrefixChangesAgain(lib);
    P.PlainPrefixPrepares(lib);
    EncodedPrepares(env, lib, codec, given);
    EncodedPrepares(env, lib, codec, c);
    EncodeIsInjective(codec, given, p);
    assert |given.routes[0].path.value.value| == 4 && |p.routes[0].path.value.value| == 3;
    FailedApplyRewritesFile(env, Prepared(p, codec.encode(p)), codec.encode(given), None, codec.encode(c), "");
  }
}
