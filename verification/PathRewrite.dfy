// Host and path rules of a route: which paths and hosts match, how a matched prefix is replaced,
// and how that goes with percent-encoding (section 2.1 of RFC 3986).
module PathRewrite {
  import opened Text
  import opened Wrappers

  datatype PathMatch = PathMatch(kind: string, value: string)

  // ----- Normal forms ----------------------------------------------------------------

  function TrimRight(s: string, c: char): string {
    if s != "" && s[|s| - 1] == c then TrimRight(s[..|s| - 1], c) else s
  }

  function NormalizeExact(v: string): string {
    var out := Trim(v);
    if out == "" || "/" <= out then out else "/" + out
  }

  function NormalizePrefix(v: string): string {
    var out := NormalizeExact(v);
    if out == "" || out == "/" then "/" else TrimRight(out, '/')
  }

  /** A prefix in stable form: it starts with '/', and ends in neither '/' (unless it is "/") nor
      white space. */
  predicate IsPrefix(p: string) {
    p == "/" || ("/" < p && p[|p| - 1] != '/' && !IsSpace(p[|p| - 1]))
  }

  /** A prefix as normalization and validation leave it, which may still end in white space. */
  predicate IsStored(p: string) {
    p == "/" || ("/" < p && p[|p| - 1] != '/')
  }

  lemma {:induction false} TrimRightShape(s: string, c: char)
    ensures TrimRight(s, c) <= s
    ensures TrimRight(s, c) != "" ==> TrimRight(s, c)[|TrimRight(s, c)| - 1] != c
  {
    if s != "" && s[|s| - 1] == c {
      TrimRightShape(s[..|s| - 1], c);
    }
  }

  /** Normalization leaves the stored prefixes, all of them, and nothing else but the empty text. */
  lemma StoredIsWhatNormalizationLeaves(p: string)
    ensures IsStored(p) <==> p != "" && exists v :: NormalizePrefix(v) == p
  {
    forall v | NormalizePrefix(v) == p && p != "" ensures IsStored(p) {
      TrimRightShape(NormalizeExact(v), '/');
    }
    if p == "/" {
      assert NormalizePrefix("/") == p;
    } else if IsStored(p) {
      var v := p + "/";
      assert v[..|v| - 1] == p && Trim(v) == v;
      assert "/" <= v && TrimRight(v, '/') == TrimRight(p, '/') == p;
      assert NormalizePrefix(v) == p;
    }
  }

  /** Normalizing a second time gives the same exactly when the first result is a stable prefix: it
      is empty for "//" and may end in a space for "/a /". */
  lemma NormalizePrefixIsIdempotentIff(v: string)
    ensures IsPrefix(NormalizePrefix(v)) <==> NormalizePrefix(NormalizePrefix(v)) == NormalizePrefix(v)
  {
    var e, p := NormalizeExact(v), NormalizePrefix(v);
    TrimRightShape(e, '/');
    if p != "" {
      StoredIsFixedIff(p);
    }
  }

  lemma StoredIsFixedIff(p: string)
    requires IsStored(p)
    ensures NormalizePrefix(p) == p <==> IsPrefix(p)
    ensures !IsPrefix(p) ==> |NormalizePrefix(p)| < |p|
    ensures NormalizePrefix(p) != "" ==> "/" <= NormalizePrefix(p)
  {
    if !IsPrefix(p) {
      SecondPassTrims(p);
    }
    TrimRightShape(NormalizeExact(p), '/');
  }

  lemma NormalizedIsFixed(p: string)
    requires IsPrefix(p)
    ensures NormalizePrefix(p) == p
  {
    AlreadyTrimmed(p);
    assert NormalizeExact(p) == p;
  }

  lemma SecondPassTrims(p: string)
    requires "/" < p && IsSpace(p[|p| - 1])
    ensures |NormalizePrefix(p)| < |p|
  {
    TrimKeepsHead(p);
    TrimRightShape(NormalizeExact(p), '/');
  }

  /** The forms that the second pass changes, at concrete inputs. */
  lemma UnstablePrefixes()
    ensures NormalizePrefix("/a /") == "/a " && NormalizePrefix("/a ") == "/a"
    ensures NormalizePrefix("//") == "" && NormalizePrefix("// /") == "// " && NormalizePrefix("// ") == ""
  {
    assert "/a /"[..3] == "/a " && "/a "[..2] == "/a";
    assert "//"[..1] == "/" && "/"[..0] == "" && "// /"[..3] == "// " && "// "[..2] == "//";
    assert Trim("/a /") == "/a /" && Trim("/a ") == Trim("/a") == "/a";
    assert Trim("//") == "//" && Trim("// /") == "// /" && Trim("// ") == Trim("//");
    assert TrimRight("/a /", '/') == TrimRight("/a ", '/') == "/a ";
    assert TrimRight("// /", '/') == TrimRight("// ", '/') == "// ";
    assert TrimRight("//", '/') == TrimRight("/", '/') == TrimRight("", '/') == "";
  }

  // ----- Matching --------------------------------------------------------------------

  /** Whether the rule accepts the path, and what follows the matched prefix. `regex` stands for
      the compiled expression; no rule accepts everything and leaves nothing. */
  function Details(m: Option<PathMatch>, path: string, regex: (string, string) -> bool): (bool, string) {
    if m.None? then (true, "")
    else
      var reqPath, v := if path == "" then "/" else path, m.value.value;
      if m.value.kind == "exact" then (reqPath == v, "")
      else if m.value.kind == "prefix" then
        if v == "/" then (true, reqPath)
        else if reqPath == v then (true, "")
        else if HasPrefix(reqPath, v + "/") then (true, reqPath[|v|..])
        else (false, "")
      else if m.value.kind == "regex" then (regex(v, reqPath), "")
      else (false, "")
  }

  function Under(prefix: string): Option<PathMatch> {
    Some(PathMatch("prefix", prefix))
  }

  predicate Begins(prefix: string, path: string, regex: (string, string) -> bool) {
    Details(Under(prefix), path, regex).0
  }

  /** Behind a prefix other than "/" the rule finds what was put there. */
  lemma FindsSuffix(prefix: string, tail: string, regex: (string, string) -> bool)
    requires prefix != "/" && prefix + tail != "" && (tail == "" || HasPrefix(tail, "/"))
    ensures Details(Under(prefix), prefix + tail, regex) == (true, tail)
  {
    if tail == "" {
      assert prefix + tail == prefix;
    } else {
      assert prefix + tail == prefix + "/" + tail[1..];
      assert (prefix + tail)[|prefix|..] == tail;
    }
  }

  /** A prefix rule accepts a path exactly when its segments begin the path's segments. */
  lemma PrefixMatchesIffSegmentsBegin(prefix: string, path: string, regex: (string, string) -> bool)
    requires prefix != "/"
    ensures Begins(prefix, path, regex) <==> Split(prefix, '/') <= Split(if path == "" then "/" else path, '/')
  {
    var reqPath := if path == "" then "/" else path;
    if HasPrefix(reqPath, prefix + "/") {
      var rest := reqPath[|prefix| + 1..];
      assert reqPath == prefix + ['/'] + rest;
      SplitConcat(prefix, '/', rest);
    }
    if Split(prefix, '/') <= Split(reqPath, '/') {
      SplitPrefix(prefix, reqPath, '/');
    }
  }

  // ----- Rewriting -------------------------------------------------------------------

  function JoinPath(prefix: string, suffix: string): string {
    var p := NormalizePrefix(prefix);
    if p == "/" then
      if suffix == "" then "/" else if HasPrefix(suffix, "/") then suffix else "/" + suffix
    else if suffix == "" then p
    else if HasPrefix(suffix, "/") then p + suffix
    else p + "/" + suffix
  }

  function Rewrite(path: string, m: Option<PathMatch>, to: string, regex: (string, string) -> bool): Option<string> {
    if m.Some? && m.value.kind == "regex" then None
    else
      var (ok, suffix) := Details(m, path, regex);
      if ok then Some(JoinPath(to, suffix)) else None
  }

  /** Whatever rule it came through, a rewritten path lies under the normalized new prefix. */
  lemma RewrittenLiesUnderTarget(path: string, m: Option<PathMatch>, to: string, regex: (string, string) -> bool)
    requires Rewrite(path, m, to, regex).Some?
    ensures Begins(NormalizePrefix(to), Rewrite(path, m, to, regex).value, regex)
  {
    var p, suffix := NormalizePrefix(to), Details(m, path, regex).1;
    JoinPathGlues(to, suffix);
    if p != "/" {
      assert p + "" == p;
      if p != "" {
        FindsSuffix(p, Glued(suffix), regex);
      } else {
        UnderNothing(Glued(suffix), regex);
      }
    }
  }

  /** The empty prefix accepts what starts with '/'. */
  lemma UnderNothing(tail: string, regex: (string, string) -> bool)
    requires tail == "" || HasPrefix(tail, "/")
    ensures Begins("", tail, regex)
  {
    assert "" + "/" == "/";
  }

  /** What a rewrite makes of a path: the new prefix in place of the old, and what was behind it. An
      exact rule leaves the new prefix alone, and so does none. */
  lemma RewriteReplaces(path: string, m: Option<PathMatch>, to: string, regex: (string, string) -> bool)
    requires path != "" && Rewrite(path, m, to, regex).Some?
    ensures
      var whole := NormalizePrefix(to);
      var stem := if whole == "/" then "" else whole;
      var behind := if m.None? || m.value.kind != "prefix" then "" else if m.value.value == "/" then path
                    else path[|m.value.value|..];
      Rewrite(path, m, to, regex) ==
      Some(if behind == "" then whole else if behind[0] == '/' then stem + behind else stem + "/" + behind)
  {
    if m.Some? && m.value.kind == "prefix" && m.value.value != "/" {
      SuffixOfProperPrefix(path, m.value.value, regex);
    }
    var suffix := Details(m, path, regex).1;
    JoinPathGlues(to, suffix);
    GlueCases(Stem(NormalizePrefix(to)), suffix);
  }

  function Glued(suffix: string): string {
    if suffix == "" || HasPrefix(suffix, "/") then suffix else "/" + suffix
  }

  function Stem(prefix: string): string {
    if prefix == "/" then "" else prefix
  }

  lemma JoinPathGlues(to: string, suffix: string)
    ensures JoinPath(to, suffix) ==
            if suffix == "" then NormalizePrefix(to) else Stem(NormalizePrefix(to)) + Glued(suffix)
  {
    var p := NormalizePrefix(to);
    GlueCases(p, suffix);
  }

  lemma GlueCases(p: string, suffix: string)
    ensures suffix != "" && !HasPrefix(suffix, "/") ==> p + "/" + suffix == p + Glued(suffix)
    ensures "" + Glued(suffix) == Glued(suffix)
  {
    assert p + "/" + suffix == p + ("/" + suffix);
  }

  /** There and back, for a path the prefix `from` accepts. */
  function Back(path: string, from: string, to: string, regex: (string, string) -> bool): Option<string>
    requires Begins(from, path, regex)
  {
    Rewrite(JoinPath(to, Details(Under(from), path, regex).1), Under(to), from, regex)
  }

  /** What a prefix other than "/" cuts off leaves a suffix that is empty or starts with '/'. */
  lemma SuffixOfProperPrefix(path: string, from: string, regex: (string, string) -> bool)
    requires path != "" && from != "/" && Begins(from, path, regex)
    ensures
      var suffix := Details(Under(from), path, regex).1;
      path == from + suffix && Glued(suffix) == suffix
  {
  }

  /** Joined under a stable prefix other than "/", a suffix is what the prefix rule finds again. */
  lemma SuffixComesBack(to: string, suffix: string, regex: (string, string) -> bool)
    requires IsPrefix(to) && to != "/"
    ensures Details(Under(to), JoinPath(to, suffix), regex) == (true, Glued(suffix))
  {
    JoinPathGlues(to, suffix);
    NormalizedIsFixed(to);
    assert to + "" == to;
    FindsSuffix(to, Glued(suffix), regex);
  }

  /** Joining a suffix to the prefix it was cut from restores the path, if the prefix is stable
      and the path starts with '/'. */
  lemma RejoinsIff(path: string, from: string, regex: (string, string) -> bool)
    requires path != "" && IsStored(from) && Begins(from, path, regex)
    ensures
      JoinPath(from, Glued(Details(Under(from), path, regex).1)) == path <==> HasPrefix(path, "/") && IsPrefix(from)
  {
    var suffix := Details(Under(from), path, regex).1;
    JoinPathGlues(from, Glued(suffix));
    StoredIsFixedIff(from);
    if from != "/" {
      SuffixOfProperPrefix(path, from, regex);
    }
  }

  lemma BackFromStableIff(path: string, from: string, to: string, regex: (string, string) -> bool)
    requires path != "" && IsStored(from) && IsPrefix(to) && to != "/" && Begins(from, path, regex)
    ensures Back(path, from, to, regex) == Some(path) <==> HasPrefix(path, "/") && IsPrefix(from)
  {
    SuffixComesBack(to, Details(Under(from), path, regex).1, regex);
    RejoinsIff(path, from, regex);
  }

  lemma BackFromRootIff(path: string, from: string, regex: (string, string) -> bool)
    requires path != "" && IsStored(from) && Begins(from, path, regex)
    ensures Back(path, from, "/", regex) == Some(path) <==>
            HasPrefix(path, "/") && IsPrefix(from) && (from == "/" || path != from)
  {
    var suffix := Details(Under(from), path, regex).1;
    NormalizedIsFixed("/");
    JoinPathGlues("/", suffix);
    RejoinsIff(path, from, regex);
    if suffix == "" {
      SlashStays(path, from);
    }
  }

  /** An exact match sent to "/" comes back with a slash behind the prefix. */
  lemma SlashStays(path: string, from: string)
    requires IsStored(from) && from != "/" && path == from
    ensures JoinPath(from, "/") != path
  {
    JoinPathGlues(from, "/");
    StoredIsFixedIff(from);
    var p := NormalizePrefix(from);
    assert (Stem(p) + "/")[|Stem(p)|] == '/';
  }

  lemma BackFromUnstable(path: string, from: string, to: string, regex: (string, string) -> bool)
    requires path != "" && IsStored(from) && IsStored(to) && !IsPrefix(to) && Begins(from, path, regex)
    ensures Back(path, from, to, regex) != Some(path)
  {
    var suffix := Details(Under(from), path, regex).1;
    var there := JoinPath(to, suffix);
    var (ok, rest) := Details(Under(to), there, regex);
    NothingIsUnder(to, regex);
    if ok {
      SuffixOfProperPrefix(there, to, regex);
      ShorterThanBefore(path, from, to, suffix, rest, regex);
    }
  }

  /** A prefix longer than "/" does not accept the empty path. */
  lemma NothingIsUnder(to: string, regex: (string, string) -> bool)
    requires IsStored(to) && to != "/"
    ensures !Details(Under(to), "", regex).0
  {
    assert |to + "/"| > |"/"|;
  }

  /** A prefix that the join trims finds less behind it than was put there. */
  lemma TooLittleComesBack(to: string, suffix: string, rest: string)
    requires IsStored(to) && !IsPrefix(to) && JoinPath(to, suffix) == to + rest
    ensures suffix != "" && |rest| < |Glued(suffix)|
  {
    StoredIsFixedIff(to);
    JoinPathGlues(to, suffix);
  }

  lemma ShorterThanBefore(path: string, from: string, to: string, suffix: string, rest: string, regex: (string, string) -> bool)
    requires path != "" && IsStored(from) && IsStored(to) && !IsPrefix(to) && Begins(from, path, regex)
    requires suffix == Details(Under(from), path, regex).1 && JoinPath(to, suffix) == to + rest && Glued(rest) == rest
    ensures JoinPath(from, rest) != path
  {
    TooLittleComesBack(to, suffix, rest);
    JoinPathGlues(from, rest);
    StoredIsFixedIff(from);
    if from == "/" {
      NormalizedIsFixed("/");
      if path == "/" {
        RootIsNotUnder(to, rest);
      }
    } else {
      SuffixOfProperPrefix(path, from, regex);
    }
  }

  /** The root joined under a prefix that the join trims is not found under it. */
  lemma RootIsNotUnder(to: string, rest: string)
    requires IsStored(to) && !IsPrefix(to)
    ensures JoinPath(to, "/") != to + rest
  {
    JoinPathGlues(to, "/");
    StoredIsFixedIff(to);
    var q := Stem(NormalizePrefix(to));
    assert (q + "/")[|q|] == '/';
  }

  /** Rewriting a prefix and rewriting it back gives the same path exactly when the path starts
      with '/', both prefixes are stable, and it is not an exact match sent to "/". */
  lemma RoundTripIff(path: string, from: string, to: string, regex: (string, string) -> bool)
    requires path != "" && IsStored(from) && IsStored(to) && Begins(from, path, regex)
    ensures Rewrite(path, Under(from), to, regex).Some?
    ensures Rewrite(Rewrite(path, Under(from), to, regex).value, Under(to), from, regex) == Some(path) <==>
            HasPrefix(path, "/") && IsPrefix(from) && IsPrefix(to) && !(to == "/" && from != "/" && path == from)
  {
    if to == "/" {
      BackFromRootIff(path, from, regex);
    } else if IsPrefix(to) {
      BackFromStableIff(path, from, to, regex);
    } else {
      BackFromUnstable(path, from, to, regex);
    }
  }

  lemma SpaceIsCut(regex: (string, string) -> bool)
    ensures Details(Under("/a "), "/a /x", regex) == (true, "/x")
    ensures Details(Under("/b"), "/b/x", regex) == (true, "/x")
    ensures Glued("/x") == "/x" && "/b" + "/x" == "/b/x" && "/a" + "/x" == "/a/x"
  {
    assert "/a " + "/" == "/a /" <= "/a /x" && "/a /x"[3..] == "/x";
    assert "/b" + "/" == "/b/" <= "/b/x" && "/b/x"[2..] == "/x";
  }

  lemma SpaceGoesThere(regex: (string, string) -> bool)
    ensures Rewrite("/a /x", Under("/a "), "/b", regex) == Some("/b/x")
  {
    SpaceIsCut(regex);
    NormalizedIsFixed("/b");
    JoinPathGlues("/b", "/x");
  }

  lemma SpaceDoesNotReturn(regex: (string, string) -> bool)
    ensures Rewrite("/b/x", Under("/b"), "/a ", regex) == Some("/a/x")
  {
    SpaceIsCut(regex);
    UnstablePrefixes();
    JoinPathGlues("/a ", "/x");
  }

  /** The stored prefix "/a " loses its space on the way back. */
  lemma SpaceIsLost(regex: (string, string) -> bool)
    ensures Rewrite("/a /x", Under("/a "), "/b", regex) == Some("/b/x")
    ensures Rewrite("/b/x", Under("/b"), "/a ", regex) == Some("/a/x")
  {
    SpaceGoesThere(regex);
    SpaceDoesNotReturn(regex);
  }

  /** An exact match that goes through "/" gains a slash. */
  lemma ExactMatchGainsSlash(regex: (string, string) -> bool)
    ensures Rewrite("/a", Under("/a"), "/", regex) == Some("/") && Rewrite("/", Under("/"), "/a", regex) == Some("/a/")
  {
    NormalizedIsFixed("/a");
    assert "/a" + "/" == "/a/";
  }

  // ----- Percent-encoding ------------------------------------------------------------

  function Hex(c: char): Option<int> {
    if '0' <= c <= '9' then Some(c as int - '0' as int)
    else if 'a' <= c <= 'f' then Some(c as int - 'a' as int + 10)
    else if 'A' <= c <= 'F' then Some(c as int - 'A' as int + 10)
    else None
  }

  /** The path a raw path stands for; None when an escape is malformed. */
  function Decode(raw: string): Option<string> {
    if raw == "" then Some("")
    else if raw[0] != '%' then
      var rest := Decode(raw[1..]);
      if rest.Some? then Some([raw[0]] + rest.value) else None
    else if |raw| < 3 || Hex(raw[1]).None? || Hex(raw[2]).None? then None
    else
      var rest := Decode(raw[3..]);
      if rest.Some? then Some([(16 * Hex(raw[1]).value + Hex(raw[2]).value) as char] + rest.value) else None
  }

  lemma DecodeHead(c: char, rest: string)
    requires c != '%'
    ensures Decode([c] + rest) == (if Decode(rest).Some? then Some([c] + Decode(rest).value) else None)
  {
    assert ([c] + rest)[1..] == rest;
  }

  /** A prefix without escapes decodes to itself. */
  lemma {:induction false} DecodePlain(plain: string, rest: string)
    requires '%' !in plain
    ensures Decode(plain + rest) == (if Decode(rest).Some? then Some(plain + Decode(rest).value) else None)
  {
    var d := Decode(rest);
    if plain == "" {
      assert plain + rest == rest;
      assert d.Some? ==> plain + d.value == d.value;
    } else {
      var c, tail := plain[0], plain[1..];
      DecodePlain(tail, rest);
      assert plain + rest == [c] + (tail + rest);
      DecodeHead(c, tail + rest);
      assert d.Some? ==> plain + d.value == [c] + (tail + d.value);
    }
  }

  /** Where a prefix rule without escapes accepts a raw path, it accepts the decoded one and leaves
      the decoded suffix. */
  lemma RawSuffixDecodes(raw: string, from: string, regex: (string, string) -> bool)
    requires raw != "" && '%' !in from && Begins(from, raw, regex) && Decode(raw).Some?
    ensures Begins(from, Decode(raw).value, regex)
    ensures Decode(Details(Under(from), raw, regex).1) == Some(Details(Under(from), Decode(raw).value, regex).1)
  {
    if from != "/" {
      var suffix := Details(Under(from), raw, regex).1;
      SuffixOfProperPrefix(raw, from, regex);
      DecodePlain(from, suffix);
      DecodedSuffix(suffix);
      if from + Decode(suffix).value != "" {
        FindsSuffix(from, Decode(suffix).value, regex);
      }
    }
  }

  lemma DecodedSuffix(suffix: string)
    requires Decode(suffix).Some? && Glued(suffix) == suffix
    ensures suffix == "" ==> Decode(suffix).value == ""
    ensures suffix != "" ==> HasPrefix(Decode(suffix).value, "/")
  {
    assert |"/" + suffix| == |suffix| + 1;
  }

  lemma {:induction false} TrimSubset(s: string, c: char)
    requires c !in s
    ensures c !in Trim(s)
  {
    if s != "" && IsSpace(s[0]) {
      TrimSubset(s[1..], c);
    } else if s != "" && IsSpace(s[|s| - 1]) {
      TrimSubset(s[..|s| - 1], c);
    }
  }

  lemma NormalizedHasNoEscape(to: string)
    requires '%' !in to
    ensures '%' !in NormalizePrefix(to) && '%' !in Stem(NormalizePrefix(to))
  {
    TrimSubset(to, '%');
    TrimRightShape(NormalizeExact(to), '/');
  }

  /** Decoding the rewritten raw path gives the rewritten path, unless the rule is "/" and the raw
      path hides its leading slash in an escape. This holds for whatever prefixes are stored; an
      escape gives one byte, and how bytes make up runes plays no part. */
  lemma RewritingCommutesWithDecodingIff(raw: string, from: string, to: string, regex: (string, string) -> bool)
    requires raw != "" && '%' !in from && '%' !in to
    requires Begins(from, raw, regex) && Decode(raw).Some?
    ensures Begins(from, Decode(raw).value, regex)
    ensures Decode(Rewrite(raw, Under(from), to, regex).value) == Rewrite(Decode(raw).value, Under(from), to, regex) <==>
            !(from == "/" && raw[0] == '%' && HasPrefix(Decode(raw).value, "/"))
  {
    RawSuffixDecodes(raw, from, regex);
    NormalizedHasNoEscape(to);
    var suffix := Details(Under(from), raw, regex).1;
    if from != "/" {
      SuffixOfProperPrefix(raw, from, regex);
    }
    JoiningCommutesIff(suffix, to);
  }

  lemma JoiningCommutesIff(suffix: string, to: string)
    requires '%' !in NormalizePrefix(to) && '%' !in Stem(NormalizePrefix(to)) && Decode(suffix).Some?
    ensures Decode(JoinPath(to, suffix)) == Some(JoinPath(to, Decode(suffix).value)) <==>
            !(suffix != "" && suffix[0] == '%' && HasPrefix(Decode(suffix).value, "/"))
  {
    var p, tail := NormalizePrefix(to), Decode(suffix).value;
    JoinPathGlues(to, suffix);
    JoinPathGlues(to, tail);
    if suffix == "" {
      DecodePlain(p, "");
      assert p + "" == p;
    } else {
      GluedDecodesIff(suffix);
      DecodePlain(Stem(p), Glued(suffix));
      SameHead(Stem(p), Decode(Glued(suffix)).value, Glued(tail));
    }
  }

  lemma SameHead(head: string, a: string, b: string)
    ensures head + a == head + b <==> a == b
  {
    assert (head + a)[|head|..] == a && (head + b)[|head|..] == b;
  }

  lemma GluedDecodesIff(suffix: string)
    requires suffix != "" && Decode(suffix).Some?
    ensures Decode(Glued(suffix)).Some? && Decode(suffix).value != ""
    ensures Decode(Glued(suffix)).value == Glued(Decode(suffix).value) <==>
            !(suffix[0] == '%' && HasPrefix(Decode(suffix).value, "/"))
  {
    DecodePlain("/", suffix);
    var tail := Decode(suffix).value;
    assert |"/" + tail| != |tail|;
  }

  /** The converse of the above fails: a decoded path may match where the raw one does not. */
  lemma DecodedMayMatchWhereRawDoesNot(regex: (string, string) -> bool)
    ensures Decode("/%61pi") == Some("/api")
    ensures Begins("/api", "/api", regex) && !Begins("/api", "/%61pi", regex)
  {
    DecodePlain("pi", "");
    assert "pi" + "" == "pi";
    assert "%61pi"[3..] == "pi" && Hex('6') == Some(6) && Hex('1') == Some(1) && 97 as char == 'a';
    assert ['a'] + "pi" == "api";
    assert Decode("%61pi") == Some("api");
    DecodePlain("/", "%61pi");
    assert "/" + "%61pi" == "/%61pi" && "/" + "api" == "/api";
    assert "/%61pi"[1] != "/api"[1];
  }

  // ----- Hosts -----------------------------------------------------------------------

  function TrimDot(s: string): string {
    if s != "" && s[|s| - 1] == '.' then s[..|s| - 1] else s
  }

  function NormalizeHost(v: string): string {
    var h := ToLower(Trim(v));
    if HasPrefix(h, "*.") then "*." + TrimDot(h[2..]) else TrimDot(h)
  }

  /** What a first normalization leaves: lower case, no white space in front. */
  lemma NormalizedHostShape(v: string)
    ensures ToLower(NormalizeHost(v)) == NormalizeHost(v)
    ensures NormalizeHost(v) != "" ==> !IsSpace(NormalizeHost(v)[0])
  {
    var t := Trim(v);
    var h, n := ToLower(t), NormalizeHost(v);
    assert t != "" ==> IsSpace(Lower(t[0])) == IsSpace(t[0]);
    assert n == h || n == h[..|h| - 1] by {
      if HasPrefix(h, "*.") {
        assert h == "*." + h[2..];
        if TrimDot(h[2..]) != h[2..] {
          assert "*." + h[2..][..|h| - 3] == h[..|h| - 1];
        }
      }
    }
    assert forall i :: 0 <= i < |n| ==> n[i] == Lower(t[i]) == Lower(n[i]);
  }

  /** A host that a second normalization leaves alone: it ends in neither a dot nor white space. */
  predicate IsStableHost(h: string) {
    h == "*." || (h != "" && h[|h| - 1] != '.' && !IsSpace(h[|h| - 1]))
  }

  lemma NormalizeHostIsIdempotentIff(h: string)
    requires h != "" && ToLower(h) == h && !IsSpace(h[0])
    ensures NormalizeHost(h) == h <==> IsStableHost(h)
  {
    if IsSpace(h[|h| - 1]) {
      TrimKeepsHead(h);
    } else {
      AlreadyTrimmed(h);
      DotStaysIff(h);
    }
  }

  lemma DotStaysIff(h: string)
    requires h != ""
    ensures (if HasPrefix(h, "*.") then "*." + TrimDot(h[2..]) else TrimDot(h)) == h <==> h == "*." || h[|h| - 1] != '.'
  {
    if HasPrefix(h, "*.") {
      assert h == "*." + h[2..];
    }
  }

  /** Dots and spaces that the second normalization takes from stored hosts. */
  lemma UnstableHosts()
    ensures NormalizeHost("*...") == "*.." && NormalizeHost("*..") == "*." && NormalizeHost("a..") == "a."
  {
    assert ToLower("*...") == "*..." && ToLower("*..") == "*.." && ToLower("a..") == "a..";
    assert "*..."[2..] == ".." && ".."[..1] == "." && "*..."[..2] == "*.";
    assert "*.."[2..] == "." && "."[..0] == "" && "a.."[..2] == "a.";
    assert "*." + "." == "*.." && "*." + "" == "*.";
  }

  predicate HasSuffix(s: string, suffix: string) {
    |suffix| <= |s| && s[|s| - |suffix|..] == suffix
  }

  predicate HostMatches(pattern: string, reqHost: string) {
    var p := NormalizeHost(pattern);
    if p == "" || reqHost == "" then false
    else if HasPrefix(p, "*.") then reqHost != p[2..] && HasSuffix(reqHost, "." + p[2..])
    else reqHost == p
  }

  predicate HostsMatch(patterns: seq<string>, reqHost: string) {
    patterns == [] || exists i :: 0 <= i < |patterns| && HostMatches(patterns[i], reqHost)
  }

  /** The labels of `suffix` end those of `host`, which has at least one more. */
  predicate LabelsEndWith(host: string, suffix: string) {
    var own, labels := Split(suffix, '.'), Split(host, '.');
    |own| < |labels| && labels[|labels| - |own|..] == own
  }

  /** A wildcard pattern accepts exactly the hosts whose labels end with all of its labels and
      have at least one more. */
  lemma WildcardMatchesProperSubdomains(pattern: string, reqHost: string)
    requires reqHost != "" && HasPrefix(NormalizeHost(pattern), "*.")
    ensures HostMatches(pattern, reqHost) <==>
            LabelsEndWith(reqHost, NormalizeHost(pattern)[2..])
  {
    var suffix := NormalizeHost(pattern)[2..];
    if HasSuffix(reqHost, "." + suffix) {
      DottedSuffixSplits(reqHost, suffix);
    }
    if LabelsEndWith(reqHost, suffix) {
      LabelsGiveSuffix(reqHost, suffix);
    }
  }

  lemma DottedSuffixSplits(host: string, suffix: string)
    requires HasSuffix(host, "." + suffix)
    ensures LabelsEndWith(host, suffix)
  {
    var head := host[..|host| - |suffix| - 1];
    assert host == head + "." + suffix;
    SplitConcat(head, '.', suffix);
  }

  lemma LabelsGiveSuffix(host: string, suffix: string)
    requires LabelsEndWith(host, suffix)
    ensures HasSuffix(host, "." + suffix) && host != suffix
  {
    var own, labels := Split(suffix, '.'), Split(host, '.');
    var first := labels[..|labels| - |own|];
    assert labels == first + own;
    JoinSplit(host, '.');
    JoinSplit(suffix, '.');
    JoinConcat(first, own, '.');
    EndsDotted(host, Join(first, '.'), suffix);
  }

  lemma EndsDotted(host: string, head: string, suffix: string)
    requires host == head + "." + suffix
    ensures HasSuffix(host, "." + suffix) && host != suffix
  {
    assert host == head + ("." + suffix);
  }

  lemma {:induction false} JoinConcat(a: seq<string>, b: seq<string>, sep: char)
    requires a != [] && b != []
    ensures Join(a + b, sep) == Join(a, sep) + [sep] + Join(b, sep)
  {
    if |a| > 1 {
      JoinConcat(a[1..], b, sep);
      assert (a + b)[1..] == a[1..] + b;
    } else {
      assert (a + b)[1..] == b;
    }
  }
}
