// The cache rules: what an edited rule list is accepted as, how it is written to the rules file,
// how the file is read back, and which rule a request matches.
module CacheRules {
  import opened Text
  import opened Wrappers

  const DEFAULT_TTL := 600

  type Int64 = i: int | -0x8000_0000_0000_0000 <= i < 0x8000_0000_0000_0000

  /** Regular expressions stay abstract: which patterns compile, and what they match. */
  datatype Env = Env(compiles: string -> bool, matches: (string, string) -> bool)

  datatype Rule = Rule(
    kind: string, prefix: string, regex: Option<string>, exact: string, methods: set<string>, ttl: Int64, vary: seq<string>)

  datatype RuleDto = RuleDto(
    kind: string, matchType: string, value: string, methods: seq<string>, ttl: Int64, vary: seq<string>)

  datatype Fault = BadKind | ValueRequired | BadRegex | BadMatchType | BadMethod(name: string) | NegativeTtl

  // ----- Accepting edited rules ------------------------------------------------------

  function MatchFaults(env: Env, d: RuleDto): seq<Fault> {
    var t := ToLower(d.matchType);
    if t !in {"prefix", "regex", "exact"} then [BadMatchType]
    else if d.value == "" then [ValueRequired]
    else if t == "regex" && !env.compiles(d.value) then [BadRegex]
    else []
  }

  function MethodFaults(ms: seq<string>): seq<Fault> {
    if ms == [] then []
    else
      var m := ToUpper(Trim(ms[|ms| - 1]));
      MethodFaults(ms[..|ms| - 1]) + if m in {"", "GET", "HEAD"} then [] else [BadMethod(m)]
  }

  function Faults(env: Env, d: RuleDto): seq<Fault> {
    (if ToUpper(d.kind) in {"ALLOW", "DENY"} then [] else [BadKind]) +
    MatchFaults(env, d) + MethodFaults(d.methods) + (if d.ttl < 0 then [NegativeTtl] else [])
  }

  function Known(ms: seq<string>): set<string> {
    set m | m in ms && ToUpper(Trim(m)) in {"GET", "HEAD"} :: ToUpper(Trim(m))
  }

  function RuleOf(env: Env, d: RuleDto): Rule {
    var t := ToLower(d.matchType);
    Rule(ToUpper(d.kind), if t == "prefix" then d.value else "",
         if t == "regex" && d.value != "" && env.compiles(d.value) then Some(d.value) else None,
         if t == "exact" then d.value else "",
         if d.methods == [] then {"GET", "HEAD"} else Known(d.methods), d.ttl, d.vary)
  }

  function AllFaults(env: Env, ds: seq<RuleDto>): seq<(nat, Fault)> {
    if ds == [] then []
    else
      var n := |ds| - 1;
      AllFaults(env, ds[..n]) + Tagged(n, Faults(env, ds[n]))
  }

  function Tagged(i: nat, fs: seq<Fault>): seq<(nat, Fault)> {
    seq(|fs|, k requires 0 <= k < |fs| => (i, fs[k]))
  }

  function RulesOf(env: Env, ds: seq<RuleDto>): seq<Rule> {
    seq(|ds|, i requires 0 <= i < |ds| => RuleOf(env, ds[i]))
  }

  lemma MethodsStep(ms: seq<string>, v: string)
    ensures
      var m := ToUpper(Trim(v));
      Known(ms + [v]) == (if m in {"GET", "HEAD"} then Known(ms) + {m} else Known(ms)) &&
      MethodFaults(ms + [v]) == MethodFaults(ms) + if m in {"", "GET", "HEAD"} then [] else [BadMethod(m)]
  {
    var all := ms + [v];
    assert all[..|ms|] == ms;
    assert v in all && forall x :: x in ms ==> x in all;
  }

  method ReadMethods(ms: seq<string>) returns (known: set<string>, faults: seq<Fault>)
    ensures known == (if ms == [] then {"GET", "HEAD"} else Known(ms)) && faults == MethodFaults(ms)
  {
    known, faults := {}, [];
    if |ms| == 0 {
      return {"GET", "HEAD"}, [];
    }
    for i := 0 to |ms|
      invariant known == Known(ms[..i]) && faults == MethodFaults(ms[..i])
    {
      var m := ToUpper(Trim(ms[i]));
      assert ms[..i + 1] == ms[..i] + [ms[i]];
      MethodsStep(ms[..i], ms[i]);
      if m == "" {
      } else if m == "GET" || m == "HEAD" {
        known := known + {m};
      } else {
        faults := faults + [BadMethod(m)];
      }
    }
    assert ms[..|ms|] == ms;
  }

  method ReadMatch(env: Env, d: RuleDto, blank: Rule) returns (rule: Rule, faults: seq<Fault>)
    requires blank.prefix == "" && blank.regex == None && blank.exact == ""
    ensures faults == MatchFaults(env, d)
    ensures rule == blank.(prefix := RuleOf(env, d).prefix, regex := RuleOf(env, d).regex, exact := RuleOf(env, d).exact)
  {
    rule, faults := blank, [];
    var kind := ToLower(d.matchType);
    if kind == "prefix" {
      if d.value == "" {
        faults := [ValueRequired];
      }
      rule := rule.(prefix := d.value);
    } else if kind == "regex" {
      if d.value == "" {
        faults := [ValueRequired];
      } else if !env.compiles(d.value) {
        faults := [BadRegex];
      } else {
        rule := rule.(regex := Some(d.value));
      }
    } else if kind == "exact" {
      if d.value == "" {
        faults := [ValueRequired];
      }
      rule := rule.(exact := d.value);
    } else {
      faults := [BadMatchType];
    }
  }

  method ReadDto(env: Env, d: RuleDto) returns (rule: Rule, faults: seq<Fault>)
    ensures rule == RuleOf(env, d) && faults == Faults(env, d)
  {
    faults := [];
    rule := Rule(ToUpper(d.kind), "", None, "", {}, d.ttl, d.vary);
    if rule.kind != "ALLOW" && rule.kind != "DENY" {
      faults := [BadKind];
    }
    var wrong: seq<Fault>;
    rule, wrong := ReadMatch(env, d, rule);
    var known, unknown := ReadMethods(d.methods);
    rule := rule.(methods := known);
    faults := faults + wrong + unknown;
    if d.ttl < 0 {
      faults := faults + [NegativeTtl];
    }
  }

  lemma RowsStep(env: Env, ds: seq<RuleDto>, i: nat)
    requires i < |ds|
    ensures AllFaults(env, ds[..i + 1]) == AllFaults(env, ds[..i]) + Tagged(i, Faults(env, ds[i]))
    ensures RulesOf(env, ds[..i + 1]) == RulesOf(env, ds[..i]) + [RuleOf(env, ds[i])]
  {
    assert ds[..i + 1][..i] == ds[..i];
  }

  /** Either the rule of every row, or every fault of every row with its position. */
  method FromDto(env: Env, ds: seq<RuleDto>) returns (r: Result<seq<Rule>, seq<(nat, Fault)>>)
    ensures r.Ok? <==> forall d :: d in ds ==> GoodRow(env, d)
    ensures r == if AllFaults(env, ds) == [] then Ok(RulesOf(env, ds)) else Err(AllFaults(env, ds))
  {
    var errs: seq<(nat, Fault)> := [];
    var rules: seq<Rule> := [];
    for i := 0 to |ds|
      invariant errs == AllFaults(env, ds[..i]) && rules == RulesOf(env, ds[..i])
    {
      RowsStep(env, ds, i);
      var rule, faults := ReadDto(env, ds[i]);
      errs := errs + Tagged(i, faults);
      rules := rules + [rule];
    }
    assert ds[..|ds|] == ds;
    TableAcceptedIff(env, ds);
    return if |errs| > 0 then Err(errs) else Ok(rules);
  }

  // ----- What is accepted ------------------------------------------------------------

  /** A kind that is known, a value that can be matched with, methods that are known or blank, a
      lifetime that is not negative. */
  predicate GoodRow(env: Env, d: RuleDto) {
    ToUpper(d.kind) in {"ALLOW", "DENY"} && ToLower(d.matchType) in {"prefix", "regex", "exact"} && d.value != "" &&
    (ToLower(d.matchType) == "regex" ==> env.compiles(d.value)) &&
    (forall m :: m in d.methods ==> Blank(m) || ToUpper(Trim(m)) in {"GET", "HEAD"}) && d.ttl >= 0
  }

  lemma {:induction false} MethodFaultIff(ms: seq<string>, f: Fault)
    ensures f in MethodFaults(ms) <==>
            f.BadMethod? && f.name !in {"", "GET", "HEAD"} && exists m :: m in ms && ToUpper(Trim(m)) == f.name
  {
    if ms != [] {
      var init, last := ms[..|ms| - 1], ms[|ms| - 1];
      assert ms == init + [last];
      MethodFaultIff(init, f);
      if f.BadMethod? {
        assert (exists m :: m in ms && ToUpper(Trim(m)) == f.name) <==>
               (exists m :: m in init && ToUpper(Trim(m)) == f.name) || ToUpper(Trim(last)) == f.name;
      }
    }
  }

  /** What is reported of a row: each thing that is wrong with it, and nothing else. */
  lemma FaultsOfRow(env: Env, d: RuleDto, f: Fault)
    ensures f in Faults(env, d) <==>
            match f
            case BadKind => ToUpper(d.kind) !in {"ALLOW", "DENY"}
            case BadMatchType => ToLower(d.matchType) !in {"prefix", "regex", "exact"}
            case ValueRequired => ToLower(d.matchType) in {"prefix", "regex", "exact"} && d.value == ""
            case BadRegex => ToLower(d.matchType) == "regex" && d.value != "" && !env.compiles(d.value)
            case BadMethod(name) => name !in {"", "GET", "HEAD"} && exists m :: m in d.methods && ToUpper(Trim(m)) == name
            case NegativeTtl => d.ttl < 0
  {
    MethodFaultIff(d.methods, f);
  }

  lemma RowAcceptedIff(env: Env, d: RuleDto)
    ensures Faults(env, d) == [] <==> GoodRow(env, d)
  {
    forall m | m in d.methods ensures Blank(m) <==> ToUpper(Trim(m)) == "" {
      assert |ToUpper(Trim(m))| == |Trim(m)|;
    }
    if Faults(env, d) == [] {
      forall m | m in d.methods ensures ToUpper(Trim(m)) in {"", "GET", "HEAD"} {
        MethodFaultIff(d.methods, BadMethod(ToUpper(Trim(m))));
      }
    } else {
      var f := Faults(env, d)[0];
      assert f in Faults(env, d);
      FaultsOfRow(env, d, f);
    }
  }

  lemma {:induction false} FaultOfTableIff(env: Env, ds: seq<RuleDto>, i: nat, f: Fault)
    ensures (i, f) in AllFaults(env, ds) <==> i < |ds| && f in Faults(env, ds[i])
  {
    if ds != [] {
      var n := |ds| - 1;
      FaultOfTableIff(env, ds[..n], i, f);
      assert (i, f) in Tagged(n, Faults(env, ds[n])) <==> i == n && f in Faults(env, ds[n]) by {
        TaggedIff(n, Faults(env, ds[n]), i, f);
      }
    }
  }

  lemma TaggedIff(n: nat, fs: seq<Fault>, i: nat, f: Fault)
    ensures (i, f) in Tagged(n, fs) <==> i == n && f in fs
  {
    if i == n && f in fs {
      var k :| 0 <= k < |fs| && fs[k] == f;
      assert Tagged(n, fs)[k] == (i, f);
    }
  }

  lemma TableAcceptedIff(env: Env, ds: seq<RuleDto>)
    ensures AllFaults(env, ds) == [] <==> forall d :: d in ds ==> GoodRow(env, d)
  {
    if AllFaults(env, ds) == [] {
      forall d | d in ds ensures GoodRow(env, d) {
        var i :| 0 <= i < |ds| && ds[i] == d;
        if Faults(env, d) != [] {
          assert Faults(env, d)[0] in Faults(env, d);
          FaultOfTableIff(env, ds, i, Faults(env, d)[0]);
        }
        RowAcceptedIff(env, d);
      }
    } else {
      var (i, f) := AllFaults(env, ds)[0];
      assert (i, f) in AllFaults(env, ds);
      FaultOfTableIff(env, ds, i, f);
      RowAcceptedIff(env, ds[i]);
    }
  }

  // ----- Numbers ---------------------------------------------------------------------

  /** strconv.Atoi for a 64-bit int */
  function Atoi(s: string): Option<Int64> {
    var digits := if s != "" && s[0] in {'+', '-'} then s[1..] else s;
    var n := Number(digits);
    if n.None? then None
    else
      var v := if s[0] == '-' then 0 - n.value else n.value;
      if -0x8000_0000_0000_0000 <= v < 0x8000_0000_0000_0000 then Some(v) else None
  }

  lemma AtoiOfItoa(n: Int64)
    requires n >= 0
    ensures Atoi(Itoa(n)) == Some(n)
  {
    NumberOfItoa(n);
  }

  // ----- Writing ---------------------------------------------------------------------

  lemma {:induction false} SomeLeast(s: set<string>)
    requires s != {}
    ensures exists m :: IsLeast(s, m)
  {
    var x :| x in s;
    var rest := s - {x};
    if rest == {} {
      assert s == {x};
      assert IsLeast(s, x);
    } else {
      SomeLeast(rest);
      var m :| IsLeast(rest, m);
      LessTotal(x, m);
      if Less(x, m) {
        forall k | k in s ensures k == x || Less(x, k) {
          if k != x && k != m {
            LessTransitive(x, m, k);
          }
        }
        assert IsLeast(s, x);
      } else {
        assert IsLeast(s, m);
      }
    }
  }

  predicate IsLeast(s: set<string>, m: string) {
    m in s && forall k :: k in s ==> k == m || Less(m, k)
  }

  lemma LeastIsUnique(s: set<string>)
    ensures forall a, b :: IsLeast(s, a) && IsLeast(s, b) ==> a == b
  {
    forall a, b | IsLeast(s, a) && IsLeast(s, b) ensures a == b {
      LessTotal(a, b);
    }
  }

  /** sort.Strings on the elements of a set */
  function Ascending(s: set<string>): (r: seq<string>)
    ensures forall x :: x in r <==> x in s
    ensures r == [] <==> s == {}
  {
    if s == {} then []
    else
      SomeLeast(s);
      LeastIsUnique(s);
      var m :| IsLeast(s, m);
      [m] + Ascending(s - {m})
  }

  function Uppercase(ms: set<string>): set<string> {
    set m | m in ms :: ToUpper(m)
  }

  function When(c: bool, part: string): seq<string> {
    if c then [part] else []
  }

  function MatchOptions(r: Rule): seq<string> {
    When(r.exact != "", "exact=" + r.exact) + When(r.prefix != "", "prefix=" + r.prefix) +
    When(r.regex.Some?, "regex=" + if r.regex.Some? then r.regex.value else "")
  }

  function OtherOptions(r: Rule): seq<string> {
    When(|r.methods| > 0, "methods=" + Join(Ascending(Uppercase(r.methods)), ',')) +
    When(r.ttl > 0, "ttl=" + if r.ttl > 0 then Itoa(r.ttl) else "") +
    When(|r.vary| > 0, "vary=" + Join(r.vary, ','))
  }

  function Options(r: Rule): seq<string> {
    MatchOptions(r) + OtherOptions(r)
  }

  function Line(r: Rule): string {
    Join([ToUpper(r.kind)] + Options(r), ' ')
  }

  function Lines(rs: seq<Rule>): seq<string> {
    seq(|rs|, i requires 0 <= i < |rs| => Line(rs[i]))
  }

  method PrintMatch(r: Rule) returns (parts: seq<string>)
    ensures parts == MatchOptions(r)
  {
    parts := [];
    if r.exact != "" {
      parts := parts + ["exact=" + r.exact];
    }
    if r.prefix != "" {
      parts := parts + ["prefix=" + r.prefix];
    }
    if r.regex.Some? {
      parts := parts + ["regex=" + r.regex.value];
    }
  }

  method PrintRule(r: Rule) returns (line: string)
    ensures line == Line(r)
  {
    var head := PrintMatch(r);
    var tail: seq<string> := [];
    if |r.methods| > 0 {
      tail := tail + ["methods=" + Join(Ascending(Uppercase(r.methods)), ',')];
    }
    if r.ttl > 0 {
      tail := tail + ["ttl=" + Itoa(r.ttl)];
    }
    if |r.vary| > 0 {
      tail := tail + ["vary=" + Join(r.vary, ',')];
    }
    assert tail == OtherOptions(r);
    line := Join([ToUpper(r.kind)] + (head + tail), ' ');
  }

  method RulesetToLines(rs: seq<Rule>) returns (lines: seq<string>)
    ensures lines == Lines(rs)
  {
    lines := [];
    for i := 0 to |rs|
      invariant lines == Lines(rs[..i])
    {
      var line := PrintRule(rs[i]);
      lines := lines + [line];
    }
    assert rs[..|rs|] == rs;
  }

  /** A line the parser skips, such as those the file starts with. */
  predicate IsComment(line: string) {
    '\n' !in line && (line == "" || line[0] == '#')
  }

  /** The text of the rules file, under some lines of comment. */
  function FileText(header: seq<string>, rs: seq<Rule>): string {
    Join(header + Lines(rs), '\n') + "\n"
  }

  // ----- Reading ---------------------------------------------------------------------

  function TokenLength(s: string): (n: nat)
    ensures n <= |s| && IsToken(s[..n])
    ensures n < |s| ==> IsSpace(s[n])
  {
    if s == "" || IsSpace(s[0]) then 0
    else
      assert forall k :: 0 < k < 1 + TokenLength(s[1..]) ==> s[k] == s[1..][..TokenLength(s[1..])][k - 1];
      1 + TokenLength(s[1..])
  }

  predicate IsWord(s: string) {
    s != "" && IsToken(s)
  }

  predicate Words(ps: seq<string>) {
    forall i :: 0 <= i < |ps| ==> IsWord(ps[i])
  }

  /** strings.Fields */
  function Fields(s: string): (r: seq<string>)
    ensures Words(r)
    decreases |s|
  {
    if s == "" then []
    else if IsSpace(s[0]) then Fields(s[1..])
    else [s[..TokenLength(s)]] + Fields(s[TokenLength(s)..])
  }

  /** Where `c` first occurs, or |s|. */
  function IndexOf(s: string, c: char): (i: nat)
    ensures i <= |s| && c !in s[..i]
    ensures i < |s| ==> s[i] == c
  {
    if s == "" || s[0] == c then 0
    else
      assert forall k :: 0 < k < 1 + IndexOf(s[1..], c) ==> s[k] == s[1..][..IndexOf(s[1..], c)][k - 1];
      1 + IndexOf(s[1..], c)
  }

  function NonBlank(ps: seq<string>): seq<string> {
    if ps == [] then []
    else
      var p := Trim(ps[|ps| - 1]);
      NonBlank(ps[..|ps| - 1]) + if p == "" then [] else [p]
  }

  function SplitTrim(s: string): seq<string> {
    if s == "" then [] else NonBlank(Split(s, ','))
  }

  method SplitAndTrim(s: string) returns (r: seq<string>)
    ensures r == SplitTrim(s)
  {
    if s == "" {
      return [];
    }
    var parts := Split(s, ',');
    r := [];
    for i := 0 to |parts|
      invariant r == NonBlank(parts[..i])
    {
      assert parts[..i + 1][..i] == parts[..i];
      var p := Trim(parts[i]);
      if p != "" {
        r := r + [p];
      }
    }
    assert parts[..|parts|] == parts;
  }

  function MethodSet(v: string): set<string> {
    set m | m in Split(v, ',') :: ToUpper(Trim(m))
  }

  function WithOption(env: Env, r: Rule, opt: string): Rule {
    var i := IndexOf(opt, '=');
    if i == |opt| then r
    else
      var k, v := ToLower(opt[..i]), opt[i + 1..];
      if k == "prefix" then r.(prefix := v)
      else if k == "regex" then (if env.compiles(v) then r.(regex := Some(v)) else r)
      else if k == "exact" then r.(exact := v)
      else if k == "methods" then r.(methods := MethodSet(v))
      else if k == "ttl" then (if Atoi(v).Some? then r.(ttl := Atoi(v).value) else r)
      else if k == "vary" then r.(vary := SplitTrim(v))
      else r
  }

  function WithOptions(env: Env, r: Rule, opts: seq<string>): Rule
    decreases |opts|
  {
    if opts == [] then r else WithOptions(env, WithOption(env, r, opts[0]), opts[1..])
  }

  function Fresh(kind: string): Rule {
    Rule(ToUpper(kind), "", None, "", {}, DEFAULT_TTL, [])
  }

  /** The rule of a line; blank lines, comments and lines of a single word have none. */
  function ParseLine(env: Env, text: string): Option<Rule> {
    var line := Trim(text);
    if line == "" || HasPrefix(line, "#") then None
    else
      var fields := Fields(line);
      if |fields| < 2 then None else Some(WithOptions(env, Fresh(fields[0]), fields[1..]))
  }

  function Parser(env: Env): string -> Option<Rule> {
    (line: string) => ParseLine(env, line)
  }

  /** The rules of the lines that have one. */
  function ParseLines(parse: string -> Option<Rule>, lines: seq<string>): seq<Rule> {
    if lines == [] then []
    else
      var r := parse(lines[0]);
      (if r.Some? then [r.value] else []) + ParseLines(parse, lines[1..])
  }

  function ParseText(env: Env, text: string): seq<Rule> {
    ParseLines(Parser(env), Split(text, '\n'))
  }

  // ----- What a line says ------------------------------------------------------------

  /** The option reads `k=v`, the key in any case. */
  predicate Reads(opt: string, k: string, v: string) {
    exists n: nat | n < |opt| :: KeyEnds(opt, n) && ToLower(opt[..n]) == k && opt[n + 1..] == v
  }

  /** The first "=" of the option. */
  predicate KeyEnds(opt: string, n: nat)
    requires n < |opt|
  {
    opt[n] == '=' && '=' !in opt[..n]
  }

  /** It does, and is not ignored for a pattern that does not compile or a lifetime that is no number. */
  predicate Sets(env: Env, opt: string, k: string, v: string) {
    Reads(opt, k, v) && (k == "regex" ==> env.compiles(v)) && (k == "ttl" ==> Atoi(v).Some?)
  }

  /** What the rule has under this key. */
  predicate Has(r: Rule, k: string, v: string) {
    match k
    case "prefix" => r.prefix == v
    case "regex" => r.regex == Some(v)
    case "exact" => r.exact == v
    case "methods" => r.methods == set m | m in Split(v, ',') :: ToUpper(Trim(m))
    case "ttl" => Atoi(v) == Some(r.ttl)
    case "vary" => r.vary == if v == "" then [] else NonBlank(Split(v, ','))
    case _ => true
  }

  /** Two rules agree under this key. */
  predicate Alike(r: Rule, q: Rule, k: string) {
    match k
    case "prefix" => r.prefix == q.prefix
    case "regex" => r.regex == q.regex
    case "exact" => r.exact == q.exact
    case "methods" => r.methods == q.methods
    case "ttl" => r.ttl == q.ttl
    case "vary" => r.vary == q.vary
    case _ => true
  }

  lemma KeyEndsAt(opt: string, n: nat)
    requires n < |opt| && KeyEnds(opt, n)
    ensures IndexOf(opt, '=') == n
  {
    var i := IndexOf(opt, '=');
    assert forall j :: 0 <= j < n ==> opt[j] == opt[..n][j] && opt[j] != '=';
    assert forall j :: 0 <= j < i ==> opt[j] == opt[..i][j] && opt[j] != '=';
  }

  lemma ReadsIff(opt: string, k: string, v: string)
    ensures
      var i := IndexOf(opt, '=');
      Reads(opt, k, v) <==> i < |opt| && ToLower(opt[..i]) == k && opt[i + 1..] == v
  {
    var i := IndexOf(opt, '=');
    if i < |opt| {
      assert KeyEnds(opt, i);
    }
    forall n: nat | n < |opt| && KeyEnds(opt, n) ensures n == i {
      KeyEndsAt(opt, n);
    }
  }

  /** An option that sets a key does so; one that does not leaves it as it was. */
  lemma OptionSets(env: Env, r: Rule, opt: string, k: string, v: string)
    requires Sets(env, opt, k, v)
    ensures Has(WithOption(env, r, opt), k, v)
  {
    ReadsIff(opt, k, v);
  }

  lemma OptionKeeps(env: Env, r: Rule, opt: string, k: string)
    requires forall v :: !Sets(env, opt, k, v)
    ensures Alike(WithOption(env, r, opt), r, k)
  {
    var i := IndexOf(opt, '=');
    if i < |opt| {
      ReadsIff(opt, k, opt[i + 1..]);
      assert !Sets(env, opt, k, opt[i + 1..]);
    }
  }

  /** None of the options sets the key. */
  ghost predicate NoneSets(env: Env, opts: seq<string>, k: string) {
    forall i, v | 0 <= i < |opts| :: !Sets(env, opts[i], k, v)
  }

  lemma {:induction false} UnsetStays(env: Env, r: Rule, opts: seq<string>, k: string)
    requires NoneSets(env, opts, k)
    ensures Alike(WithOptions(env, r, opts), r, k)
    decreases |opts|
  {
    if opts != [] {
      OptionKeeps(env, r, opts[0], k);
      UnsetStays(env, WithOption(env, r, opts[0]), opts[1..], k);
    }
  }

  lemma {:induction false} LastOptionWins(env: Env, r: Rule, opts: seq<string>, i: nat, k: string, v: string)
    requires i < |opts| && Sets(env, opts[i], k, v) && NoneSets(env, opts[i + 1..], k)
    ensures Has(WithOptions(env, r, opts), k, v)
    decreases |opts|
  {
    var next := WithOption(env, r, opts[0]);
    if i == 0 {
      OptionSets(env, r, opts[0], k, v);
      UnsetStays(env, next, opts[1..], k);
    } else {
      assert opts[1..][i..] == opts[i + 1..];
      LastOptionWins(env, next, opts[1..], i - 1, k, v);
    }
  }

  /** The rule of a line has its first word for its kind, and under each key what the last option that
      sets the key says; under a key that none sets it is empty, or has the default lifetime. */
  lemma LineMeans(env: Env, text: string, k: string, i: nat, v: string)
    requires ParseLine(env, text).Some?
    ensures
      var fields, r := Fields(Trim(text)), ParseLine(env, text).value;
      |fields| >= 2 && r.kind == ToUpper(fields[0]) &&
      (NoneSets(env, fields[1..], k) ==> Alike(r, Rule("", "", None, "", {}, 600, []), k)) &&
      (0 < i < |fields| && Sets(env, fields[i], k, v) && NoneSets(env, fields[i + 1..], k) ==> Has(r, k, v))
  {
    var fields := Fields(Trim(text));
    KindStays(env, Fresh(fields[0]), fields[1..]);
    if NoneSets(env, fields[1..], k) {
      UnsetStays(env, Fresh(fields[0]), fields[1..], k);
    }
    if 0 < i < |fields| && Sets(env, fields[i], k, v) && NoneSets(env, fields[i + 1..], k) {
      assert fields[1..][i..] == fields[i + 1..];
      LastOptionWins(env, Fresh(fields[0]), fields[1..], i - 1, k, v);
    }
  }

  lemma {:induction false} KindStays(env: Env, r: Rule, opts: seq<string>)
    ensures WithOptions(env, r, opts).kind == r.kind
    decreases |opts|
  {
    if opts != [] {
      KindStays(env, WithOption(env, r, opts[0]), opts[1..]);
    }
  }

  method ReadMethodSet(v: string) returns (ms: set<string>)
    ensures ms == MethodSet(v)
  {
    var parts := Split(v, ',');
    ms := {};
    for j := 0 to |parts|
      invariant forall x :: x in ms <==> exists k :: 0 <= k < j && ToUpper(Trim(parts[k])) == x
    {
      ms := ms + {ToUpper(Trim(parts[j]))};
    }
    assert forall m :: m in parts ==> ToUpper(Trim(m)) in ms;
  }

  method ReadOption(env: Env, r: Rule, opt: string) returns (next: Rule)
    ensures next == WithOption(env, r, opt)
  {
    next := r;
    var i := IndexOf(opt, '=');
    if i == |opt| {
      return;
    }
    var k, v := ToLower(opt[..i]), opt[i + 1..];
    if k == "prefix" {
      next := r.(prefix := v);
    } else if k == "regex" {
      if env.compiles(v) {
        next := r.(regex := Some(v));
      }
    } else if k == "exact" {
      next := r.(exact := v);
    } else if k == "methods" {
      var ms := ReadMethodSet(v);
      next := r.(methods := ms);
    } else if k == "ttl" {
      if Atoi(v).Some? {
        next := r.(ttl := Atoi(v).value);
      }
    } else if k == "vary" {
      var vary := SplitAndTrim(v);
      next := r.(vary := vary);
    }
  }

  /** The rule of one line, if it has one. */
  method ReadLine(env: Env, raw: string) returns (rule: Option<Rule>)
    ensures rule == ParseLine(env, raw)
  {
    var line := Trim(raw);
    if line == "" || HasPrefix(line, "#") {
      return None;
    }
    var fields := Fields(line);
    if |fields| < 2 {
      return None;
    }
    var r := Fresh(fields[0]);
    for j := 1 to |fields|
      invariant WithOptions(env, r, fields[j..]) == WithOptions(env, Fresh(fields[0]), fields[1..])
    {
      assert fields[j..][1..] == fields[j + 1..];
      r := ReadOption(env, r, fields[j]);
    }
    rule := Some(r);
  }

  /** What the first `n` lines give, line by line. */
  function RulesSoFar(parse: string -> Option<Rule>, lines: seq<string>, n: nat): seq<Rule>
    requires n <= |lines|
  {
    if n == 0 then []
    else RulesSoFar(parse, lines, n - 1) + if parse(lines[n - 1]).Some? then [parse(lines[n - 1]).value] else []
  }

  lemma {:induction false} SoFarAndRest(parse: string -> Option<Rule>, lines: seq<string>, n: nat)
    requires n <= |lines|
    ensures RulesSoFar(parse, lines, n) + ParseLines(parse, lines[n..]) == ParseLines(parse, lines)
  {
    if n == 0 {
      assert lines[0..] == lines;
    } else {
      SoFarAndRest(parse, lines, n - 1);
      assert lines[n - 1..][1..] == lines[n..];
    }
  }

  lemma AllSoFar(parse: string -> Option<Rule>, lines: seq<string>)
    ensures RulesSoFar(parse, lines, |lines|) == ParseLines(parse, lines)
  {
    SoFarAndRest(parse, lines, |lines|);
  }

  lemma ParserReads(env: Env, lines: seq<string>, i: nat, rule: Option<Rule>)
    requires i < |lines| && rule == ParseLine(env, lines[i])
    ensures RulesSoFar(Parser(env), lines, i + 1) ==
            RulesSoFar(Parser(env), lines, i) + if rule.Some? then [rule.value] else []
  {
    assert Parser(env)(lines[i]) == rule;
  }

  method Parse(env: Env, text: string) returns (rules: seq<Rule>)
    ensures rules == ParseText(env, text)
  {
    var lines := Split(text, '\n');
    ghost var parse := Parser(env);
    rules := [];
    for i := 0 to |lines|
      invariant rules == RulesSoFar(parse, lines, i)
    {
      var rule := ReadLine(env, lines[i]);
      ParserReads(env, lines, i, rule);
      if rule.Some? {
        rules := rules + [rule.value];
      }
    }
    AllSoFar(parse, lines);
  }

  // ----- Matching --------------------------------------------------------------------

  predicate Applies(env: Env, r: Rule, verb: string, path: string) {
    (r.methods == {} || verb in r.methods) &&
    ((r.exact != "" && path == r.exact) || (r.prefix != "" && HasPrefix(path, r.prefix)) ||
     (r.regex.Some? && env.matches(r.regex.value, path)))
  }

  /** The first rule that applies, or |rs|. */
  function FirstMatch(env: Env, rs: seq<Rule>, verb: string, path: string): (i: nat)
    ensures i <= |rs|
    ensures i < |rs| ==> Applies(env, rs[i], ToUpper(verb), path)
    ensures forall j :: 0 <= j < i ==> !Applies(env, rs[j], ToUpper(verb), path)
  {
    if rs == [] then 0
    else if Applies(env, rs[0], ToUpper(verb), path) then 0
    else 1 + FirstMatch(env, rs[1..], verb, path)
  }

  function Decision(env: Env, rs: seq<Rule>, verb: string, path: string): (Option<Rule>, bool) {
    var i := FirstMatch(env, rs, verb, path);
    if i < |rs| then (Some(rs[i]), rs[i].kind == "ALLOW") else (None, false)
  }

  method Match(env: Env, rs: seq<Rule>, verb: string, path: string) returns (r: Option<Rule>, allowed: bool)
    ensures (r, allowed) == Decision(env, rs, verb, path)
    ensures r.Some? <==> exists i :: 0 <= i < |rs| && Applies(env, rs[i], ToUpper(verb), path)
    ensures r.Some? ==>
              (r.value.methods == {} || ToUpper(verb) in r.value.methods) && (allowed <==> r.value.kind == "ALLOW") &&
              (path == r.value.exact != "" || "" < r.value.prefix <= path ||
               (r.value.regex.Some? && env.matches(r.value.regex.value, path)))
  {
    var m := ToUpper(verb);
    for i := 0 to |rs|
      invariant forall j :: 0 <= j < i ==> !Applies(env, rs[j], m, path)
    {
      var rule := rs[i];
      if |rule.methods| == 0 || m in rule.methods {
        if rule.exact != "" && path == rule.exact {
          return Some(rule), rule.kind == "ALLOW";
        } else if rule.prefix != "" && HasPrefix(path, rule.prefix) {
          return Some(rule), rule.kind == "ALLOW";
        } else if rule.regex.Some? && env.matches(rule.regex.value, path) {
          return Some(rule), rule.kind == "ALLOW";
        }
      }
    }
    return None, false;
  }

  /** The lifetime a stored response gets under a rule. */
  function EffectiveTtl(r: Rule): int {
    if r.ttl <= 0 then DEFAULT_TTL else r.ttl
  }

  // ----- Words and lines -------------------------------------------------------------

  lemma TokenLengthHead(c: char, s: string)
    requires !IsSpace(c)
    ensures TokenLength([c] + s) == 1 + TokenLength(s)
  {
    assert ([c] + s)[1..] == s;
  }

  lemma {:induction false} TokenLengthOf(p: string, rest: string)
    requires IsToken(p) && (rest == "" || IsSpace(rest[0]))
    ensures TokenLength(p + rest) == |p|
  {
    if p == "" {
      assert p + rest == rest;
    } else {
      TokenLengthOf(p[1..], rest);
      assert p + rest == [p[0]] + (p[1..] + rest);
      TokenLengthHead(p[0], p[1..] + rest);
    }
  }

  /** Splitting a line at white space finds the words it was joined from. */
  lemma {:induction false} FieldsOfJoin(ps: seq<string>)
    requires ps != [] && Words(ps)
    ensures Fields(Join(ps, ' ')) == ps
  {
    var p := ps[0];
    assert IsWord(p);
    if |ps| == 1 {
      TokenLengthOf(p, "");
      assert p + "" == p && p[|p|..] == "";
    } else {
      var rest := Join(ps[1..], ' ');
      FieldsOfJoin(ps[1..]);
      assert Join(ps, ' ') == p + (" " + rest);
      TokenLengthOf(p, " " + rest);
      assert (p + (" " + rest))[|p|..] == " " + rest;
      assert Fields(" " + rest) == Fields(rest);
    }
  }

  lemma {:induction false} JoinOfWords(ps: seq<string>)
    requires ps != [] && Words(ps)
    ensures var s := Join(ps, ' '); s != "" && ps[0] != "" && s[0] == ps[0][0] && !IsSpace(s[|s| - 1])
  {
    assert IsWord(ps[0]);
    if |ps| > 1 {
      JoinOfWords(ps[1..]);
    }
  }

  lemma LineOfWords(env: Env, ps: seq<string>)
    requires |ps| >= 2 && Words(ps) && ps[0] != "" && ps[0][0] != '#'
    ensures ParseLine(env, Join(ps, ' ')) == Some(WithOptions(env, Fresh(ps[0]), ps[1..]))
  {
    JoinOfWords(ps);
    FieldsOfJoin(ps);
  }

  lemma {:induction false} JoinIsToken(ps: seq<string>, sep: char)
    requires !IsSpace(sep) && forall p :: p in ps ==> IsToken(p)
    ensures IsToken(Join(ps, sep))
  {
    if |ps| > 1 {
      JoinIsToken(ps[1..], sep);
      assert IsToken(ps[0]);
    }
  }

  lemma {:induction false} PiecesAreTokens(s: string, sep: char)
    requires IsToken(s)
    ensures forall p :: p in Split(s, sep) ==> IsToken(p) && sep !in p
  {
    if s != "" {
      PiecesAreTokens(s[1..], sep);
      var rest := Split(s[1..], sep);
      assert rest[0] in rest;
    }
  }

  lemma UpperIsToken(s: string)
    requires IsToken(s)
    ensures IsToken(ToUpper(s)) && ToUpper(ToUpper(s)) == ToUpper(s)
    ensures ',' !in s ==> ',' !in ToUpper(s)
  {
  }

  // ----- Printing, then parsing ------------------------------------------------------

  /** The text of a rule's fields survives the file: no white space, no comma within a list. */
  predicate CleanEntry(v: string) {
    v != "" && IsToken(v) && ',' !in v
  }

  predicate CleanList(vs: seq<string>) {
    forall i :: 0 <= i < |vs| ==> CleanEntry(vs[i])
  }

  predicate CleanMethods(ms: set<string>) {
    forall m :: m in ms ==> IsToken(m) && ',' !in m && ToUpper(m) == m
  }

  predicate CleanMatch(env: Env, r: Rule) {
    IsToken(r.exact) && IsToken(r.prefix) && (r.regex.Some? ==> IsToken(r.regex.value) && env.compiles(r.regex.value))
  }

  predicate CleanKind(k: string) {
    k != "" && IsToken(k) && k[0] != '#' && ToUpper(k) == k
  }

  predicate Clean(env: Env, r: Rule) {
    CleanKind(r.kind) && CleanMatch(env, r) && CleanMethods(r.methods) && CleanList(r.vary)
  }

  /** A lifetime that is not positive is not printed and reads back as the default. */
  function Normal(r: Rule): Rule {
    r.(ttl := if r.ttl > 0 then r.ttl else DEFAULT_TTL)
  }

  lemma {:induction false} WithOptionsConcat(env: Env, r: Rule, a: seq<string>, b: seq<string>)
    ensures WithOptions(env, r, a + b) == WithOptions(env, WithOptions(env, r, a), b)
    decreases |a|
  {
    if a == [] {
      assert a + b == b;
    } else {
      assert (a + b)[0] == a[0] && (a + b)[1..] == a[1..] + b;
      WithOptionsConcat(env, WithOption(env, r, a[0]), a[1..], b);
    }
  }

  lemma WithOptionsWhen(env: Env, r: Rule, c: bool, part: string)
    ensures WithOptions(env, r, When(c, part)) == if c then WithOption(env, r, part) else r
  {
    if c {
      assert When(c, part)[1..] == [];
    }
  }

  lemma {:induction false} IndexAfter(k: string, c: char, v: string)
    requires c !in k
    ensures IndexOf(k + [c] + v, c) == |k|
  {
    if k == "" {
      assert k + [c] + v == [c] + v;
    } else {
      assert (k + [c] + v)[1..] == k[1..] + [c] + v;
      IndexAfter(k[1..], c, v);
    }
  }

  /** An option splits at its first '=' into its lower-case key and its value. */
  lemma KeyAndValue(k: string, v: string)
    requires '=' !in k && forall i :: 0 <= i < |k| ==> !('A' <= k[i] <= 'Z')
    ensures
      var opt := k + "=" + v;
      var i := IndexOf(opt, '=');
      i == |k| < |opt| && ToLower(opt[..i]) == k && opt[i + 1..] == v
  {
    IndexAfter(k, '=', v);
    assert k + "=" + v == k + ['='] + v;
    assert (k + "=" + v)[..|k|] == k;
    assert ToLower(k) == k;
  }

  lemma ExactOption(env: Env, blank: Rule, v: string)
    requires blank.exact == ""
    ensures WithOptions(env, blank, When(v != "", "exact=" + v)) == blank.(exact := v)
  {
    WithOptionsWhen(env, blank, v != "", "exact=" + v);
    KeyAndValue("exact", v);
    assert "exact" + "=" + v == "exact=" + v;
  }

  lemma PrefixOption(env: Env, blank: Rule, v: string)
    requires blank.prefix == ""
    ensures WithOptions(env, blank, When(v != "", "prefix=" + v)) == blank.(prefix := v)
  {
    WithOptionsWhen(env, blank, v != "", "prefix=" + v);
    KeyAndValue("prefix", v);
    assert "prefix" + "=" + v == "prefix=" + v;
  }

  lemma RegexOption(env: Env, blank: Rule, regex: Option<string>, v: string)
    requires blank.regex == None && (regex.Some? ==> v == regex.value && env.compiles(v))
    ensures WithOptions(env, blank, When(regex.Some?, "regex=" + v)) == blank.(regex := regex)
  {
    WithOptionsWhen(env, blank, regex.Some?, "regex=" + v);
    KeyAndValue("regex", v);
    assert "regex" + "=" + v == "regex=" + v;
  }

  lemma MatchOptionsRead(env: Env, r: Rule, blank: Rule)
    requires CleanMatch(env, r) && blank.exact == "" && blank.prefix == "" && blank.regex == None
    ensures WithOptions(env, blank, MatchOptions(r)) == blank.(exact := r.exact, prefix := r.prefix, regex := r.regex)
  {
    var pattern := if r.regex.Some? then r.regex.value else "";
    var a, b := When(r.exact != "", "exact=" + r.exact), When(r.prefix != "", "prefix=" + r.prefix);
    var c := When(r.regex.Some?, "regex=" + pattern);
    WithOptionsConcat(env, blank, a + b, c);
    WithOptionsConcat(env, blank, a, b);
    ExactOption(env, blank, r.exact);
    PrefixOption(env, blank.(exact := r.exact), r.prefix);
    RegexOption(env, blank.(exact := r.exact, prefix := r.prefix), r.regex, pattern);
  }

  lemma MethodsRead(ms: set<string>)
    requires CleanMethods(ms) && ms != {}
    ensures MethodSet(Join(Ascending(Uppercase(ms)), ',')) == ms
  {
    assert Uppercase(ms) == ms by {
      forall m | m in ms ensures m in Uppercase(ms) {
        assert ToUpper(m) == m;
      }
    }
    var list := Ascending(ms);
    SplitJoin(list, ',');
    forall m | m in list ensures ToUpper(Trim(m)) == m {
      assert m in ms;
      TokenIsTrimmed(m);
    }
    forall m | m in ms ensures m in MethodSet(Join(list, ',')) {
      assert m in list;
    }
  }

  lemma {:induction false} NonBlankOfClean(vs: seq<string>)
    requires CleanList(vs)
    ensures NonBlank(vs) == vs
  {
    if vs != [] {
      var n := |vs| - 1;
      NonBlankOfClean(vs[..n]);
      assert CleanEntry(vs[n]);
      TokenIsTrimmed(vs[n]);
      assert vs == vs[..n] + [vs[n]];
    }
  }

  lemma VaryRead(vs: seq<string>)
    requires CleanList(vs) && vs != []
    ensures SplitTrim(Join(vs, ',')) == vs
  {
    forall p | p in vs ensures ',' !in p {
      var i :| 0 <= i < |vs| && vs[i] == p;
      assert CleanEntry(vs[i]);
    }
    SplitJoin(vs, ',');
    NonBlankOfClean(vs);
    assert CleanEntry(vs[0]);
  }

  lemma OtherOptionsRead(env: Env, r: Rule, blank: Rule)
    requires CleanMethods(r.methods) && CleanList(r.vary)
    requires blank.methods == {} && blank.ttl == DEFAULT_TTL && blank.vary == []
    ensures WithOptions(env, blank, OtherOptions(r)) == blank.(methods := r.methods, ttl := Normal(r).ttl, vary := r.vary)
  {
    var ms, vs := Join(Ascending(Uppercase(r.methods)), ','), Join(r.vary, ',');
    var ttl := if r.ttl > 0 then Itoa(r.ttl) else "";
    var a, b, c := When(|r.methods| > 0, "methods=" + ms), When(r.ttl > 0, "ttl=" + ttl), When(|r.vary| > 0, "vary=" + vs);
    WithOptionsConcat(env, blank, a + b, c);
    WithOptionsConcat(env, blank, a, b);
    MethodsOption(env, blank, r, ms);
    var r1 := blank.(methods := r.methods);
    TtlOption(env, r1, r, ttl);
    VaryOption(env, r1.(ttl := Normal(r).ttl), r, vs);
  }

  lemma MethodsOption(env: Env, blank: Rule, r: Rule, ms: string)
    requires CleanMethods(r.methods) && blank.methods == {} && ms == Join(Ascending(Uppercase(r.methods)), ',')
    ensures WithOptions(env, blank, When(|r.methods| > 0, "methods=" + ms)) == blank.(methods := r.methods)
  {
    WithOptionsWhen(env, blank, |r.methods| > 0, "methods=" + ms);
    if |r.methods| > 0 {
      KeyAndValue("methods", ms);
      assert "methods" + "=" + ms == "methods=" + ms;
      MethodsRead(r.methods);
    }
  }

  lemma TtlOption(env: Env, blank: Rule, r: Rule, ttl: string)
    requires blank.ttl == DEFAULT_TTL && (r.ttl > 0 ==> ttl == Itoa(r.ttl))
    ensures WithOptions(env, blank, When(r.ttl > 0, "ttl=" + ttl)) == blank.(ttl := Normal(r).ttl)
  {
    WithOptionsWhen(env, blank, r.ttl > 0, "ttl=" + ttl);
    if r.ttl > 0 {
      KeyAndValue("ttl", ttl);
      assert "ttl" + "=" + ttl == "ttl=" + ttl;
      AtoiOfItoa(r.ttl);
    }
  }

  lemma VaryOption(env: Env, blank: Rule, r: Rule, vs: string)
    requires CleanList(r.vary) && blank.vary == [] && vs == Join(r.vary, ',')
    ensures WithOptions(env, blank, When(|r.vary| > 0, "vary=" + vs)) == blank.(vary := r.vary)
  {
    WithOptionsWhen(env, blank, |r.vary| > 0, "vary=" + vs);
    if |r.vary| > 0 {
      KeyAndValue("vary", vs);
      assert "vary" + "=" + vs == "vary=" + vs;
      VaryRead(r.vary);
    }
  }

  lemma OptionIsWord(key: string, v: string)
    requires IsWord(key) && IsToken(v)
    ensures IsWord(key + v)
  {
  }

  lemma MatchOptionsAreWords(env: Env, r: Rule)
    requires CleanMatch(env, r)
    ensures Words(MatchOptions(r))
  {
    OptionIsWord("exact=", r.exact);
    OptionIsWord("prefix=", r.prefix);
    if r.regex.Some? {
      OptionIsWord("regex=", r.regex.value);
    }
  }

  lemma MethodsOptionIsWord(r: Rule)
    requires CleanMethods(r.methods)
    ensures IsWord("methods=" + Join(Ascending(Uppercase(r.methods)), ','))
  {
    MethodsAreToken(r.methods);
    OptionIsWord("methods=", Join(Ascending(Uppercase(r.methods)), ','));
  }

  lemma VaryOptionIsWord(r: Rule)
    requires CleanList(r.vary)
    ensures IsWord("vary=" + Join(r.vary, ','))
  {
    forall p | p in r.vary ensures IsToken(p) {
      var i :| 0 <= i < |r.vary| && r.vary[i] == p;
      assert CleanEntry(r.vary[i]);
    }
    JoinIsToken(r.vary, ',');
    OptionIsWord("vary=", Join(r.vary, ','));
  }

  lemma LifetimeOptionIsWord(ttl: nat)
    ensures IsWord("ttl=" + Itoa(ttl))
  {
    var digits := Itoa(ttl);
    assert IsToken(digits);
    OptionIsWord("ttl=", digits);
  }

  lemma OtherOptionsAreWords(r: Rule)
    requires CleanMethods(r.methods) && CleanList(r.vary)
    ensures Words(OtherOptions(r))
  {
    MethodsOptionIsWord(r);
    VaryOptionIsWord(r);
    if r.ttl > 0 {
      LifetimeOptionIsWord(r.ttl);
    }
  }

  lemma OptionsAreWords(env: Env, r: Rule)
    requires Clean(env, r)
    ensures Words(Options(r))
  {
    MatchOptionsAreWords(env, r);
    OtherOptionsAreWords(r);
  }

  lemma MethodsAreToken(ms: set<string>)
    requires CleanMethods(ms)
    ensures IsToken(Join(Ascending(Uppercase(ms)), ','))
  {
    forall p | p in Ascending(Uppercase(ms)) ensures IsToken(p) {
      assert p in Uppercase(ms);
    }
    JoinIsToken(Ascending(Uppercase(ms)), ',');
  }

  /** The printed line of a clean rule reads back as the rule, the lifetime made explicit. */
  lemma LineReadsBack(env: Env, r: Rule)
    requires Clean(env, r) && Options(r) != []
    ensures ParseLine(env, Line(r)) == Some(Normal(r))
  {
    var opts := Options(r);
    OptionsAreWords(env, r);
    LineOfWords(env, [r.kind] + opts);
    assert ([r.kind] + opts)[1..] == opts;
    var blank := Fresh(r.kind);
    WithOptionsConcat(env, blank, MatchOptions(r), OtherOptions(r));
    MatchOptionsRead(env, r, blank);
    OtherOptionsRead(env, r, WithOptions(env, blank, MatchOptions(r)));
  }

  // ----- Whatever is parsed is clean -------------------------------------------------

  predicate CleanFields(env: Env, r: Rule) {
    CleanMatch(env, r) && CleanMethods(r.methods) && CleanList(r.vary)
  }

  lemma MethodSetIsClean(v: string)
    requires IsToken(v)
    ensures CleanMethods(MethodSet(v))
  {
    PiecesAreTokens(v, ',');
    forall m | m in Split(v, ',')
      ensures IsToken(ToUpper(Trim(m))) && ',' !in ToUpper(Trim(m)) && ToUpper(ToUpper(Trim(m))) == ToUpper(Trim(m))
    {
      TokenIsTrimmed(m);
      UpperIsToken(m);
    }
  }

  lemma {:induction false} NonBlankIsClean(ps: seq<string>)
    requires forall p :: p in ps ==> IsToken(p) && ',' !in p
    ensures CleanList(NonBlank(ps))
  {
    if ps != [] {
      NonBlankIsClean(ps[..|ps| - 1]);
      TokenIsTrimmed(ps[|ps| - 1]);
    }
  }

  lemma OptionKeepsClean(env: Env, r: Rule, opt: string)
    requires CleanFields(env, r) && IsToken(opt)
    ensures CleanFields(env, WithOption(env, r, opt)) && WithOption(env, r, opt).kind == r.kind
  {
    var i := IndexOf(opt, '=');
    if i < |opt| {
      var v := opt[i + 1..];
      MethodSetIsClean(v);
      PiecesAreTokens(v, ',');
      NonBlankIsClean(Split(v, ','));
    }
  }

  lemma {:induction false} OptionsKeepClean(env: Env, r: Rule, opts: seq<string>)
    requires CleanFields(env, r) && Words(opts)
    ensures CleanFields(env, WithOptions(env, r, opts)) && WithOptions(env, r, opts).kind == r.kind
    decreases |opts|
  {
    if opts != [] {
      assert IsWord(opts[0]);
      OptionKeepsClean(env, r, opts[0]);
      OptionsKeepClean(env, WithOption(env, r, opts[0]), opts[1..]);
    }
  }

  lemma FirstField(s: string)
    requires s != "" && !IsSpace(s[0])
    ensures Fields(s) != [] && Fields(s)[0] != "" && Fields(s)[0][0] == s[0]
  {
  }

  /** Every rule that comes out of the parser is clean, whatever the line. */
  lemma ParsedIsClean(env: Env, text: string)
    requires ParseLine(env, text).Some?
    ensures Clean(env, ParseLine(env, text).value)
  {
    var line := Trim(text);
    var fields := Fields(line);
    FirstField(line);
    assert IsWord(fields[0]);
    UpperIsToken(fields[0]);
    assert IsToken("");
    OptionsKeepClean(env, Fresh(fields[0]), fields[1..]);
  }

  lemma {:induction false} AllParsedAreClean(env: Env, lines: seq<string>)
    ensures forall r :: r in ParseLines(Parser(env), lines) ==> Clean(env, r)
  {
    if lines != [] {
      AllParsedAreClean(env, lines[1..]);
      assert Parser(env)(lines[0]) == ParseLine(env, lines[0]);
      if ParseLine(env, lines[0]).Some? {
        ParsedIsClean(env, lines[0]);
      }
    }
  }

  // ----- The file --------------------------------------------------------------------

  lemma {:induction false} ParseLinesConcat(parse: string -> Option<Rule>, a: seq<string>, b: seq<string>)
    ensures ParseLines(parse, a + b) == ParseLines(parse, a) + ParseLines(parse, b)
  {
    if a == [] {
      assert a + b == b;
    } else {
      var rest := a[1..] + b;
      ParseLinesConcat(parse, a[1..], b);
      assert a + b == [a[0]] + rest && (a + b)[1..] == rest;
    }
  }

  lemma CommentHasNoRule(env: Env, line: string)
    requires IsComment(line)
    ensures Parser(env)(line) == None
  {
    if line != "" {
      TrimKeepsHead(line);
    }
  }

  lemma {:induction false} CommentsAreSkipped(env: Env, header: seq<string>)
    requires forall h :: h in header ==> IsComment(h)
    ensures ParseLines(Parser(env), header) == []
  {
    if header != [] {
      CommentHasNoRule(env, header[0]);
      CommentsAreSkipped(env, header[1..]);
    }
  }

  function NormalAll(rs: seq<Rule>): seq<Rule> {
    seq(|rs|, i requires 0 <= i < |rs| => Normal(rs[i]))
  }

  predicate Sound(env: Env, r: Rule) {
    Clean(env, r) && Options(r) != []
  }

  ghost predicate Printable(env: Env, rs: seq<Rule>) {
    forall i :: 0 <= i < |rs| ==> Sound(env, rs[i])
  }

  lemma {:induction false} JoinHasNoNewline(ps: seq<string>)
    requires forall p :: p in ps ==> '\n' !in p
    ensures '\n' !in Join(ps, ' ')
  {
    if |ps| > 1 {
      JoinHasNoNewline(ps[1..]);
    }
  }

  lemma LineIsOneLine(env: Env, r: Rule)
    requires Clean(env, r)
    ensures '\n' !in Line(r)
  {
    OptionsAreWords(env, r);
    var ps := [ToUpper(r.kind)] + Options(r);
    assert IsToken(ps[0]);
    forall p | p in ps ensures '\n' !in p {
      assert IsToken(p);
    }
    JoinHasNoNewline(ps);
  }

  lemma {:induction false} LinesReadAs(parse: string -> Option<Rule>, lines: seq<string>, rs: seq<Rule>)
    requires |lines| == |rs| && forall i :: 0 <= i < |rs| ==> parse(lines[i]) == Some(rs[i])
    ensures ParseLines(parse, lines) == rs
  {
    if rs != [] {
      LinesReadAs(parse, lines[1..], rs[1..]);
      assert rs == [rs[0]] + rs[1..];
    }
  }

  lemma LinesReadBack(env: Env, rs: seq<Rule>)
    requires Printable(env, rs)
    ensures ParseLines(Parser(env), Lines(rs)) == NormalAll(rs)
  {
    var parse, lines, normal := Parser(env), Lines(rs), NormalAll(rs);
    forall i | 0 <= i < |rs| ensures parse(lines[i]) == Some(normal[i]) {
      assert Sound(env, rs[i]);
      LineReadsBack(env, rs[i]);
    }
    LinesReadAs(parse, lines, normal);
  }

  /** Lines without a newline, each ended by one, are what the parser sees. */
  lemma TextOfLines(env: Env, ls: seq<string>)
    requires ls != [] && forall l :: l in ls ==> '\n' !in l
    ensures ParseText(env, Join(ls, '\n') + "\n") == ParseLines(Parser(env), ls)
  {
    SplitJoin(ls, '\n');
    SplitConcat(Join(ls, '\n'), '\n', "");
    assert Join(ls, '\n') + "\n" == Join(ls, '\n') + ['\n'] + "";
    ParseLinesConcat(Parser(env), ls, [""]);
    CommentsAreSkipped(env, [""]);
  }

  lemma FileReadsBack(env: Env, header: seq<string>, rs: seq<Rule>)
    requires Printable(env, rs) && header != [] && forall h :: h in header ==> IsComment(h)
    ensures ParseText(env, FileText(header, rs)) == NormalAll(rs)
  {
    forall l | l in Lines(rs) ensures '\n' !in l {
      var i :| 0 <= i < |rs| && l == Lines(rs)[i];
      assert Sound(env, rs[i]);
      LineIsOneLine(env, rs[i]);
    }
    TextOfLines(env, header + Lines(rs));
    CommentsAreSkipped(env, header);
    ParseLinesConcat(Parser(env), header, Lines(rs));
    LinesReadBack(env, rs);
  }

  // ----- Accepted rules --------------------------------------------------------------

  /** What a row must look like for its text to survive. */
  predicate CleanDto(d: RuleDto) {
    IsToken(d.value) && CleanList(d.vary)
  }

  lemma NoFaultsAtAll(env: Env, ds: seq<RuleDto>, i: nat)
    requires AllFaults(env, ds) == [] && i < |ds|
    ensures Faults(env, ds[i]) == []
  {
    TableAcceptedIff(env, ds);
    RowAcceptedIff(env, ds[i]);
  }

  lemma AcceptedHasOptions(env: Env, d: RuleDto)
    requires Faults(env, d) == []
    ensures Options(RuleOf(env, d)) != []
  {
    assert MatchFaults(env, d) == [];
    assert MatchOptions(RuleOf(env, d)) != [];
  }

  lemma AcceptedMatchIsCleanIff(env: Env, d: RuleDto)
    requires MatchFaults(env, d) == []
    ensures CleanMatch(env, RuleOf(env, d)) <==> IsToken(d.value)
  {
    assert IsToken("");
  }

  lemma AcceptedMethodsAreClean(env: Env, d: RuleDto)
    ensures CleanMethods(RuleOf(env, d).methods)
  {
    assert ToUpper("GET") == "GET" && ToUpper("HEAD") == "HEAD";
    assert RuleOf(env, d).methods <= {"GET", "HEAD"};
  }

  lemma AcceptedKindIsClean(kind: string)
    requires kind in {"ALLOW", "DENY"}
    ensures CleanKind(kind)
  {
    assert ToUpper("ALLOW") == "ALLOW" && ToUpper("DENY") == "DENY";
  }

  lemma AcceptedIsCleanIff(env: Env, d: RuleDto)
    requires Faults(env, d) == []
    ensures Clean(env, RuleOf(env, d)) <==> CleanDto(d)
  {
    AcceptedKindIsClean(RuleOf(env, d).kind);
    AcceptedMethodsAreClean(env, d);
    AcceptedMatchIsCleanIff(env, d);
  }

  lemma CleanRowsReadBack(env: Env, header: seq<string>, ds: seq<RuleDto>)
    requires AllFaults(env, ds) == [] && (forall d :: d in ds ==> CleanDto(d))
    requires header != [] && forall h :: h in header ==> IsComment(h)
    ensures ParseText(env, FileText(header, RulesOf(env, ds))) == NormalAll(RulesOf(env, ds))
  {
    var rs := RulesOf(env, ds);
    forall i | 0 <= i < |rs| ensures Sound(env, rs[i]) {
      NoFaultsAtAll(env, ds, i);
      AcceptedHasOptions(env, ds[i]);
      AcceptedIsCleanIff(env, ds[i]);
    }
    FileReadsBack(env, header, rs);
  }

  lemma ReadBackRowIsClean(env: Env, text: string, ds: seq<RuleDto>, i: nat)
    requires AllFaults(env, ds) == [] && i < |ds| && ParseText(env, text) == NormalAll(RulesOf(env, ds))
    ensures CleanDto(ds[i])
  {
    var r := RuleOf(env, ds[i]);
    AllParsedAreClean(env, Split(text, '\n'));
    assert NormalAll(RulesOf(env, ds))[i] == Normal(r);
    assert Normal(r) in ParseText(env, text);
    NoFaultsAtAll(env, ds, i);
    AcceptedIsCleanIff(env, ds[i]);
  }

  /** Writing an accepted rule list to the file and reading it back gives the same rules, lifetimes
      made explicit, exactly when no value holds white space and every vary entry is a word
      without a comma. */
  lemma FileRoundTripIff(env: Env, header: seq<string>, ds: seq<RuleDto>)
    requires AllFaults(env, ds) == [] && header != [] && forall h :: h in header ==> IsComment(h)
    ensures ParseText(env, FileText(header, RulesOf(env, ds))) == NormalAll(RulesOf(env, ds)) <==>
            forall d :: d in ds ==> CleanDto(d)
  {
    if forall d :: d in ds ==> CleanDto(d) {
      CleanRowsReadBack(env, header, ds);
    }
    var text := FileText(header, RulesOf(env, ds));
    if ParseText(env, text) == NormalAll(RulesOf(env, ds)) {
      forall i | 0 <= i < |ds| ensures CleanDto(ds[i]) {
        ReadBackRowIsClean(env, text, ds, i);
      }
    }
  }

  function PrefixRow(value: string): RuleDto {
    RuleDto("ALLOW", "prefix", value, [], 60, [])
  }

  lemma PrefixRowIsAccepted(env: Env, value: string)
    requires value != ""
    ensures AllFaults(env, [PrefixRow(value)]) == []
  {
    var d := PrefixRow(value);
    assert ToUpper("ALLOW") == "ALLOW" && ToLower("prefix") == "prefix";
    assert Faults(env, d) == [];
    assert [d][..0] == [];
  }

  /** Two accepted values, with a space and with a no-break space, that the file does not give back. */
  lemma SpacedValuesAreLost(env: Env, header: seq<string>)
    requires header != [] && forall h :: h in header ==> IsComment(h)
    ensures forall value :: value in {"/a b", "/a\U{A0}b"} ==>
              var ds := [PrefixRow(value)];
              AllFaults(env, ds) == [] && ParseText(env, FileText(header, RulesOf(env, ds))) != NormalAll(RulesOf(env, ds))
  {
    forall value | value in {"/a b", "/a\U{A0}b"}
      ensures
        var ds := [PrefixRow(value)];
        AllFaults(env, ds) == [] && ParseText(env, FileText(header, RulesOf(env, ds))) != NormalAll(RulesOf(env, ds))
    {
      var ds := [PrefixRow(value)];
      PrefixRowIsAccepted(env, value);
      FileRoundTripIff(env, header, ds);
      assert IsSpace(value[2]) && !IsToken(value);
      assert ds[0] in ds && !CleanDto(ds[0]);
    }
  }

  lemma {:induction false} NormalMatchesAlike(env: Env, rs: seq<Rule>, verb: string, path: string)
    ensures FirstMatch(env, NormalAll(rs), verb, path) == FirstMatch(env, rs, verb, path)
  {
    if rs != [] {
      NormalMatchesAlike(env, rs[1..], verb, path);
      assert NormalAll(rs)[1..] == NormalAll(rs[1..]);
    }
  }

  /** The rules read back decide every request as the accepted ones: same verdict, and a matched
      rule with the same kind, vary list and effective lifetime. */
  lemma RestoredRulesDecideAlike(env: Env, header: seq<string>, ds: seq<RuleDto>, verb: string, path: string)
    requires AllFaults(env, ds) == [] && (forall d :: d in ds ==> CleanDto(d))
    requires header != [] && forall h :: h in header ==> IsComment(h)
    ensures
      var (before, allowedBefore) := Decision(env, RulesOf(env, ds), verb, path);
      var (after, allowedAfter) := Decision(env, ParseText(env, FileText(header, RulesOf(env, ds))), verb, path);
      allowedBefore == allowedAfter && before.Some? == after.Some? &&
      (before.Some? ==>
         EffectiveTtl(after.value) == EffectiveTtl(before.value) && after.value == before.value.(ttl := after.value.ttl))
  {
    CleanRowsReadBack(env, header, ds);
    NormalMatchesAlike(env, RulesOf(env, ds), verb, path);
  }

  // ----- What a table of rows decides ------------------------------------------------

  /** A row applies to a request: it lists the method, or lists none and the method is GET or HEAD, or
      lists only blanks; and its value is the path, begins it, or matches it. */
  predicate RowApplies(env: Env, d: RuleDto, verb: string, path: string) {
    (if d.methods == [] then ToUpper(verb) in {"GET", "HEAD"}
     else (forall m :: m in d.methods ==> Blank(m)) || exists m :: m in d.methods && !Blank(m) && ToUpper(Trim(m)) == ToUpper(verb)) &&
    match ToLower(d.matchType)
    case "exact" => path == d.value
    case "prefix" => d.value <= path
    case "regex" => env.matches(d.value, path)
    case _ => false
  }

  lemma {:induction false} NoMethodFaults(ms: seq<string>)
    requires MethodFaults(ms) == []
    ensures forall m :: m in ms ==> ToUpper(Trim(m)) in {"", "GET", "HEAD"}
  {
    if ms != [] {
      var init, last := ms[..|ms| - 1], ms[|ms| - 1];
      NoMethodFaults(init);
      assert ms == init + [last];
    }
  }

  lemma MethodsApplyIff(ms: seq<string>, verb: string)
    requires ms != [] && MethodFaults(ms) == []
    ensures Known(ms) == {} || ToUpper(verb) in Known(ms) <==>
            (forall m :: m in ms ==> Blank(m)) || exists m :: m in ms && !Blank(m) && ToUpper(Trim(m)) == ToUpper(verb)
  {
    NoMethodFaults(ms);
    forall m | m in ms ensures Blank(m) <==> ToUpper(Trim(m)) !in {"GET", "HEAD"} {
      assert |ToUpper(Trim(m))| == |Trim(m)|;
    }
    if m :| m in ms && !Blank(m) {
      assert ToUpper(Trim(m)) in Known(ms);
    }
  }

  lemma RowAppliesIff(env: Env, d: RuleDto, verb: string, path: string)
    requires Faults(env, d) == []
    ensures Applies(env, RuleOf(env, d), ToUpper(verb), path) <==> RowApplies(env, d, verb, path)
  {
    if d.methods != [] {
      MethodsApplyIff(d.methods, verb);
    }
  }

  lemma {:induction false} FirstMatchIs(env: Env, rs: seq<Rule>, verb: string, path: string, i: nat)
    requires i <= |rs| && (i < |rs| ==> Applies(env, rs[i], ToUpper(verb), path))
    requires forall j :: 0 <= j < i ==> !Applies(env, rs[j], ToUpper(verb), path)
    ensures FirstMatch(env, rs, verb, path) == i
  {
    if i > 0 {
      FirstMatchIs(env, rs[1..], verb, path, i - 1);
    }
  }

  lemma RowOfTable(env: Env, ds: seq<RuleDto>, verb: string, path: string, j: nat)
    requires AllFaults(env, ds) == [] && j < |ds|
    ensures Applies(env, RulesOf(env, ds)[j], ToUpper(verb), path) <==> RowApplies(env, ds[j], verb, path)
  {
    NoFaultsAtAll(env, ds, j);
    RowAppliesIff(env, ds[j], verb, path);
  }

  /** Of an accepted table the first row that applies decides, by its kind; without one the answer is
      no. */
  lemma RowsDecide(env: Env, ds: seq<RuleDto>, verb: string, path: string, i: nat)
    requires AllFaults(env, ds) == [] && i <= |ds| && (i < |ds| ==> RowApplies(env, ds[i], verb, path))
    requires forall j :: 0 <= j < i ==> !RowApplies(env, ds[j], verb, path)
    ensures Decision(env, RulesOf(env, ds), verb, path) ==
            if i < |ds| then (Some(RuleOf(env, ds[i])), ToUpper(ds[i].kind) == "ALLOW") else (None, false)
    ensures i < |ds| ==> RuleOf(env, ds[i]).ttl == ds[i].ttl && RuleOf(env, ds[i]).vary == ds[i].vary
  {
    var rs := RulesOf(env, ds);
    forall j | 0 <= j < i ensures !Applies(env, rs[j], ToUpper(verb), path) {
      RowOfTable(env, ds, verb, path, j);
    }
    if i < |ds| {
      RowOfTable(env, ds, verb, path, i);
    }
    FirstMatchIs(env, rs, verb, path, i);
  }
}
