// Validation of the routing rules and the resolution of a request to a route and its targets.
// URL parsing, regular expressions and host canonicalization stay abstract.
module Routing {
  import opened Text
  import opened PathRewrite
  import T = TargetSelection
  import opened Wrappers

  /** The library calls: an absolute http(s) URL parses to its printed form. */
  datatype Env = Env(
    parse: string -> Option<string>, compiles: string -> bool, regex: (string, string) -> bool, hostOf: string -> string)

  datatype Upstream = Upstream(name: string, url: string, weight: int, enabled: bool)

  /** `hostAndHashOk` and `operationsOk` say whether the host rewrite and hash policy, and the query
      and header operations, pass their own checks. */
  datatype Action = Action(
    upstream: string, canary: string, canaryPct: int, hostAndHashOk: bool, pathRewrite: Option<string>,
    rewritesQuery: bool, operationsOk: bool)

  datatype Route = Route(
    name: string, enabled: bool, priority: int, hosts: seq<string>, path: Option<PathMatch>, action: Action)

  datatype DefaultRoute = DefaultRoute(name: string, enabled: bool, action: Action)

  datatype Config = Config(
    upstreamURL: string, upstreams: seq<Upstream>, routes: seq<Route>, default: Option<DefaultRoute>)

  datatype Fault =
    | WeightNotPositive | BadHost | BadPathKind | PathRequired | PathNeedsSlash | BadRegex
    | UpstreamRequired | UnknownUpstream | DuplicatedUpstream | DisabledUpstream
    | CanaryNeedsUpstream | CanaryOutOfRange | CanaryWeightAlone
    | BadHostOrHash | RewriteRequired | RewriteNeedsSlash | BadOperations | RewriteNeedsPath | RewriteOnRegex
    | FallbackRequired | NoPrimaryTarget

  datatype Where = AtUpstream(i: nat) | AtRoute(i: nat) | AtDefault | AtConfig

  datatype Problem = Problem(at: Where, fault: Fault)

  const EMPTY_ACTION := Action("", "", 0, true, None, false, true)

  function Parse(env: Env, raw: string): Option<string> {
    env.parse(Trim(raw))
  }

  // ----- Upstream names --------------------------------------------------------------

  function Count(ups: seq<Upstream>, name: string): nat {
    if ups == [] then 0 else Count(ups[..|ups| - 1], name) + if ups[|ups| - 1].name == name then 1 else 0
  }

  /** The first upstream of that name, or |ups|. */
  function FirstNamed(ups: seq<Upstream>, name: string): (i: nat)
    ensures i <= |ups|
    ensures i < |ups| ==> ups[i].name == name
    ensures forall j :: 0 <= j < i ==> ups[j].name != name
  {
    if ups == [] then 0 else if ups[0].name == name then 0 else 1 + FirstNamed(ups[1..], name)
  }

  predicate Counted(ups: seq<Upstream>, counts: map<string, nat>, name: string) {
    (if name in counts then counts[name] else 0) == Count(ups, name)
  }

  /** What the two name tables hold after the loop over the upstreams. */
  predicate Named(ups: seq<Upstream>, named: map<string, Upstream>, name: string) {
    (name in named <==> Count(ups, name) > 0) &&
    (name in named ==> exists i :: 0 <= i < |ups| && ups[i] == named[name] && ups[i].name == name)
  }

  ghost predicate Tables(ups: seq<Upstream>, named: map<string, Upstream>, counts: map<string, nat>) {
    forall name :: Counted(ups, counts, name) && Named(ups, named, name)
  }

  lemma TablesStep(ups: seq<Upstream>, i: nat, named: map<string, Upstream>, counts: map<string, nat>, name: string)
    requires i < |ups| && Tables(ups[..i], named, counts)
    ensures
      var u := ups[i];
      var n := if u.name in counts then counts[u.name] else 0;
      Counted(ups[..i + 1], counts[u.name := n + 1], name) && Named(ups[..i + 1], named[u.name := u], name)
  {
    var u := ups[i];
    var head, next := ups[..i], ups[..i + 1];
    assert next[..|next| - 1] == head && next[i] == u;
    assert Counted(head, counts, name) && Named(head, named, name);
    assert Counted(head, counts, u.name);
    if name != u.name && name in named {
      var k :| 0 <= k < |head| && head[k] == named[name] && head[k].name == name;
      assert next[k] == named[name];
    }
  }

  method BuildTables(ups: seq<Upstream>)
    returns (bad: Option<nat>, named: map<string, Upstream>, counts: map<string, nat>)
    ensures bad.None? ==> Tables(ups, named, counts) && forall u :: u in ups ==> u.weight > 0
    ensures bad.Some? ==> bad.value < |ups| && ups[bad.value].weight <= 0
    ensures bad.Some? ==> forall j :: 0 <= j < bad.value ==> ups[j].weight > 0
  {
    named, counts := map[], map[];
    for i := 0 to |ups|
      invariant forall j :: 0 <= j < i ==> ups[j].weight > 0
      invariant Tables(ups[..i], named, counts)
    {
      var u := ups[i];
      if u.weight <= 0 {
        return Some(i), named, counts;
      }
      var n := if u.name in counts then counts[u.name] else 0;
      var counts', named' := counts[u.name := n + 1], named[u.name := u];
      var seen := ups[..i + 1];
      forall name ensures Counted(seen, counts', name) && Named(seen, named', name) {
        TablesStep(ups, i, named, counts, name);
      }
      counts, named := counts', named';
    }
    bad := None;
    assert ups[..|ups|] == ups;
  }

  lemma {:induction false} CountIsPositive(ups: seq<Upstream>, i: nat)
    requires i < |ups|
    ensures Count(ups, ups[i].name) >= 1
  {
    if i < |ups| - 1 {
      CountIsPositive(ups[..|ups| - 1], i);
    }
  }

  lemma {:induction false} TwoOfAName(ups: seq<Upstream>, i: nat, j: nat)
    requires i < j < |ups| && ups[i].name == ups[j].name
    ensures Count(ups, ups[i].name) >= 2
  {
    if j < |ups| - 1 {
      TwoOfAName(ups[..|ups| - 1], i, j);
    } else {
      CountIsPositive(ups[..|ups| - 1], i);
    }
  }

  lemma {:induction false} CountFindsOne(ups: seq<Upstream>, name: string)
    ensures Count(ups, name) > 0 <==> FirstNamed(ups, name) < |ups|
  {
    var i := FirstNamed(ups, name);
    if i < |ups| {
      CountIsPositive(ups, i);
    } else if ups != [] {
      var init := ups[..|ups| - 1];
      CountFindsOne(init, name);
      assert forall j :: 0 <= j < |init| ==> ups[j] == init[j];
      assert ups[|ups| - 1].name != name;
    }
  }

  /** The name tables answer as a search of the list would. */
  lemma TablesAnswer(ups: seq<Upstream>, named: map<string, Upstream>, counts: map<string, nat>, name: string)
    requires Tables(ups, named, counts)
    ensures name in named <==> FirstNamed(ups, name) < |ups|
    ensures name in named ==> name in counts && counts[name] == Count(ups, name)
    ensures name in named && Count(ups, name) == 1 ==> named[name] == ups[FirstNamed(ups, name)]
  {
    assert Counted(ups, counts, name) && Named(ups, named, name);
    CountFindsOne(ups, name);
    if name in named && Count(ups, name) == 1 {
      var i :| 0 <= i < |ups| && ups[i] == named[name] && ups[i].name == name;
      var first := FirstNamed(ups, name);
      if first < i {
        TwoOfAName(ups, first, i);
      }
    }
  }

  // ----- Validation ------------------------------------------------------------------

  predicate HasLegacy(cfg: Config) {
    !Blank(cfg.upstreamURL) || |cfg.upstreams| > 0
  }

  /** What is wrong with naming `ref` as an upstream: it must be a URL or the one enabled upstream
      of that name. */
  function RefFault(env: Env, cfg: Config, ref: string): Option<Fault> {
    var i := FirstNamed(cfg.upstreams, ref);
    if Parse(env, ref).Some? then None
    else if i == |cfg.upstreams| then Some(UnknownUpstream)
    else if Count(cfg.upstreams, ref) > 1 then Some(DuplicatedUpstream)
    else if !cfg.upstreams[i].enabled then Some(DisabledUpstream)
    else None
  }

  function CanaryFault(env: Env, cfg: Config, a: Action): Option<Fault> {
    if Blank(a.canary) then (if a.canaryPct != 0 then Some(CanaryWeightAlone) else None)
    else if Blank(a.upstream) then Some(CanaryNeedsUpstream)
    else
      var fault := RefFault(env, cfg, Trim(a.canary));
      if fault.Some? then fault
      else if 0 < a.canaryPct < 100 then None
      else Some(CanaryOutOfRange)
  }

  function OtherFault(a: Action): Option<Fault> {
    if !a.hostAndHashOk then Some(BadHostOrHash)
    else if a.pathRewrite.Some? && Blank(a.pathRewrite.value) then Some(RewriteRequired)
    else if a.pathRewrite.Some? && !HasPrefix(a.pathRewrite.value, "/") then Some(RewriteNeedsSlash)
    else if !a.operationsOk then Some(BadOperations)
    else None
  }

  function UpstreamFault(env: Env, cfg: Config, a: Action): Option<Fault> {
    if !Blank(a.upstream) then RefFault(env, cfg, Trim(a.upstream))
    else if HasLegacy(cfg) then None
    else Some(UpstreamRequired)
  }

  function Either(first: Option<Fault>, second: Option<Fault>): Option<Fault> {
    if first.Some? then first else second
  }

  function ActionFault(env: Env, cfg: Config, a: Action): Option<Fault> {
    Either(UpstreamFault(env, cfg, a), Either(CanaryFault(env, cfg, a), OtherFault(a)))
  }

  method CheckRef(env: Env, cfg: Config, ref: string, named: map<string, Upstream>, counts: map<string, nat>)
    returns (fault: Option<Fault>)
    requires Tables(cfg.upstreams, named, counts)
    ensures fault == RefFault(env, cfg, ref)
  {
    TablesAnswer(cfg.upstreams, named, counts, ref);
    CountFindsOne(cfg.upstreams, ref);
    if Parse(env, ref).None? {
      if ref !in named {
        return Some(UnknownUpstream);
      }
      if counts[ref] > 1 {
        return Some(DuplicatedUpstream);
      }
      if !named[ref].enabled {
        return Some(DisabledUpstream);
      }
    }
    return None;
  }

  method CheckAction(env: Env, cfg: Config, a: Action, named: map<string, Upstream>, counts: map<string, nat>)
    returns (fault: Option<Fault>)
    requires Tables(cfg.upstreams, named, counts)
    ensures fault == ActionFault(env, cfg, a)
  {
    var upstream := Trim(a.upstream);
    if upstream == "" && !HasLegacy(cfg) {
      return Some(UpstreamRequired);
    }
    if upstream != "" {
      fault := CheckRef(env, cfg, upstream, named, counts);
      if fault.Some? {
        return;
      }
    }
    var canary := Trim(a.canary);
    if canary != "" {
      if upstream == "" {
        return Some(CanaryNeedsUpstream);
      }
      fault := CheckRef(env, cfg, canary, named, counts);
      if fault.Some? {
        return;
      }
      if a.canaryPct <= 0 || a.canaryPct >= 100 {
        return Some(CanaryOutOfRange);
      }
    } else if a.canaryPct != 0 {
      return Some(CanaryWeightAlone);
    }
    fault := OtherFault(a);
  }

  /** A literal host, or a wildcard of the form *.suffix. */
  predicate HostOk(host: string) {
    host != "" && '/' !in host && ('*' in host ==> "*." < host && '*' !in host[1..])
  }

  function PathFault(env: Env, m: PathMatch): Option<Fault> {
    if m.kind !in {"exact", "prefix", "regex"} then Some(BadPathKind)
    else if Blank(m.value) then Some(PathRequired)
    else if m.kind != "regex" && !HasPrefix(m.value, "/") then Some(PathNeedsSlash)
    else if m.kind == "regex" && !env.compiles(m.value) then Some(BadRegex)
    else None
  }

  function MatchFault(env: Env, r: Route): Option<Fault> {
    if exists h :: h in r.hosts && !HostOk(h) then Some(BadHost)
    else if r.path.None? then None
    else PathFault(env, r.path.value)
  }

  function RewriteFault(r: Route): Option<Fault> {
    if r.action.pathRewrite.None? then None
    else if r.path.None? then Some(RewriteNeedsPath)
    else if r.path.value.kind == "regex" then Some(RewriteOnRegex)
    else None
  }

  function RouteFault(env: Env, cfg: Config, r: Route): Option<Fault> {
    Either(MatchFault(env, r), Either(ActionFault(env, cfg, r.action), RewriteFault(r)))
  }

  method CheckMatch(env: Env, r: Route) returns (fault: Option<Fault>)
    ensures fault == MatchFault(env, r)
  {
    for i := 0 to |r.hosts|
      invariant forall j :: 0 <= j < i ==> HostOk(r.hosts[j])
    {
      if !HostOk(r.hosts[i]) {
        return Some(BadHost);
      }
    }
    fault := if r.path.None? then None else PathFault(env, r.path.value);
  }

  method CheckRoute(env: Env, cfg: Config, r: Route, named: map<string, Upstream>, counts: map<string, nat>)
    returns (fault: Option<Fault>)
    requires Tables(cfg.upstreams, named, counts)
    ensures fault == RouteFault(env, cfg, r)
  {
    fault := CheckMatch(env, r);
    if fault.None? {
      fault := CheckAction(env, cfg, r.action, named, counts);
    }
    if fault.None? && r.action.pathRewrite.Some? && r.path.None? {
      fault := Some(RewriteNeedsPath);
    }
    if fault.None? && r.action.pathRewrite.Some? && r.path.Some? && r.path.value.kind == "regex" {
      fault := Some(RewriteOnRegex);
    }
  }

  predicate CatchesAll(r: Route) {
    r.enabled && r.hosts == [] && r.path.None? && !Blank(r.action.upstream)
  }

  predicate DefaultOn(cfg: Config) {
    cfg.default.Some? && cfg.default.value.enabled
  }

  predicate ProvidesFallback(cfg: Config) {
    (DefaultOn(cfg) && !Blank(cfg.default.value.action.upstream)) || exists r :: r in cfg.routes && CatchesAll(r)
  }

  method RoutesProvideFallback(cfg: Config) returns (b: bool)
    ensures b == ProvidesFallback(cfg)
  {
    if DefaultOn(cfg) && !Blank(cfg.default.value.action.upstream) {
      return true;
    }
    for i := 0 to |cfg.routes|
      invariant forall j :: 0 <= j < i ==> !CatchesAll(cfg.routes[j])
    {
      if CatchesAll(cfg.routes[i]) {
        return true;
      }
    }
    return false;
  }

  /** Every check passes. Disabled routes are checked too, a disabled default is not. */
  predicate RoutesOk(env: Env, cfg: Config) {
    (forall u :: u in cfg.upstreams ==> u.weight > 0) &&
    (forall r :: r in cfg.routes ==> RouteFault(env, cfg, r).None?) &&
    (DefaultOn(cfg) ==> ActionFault(env, cfg, cfg.default.value.action).None?) &&
    (HasLegacy(cfg) || ProvidesFallback(cfg))
  }

  /** A reported problem is the first of its kind, and everything checked earlier is fine. */
  ghost predicate Reported(env: Env, cfg: Config, p: Problem) {
    match p.at
    case AtUpstream(i) =>
      i < |cfg.upstreams| && cfg.upstreams[i].weight <= 0 && p.fault == WeightNotPositive &&
      forall j :: 0 <= j < i ==> cfg.upstreams[j].weight > 0
    case AtRoute(i) =>
      i < |cfg.routes| && RouteFault(env, cfg, cfg.routes[i]) == Some(p.fault) &&
      (forall u :: u in cfg.upstreams ==> u.weight > 0) &&
      forall j :: 0 <= j < i ==> RouteFault(env, cfg, cfg.routes[j]).None?
    case AtDefault =>
      DefaultOn(cfg) && ActionFault(env, cfg, cfg.default.value.action) == Some(p.fault) &&
      (forall u :: u in cfg.upstreams ==> u.weight > 0) &&
      forall r :: r in cfg.routes ==> RouteFault(env, cfg, r).None?
    case AtConfig =>
      p.fault == FallbackRequired && !HasLegacy(cfg) && !ProvidesFallback(cfg) &&
      (forall r :: r in cfg.routes ==> RouteFault(env, cfg, r).None?) &&
      (DefaultOn(cfg) ==> ActionFault(env, cfg, cfg.default.value.action).None?)
  }

  predicate NoneBefore(faultOf: Route -> Option<Fault>, routes: seq<Route>, i: nat)
    requires i <= |routes|
  {
    forall j :: 0 <= j < i ==> faultOf(routes[j]).None?
  }

  lemma NoneBeforeStep(faultOf: Route -> Option<Fault>, routes: seq<Route>, i: nat)
    requires i < |routes| && NoneBefore(faultOf, routes, i) && faultOf(routes[i]).None?
    ensures NoneBefore(faultOf, routes, i + 1)
  {
  }

  /** The first route with a fault, and its fault. */
  method CheckRoutes(env: Env, cfg: Config, named: map<string, Upstream>, counts: map<string, nat>)
    returns (at: nat, fault: Option<Fault>)
    requires Tables(cfg.upstreams, named, counts)
    ensures fault.None? ==> forall r :: r in cfg.routes ==> RouteFault(env, cfg, r).None?
    ensures fault.Some? ==> at < |cfg.routes| && RouteFault(env, cfg, cfg.routes[at]) == fault
    ensures fault.Some? ==> forall j :: 0 <= j < at ==> RouteFault(env, cfg, cfg.routes[j]).None?
  {
    ghost var faultOf := (r: Route) => RouteFault(env, cfg, r);
    for i := 0 to |cfg.routes|
      invariant NoneBefore(faultOf, cfg.routes, i)
    {
      fault := CheckRoute(env, cfg, cfg.routes[i], named, counts);
      if fault.Some? {
        return i, fault;
      }
      NoneBeforeStep(faultOf, cfg.routes, i);
    }
    return |cfg.routes|, None;
  }

  method ValidateRoutes(env: Env, cfg: Config) returns (problem: Option<Problem>)
    ensures problem.None? <==> RoutesOk(env, cfg)
    ensures problem.Some? ==> Reported(env, cfg, problem.value)
  {
    var bad, named, counts := BuildTables(cfg.upstreams);
    if bad.Some? {
      return Some(Problem(AtUpstream(bad.value), WeightNotPositive));
    }
    var at, routeFault := CheckRoutes(env, cfg, named, counts);
    if routeFault.Some? {
      return Some(Problem(AtRoute(at), routeFault.value));
    }
    if DefaultOn(cfg) {
      var fault := CheckAction(env, cfg, cfg.default.value.action, named, counts);
      if fault.Some? {
        return Some(Problem(AtDefault, fault.value));
      }
    }
    var fallback := RoutesProvideFallback(cfg);
    if !HasLegacy(cfg) && !fallback {
      return Some(Problem(AtConfig, FallbackRequired));
    }
    return None;
  }

  // ----- The primary target ----------------------------------------------------------

  datatype Found = Found(url: string) | Absent | Failed

  /** The target a reference configures, taking the first upstream of that name. */
  function ConfiguredTarget(env: Env, cfg: Config, ref: string): Found {
    var name := Trim(ref);
    var i := FirstNamed(cfg.upstreams, name);
    if name == "" then Absent
    else if Parse(env, name).Some? then Found(Parse(env, name).value)
    else if i == |cfg.upstreams| then Absent
    else if Parse(env, cfg.upstreams[i].url).Some? then Found(Parse(env, cfg.upstreams[i].url).value)
    else Failed
  }

  /** The first configured target among the enabled routes. */
  function RouteTarget(env: Env, cfg: Config, routes: seq<Route>): Found {
    if routes == [] then Absent
    else
      var first := if routes[0].enabled then ConfiguredTarget(env, cfg, routes[0].action.upstream) else Absent;
      if first == Absent then RouteTarget(env, cfg, routes[1..]) else first
  }

  function FallbackTarget(env: Env, cfg: Config): Found {
    var first := if DefaultOn(cfg) then ConfiguredTarget(env, cfg, cfg.default.value.action.upstream) else Absent;
    if first == Absent then RouteTarget(env, cfg, cfg.routes) else first
  }

  predicate UpstreamOk(env: Env, u: Upstream) {
    Parse(env, u.url).Some? && u.weight > 0
  }

  function FirstEnabled(ups: seq<Upstream>): (i: nat)
    ensures i <= |ups| && (i < |ups| ==> ups[i].enabled)
    ensures forall j :: 0 <= j < i ==> !ups[j].enabled
  {
    if ups == [] then 0 else if ups[0].enabled then 0 else 1 + FirstEnabled(ups[1..])
  }

  function PrimaryTarget(env: Env, cfg: Config): Option<string> {
    var fallback := FallbackTarget(env, cfg);
    var other := if fallback.Found? then Some(fallback.url) else None;
    if cfg.upstreams == [] then
      if Blank(cfg.upstreamURL) then other else Parse(env, cfg.upstreamURL)
    else if exists u :: u in cfg.upstreams && !UpstreamOk(env, u) then None
    else
      var i := FirstEnabled(cfg.upstreams);
      if i < |cfg.upstreams| then Parse(env, cfg.upstreams[i].url) else other
  }

  method IndexOfName(ups: seq<Upstream>, name: string) returns (i: nat)
    ensures i == FirstNamed(ups, name)
  {
    for k := 0 to |ups|
      invariant forall j :: 0 <= j < k ==> ups[j].name != name
    {
      if ups[k].name == name {
        return k;
      }
    }
    return |ups|;
  }

  method FindByName(env: Env, cfg: Config, ref: string) returns (f: Found)
    ensures f == ConfiguredTarget(env, cfg, ref)
  {
    var name := Trim(ref);
    if name == "" {
      return Absent;
    }
    TrimTwice(ref);
    if Parse(env, name).Some? {
      return Found(Parse(env, name).value);
    }
    var i := IndexOfName(cfg.upstreams, name);
    if i == |cfg.upstreams| {
      return Absent;
    }
    var url := Parse(env, cfg.upstreams[i].url);
    return if url.Some? then Found(url.value) else Failed;
  }

  method FindFallback(env: Env, cfg: Config) returns (f: Found)
    ensures f == FallbackTarget(env, cfg)
  {
    if DefaultOn(cfg) {
      f := FindByName(env, cfg, cfg.default.value.action.upstream);
      if f != Absent {
        return;
      }
    }
    for i := 0 to |cfg.routes|
      invariant RouteTarget(env, cfg, cfg.routes) == RouteTarget(env, cfg, cfg.routes[i..])
    {
      assert cfg.routes[i..][1..] == cfg.routes[i + 1..];
      if cfg.routes[i].enabled {
        f := FindByName(env, cfg, cfg.routes[i].action.upstream);
        if f != Absent {
          return;
        }
      }
    }
    f := Absent;
  }

  /** Whether every upstream has a URL and a weight, and the URL of the first enabled one. */
  method ScanUpstreams(env: Env, ups: seq<Upstream>) returns (ok: bool, first: Option<string>)
    ensures ok <==> forall u :: u in ups ==> UpstreamOk(env, u)
    ensures ok ==> (first.Some? <==> FirstEnabled(ups) < |ups|)
    ensures ok && first.Some? ==> first == Parse(env, ups[FirstEnabled(ups)].url)
  {
    first := None;
    ghost var at := FirstEnabled(ups);
    for i := 0 to |ups|
      invariant forall j :: 0 <= j < i ==> UpstreamOk(env, ups[j])
      invariant first.Some? <==> at < i
      invariant first.Some? ==> first == Parse(env, ups[at].url)
    {
      var u := ups[i];
      if Parse(env, u.url).None? || u.weight <= 0 {
        assert u in ups && !UpstreamOk(env, u);
        return false, None;
      }
      if u.enabled && first.None? {
        first := Parse(env, u.url);
      }
    }
    ok := true;
  }

  method FindPrimary(env: Env, cfg: Config) returns (target: Option<string>)
    ensures target == PrimaryTarget(env, cfg)
  {
    var fallback: Found;
    if cfg.upstreams == [] {
      if Blank(cfg.upstreamURL) {
        fallback := FindFallback(env, cfg);
        return if fallback.Found? then Some(fallback.url) else None;
      }
      return Parse(env, cfg.upstreamURL);
    }
    var ok, first := ScanUpstreams(env, cfg.upstreams);
    if !ok {
      return None;
    }
    if first.Some? {
      return first;
    }
    fallback := FindFallback(env, cfg);
    return if fallback.Found? then Some(fallback.url) else None;
  }

  // ----- Checking a configuration ----------------------------------------------------

  /** Without upstreams the primary target becomes the upstream URL. */
  function Effective(cfg: Config, target: string): Config {
    if cfg.upstreams == [] then cfg.(upstreamURL := target) else cfg
  }

  /** A normalized configuration passes its checks and takes effect as `checked`. */
  predicate Checks(env: Env, cfg: Config, checked: Config) {
    RoutesOk(env, cfg) && PrimaryTarget(env, cfg).Some? && checked == Effective(cfg, PrimaryTarget(env, cfg).value)
  }

  method Check(env: Env, cfg: Config) returns (r: Result<Config, Problem>)
    ensures r.Ok? ==> Checks(env, cfg, r.value)
    ensures r.Err? ==> !RoutesOk(env, cfg) || PrimaryTarget(env, cfg).None?
  {
    var problem := ValidateRoutes(env, cfg);
    if problem.Some? {
      return Err(problem.value);
    }
    var target := FindPrimary(env, cfg);
    if target.None? {
      return Err(Problem(AtConfig, NoPrimaryTarget));
    }
    return Ok(Effective(cfg, target.value));
  }

  /** The printed form of a parsed URL has no white space around it and parses to itself, and
      nothing is not a URL. */
  ghost predicate Reparses(env: Env) {
    env.parse("").None? && forall s :: Reprints(env, s)
  }

  predicate Reprints(env: Env, s: string) {
    env.parse(s).Some? ==> Trim(env.parse(s).value) == env.parse(s).value && env.parse(env.parse(s).value) == env.parse(s)
  }

  lemma CheckedHasLegacy(env: Env, cfg: Config, checked: Config)
    requires Reparses(env) && Checks(env, cfg, checked)
    ensures HasLegacy(checked)
    ensures checked.upstreams == [] ==> Parse(env, checked.upstreamURL) == Some(checked.upstreamURL)
  {
    if cfg.upstreams == [] {
      PrimaryIsParsed(env, cfg);
      var target := PrimaryTarget(env, cfg).value;
      var raw :| Parse(env, raw) == Some(target);
      assert Reprints(env, Trim(raw));
    }
  }

  lemma PrimaryIsParsed(env: Env, cfg: Config)
    requires cfg.upstreams == [] && PrimaryTarget(env, cfg).Some?
    ensures exists raw :: Parse(env, raw) == PrimaryTarget(env, cfg)
  {
    if Blank(cfg.upstreamURL) {
      var raw := FallbackIsParsed(env, cfg);
      assert Parse(env, raw) == PrimaryTarget(env, cfg);
    } else {
      assert Parse(env, cfg.upstreamURL) == PrimaryTarget(env, cfg);
    }
  }

  lemma FallbackIsParsed(env: Env, cfg: Config) returns (raw: string)
    requires FallbackTarget(env, cfg).Found?
    ensures Parse(env, raw) == Some(FallbackTarget(env, cfg).url)
  {
    if DefaultOn(cfg) && ConfiguredTarget(env, cfg, cfg.default.value.action.upstream).Found? {
      raw := ReferenceIsParsed(env, cfg, cfg.default.value.action.upstream);
    } else {
      raw := RouteTargetIsParsed(env, cfg, cfg.routes);
    }
  }

  lemma ReferenceIsParsed(env: Env, cfg: Config, ref: string) returns (raw: string)
    requires ConfiguredTarget(env, cfg, ref).Found?
    ensures Parse(env, raw) == Some(ConfiguredTarget(env, cfg, ref).url)
  {
    raw := if Parse(env, Trim(ref)).Some? then Trim(ref) else cfg.upstreams[FirstNamed(cfg.upstreams, Trim(ref))].url;
  }

  lemma RouteTargetIsParsed(env: Env, cfg: Config, routes: seq<Route>) returns (raw: string)
    requires RouteTarget(env, cfg, routes).Found?
    ensures Parse(env, raw) == Some(RouteTarget(env, cfg, routes).url)
  {
    if routes[0].enabled && ConfiguredTarget(env, cfg, routes[0].action.upstream) != Absent {
      raw := ReferenceIsParsed(env, cfg, routes[0].action.upstream);
    } else {
      raw := RouteTargetIsParsed(env, cfg, routes[1..]);
    }
  }

  lemma FaultsStayAbsent(env: Env, cfg: Config, checked: Config, a: Action)
    requires checked.upstreams == cfg.upstreams && HasLegacy(checked) && ActionFault(env, cfg, a).None?
    ensures ActionFault(env, checked, a).None?
  {
    assert Blank(a.upstream) || RefFault(env, checked, Trim(a.upstream)) == RefFault(env, cfg, Trim(a.upstream));
    assert CanaryFault(env, checked, a) == CanaryFault(env, cfg, a);
  }

  lemma CheckedRoutesOk(env: Env, cfg: Config, checked: Config)
    requires Reparses(env) && Checks(env, cfg, checked)
    ensures RoutesOk(env, checked)
  {
    CheckedHasLegacy(env, cfg, checked);
    forall r | r in checked.routes ensures RouteFault(env, checked, r).None? {
      assert RouteFault(env, cfg, r).None?;
      FaultsStayAbsent(env, cfg, checked, r.action);
    }
    if DefaultOn(cfg) {
      FaultsStayAbsent(env, cfg, checked, cfg.default.value.action);
    }
  }

  // ----- Targets ---------------------------------------------------------------------

  datatype Target = Target(key: string, name: string, url: string, weight: int, managed: bool)

  datatype Refusal = UnknownReference | BadUpstream | NoTargets | PathMismatch | RawPathMismatch | BadQuery

  function LookupKey(name: string, url: string): string {
    Trim(name) + "|" + Trim(url)
  }

  function Managed(name: string, url: string, weight: int): Target {
    Target(LookupKey(name, url), name, url, T.Positive(weight), true)
  }

  /** The first upstream configured with exactly this URL, or |ups|. */
  function FirstWithUrl(ups: seq<Upstream>, url: string): (i: nat)
    ensures i <= |ups|
    ensures i < |ups| ==> Trim(ups[i].url) == url
    ensures forall j :: 0 <= j < i ==> Trim(ups[j].url) != url
  {
    if ups == [] then 0 else if Trim(ups[0].url) == url then 0 else 1 + FirstWithUrl(ups[1..], url)
  }

  /** A reference is a URL, managed if an upstream has it, or the first upstream of that name. */
  function TargetOf(env: Env, cfg: Config, ref: string, weight: int): Result<Target, Refusal> {
    var name, url := Trim(ref), Parse(env, Trim(ref));
    if url.Some? then
      var i := FirstWithUrl(cfg.upstreams, url.value);
      Ok(if i < |cfg.upstreams| then Managed(cfg.upstreams[i].name, url.value, weight)
         else Target("", name, url.value, T.Positive(weight), false))
    else
      var i := FirstNamed(cfg.upstreams, name);
      if i == |cfg.upstreams| then Err(UnknownReference)
      else if Parse(env, cfg.upstreams[i].url).None? then Err(BadUpstream)
      else Ok(Managed(cfg.upstreams[i].name, Parse(env, cfg.upstreams[i].url).value, weight))
  }

  function ConfiguredUpstreams(cfg: Config): seq<Upstream> {
    if |cfg.upstreams| > 0 then cfg.upstreams
    else if Blank(cfg.upstreamURL) then []
    else [Upstream("primary", cfg.upstreamURL, 1, true)]
  }

  function AllTargets(env: Env, ups: seq<Upstream>): Result<seq<Target>, Refusal> {
    if exists u :: u in ups && Parse(env, u.url).None? then Err(BadUpstream)
    else Ok(seq(|ups|, i requires 0 <= i < |ups| =>
      assert ups[i] in ups; Managed(ups[i].name, Parse(env, ups[i].url).value, ups[i].weight)))
  }

  function Alone(only: Result<Target, Refusal>): Result<seq<Target>, Refusal> {
    if only.Err? then Err(only.error) else Ok([only.value])
  }

  function Both(first: Result<Target, Refusal>, second: Result<Target, Refusal>): Result<seq<Target>, Refusal> {
    if first.Err? then Err(first.error)
    else if second.Err? then Err(second.error)
    else Ok([first.value, second.value])
  }

  /** The upstream with what the canary leaves, and the canary. */
  function CanaryPair(env: Env, cfg: Config, a: Action): Result<seq<Target>, Refusal> {
    Both(TargetOf(env, cfg, a.upstream, 100 - a.canaryPct), TargetOf(env, cfg, a.canary, a.canaryPct))
  }

  function TargetsOf(env: Env, cfg: Config, a: Action): Result<seq<Target>, Refusal> {
    if !Blank(a.canary) then CanaryPair(env, cfg, a)
    else if !Blank(a.upstream) then Alone(TargetOf(env, cfg, a.upstream, 1))
    else AllTargets(env, ConfiguredUpstreams(cfg))
  }

  /** A target is this upstream at this URL: name, lookup key, and managed by the monitor. */
  predicate Stands(u: Upstream, url: string, t: Target) {
    t.managed && t.url == url && t.name == u.name && t.key == Trim(u.name) + "|" + Trim(url)
  }

  predicate HasUrl(ups: seq<Upstream>, i: nat, url: string)
    requires i < |ups|
  {
    Trim(ups[i].url) == url
  }

  /** A target is what a reference names: the URL it is, as the first upstream configured with that
      URL or else unmanaged; or the first upstream of that name. */
  predicate Names(env: Env, cfg: Config, ref: string, t: Target) {
    var ups, url := cfg.upstreams, env.parse(Trim(ref));
    if url.Some? then
      t.url == url.value &&
      if t.managed then
        exists i: nat | i < |ups| :: HasUrl(ups, i, url.value) && Stands(ups[i], url.value, t) &&
          forall j: nat | j < i :: !HasUrl(ups, j, url.value)
      else t.key == "" && t.name == Trim(ref) && forall j: nat | j < |ups| :: !HasUrl(ups, j, url.value)
    else
      exists i: nat | i < |ups| :: ups[i].name == Trim(ref) && Stands(ups[i], t.url, t) &&
        env.parse(Trim(ups[i].url)) == Some(t.url) && forall j: nat | j < i :: ups[j].name != Trim(ref)
  }

  /** The targets of an action: the upstream and the canary it names, with the canary's percentage
      and the rest as weights; or the upstream alone; or all configured ones with their weights. */
  predicate TargetsAre(env: Env, cfg: Config, a: Action, ts: seq<Target>) {
    if !Blank(a.canary) then
      |ts| == 2 && Names(env, cfg, a.upstream, ts[0]) && Names(env, cfg, a.canary, ts[1]) &&
      ts[0].weight == (if a.canaryPct < 100 then 100 - a.canaryPct else 1) &&
      ts[1].weight == if a.canaryPct > 0 then a.canaryPct else 1
    else if !Blank(a.upstream) then |ts| == 1 && Names(env, cfg, a.upstream, ts[0]) && ts[0].weight == 1
    else if cfg.upstreams != [] then
      |ts| == |cfg.upstreams| && forall i: nat | i < |ts| :: ListedAs(env, cfg.upstreams[i], ts[i])
    else if !Blank(cfg.upstreamURL) then |ts| == 1 && ListedAs(env, Upstream("primary", cfg.upstreamURL, 1, true), ts[0])
    else ts == []
  }

  predicate ListedAs(env: Env, u: Upstream, t: Target) {
    env.parse(Trim(u.url)) == Some(t.url) && Stands(u, t.url, t) && t.weight == if u.weight > 0 then u.weight else 1
  }

  lemma TargetIsNamed(env: Env, cfg: Config, ref: string, weight: int)
    requires TargetOf(env, cfg, ref, weight).Ok?
    ensures Names(env, cfg, ref, TargetOf(env, cfg, ref, weight).value)
    ensures TargetOf(env, cfg, ref, weight).value.weight == if weight > 0 then weight else 1
  {
    var ups, name, url := cfg.upstreams, Trim(ref), env.parse(Trim(ref));
    TrimTwice(ref);
    if url.Some? {
      var i := FirstWithUrl(ups, url.value);
      assert i < |ups| ==> HasUrl(ups, i, url.value);
    } else {
      var i := FirstNamed(ups, name);
      assert ups[i].name == name;
    }
  }

  lemma AllAreListed(env: Env, ups: seq<Upstream>)
    requires AllTargets(env, ups).Ok?
    ensures
      var ts := AllTargets(env, ups).value;
      |ts| == |ups| && forall i: nat | i < |ts| :: ListedAs(env, ups[i], ts[i])
  {
    var ts := AllTargets(env, ups).value;
    forall i: nat | i < |ts| ensures ListedAs(env, ups[i], ts[i]) {
      assert ups[i] in ups;
    }
  }

  /** Whatever targets an action has, they are the ones it names. */
  lemma TargetsAreNamed(env: Env, cfg: Config, a: Action)
    requires TargetsOf(env, cfg, a).Ok?
    ensures TargetsAre(env, cfg, a, TargetsOf(env, cfg, a).value)
  {
    if !Blank(a.canary) {
      TargetIsNamed(env, cfg, a.upstream, 100 - a.canaryPct);
      TargetIsNamed(env, cfg, a.canary, a.canaryPct);
    } else if !Blank(a.upstream) {
      TargetIsNamed(env, cfg, a.upstream, 1);
    } else {
      AllAreListed(env, ConfiguredUpstreams(cfg));
    }
  }

  method IndexOfUrl(ups: seq<Upstream>, url: string) returns (i: nat)
    ensures i == FirstWithUrl(ups, url)
  {
    for k := 0 to |ups|
      invariant forall j :: 0 <= j < k ==> Trim(ups[j].url) != url
    {
      if Trim(ups[k].url) == url {
        return k;
      }
    }
    return |ups|;
  }

  method FindTarget(env: Env, cfg: Config, ref: string, weight: int) returns (t: Result<Target, Refusal>)
    ensures t == TargetOf(env, cfg, ref, weight)
  {
    var name := Trim(ref);
    TrimTwice(ref);
    var url := Parse(env, name);
    var i: nat;
    if url.Some? {
      i := IndexOfUrl(cfg.upstreams, url.value);
      return Ok(if i < |cfg.upstreams| then Managed(cfg.upstreams[i].name, url.value, weight)
                else Target("", name, url.value, T.Positive(weight), false));
    }
    i := IndexOfName(cfg.upstreams, name);
    if i == |cfg.upstreams| {
      return Err(UnknownReference);
    }
    var found := Parse(env, cfg.upstreams[i].url);
    return if found.None? then Err(BadUpstream) else Ok(Managed(cfg.upstreams[i].name, found.value, weight));
  }

  method ListTargets(env: Env, ups: seq<Upstream>) returns (ts: Result<seq<Target>, Refusal>)
    ensures ts == AllTargets(env, ups)
  {
    var out: seq<Target> := [];
    for i := 0 to |ups|
      invariant forall j :: 0 <= j < i ==> Parse(env, ups[j].url).Some?
      invariant |out| == i
      invariant forall j :: 0 <= j < i ==> out[j] == Managed(ups[j].name, Parse(env, ups[j].url).value, ups[j].weight)
    {
      var url := Parse(env, ups[i].url);
      if url.None? {
        assert ups[i] in ups;
        return Err(BadUpstream);
      }
      out := out + [Managed(ups[i].name, url.value, ups[i].weight)];
    }
    ts := Ok(out);
    assert AllTargets(env, ups).Ok? && out == AllTargets(env, ups).value;
  }

  method BuildTargets(env: Env, cfg: Config, a: Action) returns (ts: Result<seq<Target>, Refusal>)
    ensures ts == TargetsOf(env, cfg, a)
    ensures ts.Ok? ==> TargetsAre(env, cfg, a, ts.value)
  {
    ts := CollectTargets(env, cfg, a);
    if ts.Ok? {
      TargetsAreNamed(env, cfg, a);
    }
  }

  method CollectTargets(env: Env, cfg: Config, a: Action) returns (ts: Result<seq<Target>, Refusal>)
    ensures ts == TargetsOf(env, cfg, a)
  {
    if !Blank(a.canary) {
      ts := CanaryTargets(env, cfg, a);
      return;
    }
    if Blank(a.upstream) {
      ts := ListTargets(env, ConfiguredUpstreams(cfg));
      return;
    }
    var only := FindTarget(env, cfg, a.upstream, 1);
    ts := Alone(only);
  }

  method CanaryTargets(env: Env, cfg: Config, a: Action) returns (ts: Result<seq<Target>, Refusal>)
    ensures ts == CanaryPair(env, cfg, a)
  {
    var primary := FindTarget(env, cfg, a.upstream, 100 - a.canaryPct);
    if primary.Err? {
      return Err(primary.error);
    }
    var canary := FindTarget(env, cfg, a.canary, a.canaryPct);
    return if canary.Err? then Err(canary.error) else Ok([primary.value, canary.value]);
  }

  // ----- Choosing a route ------------------------------------------------------------

  /** `queryOk` says whether the query string parses. */
  datatype Request = Request(path: string, rawPath: string, host: string, queryOk: bool)

  datatype Place = RouteAt(i: nat) | Default | Legacy

  function OriginalPath(req: Request): string {
    if req.path == "" then "/" else req.path
  }

  predicate Takes(env: Env, cfg: Config, req: Request, i: nat)
    requires i < |cfg.routes|
  {
    var r := cfg.routes[i];
    r.enabled && HostsMatch(r.hosts, env.hostOf(Trim(req.host))) && Details(r.path, OriginalPath(req), env.regex).0
  }

  /** A pattern accepts a host: a wildcard one with its labels at the end and more before them, any
      other itself. */
  predicate PatternAccepts(pattern: string, host: string) {
    var p := NormalizeHost(pattern);
    host != "" && p != "" && if HasPrefix(p, "*.") then LabelsEndWith(host, p[2..]) else host == p
  }

  /** A path rule accepts a path: the same path; the segments of the prefix at its beginning; a match
      of the expression. */
  predicate RuleAccepts(env: Env, m: PathMatch, path: string) {
    match m.kind
    case "exact" => path == m.value
    case "prefix" => m.value == "/" || Split(m.value, '/') <= Split(path, '/')
    case "regex" => env.regex(m.value, path)
    case _ => false
  }

  lemma PatternAcceptsIff(pattern: string, host: string)
    ensures HostMatches(pattern, host) <==> PatternAccepts(pattern, host)
  {
    if host != "" && HasPrefix(NormalizeHost(pattern), "*.") {
      WildcardMatchesProperSubdomains(pattern, host);
    }
  }

  lemma RuleAcceptsIff(env: Env, m: PathMatch, path: string)
    requires path != ""
    ensures Details(Some(m), path, env.regex).0 <==> RuleAccepts(env, m, path)
  {
    if m.kind == "prefix" && m.value != "/" {
      PrefixMatchesIffSegmentsBegin(m.value, path, env.regex);
      assert Under(m.value) == Some(m);
    }
  }

  /** A route takes a request if and only if it is enabled, it names no hosts or one that accepts the
      request's, and it has no path rule or one that accepts the request's path. */
  lemma TakesIff(env: Env, cfg: Config, req: Request, i: nat)
    requires i < |cfg.routes|
    ensures
      var r, host, path := cfg.routes[i], env.hostOf(Trim(req.host)), if req.path == "" then "/" else req.path;
      Takes(env, cfg, req, i) <==>
      r.enabled && (r.hosts == [] || exists p :: p in r.hosts && PatternAccepts(p, host)) &&
      (r.path.Some? ==> RuleAccepts(env, r.path.value, path))
  {
    var r, host, path := cfg.routes[i], env.hostOf(Trim(req.host)), OriginalPath(req);
    forall k | 0 <= k < |r.hosts| ensures HostMatches(r.hosts[k], host) <==> PatternAccepts(r.hosts[k], host) {
      PatternAcceptsIff(r.hosts[k], host);
    }
    if p :| p in r.hosts && PatternAccepts(p, host) {
      var k :| 0 <= k < |r.hosts| && r.hosts[k] == p;
      assert HostMatches(r.hosts[k], host);
    }
    if r.path.Some? {
      RuleAcceptsIff(env, r.path.value, path);
    }
  }

  predicate Precedes(routes: seq<Route>, i: nat, j: nat) {
    i < |routes| && j < |routes| &&
    (routes[i].priority < routes[j].priority || (routes[i].priority == routes[j].priority && i < j))
  }

  /** The route that decides: the enabled matching one of least priority, first among equals; else
      an enabled default; else the upstreams themselves. */
  ghost predicate Governs(env: Env, cfg: Config, req: Request, p: Place) {
    match p
    case RouteAt(i) =>
      i < |cfg.routes| && Takes(env, cfg, req, i) &&
      forall j :: 0 <= j < |cfg.routes| && j != i && Takes(env, cfg, req, j) ==> Precedes(cfg.routes, i, j)
    case Default => DefaultOn(cfg) && forall j :: 0 <= j < |cfg.routes| ==> !Takes(env, cfg, req, j)
    case Legacy => !DefaultOn(cfg) && forall j :: 0 <= j < |cfg.routes| ==> !Takes(env, cfg, req, j)
  }

  predicate InTurn(routes: seq<Route>, order: seq<nat>, a: nat, b: nat) {
    a < b < |order| ==> Precedes(routes, order[a], order[b])
  }

  ghost predicate Sorted(routes: seq<Route>, order: seq<nat>) {
    forall a, b :: InTurn(routes, order, a, b)
  }

  method InsertIndex(routes: seq<Route>, order: seq<nat>, x: nat) returns (r: seq<nat>)
    requires x < |routes| && Sorted(routes, order)
    requires forall k :: 0 <= k < |order| ==> order[k] < x
    ensures Sorted(routes, r) && |r| == |order| + 1 && x in r
    ensures forall y :: y in order ==> y in r
    ensures forall k :: 0 <= k < |r| ==> r[k] < x + 1
  {
    var k := |order|;
    while k > 0 && routes[x].priority < routes[order[k - 1]].priority
      invariant 0 <= k <= |order|
      invariant forall b :: k <= b < |order| ==> Precedes(routes, x, order[b])
    {
      k := k - 1;
    }
    r := order[..k] + [x] + order[k..];
    assert r[k] == x;
    forall y | y in order ensures y in r {
      var b :| 0 <= b < |order| && order[b] == y;
      assert r[if b < k then b else b + 1] == y;
    }
    forall a: nat, b: nat ensures InTurn(routes, r, a, b) {
      InsertKeepsTurn(routes, order, x, k, a, b);
    }
  }

  lemma InsertKeepsTurn(routes: seq<Route>, order: seq<nat>, x: nat, k: nat, a: nat, b: nat)
    requires x < |routes| && Sorted(routes, order) && k <= |order|
    requires forall c :: 0 <= c < |order| ==> order[c] < x
    requires forall c :: k <= c < |order| ==> Precedes(routes, x, order[c])
    requires k > 0 ==> routes[x].priority >= routes[order[k - 1]].priority
    ensures InTurn(routes, order[..k] + [x] + order[k..], a, b)
  {
    var r := order[..k] + [x] + order[k..];
    if a < b < |r| {
      var a', b' := if a < k then a else a - 1, if b < k then b else b - 1;
      if a != k && b != k {
        assert InTurn(routes, order, a', b');
      } else if b == k && a < k - 1 {
        assert InTurn(routes, order, a, k - 1);
      }
    }
  }

  method SortedIndexes(routes: seq<Route>) returns (order: seq<nat>)
    ensures Sorted(routes, order) && |order| == |routes|
    ensures forall i :: 0 <= i < |routes| ==> i in order
    ensures forall k :: 0 <= k < |order| ==> order[k] < |routes|
  {
    order := [];
    for i := 0 to |routes|
      invariant Sorted(routes, order) && |order| == i
      invariant forall j :: 0 <= j < i ==> j in order
      invariant forall k :: 0 <= k < |order| ==> order[k] < i
    {
      order := InsertIndex(routes, order, i);
    }
  }

  predicate NoneAccepts(accepts: string -> bool, patterns: seq<string>, n: nat)
    requires n <= |patterns|
  {
    forall j :: 0 <= j < n ==> !accepts(patterns[j])
  }

  lemma NoneAcceptsStep(accepts: string -> bool, patterns: seq<string>, n: nat)
    requires n < |patterns| && NoneAccepts(accepts, patterns, n) && !accepts(patterns[n])
    ensures NoneAccepts(accepts, patterns, n + 1)
  {
  }

  method HostsAccept(patterns: seq<string>, reqHost: string) returns (b: bool)
    ensures b == HostsMatch(patterns, reqHost)
  {
    if patterns == [] {
      return true;
    }
    ghost var accepts := (p: string) => HostMatches(p, reqHost);
    for i := 0 to |patterns|
      invariant NoneAccepts(accepts, patterns, i)
    {
      if HostMatches(patterns[i], reqHost) {
        return true;
      }
      NoneAcceptsStep(accepts, patterns, i);
    }
    return false;
  }

  method ChoosePlace(env: Env, cfg: Config, req: Request) returns (p: Place)
    ensures Governs(env, cfg, req, p)
    ensures p.RouteAt? ==> forall j: nat | j < |cfg.routes| && Takes(env, cfg, req, j) ::
                             cfg.routes[p.i].priority <= cfg.routes[j].priority &&
                             (cfg.routes[p.i].priority == cfg.routes[j].priority ==> p.i <= j)
  {
    var order := SortedIndexes(cfg.routes);
    for a := 0 to |order|
      invariant forall b :: 0 <= b < a ==> !Takes(env, cfg, req, order[b])
    {
      var route := cfg.routes[order[a]];
      if route.enabled {
        var hosts := HostsAccept(route.hosts, env.hostOf(Trim(req.host)));
        if hosts && Details(route.path, OriginalPath(req), env.regex).0 {
          forall j | 0 <= j < |cfg.routes| && j != order[a] && Takes(env, cfg, req, j)
            ensures Precedes(cfg.routes, order[a], j)
          {
            assert j in order;
            var b: nat :| b < |order| && order[b] == j;
            assert InTurn(cfg.routes, order, a, b);
          }
          return RouteAt(order[a]);
        }
      }
    }
    forall j | 0 <= j < |cfg.routes| ensures !Takes(env, cfg, req, j) {
      assert j in order;
    }
    p := if DefaultOn(cfg) then Default else Legacy;
  }

  lemma PrecedesIsAsymmetric(routes: seq<Route>, i: nat, j: nat)
    ensures !(Precedes(routes, i, j) && Precedes(routes, j, i))
  {
  }

  /** At most one place decides a request; ChoosePlace finds one. */
  lemma GoverningPlaceIsUnique(env: Env, cfg: Config, req: Request, p: Place, q: Place)
    requires Governs(env, cfg, req, p) && Governs(env, cfg, req, q)
    ensures p == q
  {
    if p.RouteAt? && q.RouteAt? {
      PrecedesIsAsymmetric(cfg.routes, p.i, q.i);
    }
  }

  // ----- Resolving a request ---------------------------------------------------------

  datatype Plan = Plan(targets: seq<Target>, path: string, rawPath: string)

  function ActionAt(cfg: Config, p: Place): Action {
    match p
    case RouteAt(i) => if i < |cfg.routes| then cfg.routes[i].action else EMPTY_ACTION
    case Default => if cfg.default.Some? then cfg.default.value.action else EMPTY_ACTION
    case Legacy => EMPTY_ACTION
  }

  function RuleAt(cfg: Config, p: Place): Option<PathMatch> {
    if p.RouteAt? && p.i < |cfg.routes| then cfg.routes[p.i].path else None
  }

  /** The paths to forward: both the decoded and the raw one are rewritten, if there is a raw one. */
  function Paths(env: Env, req: Request, rule: Option<PathMatch>, to: Option<string>): Result<(string, string), Refusal> {
    var path := OriginalPath(req);
    if to.None? then Ok((path, req.rawPath))
    else
      var next := Rewrite(path, rule, to.value, env.regex);
      if next.None? then Err(PathMismatch)
      else if req.rawPath == "" then Ok((next.value, ""))
      else
        var raw := Rewrite(req.rawPath, rule, to.value, env.regex);
        if raw.None? then Err(RawPathMismatch) else Ok((next.value, raw.value))
  }

  function Outcome(env: Env, cfg: Config, req: Request, p: Place): Result<Plan, Refusal> {
    OutcomeOf(env, cfg, req, ActionAt(cfg, p), RuleAt(cfg, p))
  }

  function OutcomeOf(env: Env, cfg: Config, req: Request, a: Action, rule: Option<PathMatch>): Result<Plan, Refusal> {
    var targets := TargetsOf(env, cfg, a);
    var paths := Paths(env, req, rule, a.pathRewrite);
    if targets.Err? then Err(targets.error)
    else if targets.value == [] then Err(NoTargets)
    else if paths.Err? then Err(paths.error)
    else if a.rewritesQuery && !req.queryOk then Err(BadQuery)
    else Ok(Plan(targets.value, paths.value.0, paths.value.1))
  }

  datatype Decision = Decision(place: Place, plan: Plan, order: seq<nat>, selected: Target)

  function Candidates(ts: seq<Target>): seq<T.Candidate> {
    seq(|ts|, i requires 0 <= i < |ts| => T.Candidate(ts[i].key, ts[i].name, ts[i].weight, ts[i].managed))
  }

  /** The decision carries the plan and a full ordering of its targets, and selects the head. */
  ghost predicate Carries(avail: map<string, T.Availability>, plan: Plan, d: Decision) {
    d.plan == plan && |d.order| == |plan.targets| > 0 &&
    multiset(d.order) == multiset(T.Identity(|plan.targets|)) &&
    T.EligibleFirst(Candidates(plan.targets), avail, d.order) &&
    d.order[0] < |plan.targets| && d.selected == plan.targets[d.order[0]]
  }

  lemma OrderIsInRange(order: seq<nat>, n: nat)
    requires multiset(order) == multiset(T.Identity(n))
    ensures |order| == n && forall k :: 0 <= k < n ==> order[k] < n
  {
    assert |multiset(order)| == |multiset(T.Identity(n))|;
    forall k | 0 <= k < |order| ensures order[k] < n {
      assert order[k] in multiset(order);
      assert order[k] in T.Identity(n);
    }
  }

  /** A plan does what an action says to a request under a rule: its targets, and the path and the raw
      path as they came, or both rewritten. */
  predicate Obeys(env: Env, cfg: Config, req: Request, a: Action, rule: Option<PathMatch>, plan: Plan) {
    var path := if req.path == "" then "/" else req.path;
    TargetsAre(env, cfg, a, plan.targets) && plan.targets != [] &&
    if a.pathRewrite.None? then plan.path == path && plan.rawPath == req.rawPath
    else
      Rewrite(path, rule, a.pathRewrite.value, env.regex) == Some(plan.path) &&
      if req.rawPath == "" then plan.rawPath == ""
      else Rewrite(req.rawPath, rule, a.pathRewrite.value, env.regex) == Some(plan.rawPath)
  }

  /** A plan does what the place that decides says. */
  predicate Follows(env: Env, cfg: Config, req: Request, p: Place, plan: Plan) {
    match p
    case RouteAt(i) => i < |cfg.routes| && Obeys(env, cfg, req, cfg.routes[i].action, cfg.routes[i].path, plan)
    case Default => cfg.default.Some? && Obeys(env, cfg, req, cfg.default.value.action, None, plan)
    case Legacy => Obeys(env, cfg, req, EMPTY_ACTION, None, plan)
  }

  lemma OutcomeObeys(env: Env, cfg: Config, req: Request, a: Action, rule: Option<PathMatch>)
    requires OutcomeOf(env, cfg, req, a, rule).Ok?
    ensures Obeys(env, cfg, req, a, rule, OutcomeOf(env, cfg, req, a, rule).value)
  {
    TargetsAreNamed(env, cfg, a);
  }

  lemma OutcomeFollows(env: Env, cfg: Config, req: Request, p: Place)
    requires Governs(env, cfg, req, p) && Outcome(env, cfg, req, p).Ok?
    ensures Follows(env, cfg, req, p, Outcome(env, cfg, req, p).value)
  {
    OutcomeObeys(env, cfg, req, ActionAt(cfg, p), RuleAt(cfg, p));
  }

  /** Of 100 consecutive decisions by the cursor between an upstream and its canary, both selectable,
      the canary leads exactly its percentage. */
  lemma CanaryGetsItsShare(env: Env, cfg: Config, a: Action, ts: seq<Target>, avail: map<string, T.Availability>,
                           options: T.Options, digest: string -> nat, value: string, cursors: seq<nat>, heads: seq<nat>)
    requires TargetsAre(env, cfg, a, ts) && !Blank(a.canary) && 0 < a.canaryPct < 100
    requires forall t :: t in ts ==> t.managed ==> t.key in avail && avail[t.key].selectable
    requires T.Calls(Candidates(ts), avail, options, digest, value, cursors, heads)
    requires !options.leastConn && (!options.hashing || Blank(value)) && |heads| == 100 && cursors[0] + 100 <= T.CURSOR_LIMIT
    ensures multiset(heads)[0] == 100 - a.canaryPct && multiset(heads)[1] == a.canaryPct
  {
    var cands := Candidates(ts);
    assert ts[0] in ts && ts[1] in ts;
    assert T.Selectable(cands, avail, 0) && T.Selectable(cands, avail, 1);
    assert T.WeightBefore(cands, avail, 1) == 100 - a.canaryPct;
    assert T.WeightBefore(cands, avail, 2) == 100;
    T.CallsAreFair(cands, avail, options, digest, value, cursors, heads, 0);
    T.CallsAreFair(cands, avail, options, digest, value, cursors, heads, 1);
  }

  method Resolve(env: Env, cfg: Config, req: Request, selector: T.Selector,
                 avail: map<string, T.Availability>, options: T.Options, digest: string -> nat, value: string)
      returns (place: Place, r: Result<Decision, Refusal>)
    requires selector.Valid()
    modifies selector
    ensures selector.Valid() && Governs(env, cfg, req, place)
    ensures
      match Outcome(env, cfg, req, place)
      case Err(e) => r == Err(e)
      case Ok(plan) => r.Ok? && r.value.place == place && Carries(avail, plan, r.value)
    ensures r.Ok? ==> Follows(env, cfg, req, place, r.value.plan)
    ensures r.Ok? && |r.value.plan.targets| > 1 ==>
              var canary := place != Legacy && !Blank(ActionAt(cfg, place).canary);
              T.Leads(Candidates(r.value.plan.targets), avail, T.Options(options.hashing, options.leastConn && !canary),
                      digest, value, old(selector.cursor), selector.cursor, r.value.order[0])
  {
    place := ChoosePlace(env, cfg, req);
    var a := ActionAt(cfg, place);
    var chosen := if Blank(a.canary) then options else options.(leastConn := false);
    r := Decide(env, cfg, req, place, selector, avail, chosen, digest, value);
    if r.Ok? {
      OutcomeFollows(env, cfg, req, place);
    }
  }

  /** Carries out the action of the place that decides. */
  method Decide(env: Env, cfg: Config, req: Request, place: Place, selector: T.Selector,
                avail: map<string, T.Availability>, chosen: T.Options, digest: string -> nat, value: string)
      returns (r: Result<Decision, Refusal>)
    requires selector.Valid()
    modifies selector
    ensures selector.Valid()
    ensures
      match Outcome(env, cfg, req, place)
      case Err(e) => r == Err(e)
      case Ok(plan) => r.Ok? && r.value.place == place && Carries(avail, plan, r.value)
    ensures r.Ok? && |r.value.plan.targets| > 1 ==>
              T.Leads(Candidates(r.value.plan.targets), avail, chosen, digest, value,
                      old(selector.cursor), selector.cursor, r.value.order[0])
  {
    var a := ActionAt(cfg, place);
    var targets := CollectTargets(env, cfg, a);
    if targets.Err? {
      return Err(targets.error);
    }
    var order := selector.Order(Candidates(targets.value), avail, chosen, digest, value);
    if targets.value == [] {
      return Err(NoTargets);
    }
    OrderIsInRange(order, |targets.value|);
    var paths := Paths(env, req, RuleAt(cfg, place), a.pathRewrite);
    if paths.Err? {
      return Err(paths.error);
    }
    if a.rewritesQuery && !req.queryOk {
      return Err(BadQuery);
    }
    var plan := Plan(targets.value, paths.value.0, paths.value.1);
    r := Ok(Decision(place, plan, order, targets.value[order[0]]));
  }

  // ----- What validation buys --------------------------------------------------------

  lemma CheckedReferenceResolves(env: Env, cfg: Config, ref: string, weight: int)
    requires RefFault(env, cfg, Trim(ref)).None?
    requires forall u :: u in cfg.upstreams ==> Parse(env, u.url).Some?
    ensures TargetOf(env, cfg, ref, weight).Ok? && TargetOf(env, cfg, ref, weight).value.weight == T.Positive(weight)
  {
    var i := FirstNamed(cfg.upstreams, Trim(ref));
    if i < |cfg.upstreams| {
      assert cfg.upstreams[i] in cfg.upstreams;
    }
  }

  lemma UpstreamsParse(env: Env, cfg: Config, checked: Config)
    requires Checks(env, cfg, checked)
    ensures forall u :: u in checked.upstreams ==> Parse(env, u.url).Some?
  {
    forall u | u in checked.upstreams ensures Parse(env, u.url).Some? {
      assert UpstreamOk(env, u);
    }
  }

  /** A checked action of a checked configuration always has targets; a canary's share is exact. */
  lemma CheckedActionHasTargets(env: Env, cfg: Config, checked: Config, a: Action)
    requires Reparses(env) && Checks(env, cfg, checked) && ActionFault(env, checked, a).None?
    ensures TargetsOf(env, checked, a).Ok? && TargetsOf(env, checked, a).value != []
    ensures !Blank(a.canary) ==>
              |TargetsOf(env, checked, a).value| == 2 && 0 < a.canaryPct < 100 &&
              TargetsOf(env, checked, a).value[0].weight == 100 - a.canaryPct &&
              TargetsOf(env, checked, a).value[1].weight == a.canaryPct
  {
    UpstreamsParse(env, cfg, checked);
    if !Blank(a.upstream) {
      CheckedReferenceResolves(env, checked, a.upstream, if Blank(a.canary) then 1 else 100 - a.canaryPct);
      if !Blank(a.canary) {
        CheckedReferenceResolves(env, checked, a.canary, a.canaryPct);
      }
    } else {
      CheckedHasLegacy(env, cfg, checked);
    }
  }

  lemma GoverningActionIsChecked(env: Env, cfg: Config, req: Request, p: Place)
    requires RoutesOk(env, cfg) && HasLegacy(cfg) && Governs(env, cfg, req, p)
    ensures ActionFault(env, cfg, ActionAt(cfg, p)).None?
  {
    if p.RouteAt? {
      assert cfg.routes[p.i] in cfg.routes;
    } else if p.Legacy? {
      assert Blank("");
    }
  }

  /** In a checked configuration every request resolves to at least one target, and resolution
      fails exactly when the rule rewrites the path but does not accept the raw path, or the query
      is to be rewritten and does not parse. */
  lemma CheckedResolvesIff(env: Env, cfg: Config, checked: Config, req: Request, p: Place)
    requires Reparses(env) && Checks(env, cfg, checked) && Governs(env, checked, req, p)
    ensures TargetsOf(env, checked, ActionAt(checked, p)).Ok? && TargetsOf(env, checked, ActionAt(checked, p)).value != []
    ensures
      var a, rule := ActionAt(checked, p), RuleAt(checked, p);
      Outcome(env, checked, req, p).Ok? <==>
      !(a.pathRewrite.Some? && req.rawPath != "" && !Details(rule, req.rawPath, env.regex).0) &&
      !(a.rewritesQuery && !req.queryOk)
  {
    CheckedHasLegacy(env, cfg, checked);
    CheckedRoutesOk(env, cfg, checked);
    GoverningActionIsChecked(env, checked, req, p);
    CheckedActionHasTargets(env, cfg, checked, ActionAt(checked, p));
    if p.RouteAt? {
      assert RouteFault(env, checked, checked.routes[p.i]).None?;
    }
  }

  const REWRITING := Action("http://a", "", 0, true, Some("/v1"), false, true)
  const API_ROUTE := Route("r", true, 0, [], Some(PathMatch("prefix", "/api")), REWRITING)
  const API_CONFIG := Config("http://a", [], [API_ROUTE], None)
  const ESCAPED := Request("/api", "/%61pi", "h", true)

  lemma ApiConfigIsOk(env: Env)
    requires env.parse("http://a").Some?
    ensures RoutesOk(env, API_CONFIG)
  {
    TokenIsTrimmed("http://a");
    assert RouteFault(env, API_CONFIG, API_ROUTE).None?;
  }

  lemma ApiRouteGoverns(env: Env)
    ensures Governs(env, API_CONFIG, ESCAPED, RouteAt(0))
  {
    DecodedMayMatchWhereRawDoesNot(env.regex);
    assert Takes(env, API_CONFIG, ESCAPED, 0);
  }

  lemma ApiRouteHasTargets(env: Env)
    requires env.parse("http://a").Some?
    ensures TargetsOf(env, API_CONFIG, REWRITING).Ok? && TargetsOf(env, API_CONFIG, REWRITING).value != []
  {
    TokenIsTrimmed("http://a");
    assert TargetOf(env, API_CONFIG, "http://a", 1).Ok?;
  }

  lemma EscapedPathIsRefused(env: Env)
    ensures Paths(env, ESCAPED, Under("/api"), Some("/v1")) == Err(RawPathMismatch)
  {
    DecodedMayMatchWhereRawDoesNot(env.regex);
  }

  /** A request that a valid configuration cannot resolve: the route "/api" with a path rewrite
      takes the path "/api", but the raw path "/%61pi" that spells it stops the resolution. */
  lemma EscapedPrefixStopsResolution(env: Env)
    requires env.parse("http://a").Some?
    ensures RoutesOk(env, API_CONFIG) && Governs(env, API_CONFIG, ESCAPED, RouteAt(0))
    ensures Outcome(env, API_CONFIG, ESCAPED, RouteAt(0)) == Err(RawPathMismatch)
  {
    ApiConfigIsOk(env);
    ApiRouteGoverns(env);
    ApiRouteHasTargets(env);
    EscapedPathIsRefused(env);
    assert ActionAt(API_CONFIG, RouteAt(0)) == REWRITING && RuleAt(API_CONFIG, RouteAt(0)) == Under("/api");
  }
}
