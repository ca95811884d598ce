// What the checks of a configuration accept, all of it, and what a configuration that passed them
// is known to be.
module CheckedRouting {
  import opened Text
  import opened PathRewrite
  import opened Routing
  import opened Wrappers

  /** The one upstream of this name, enabled. */
  predicate IsOnlyNamed(ups: seq<Upstream>, name: string, i: nat) {
    i < |ups| && ups[i].name == name && ups[i].enabled && forall j: nat | j < |ups| :: j != i ==> ups[j].name != name
  }

  /** A URL, or the name of the one upstream that has it, which is enabled. */
  predicate GoodRef(env: Env, cfg: Config, ref: string) {
    env.parse(Trim(ref)).Some? || exists i: nat | i < |cfg.upstreams| :: IsOnlyNamed(cfg.upstreams, Trim(ref), i)
  }

  lemma {:induction false} CountsOne(ups: seq<Upstream>, name: string, i: nat)
    requires i < |ups| && ups[i].name == name && forall j: nat | j < |ups| :: j != i ==> ups[j].name != name
    ensures Count(ups, name) == 1
    decreases |ups|
  {
    var init := ups[..|ups| - 1];
    forall j: nat | j < |init| && j != i ensures init[j].name != name {
      assert init[j] == ups[j];
    }
    if i == |init| {
      CountFindsOne(init, name);
      assert FirstNamed(init, name) == |init|;
    } else {
      assert init[i] == ups[i];
      CountsOne(init, name, i);
    }
  }

  lemma ReferenceIsGoodIff(env: Env, cfg: Config, ref: string)
    ensures RefFault(env, cfg, Trim(ref)).None? <==> GoodRef(env, cfg, ref)
  {
    var ups, name := cfg.upstreams, Trim(ref);
    var first := FirstNamed(ups, name);
    TrimTwice(ref);
    if i: nat :| i < |ups| && IsOnlyNamed(ups, name, i) {
      CountsOne(ups, name, i);
      assert first == i;
    }
    if first < |ups| && Count(ups, name) <= 1 && ups[first].enabled {
      forall j: nat | j < |ups| && j != first ensures ups[j].name != name {
        if first < j && ups[j].name == name {
          TwoOfAName(ups, first, j);
        }
      }
      assert IsOnlyNamed(ups, name, first);
    }
  }

  predicate GoodTargets(env: Env, cfg: Config, a: Action) {
    (if Blank(a.upstream) then (!Blank(cfg.upstreamURL) || cfg.upstreams != []) && Blank(a.canary)
     else GoodRef(env, cfg, a.upstream)) &&
    (if Blank(a.canary) then a.canaryPct == 0 else 0 < a.canaryPct < 100 && GoodRef(env, cfg, a.canary))
  }

  /** It names upstreams that are there, a canary only beside an upstream and with a percentage, and
      rewrites the path only to one that begins with a slash. */
  predicate GoodAction(env: Env, cfg: Config, a: Action) {
    GoodTargets(env, cfg, a) && a.hostAndHashOk && a.operationsOk && (a.pathRewrite.Some? ==> "/" <= a.pathRewrite.value)
  }

  lemma ActionIsGoodIff(env: Env, cfg: Config, a: Action)
    ensures ActionFault(env, cfg, a).None? <==> GoodAction(env, cfg, a)
  {
    ReferenceIsGoodIff(env, cfg, a.upstream);
    ReferenceIsGoodIff(env, cfg, a.canary);
    if a.pathRewrite.Some? && "/" <= a.pathRewrite.value {
      TrimKeepsHead(a.pathRewrite.value);
    }
  }

  /** A host without slash, whose only star may be that of a leading "*." with something behind it. */
  predicate GoodHost(h: string) {
    h != "" && '/' !in h && ('*' !in h || (|h| > 2 && h[..2] == "*." && '*' !in h[2..]))
  }

  lemma HostIsGoodIff(h: string)
    ensures HostOk(h) <==> GoodHost(h)
  {
    if |h| >= 2 {
      assert h == [h[0]] + [h[1]] + h[2..] && h[1..] == [h[1]] + h[2..];
    }
  }

  predicate GoodPath(env: Env, m: PathMatch) {
    match m.kind
    case "exact" => "/" <= m.value
    case "prefix" => "/" <= m.value
    case "regex" => !Blank(m.value) && env.compiles(m.value)
    case _ => false
  }

  lemma PathIsGoodIff(env: Env, m: PathMatch)
    ensures PathFault(env, m).None? <==> GoodPath(env, m)
  {
    if "/" <= m.value {
      TrimKeepsHead(m.value);
    }
  }

  /** Good hosts, a good path rule and a good action; a path is rewritten only under a path rule that is
      no regular expression. */
  predicate GoodRoute(env: Env, cfg: Config, r: Route) {
    (forall h :: h in r.hosts ==> GoodHost(h)) && (r.path.Some? ==> GoodPath(env, r.path.value)) &&
    GoodAction(env, cfg, r.action) && (r.action.pathRewrite.Some? ==> r.path.Some? && r.path.value.kind != "regex")
  }

  lemma RouteIsGoodIff(env: Env, cfg: Config, r: Route)
    ensures RouteFault(env, cfg, r).None? <==> GoodRoute(env, cfg, r)
  {
    forall h | h in r.hosts ensures HostOk(h) <==> GoodHost(h) {
      HostIsGoodIff(h);
    }
    if r.path.Some? {
      PathIsGoodIff(env, r.path.value);
    }
    ActionIsGoodIff(env, cfg, r.action);
  }

  /** Every upstream has a URL and a weight. */
  predicate GoodUpstreams(env: Env, ups: seq<Upstream>) {
    forall u :: u in ups ==> env.parse(Trim(u.url)).Some? && u.weight > 0
  }

  /** Routes are good whether enabled or not; a default only if it is enabled. */
  predicate GoodRoutes(env: Env, cfg: Config) {
    (forall r :: r in cfg.routes ==> GoodRoute(env, cfg, r)) &&
    (cfg.default.Some? && cfg.default.value.enabled ==> GoodAction(env, cfg, cfg.default.value.action))
  }

  /** The enabled default or an enabled route names an upstream. */
  predicate RefersToOne(cfg: Config) {
    (cfg.default.Some? && cfg.default.value.enabled && !Blank(cfg.default.value.action.upstream)) ||
    exists r :: r in cfg.routes && r.enabled && !Blank(r.action.upstream)
  }

  /** Some request target is always left: an enabled upstream, or one that is referred to; without
      upstreams the upstream URL; without that the enabled default or an enabled route that takes
      every request. */
  predicate AlwaysLeadsSomewhere(env: Env, cfg: Config) {
    if cfg.upstreams != [] then (exists u :: u in cfg.upstreams && u.enabled) || RefersToOne(cfg)
    else if !Blank(cfg.upstreamURL) then env.parse(Trim(cfg.upstreamURL)).Some?
    else
      (cfg.default.Some? && cfg.default.value.enabled && !Blank(cfg.default.value.action.upstream)) ||
      exists r :: r in cfg.routes && r.enabled && r.hosts == [] && r.path.None? && !Blank(r.action.upstream)
  }

  /** What a good reference configures. */
  lemma GoodRefLeads(env: Env, cfg: Config, ref: string)
    requires GoodUpstreams(env, cfg.upstreams) && env.parse("").None?
    requires Blank(ref) || GoodRef(env, cfg, ref)
    ensures if Blank(ref) then ConfiguredTarget(env, cfg, ref) == Absent else ConfiguredTarget(env, cfg, ref).Found?
  {
    TrimTwice(ref);
    ReferenceIsGoodIff(env, cfg, ref);
    var i := FirstNamed(cfg.upstreams, Trim(ref));
    if i < |cfg.upstreams| {
      assert cfg.upstreams[i] in cfg.upstreams;
    }
  }

  lemma {:induction false} RoutesLeadIff(env: Env, cfg: Config, routes: seq<Route>)
    requires GoodUpstreams(env, cfg.upstreams) && env.parse("").None?
    requires forall r :: r in routes ==> Blank(r.action.upstream) || GoodRef(env, cfg, r.action.upstream)
    ensures RouteTarget(env, cfg, routes).Found? <==> exists r :: r in routes && r.enabled && !Blank(r.action.upstream)
    ensures !RouteTarget(env, cfg, routes).Failed?
  {
    if routes != [] {
      GoodRefLeads(env, cfg, routes[0].action.upstream);
      RoutesLeadIff(env, cfg, routes[1..]);
      assert routes == [routes[0]] + routes[1..];
    }
  }

  lemma FallbackLeadsIff(env: Env, cfg: Config)
    requires GoodUpstreams(env, cfg.upstreams) && GoodRoutes(env, cfg) && env.parse("").None?
    ensures FallbackTarget(env, cfg).Found? <==> RefersToOne(cfg)
  {
    forall r | r in cfg.routes ensures Blank(r.action.upstream) || GoodRef(env, cfg, r.action.upstream) {
      assert GoodRoute(env, cfg, r);
    }
    RoutesLeadIff(env, cfg, cfg.routes);
    if DefaultOn(cfg) {
      GoodRefLeads(env, cfg, cfg.default.value.action.upstream);
    }
  }

  /** A configuration is accepted if and only if its upstreams, routes and enabled default are good and
      it leads somewhere. */
  lemma AcceptedIff(env: Env, cfg: Config)
    requires env.parse("").None?
    ensures (exists checked :: Checks(env, cfg, checked)) <==>
            GoodUpstreams(env, cfg.upstreams) && GoodRoutes(env, cfg) && AlwaysLeadsSomewhere(env, cfg)
  {
    RoutesAreGoodIff(env, cfg);
    UpstreamsAreGoodIff(env, cfg);
    if GoodUpstreams(env, cfg.upstreams) && GoodRoutes(env, cfg) {
      FallbackLeadsIff(env, cfg);
      LeadsIff(env, cfg);
      if AlwaysLeadsSomewhere(env, cfg) {
        assert Checks(env, cfg, Effective(cfg, PrimaryTarget(env, cfg).value));
      }
    }
  }

  lemma RoutesAreGoodIff(env: Env, cfg: Config)
    ensures RoutesOk(env, cfg) <==>
            (forall u :: u in cfg.upstreams ==> u.weight > 0) && GoodRoutes(env, cfg) && (HasLegacy(cfg) || ProvidesFallback(cfg))
  {
    forall r | r in cfg.routes ensures RouteFault(env, cfg, r).None? <==> GoodRoute(env, cfg, r) {
      RouteIsGoodIff(env, cfg, r);
    }
    if DefaultOn(cfg) {
      ActionIsGoodIff(env, cfg, cfg.default.value.action);
    }
  }

  lemma UpstreamsAreGoodIff(env: Env, cfg: Config)
    ensures GoodUpstreams(env, cfg.upstreams) <==> forall u :: u in cfg.upstreams ==> UpstreamOk(env, u)
  {
  }

  lemma LeadsIff(env: Env, cfg: Config)
    requires GoodUpstreams(env, cfg.upstreams) && GoodRoutes(env, cfg)
    requires FallbackTarget(env, cfg).Found? <==> RefersToOne(cfg)
    ensures AlwaysLeadsSomewhere(env, cfg) <==>
            (HasLegacy(cfg) || ProvidesFallback(cfg)) && PrimaryTarget(env, cfg).Some?
  {
    var ups := cfg.upstreams;
    var i := FirstEnabled(ups);
    if i < |ups| {
      assert ups[i] in ups;
    }
    if u :| u in ups && u.enabled {
      var k :| 0 <= k < |ups| && ups[k] == u;
      assert i <= k;
    }
    if r :| r in cfg.routes && CatchesAll(r) {
      assert r.enabled && !Blank(r.action.upstream);
    }
  }

  // ----- What the primary target is --------------------------------------------------

  /** The URL that a reference stands for: its own, or that of the upstream it names. */
  predicate StandsFor(env: Env, cfg: Config, ref: string, url: string) {
    if env.parse(Trim(ref)).Some? then env.parse(Trim(ref)) == Some(url)
    else exists i: nat | i < |cfg.upstreams| :: IsOnlyNamed(cfg.upstreams, Trim(ref), i) && env.parse(Trim(cfg.upstreams[i].url)) == Some(url)
  }

  /** The first enabled route that names an upstream. */
  predicate FirstReferring(routes: seq<Route>, i: nat) {
    i < |routes| && routes[i].enabled && !Blank(routes[i].action.upstream) &&
    forall j: nat | j < i :: !routes[j].enabled || Blank(routes[j].action.upstream)
  }

  lemma ReferenceStandsFor(env: Env, cfg: Config, ref: string)
    requires GoodRef(env, cfg, ref) && ConfiguredTarget(env, cfg, ref).Found?
    ensures StandsFor(env, cfg, ref, ConfiguredTarget(env, cfg, ref).url)
  {
    TrimTwice(ref);
    if env.parse(Trim(ref)).None? {
      var i: nat :| i < |cfg.upstreams| && IsOnlyNamed(cfg.upstreams, Trim(ref), i);
      assert FirstNamed(cfg.upstreams, Trim(ref)) == i;
    }
  }

  lemma {:induction false} FirstReferringLeads(env: Env, cfg: Config, routes: seq<Route>) returns (i: nat)
    requires GoodUpstreams(env, cfg.upstreams) && env.parse("").None?
    requires forall r :: r in routes ==> Blank(r.action.upstream) || GoodRef(env, cfg, r.action.upstream)
    requires RouteTarget(env, cfg, routes).Found?
    ensures FirstReferring(routes, i) && StandsFor(env, cfg, routes[i].action.upstream, RouteTarget(env, cfg, routes).url)
  {
    GoodRefLeads(env, cfg, routes[0].action.upstream);
    if routes[0].enabled && !Blank(routes[0].action.upstream) {
      assert routes[0] in routes;
      ReferenceStandsFor(env, cfg, routes[0].action.upstream);
      i := 0;
    } else {
      var rest := FirstReferringLeads(env, cfg, routes[1..]);
      i := rest + 1;
      forall j: nat | j < i ensures !routes[j].enabled || Blank(routes[j].action.upstream) {
        assert j > 0 ==> routes[j] == routes[1..][j - 1];
      }
    }
  }

  /** In an accepted configuration the primary target is the URL of the first enabled upstream; without
      upstreams the upstream URL; otherwise what the enabled default refers to, or else the first
      enabled route that refers to something. */
  lemma PrimaryIs(env: Env, cfg: Config, checked: Config)
    requires env.parse("").None? && Checks(env, cfg, checked)
    ensures
      var ups, url := cfg.upstreams, PrimaryTarget(env, cfg).value;
      if exists u :: u in ups && u.enabled then
        exists i: nat | i < |ups| :: ups[i].enabled && env.parse(Trim(ups[i].url)) == Some(url) && forall j: nat | j < i :: !ups[j].enabled
      else if ups == [] && !Blank(cfg.upstreamURL) then env.parse(Trim(cfg.upstreamURL)) == Some(url)
      else if cfg.default.Some? && cfg.default.value.enabled && !Blank(cfg.default.value.action.upstream) then
        StandsFor(env, cfg, cfg.default.value.action.upstream, url)
      else exists i: nat | i < |cfg.routes| :: FirstReferring(cfg.routes, i) && StandsFor(env, cfg, cfg.routes[i].action.upstream, url)
  {
    var ups := cfg.upstreams;
    AcceptedIff(env, cfg);
    if u :| u in ups && u.enabled {
      var k :| 0 <= k < |ups| && ups[k] == u;
      assert FirstEnabled(ups) <= k;
    } else if ups != [] || Blank(cfg.upstreamURL) {
      FallbackStandsFor(env, cfg);
      assert FirstEnabled(ups) == |ups|;
    }
  }

  lemma FallbackStandsFor(env: Env, cfg: Config)
    requires env.parse("").None? && GoodUpstreams(env, cfg.upstreams) && GoodRoutes(env, cfg)
    requires FallbackTarget(env, cfg).Found?
    ensures
      var url := FallbackTarget(env, cfg).url;
      if cfg.default.Some? && cfg.default.value.enabled && !Blank(cfg.default.value.action.upstream) then
        StandsFor(env, cfg, cfg.default.value.action.upstream, url)
      else exists i: nat | i < |cfg.routes| :: FirstReferring(cfg.routes, i) && StandsFor(env, cfg, cfg.routes[i].action.upstream, url)
  {
    forall r | r in cfg.routes ensures Blank(r.action.upstream) || GoodRef(env, cfg, r.action.upstream) {
      assert GoodRoute(env, cfg, r);
    }
    if DefaultOn(cfg) {
      GoodRefLeads(env, cfg, cfg.default.value.action.upstream);
    }
    if DefaultOn(cfg) && !Blank(cfg.default.value.action.upstream) {
      ReferenceStandsFor(env, cfg, cfg.default.value.action.upstream);
    } else {
      var i := FirstReferringLeads(env, cfg, cfg.routes);
    }
  }
}
