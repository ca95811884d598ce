// Preparing a configuration: normalization, the checks, the primary target. What a second pass over
// the result does, and when it does nothing.
module Preparation {
  import opened Text
  import opened PathRewrite
  import opened Routing
  import opened Wrappers

  // ----- Normalization ---------------------------------------------------------------

  function NormalizeUpstream(u: Upstream, i: nat): Upstream {
    Upstream(if Blank(u.name) then "upstream-" + Itoa(i + 1) else Trim(u.name), Trim(u.url),
             if u.weight <= 0 then 1 else u.weight, u.enabled)
  }

  predicate NoneEnabled(ups: seq<Upstream>) {
    forall i :: 0 <= i < |ups| ==> !ups[i].enabled
  }

  function Each(ups: seq<Upstream>): seq<Upstream> {
    seq(|ups|, i requires 0 <= i < |ups| => NormalizeUpstream(ups[i], i))
  }

  /** If no upstream is enabled, all are. */
  function NormalizeUpstreams(ups: seq<Upstream>): seq<Upstream> {
    var none := NoneEnabled(ups);
    seq(|ups|, i requires 0 <= i < |ups| =>
      var u := NormalizeUpstream(ups[i], i); if none then u.(enabled := true) else u)
  }

  /** Blank hosts are dropped, and a host that came before. */
  function NormalizeHosts(hosts: seq<string>): seq<string> {
    if hosts == [] then []
    else
      var before, next := NormalizeHosts(hosts[..|hosts| - 1]), NormalizeHost(hosts[|hosts| - 1]);
      if next == "" || next in before then before else before + [next]
  }

  function NormalizeMatch(m: PathMatch): PathMatch {
    var kind := ToLower(Trim(m.kind));
    PathMatch(kind,
              if kind == "prefix" then NormalizePrefix(m.value)
              else if kind == "exact" then NormalizeExact(m.value)
              else Trim(m.value))
  }

  function NormalizeAction(a: Action): Action {
    a.(upstream := Trim(a.upstream), canary := Trim(a.canary),
       pathRewrite := if a.pathRewrite.Some? then Some(NormalizePrefix(a.pathRewrite.value)) else None)
  }

  function NormalizeRoute(r: Route, i: nat): Route {
    r.(name := if Blank(r.name) then "route-" + Itoa(i + 1) else Trim(r.name), hosts := NormalizeHosts(r.hosts),
       path := if r.path.Some? then Some(NormalizeMatch(r.path.value)) else None, action := NormalizeAction(r.action))
  }

  function NormalizeRoutes(routes: seq<Route>): seq<Route> {
    seq(|routes|, i requires 0 <= i < |routes| => NormalizeRoute(routes[i], i))
  }

  function NormalizeDefault(d: DefaultRoute): DefaultRoute {
    d.(name := if Blank(d.name) then "default" else Trim(d.name), action := NormalizeAction(d.action))
  }

  function Normalize(cfg: Config): Config {
    Config(Trim(cfg.upstreamURL), NormalizeUpstreams(cfg.upstreams), NormalizeRoutes(cfg.routes),
           if cfg.default.Some? then Some(NormalizeDefault(cfg.default.value)) else None)
  }

  /** Upstream `i` of the list becomes `v`: trimmed, named by its place if it has no name, of weight 1 if
      that is not positive, and enabled if it was or if none is. */
  predicate UpstreamBecomes(ups: seq<Upstream>, i: nat, v: Upstream)
    requires i < |ups|
  {
    v.url == Trim(ups[i].url) && v.name == (if Trim(ups[i].name) != "" then Trim(ups[i].name) else "upstream-" + Itoa(i + 1)) &&
    v.weight == (if ups[i].weight > 0 then ups[i].weight else 1) &&
    (v.enabled <==> ups[i].enabled || forall u :: u in ups ==> !u.enabled)
  }

  lemma NormalizedUpstreamIs(ups: seq<Upstream>, i: nat)
    requires i < |ups|
    ensures |NormalizeUpstreams(ups)| == |ups| && UpstreamBecomes(ups, i, NormalizeUpstreams(ups)[i])
  {
    assert NoneEnabled(ups) <==> forall u :: u in ups ==> !u.enabled;
  }

  /** Route `i` becomes `v`: enabled and ranked as before, named by its place if it has no name, with
      its hosts, path rule, references and path rewrite normalized. */
  ghost predicate RouteBecomes(r: Route, i: nat, v: Route) {
    v.enabled == r.enabled && v.priority == r.priority &&
    v.name == (if Trim(r.name) != "" then Trim(r.name) else "route-" + Itoa(i + 1)) &&
    (forall h :: h in v.hosts <==> h != "" && CameFrom(r.hosts, h)) && NoneTwice(v.hosts) &&
    (if r.path.None? then v.path.None? else v.path.Some? && PathBecomes(r.path.value, v.path.value)) &&
    v.action == r.action.(upstream := Trim(r.action.upstream), canary := Trim(r.action.canary), pathRewrite := v.action.pathRewrite) &&
    if r.action.pathRewrite.None? then v.action.pathRewrite.None?
    else v.action.pathRewrite == Some(NormalizePrefix(r.action.pathRewrite.value))
  }

  predicate PathBecomes(m: PathMatch, v: PathMatch) {
    v.kind == ToLower(Trim(m.kind)) &&
    match v.kind
    case "prefix" => v.value == NormalizePrefix(m.value)
    case "exact" => v.value == NormalizeExact(m.value)
    case _ => v.value == Trim(m.value)
  }

  lemma NormalizedRouteIs(r: Route, i: nat)
    ensures RouteBecomes(r, i, NormalizeRoute(r, i))
  {
    HostsAreNormalized(r.hosts);
    HostsAreDistinct(r.hosts);
  }

  method NormalizeHostList(hosts: seq<string>) returns (out: seq<string>)
    ensures out == NormalizeHosts(hosts)
  {
    out := [];
    var seen: set<string> := {};
    for i := 0 to |hosts|
      invariant out == NormalizeHosts(hosts[..i])
      invariant forall h :: h in seen <==> h in out
    {
      assert hosts[..i + 1][..i] == hosts[..i];
      var next := NormalizeHost(hosts[i]);
      if next != "" && next !in seen {
        seen, out := seen + {next}, out + [next];
      }
    }
    assert hosts[..|hosts|] == hosts;
  }

  method NormalizeUpstreamList(ups: seq<Upstream>) returns (out: seq<Upstream>)
    ensures out == NormalizeUpstreams(ups)
    ensures |out| == |ups| && forall i: nat | i < |ups| :: UpstreamBecomes(ups, i, out[i])
  {
    var each, enabled := NormalizeEach(ups);
    out := each;
    if enabled == 0 {
      out := EnableAll(out);
    }
    assert |Each(ups)| == |ups|;
    assert |out| == |ups|;
    forall i: nat | i < |ups| ensures UpstreamBecomes(ups, i, NormalizeUpstreams(ups)[i]) {
      NormalizedUpstreamIs(ups, i);
    }
  }

  /** The normalized upstreams, and how many are enabled. */
  method NormalizeEach(ups: seq<Upstream>) returns (out: seq<Upstream>, enabled: nat)
    ensures out == Each(ups)
    ensures enabled == 0 <==> NoneEnabled(ups)
  {
    out, enabled := [], 0;
    for i := 0 to |ups|
      invariant out == Each(ups[..i])
      invariant enabled == 0 <==> NoneEnabled(ups[..i])
    {
      EachStep(ups, i);
      NoneEnabledStep(ups, i);
      out := out + [NormalizeUpstream(ups[i], i)];
      if ups[i].enabled {
        enabled := enabled + 1;
      }
    }
    assert ups[..|ups|] == ups;
  }

  lemma EachStep(ups: seq<Upstream>, i: nat)
    requires i < |ups|
    ensures Each(ups[..i + 1]) == Each(ups[..i]) + [NormalizeUpstream(ups[i], i)]
  {
  }

  lemma NoneEnabledStep(ups: seq<Upstream>, i: nat)
    requires i < |ups|
    ensures NoneEnabled(ups[..i + 1]) <==> NoneEnabled(ups[..i]) && !ups[i].enabled
  {
    var head, next := ups[..i], ups[..i + 1];
    assert next[i] == ups[i];
    if NoneEnabled(next) {
      assert forall j :: 0 <= j < i ==> !next[j].enabled && next[j] == head[j];
    }
  }

  method EnableAll(ups: seq<Upstream>) returns (out: seq<Upstream>)
    ensures |out| == |ups| && forall j :: 0 <= j < |ups| ==> out[j] == ups[j].(enabled := true)
  {
    out := ups;
    for i := 0 to |ups|
      invariant |out| == |ups| && forall j :: i <= j < |ups| ==> out[j] == ups[j]
      invariant forall j :: 0 <= j < i ==> out[j] == ups[j].(enabled := true)
    {
      out := out[i := out[i].(enabled := true)];
    }
  }

  method NormalizeOneRoute(r: Route, i: nat) returns (next: Route)
    ensures next == NormalizeRoute(r, i)
  {
    next := r.(name := Trim(r.name));
    if next.name == "" {
      next := next.(name := "route-" + Itoa(i + 1));
    }
    var hosts := NormalizeHostList(next.hosts);
    next := next.(hosts := hosts);
    next := next.(path := if next.path.Some? then Some(NormalizeMatch(next.path.value)) else None);
    next := next.(action := NormalizeAction(next.action));
  }

  method NormalizeRouteList(routes: seq<Route>) returns (out: seq<Route>)
    ensures out == NormalizeRoutes(routes)
  {
    out := [];
    for i := 0 to |routes|
      invariant |out| == i && forall j :: 0 <= j < i ==> out[j] == NormalizeRoute(routes[j], j)
    {
      var next := NormalizeOneRoute(routes[i], i);
      out := out + [next];
    }
  }

  // ----- Preparation -----------------------------------------------------------------

  /** The configuration that takes effect, if the normalized one passes its checks. */
  function Prepared(env: Env, cfg: Config): Option<Config> {
    var n := Normalize(cfg);
    if RoutesOk(env, n) && PrimaryTarget(env, n).Some? then Some(Effective(n, PrimaryTarget(env, n).value)) else None
  }

  method Prepare(env: Env, cfg: Config) returns (r: Result<Config, Problem>)
    ensures Prepared(env, cfg) == if r.Ok? then Some(r.value) else None
  {
    var ups := NormalizeUpstreamList(cfg.upstreams);
    var routes := NormalizeRouteList(cfg.routes);
    r := Check(env, Config(Trim(cfg.upstreamURL), ups, routes,
                           if cfg.default.Some? then Some(NormalizeDefault(cfg.default.value)) else None));
  }

  /** What of a prepared route a second normalization leaves alone. */
  predicate StableAction(a: Action) {
    a.pathRewrite.Some? ==> IsPrefix(a.pathRewrite.value)
  }

  predicate StableHosts(hosts: seq<string>) {
    forall i :: 0 <= i < |hosts| ==> IsStableHost(hosts[i])
  }

  predicate StableRoute(r: Route) {
    StableHosts(r.hosts) && StableAction(r.action) &&
    (r.path.Some? && r.path.value.kind == "prefix" ==> IsPrefix(r.path.value.value))
  }

  /** No stored host ends in a dot or white space, no stored prefix in white space. */
  predicate Stable(cfg: Config) {
    (forall i :: 0 <= i < |cfg.routes| ==> StableRoute(cfg.routes[i])) &&
    (cfg.default.Some? ==> StableAction(cfg.default.value.action))
  }

  // ----- Hosts and prefixes, the second time -----------------------------------------

  predicate CameFrom(hosts: seq<string>, h: string) {
    exists x :: x in hosts && NormalizeHost(x) == h
  }

  lemma CameFromLast(hosts: seq<string>, h: string)
    requires hosts != []
    ensures CameFrom(hosts, h) <==> CameFrom(hosts[..|hosts| - 1], h) || NormalizeHost(hosts[|hosts| - 1]) == h
  {
    var n := |hosts| - 1;
    assert hosts == hosts[..n] + [hosts[n]];
    var init, last := hosts[..n], hosts[n];
    assert forall x :: x in hosts <==> x in init || x == last;
  }

  lemma {:induction false} HostsAreNormalized(hosts: seq<string>)
    ensures |NormalizeHosts(hosts)| <= |hosts|
    ensures forall h :: h in NormalizeHosts(hosts) <==> h != "" && CameFrom(hosts, h)
  {
    if hosts != [] {
      var before, all := NormalizeHosts(hosts[..|hosts| - 1]), NormalizeHosts(hosts);
      HostsAreNormalized(hosts[..|hosts| - 1]);
      forall h ensures h in all <==> h != "" && CameFrom(hosts, h) {
        CameFromLast(hosts, h);
      }
    }
  }

  predicate Twice(hosts: seq<string>, i: nat, j: nat) {
    i < j < |hosts| && hosts[i] == hosts[j]
  }

  predicate NoneTwice(hosts: seq<string>) {
    forall i: nat, j: nat | j < |hosts| :: i < j ==> !Twice(hosts, i, j)
  }

  lemma {:induction false} HostsAreDistinct(hosts: seq<string>)
    ensures NoneTwice(NormalizeHosts(hosts))
  {
    if hosts != [] {
      var init := hosts[..|hosts| - 1];
      HostsAreDistinct(init);
      var before, all := NormalizeHosts(init), NormalizeHosts(hosts);
      forall i: nat, j: nat | i < j < |all| ensures !Twice(all, i, j) {
        if j < |before| {
          assert !Twice(before, i, j);
        } else {
          assert before[i] in before;
        }
      }
    }
  }

  predicate FixedHosts(hosts: seq<string>) {
    forall i :: 0 <= i < |hosts| ==> FixedHost(hosts[i])
  }

  predicate FixedHost(h: string) {
    NormalizeHost(h) == h
  }

  lemma NoneTwiceInit(hosts: seq<string>)
    requires hosts != [] && NoneTwice(hosts)
    ensures NoneTwice(hosts[..|hosts| - 1]) && hosts[|hosts| - 1] !in hosts[..|hosts| - 1]
  {
    var n := |hosts| - 1;
    var init := hosts[..n];
    forall i: nat, j: nat | j < |init| && i < j ensures !Twice(init, i, j) {
      assert !Twice(hosts, i, j);
    }
    if hosts[n] in init {
      var i: nat :| i < |init| && init[i] == hosts[n];
      assert Twice(hosts, i, n);
    }
  }

  lemma {:induction false} FixedListStays(hosts: seq<string>)
    requires NoneTwice(hosts) && "" !in hosts && FixedHosts(hosts)
    ensures NormalizeHosts(hosts) == hosts
  {
    if hosts != [] {
      var n := |hosts| - 1;
      NoneTwiceInit(hosts);
      FixedListStays(hosts[..n]);
      assert FixedHost(hosts[n]) && hosts == hosts[..n] + [hosts[n]];
    }
  }

  lemma {:induction false} StayingListIsFixed(hosts: seq<string>)
    requires NormalizeHosts(hosts) == hosts
    ensures FixedHosts(hosts)
  {
    if hosts != [] {
      var n := |hosts| - 1;
      HostsAreNormalized(hosts[..n]);
      assert NormalizeHosts(hosts[..n]) == hosts[..n] && hosts[n] == NormalizeHost(hosts[n]);
      StayingListIsFixed(hosts[..n]);
    }
  }

  /** So a route's hosts survive a second normalization exactly when they are stable. */
  lemma StoredHostsFixedIff(hosts: seq<string>)
    ensures NormalizeHosts(NormalizeHosts(hosts)) == NormalizeHosts(hosts) <==> StableHosts(NormalizeHosts(hosts))
  {
    var stored := NormalizeHosts(hosts);
    HostsAreNormalized(hosts);
    HostsAreDistinct(hosts);
    forall i | 0 <= i < |stored| ensures FixedHost(stored[i]) <==> IsStableHost(stored[i]) {
      StoredHostFixedIff(hosts, stored[i]);
    }
    if StableHosts(stored) {
      FixedListStays(stored);
    } else if NormalizeHosts(stored) == stored {
      StayingListIsFixed(stored);
    }
  }

  lemma StoredHostFixedIff(hosts: seq<string>, h: string)
    requires h in NormalizeHosts(hosts)
    ensures h != "" && (NormalizeHost(h) == h <==> IsStableHost(h))
  {
    HostsAreNormalized(hosts);
    var x :| x in hosts && NormalizeHost(x) == h;
    NormalizedHostShape(x);
    NormalizeHostIsIdempotentIff(h);
  }

  lemma MatchFixedIff(m: PathMatch)
    ensures NormalizeMatch(NormalizeMatch(m)) == NormalizeMatch(m) <==>
            (NormalizeMatch(m).kind == "prefix" ==> IsPrefix(NormalizeMatch(m).value))
  {
    LowerOfTrimmed(m.kind);
    NormalizePrefixIsIdempotentIff(m.value);
    ExactIsFixed(m.value);
    TrimTwice(m.value);
  }

  lemma ExactIsFixed(v: string)
    ensures NormalizeExact(NormalizeExact(v)) == NormalizeExact(v)
  {
    ExactIsTrimmed(v);
  }

  lemma ActionFixedIff(a: Action)
    ensures NormalizeAction(NormalizeAction(a)) == NormalizeAction(a) <==> StableAction(NormalizeAction(a))
  {
    TrimTwice(a.upstream);
    TrimTwice(a.canary);
    if a.pathRewrite.Some? {
      NormalizePrefixIsIdempotentIff(a.pathRewrite.value);
    }
  }

  lemma NumberedIsTrimmed(head: string, n: nat)
    requires head != "" && IsToken(head)
    ensures Trim(head + Itoa(n)) == head + Itoa(n) && !Blank(head + Itoa(n))
  {
    var digits := Itoa(n);
    var s := head + digits;
    assert IsToken(s);
    TokenIsTrimmed(s);
  }

  lemma RouteFixedIff(r: Route, i: nat)
    ensures NormalizeRoute(NormalizeRoute(r, i), i) == NormalizeRoute(r, i) <==> StableRoute(NormalizeRoute(r, i))
  {
    NumberedIsTrimmed("route-", i + 1);
    TrimTwice(r.name);
    StoredHostsFixedIff(r.hosts);
    ActionFixedIff(r.action);
    if r.path.Some? {
      MatchFixedIff(r.path.value);
    }
  }

  lemma UpstreamIsFixed(u: Upstream, i: nat)
    ensures NormalizeUpstream(NormalizeUpstream(u, i), i) == NormalizeUpstream(u, i)
  {
    NumberedIsTrimmed("upstream-", i + 1);
    TrimTwice(u.name);
    TrimTwice(u.url);
  }

  lemma SomeEnabled(ups: seq<Upstream>)
    ensures ups == [] || !NoneEnabled(NormalizeUpstreams(ups))
  {
    var once := NormalizeUpstreams(ups);
    if ups != [] && NoneEnabled(ups) {
      assert once[0].enabled;
    } else if ups != [] {
      var i :| 0 <= i < |ups| && ups[i].enabled;
      assert once[i].enabled;
    }
  }

  lemma UpstreamsAreFixed(ups: seq<Upstream>)
    ensures NormalizeUpstreams(NormalizeUpstreams(ups)) == NormalizeUpstreams(ups)
    ensures ups == [] || !NoneEnabled(NormalizeUpstreams(ups))
  {
    var once := NormalizeUpstreams(ups);
    SomeEnabled(ups);
    forall i | 0 <= i < |ups| ensures NormalizeUpstream(once[i], i) == once[i] {
      UpstreamIsFixed(ups[i], i);
      NameStays(ups[i], i);
    }
  }

  lemma NameStays(u: Upstream, i: nat)
    ensures NormalizeUpstream(u.(enabled := true), i) == NormalizeUpstream(u, i).(enabled := true)
  {
  }

  lemma DefaultNameIsFixed(name: string)
    ensures
      var once := if Blank(name) then "default" else Trim(name);
      !Blank(once) && Trim(once) == once
  {
    TrimTwice(name);
    AlreadyTrimmed("default");
  }

  lemma DefaultFixedIff(d: DefaultRoute)
    ensures NormalizeDefault(NormalizeDefault(d)) == NormalizeDefault(d) <==> StableAction(NormalizeDefault(d).action)
  {
    DefaultNameIsFixed(d.name);
    ActionFixedIff(d.action);
  }

  lemma RoutesFixedIff(routes: seq<Route>)
    ensures
      var once := NormalizeRoutes(routes);
      NormalizeRoutes(once) == once <==> forall i :: 0 <= i < |once| ==> StableRoute(once[i])
  {
    var once := NormalizeRoutes(routes);
    forall i | 0 <= i < |once| ensures NormalizeRoute(once[i], i) == once[i] <==> StableRoute(once[i]) {
      RouteFixedIff(routes[i], i);
    }
    if NormalizeRoutes(once) == once {
      forall i | 0 <= i < |once| ensures NormalizeRoute(once[i], i) == once[i] {
        assert NormalizeRoutes(once)[i] == once[i];
      }
    }
  }

  // ----- A second preparation --------------------------------------------------------

  lemma PreparedIsChecked(env: Env, cfg: Config)
    requires Prepared(env, cfg).Some?
    ensures Checks(env, Normalize(cfg), Prepared(env, cfg).value)
  {
  }

  lemma PreparedUrlIsTrimmed(env: Env, cfg: Config)
    requires Reparses(env) && Prepared(env, cfg).Some?
    ensures Trim(Prepared(env, cfg).value.upstreamURL) == Prepared(env, cfg).value.upstreamURL
  {
    var n := Normalize(cfg);
    TrimTwice(cfg.upstreamURL);
    if n.upstreams == [] {
      PrimaryIsParsed(env, n);
      var raw :| Parse(env, raw) == PrimaryTarget(env, n);
      assert Reprints(env, Trim(raw));
    }
  }

  /** Normalizing a prepared configuration gives it back exactly when it is stable. */
  lemma NormalizedAgainIff(env: Env, cfg: Config)
    requires Reparses(env) && Prepared(env, cfg).Some?
    ensures Normalize(Prepared(env, cfg).value) == Prepared(env, cfg).value <==> Stable(Prepared(env, cfg).value)
  {
    PreparedUrlIsTrimmed(env, cfg);
    UpstreamsAreFixed(cfg.upstreams);
    RoutesFixedIff(cfg.routes);
    if cfg.default.Some? {
      DefaultFixedIff(cfg.default.value);
    }
  }

  lemma CheckedAgain(env: Env, n: Config, p: Config)
    requires Reparses(env) && Checks(env, n, p)
    ensures Checks(env, p, p)
  {
    CheckedHasLegacy(env, n, p);
    CheckedRoutesOk(env, n, p);
  }

  lemma EffectiveKeepsRoutes(cfg: Config, target: string)
    ensures Effective(cfg, target).routes == cfg.routes && Effective(cfg, target).default == cfg.default
  {
  }

  /** A prepared configuration prepares to itself if and only if it is stable. */
  lemma PrepareIsIdempotentIff(env: Env, cfg: Config)
    requires Reparses(env) && Prepared(env, cfg).Some?
    ensures
      var p := Prepared(env, cfg).value;
      Prepared(env, p) == Some(p) <==> Stable(p)
  {
    var n, p := Normalize(cfg), Prepared(env, cfg).value;
    NormalizedAgainIff(env, cfg);
    PreparedIsChecked(env, cfg);
    CheckedAgain(env, n, p);
    if Prepared(env, p) == Some(p) {
      EffectiveKeepsRoutes(Normalize(p), PrimaryTarget(env, Normalize(p)).value);
      RoutesFixedIff(cfg.routes);
      if cfg.default.Some? {
        DefaultFixedIff(cfg.default.value);
      }
    }
  }

  // ----- When a second preparation goes through at all -------------------------------

  /** The stored hosts and prefixes that normalization leaves something valid of. */
  predicate RestorableAction(a: Action) {
    a.pathRewrite.Some? ==> NormalizePrefix(a.pathRewrite.value) != ""
  }

  predicate RestorableRoute(r: Route) {
    (forall h :: h in r.hosts ==> NormalizeHost(h) != "*.") && RestorableAction(r.action) &&
    (r.path.Some? && r.path.value.kind == "prefix" ==> NormalizePrefix(r.path.value.value) != "")
  }

  predicate Restorable(cfg: Config) {
    (forall r :: r in cfg.routes ==> RestorableRoute(r)) &&
    (DefaultOn(cfg) ==> RestorableAction(cfg.default.value.action))
  }

  lemma {:induction false} TrimKeepsUpTo(s: string, k: nat)
    requires k < |s| && !IsSpace(s[0]) && !IsSpace(s[k])
    ensures |Trim(s)| > k
  {
    if IsSpace(s[|s| - 1]) {
      TrimKeepsUpTo(s[..|s| - 1], k);
    }
  }

  lemma {:induction false} TrimIsPart(s: string)
    ensures forall c :: c in Trim(s) ==> c in s
  {
    if s != "" && IsSpace(s[0]) {
      TrimIsPart(s[1..]);
    } else if s != "" && IsSpace(s[|s| - 1]) {
      TrimIsPart(s[..|s| - 1]);
    }
  }

  /** A normalized host is a prefix of the trimmed one, letter case aside. */
  lemma NormalizedHostIsPart(h: string)
    ensures NormalizeHost(h) <= ToLower(Trim(h))
    ensures forall c :: c in NormalizeHost(h) && (c == '/' || c == '*') ==> c in h
  {
    var t, n := Trim(h), NormalizeHost(h);
    var l := ToLower(t);
    if HasPrefix(l, "*.") {
      assert l == "*." + l[2..];
    }
    TrimIsPart(h);
    forall c | c in n && (c == '/' || c == '*') ensures c in h {
      var i :| 0 <= i < |n| && n[i] == c;
      assert n[i] == l[i] == Lower(t[i]) && t[i] in t;
    }
  }

  lemma WildcardStays(h: string)
    requires HostOk(h) && '*' in h
    ensures "*." <= NormalizeHost(h) && '*' !in NormalizeHost(h)[1..]
  {
    var t, n := Trim(h), NormalizeHost(h);
    TrimKeepsHead(h);
    TrimKeepsUpTo(h, 1);
    NormalizedHostIsPart(h);
    var l := ToLower(t);
    assert t[0] == '*' && t[1] == '.' && l[..2] == "*.";
    forall i | 1 <= i < |n| ensures n[i] != '*' {
      assert n[i] == l[i] == Lower(t[i]) && t[i] == h[1..][i - 1];
    }
  }

  /** A valid host stays valid, unless only a bare wildcard or nothing is left of it. */
  lemma ValidHostStaysValid(h: string)
    requires HostOk(h) && NormalizeHost(h) != ""
    ensures HostOk(NormalizeHost(h)) <==> NormalizeHost(h) != "*."
  {
    NormalizedHostIsPart(h);
    if '*' in h {
      WildcardStays(h);
    }
  }

  lemma HostsStayValidIff(hosts: seq<string>)
    requires forall h :: h in hosts ==> HostOk(h)
    ensures (exists h :: h in NormalizeHosts(hosts) && !HostOk(h)) <==> (exists h :: h in hosts && NormalizeHost(h) == "*.")
  {
    HostsAreNormalized(hosts);
    var again := NormalizeHosts(hosts);
    if h :| h in again && !HostOk(h) {
      var x :| x in hosts && NormalizeHost(x) == h;
      ValidHostStaysValid(x);
    }
    if h :| h in hosts && NormalizeHost(h) == "*." {
      assert CameFrom(hosts, "*.") && "*." in again && !HostOk("*.");
    }
  }

  /** A stored value of a kind: what a first normalization leaves and validation accepts. */
  predicate StoredMatch(m: PathMatch) {
    m.kind in {"exact", "prefix", "regex"} && !Blank(m.value) &&
    (m.kind != "prefix" ==> Trim(m.value) == m.value)
  }

  lemma SlashIsNotBlank(v: string)
    requires "/" <= v
    ensures !Blank(v)
  {
    TrimKeepsHead(v);
  }

  lemma PathFaultAgainIff(env: Env, m: PathMatch)
    requires PathFault(env, m).None? && StoredMatch(m)
    ensures PathFault(env, NormalizeMatch(m)).None? <==> (m.kind == "prefix" ==> NormalizePrefix(m.value) != "")
  {
    AlreadyTrimmed(m.kind);
    assert ToLower(m.kind) == m.kind;
    if m.kind == "prefix" {
      NormalizedPrefixHead(m.value);
    } else {
      TrimTwice(m.value);
    }
  }

  lemma NormalizedPrefixHead(v: string)
    ensures NormalizePrefix(v) != "" ==> "/" <= NormalizePrefix(v) && !Blank(NormalizePrefix(v))
  {
    TrimRightShape(NormalizeExact(v), '/');
    if NormalizePrefix(v) != "" {
      SlashIsNotBlank(NormalizePrefix(v));
    }
  }

  lemma OtherFaultAgainIff(a: Action)
    requires OtherFault(a).None?
    ensures OtherFault(NormalizeAction(a)).None? <==> RestorableAction(a)
  {
    if a.pathRewrite.Some? {
      NormalizedPrefixHead(a.pathRewrite.value);
    }
  }

  lemma UpstreamFaultAgain(env: Env, p: Config, q: Config, a: Action)
    requires q.upstreams == p.upstreams && HasLegacy(q) && UpstreamFault(env, p, a).None?
    ensures UpstreamFault(env, q, NormalizeAction(a)).None?
  {
    TrimTwice(a.upstream);
  }

  lemma CanaryFaultAgain(env: Env, p: Config, q: Config, a: Action)
    requires q.upstreams == p.upstreams && CanaryFault(env, p, a).None?
    ensures CanaryFault(env, q, NormalizeAction(a)).None?
  {
    TrimTwice(a.upstream);
    TrimTwice(a.canary);
  }

  lemma ActionFaultAgainIff(env: Env, p: Config, q: Config, a: Action)
    requires q.upstreams == p.upstreams && HasLegacy(q) && ActionFault(env, p, a).None?
    ensures ActionFault(env, q, NormalizeAction(a)).None? <==> RestorableAction(a)
  {
    UpstreamFaultAgain(env, p, q, a);
    CanaryFaultAgain(env, p, q, a);
    OtherFaultAgainIff(a);
  }

  lemma NoRouteFaultIff(env: Env, cfg: Config, r: Route)
    ensures RouteFault(env, cfg, r).None? <==>
            MatchFault(env, r).None? && ActionFault(env, cfg, r.action).None? && RewriteFault(r).None?
  {
  }

  lemma MatchFaultAgainIff(env: Env, r: Route, i: nat)
    requires MatchFault(env, r).None? && (r.path.Some? ==> StoredMatch(r.path.value))
    ensures MatchFault(env, NormalizeRoute(r, i)).None? <==>
            (forall h :: h in r.hosts ==> NormalizeHost(h) != "*.") &&
            (r.path.Some? && r.path.value.kind == "prefix" ==> NormalizePrefix(r.path.value.value) != "")
  {
    HostsStayValidIff(r.hosts);
    if r.path.Some? {
      PathFaultAgainIff(env, r.path.value);
    }
  }

  lemma RewriteFaultAgain(r: Route, i: nat)
    requires RewriteFault(r).None? && (r.path.Some? ==> StoredMatch(r.path.value))
    ensures RewriteFault(NormalizeRoute(r, i)).None?
  {
    if r.path.Some? {
      AlreadyTrimmed(r.path.value.kind);
      assert ToLower(r.path.value.kind) == r.path.value.kind;
    }
  }

  lemma RouteFaultAgainIff(env: Env, p: Config, q: Config, r: Route, i: nat)
    requires q.upstreams == p.upstreams && HasLegacy(p) && HasLegacy(q) && RouteFault(env, p, r).None?
    requires r.path.Some? ==> StoredMatch(r.path.value)
    ensures RouteFault(env, q, NormalizeRoute(r, i)).None? <==> RestorableRoute(r)
  {
    var n := NormalizeRoute(r, i);
    NoRouteFaultIff(env, p, r);
    NoRouteFaultIff(env, q, n);
    MatchFaultAgainIff(env, r, i);
    ActionFaultAgainIff(env, p, q, r.action);
    RewriteFaultAgain(r, i);
  }

  lemma PreparedMatchIsStored(env: Env, m: PathMatch)
    requires PathFault(env, NormalizeMatch(m)).None?
    ensures StoredMatch(NormalizeMatch(m))
  {
    TrimTwice(m.value);
    ExactIsTrimmed(m.value);
  }

  lemma ExactIsTrimmed(v: string)
    ensures Trim(NormalizeExact(v)) == NormalizeExact(v)
  {
    AlreadyTrimmed(NormalizeExact(v));
  }

  lemma RouteAgainIff(env: Env, cfg: Config, p: Config, q: Config, i: nat)
    requires p.routes == NormalizeRoutes(cfg.routes) && q.routes == NormalizeRoutes(p.routes) && i < |p.routes|
    requires q.upstreams == p.upstreams && HasLegacy(p) && HasLegacy(q) && RoutesOk(env, p)
    ensures RouteFault(env, q, q.routes[i]).None? <==> RestorableRoute(p.routes[i])
  {
    var r := p.routes[i];
    assert r in p.routes;
    NoRouteFaultIff(env, p, r);
    if r.path.Some? {
      PreparedMatchIsStored(env, cfg.routes[i].path.value);
    }
    RouteFaultAgainIff(env, p, q, r, i);
  }

  /** What a second normalization makes of a prepared configuration, route by route. */
  lemma RoutesOkAgainIff(env: Env, cfg: Config)
    requires Reparses(env) && Prepared(env, cfg).Some?
    ensures RoutesOk(env, Normalize(Prepared(env, cfg).value)) <==> Restorable(Prepared(env, cfg).value)
  {
    var p := Prepared(env, cfg).value;
    var q := Normalize(p);
    PreparedIsChecked(env, cfg);
    CheckedHasLegacy(env, Normalize(cfg), p);
    CheckedRoutesOk(env, Normalize(cfg), p);
    PreparedUrlIsTrimmed(env, cfg);
    UpstreamsAreFixed(cfg.upstreams);
    assert q.upstreams == p.upstreams && q.upstreamURL == p.upstreamURL;
    forall i | 0 <= i < |p.routes| ensures RouteFault(env, q, q.routes[i]).None? <==> RestorableRoute(p.routes[i]) {
      RouteAgainIff(env, cfg, p, q, i);
    }
    if DefaultOn(p) {
      ActionFaultAgainIff(env, p, q, p.default.value.action);
    }
    EveryRouteIff(env, q, p.routes);
  }

  lemma EveryRouteIff(env: Env, q: Config, routes: seq<Route>)
    requires |q.routes| == |routes|
    requires forall i :: 0 <= i < |routes| ==> (RouteFault(env, q, q.routes[i]).None? <==> RestorableRoute(routes[i]))
    ensures (forall r :: r in q.routes ==> RouteFault(env, q, r).None?) <==> forall r :: r in routes ==> RestorableRoute(r)
  {
    if forall r :: r in q.routes ==> RouteFault(env, q, r).None? {
      forall r | r in routes ensures RestorableRoute(r) {
        var i :| 0 <= i < |routes| && routes[i] == r;
        assert q.routes[i] in q.routes;
      }
    }
    if forall r :: r in routes ==> RestorableRoute(r) {
      forall r | r in q.routes ensures RouteFault(env, q, r).None? {
        var i :| 0 <= i < |q.routes| && q.routes[i] == r;
        assert routes[i] in routes;
      }
    }
  }

  lemma AnEnabledOneIsPrimary(env: Env, cfg: Config)
    requires cfg.upstreams != [] && !NoneEnabled(cfg.upstreams)
    ensures PrimaryTarget(env, cfg).Some? <==> forall u :: u in cfg.upstreams ==> UpstreamOk(env, u)
  {
    var first := FirstEnabled(cfg.upstreams);
    var i :| 0 <= i < |cfg.upstreams| && cfg.upstreams[i].enabled;
    assert first < |cfg.upstreams| && cfg.upstreams[first] in cfg.upstreams;
  }

  lemma PrimaryTargetAgain(env: Env, cfg: Config)
    requires Reparses(env) && Prepared(env, cfg).Some?
    ensures PrimaryTarget(env, Normalize(Prepared(env, cfg).value)).Some?
  {
    var n, p := Normalize(cfg), Prepared(env, cfg).value;
    PreparedIsChecked(env, cfg);
    CheckedHasLegacy(env, n, p);
    PreparedUrlIsTrimmed(env, cfg);
    UpstreamsAreFixed(cfg.upstreams);
    if p.upstreams != [] {
      AnEnabledOneIsPrimary(env, n);
      AnEnabledOneIsPrimary(env, Normalize(p));
    }
  }

  /** A prepared configuration can be prepared again if and only if normalization leaves something
      of each of its prefixes, and more than a bare wildcard of each of its hosts. */
  lemma PreparesAgainIff(env: Env, cfg: Config)
    requires Reparses(env) && Prepared(env, cfg).Some?
    ensures Prepared(env, Prepared(env, cfg).value).Some? <==> Restorable(Prepared(env, cfg).value)
  {
    RoutesOkAgainIff(env, cfg);
    PrimaryTargetAgain(env, cfg);
  }

  // ----- Two configurations that a second preparation changes ------------------------

  const PLAIN := Action("http://a", "", 0, true, None, false, true)

  /** One route for one prefix. */
  function PrefixConfig(v: string): Config {
    Config("http://a", [], [Route("r", true, 0, [], Some(PathMatch("prefix", v)), PLAIN)], None)
  }

  /** One route for one host. */
  function HostConfig(h: string): Config {
    Config("http://a", [], [Route("r", true, 0, [h], None, PLAIN)], None)
  }

  lemma PlainIsNormal()
    ensures Trim("http://a") == "http://a" && Trim("r") == "r" && NormalizeAction(PLAIN) == PLAIN
  {
    AlreadyTrimmed("http://a");
    AlreadyTrimmed("r");
    AlreadyTrimmed("");
  }

  lemma PlainIsOk(env: Env, cfg: Config)
    requires env.parse("http://a").Some?
    ensures ActionFault(env, cfg, PLAIN).None?
  {
    PlainIsNormal();
  }

  lemma PrefixConfigNormalized(v: string)
    ensures Normalize(PrefixConfig(v)) == PrefixConfig(NormalizePrefix(v))
  {
    PlainIsNormal();
    AlreadyTrimmed("prefix");
    assert ToLower("prefix") == "prefix";
    var r := PrefixConfig(v).routes[0];
    assert NormalizeRoute(r, 0) == PrefixConfig(NormalizePrefix(v)).routes[0];
  }

  lemma PrefixConfigPrepared(env: Env, v: string)
    requires env.parse("http://a") == Some("http://a") && "/" <= NormalizePrefix(v)
    ensures Prepared(env, PrefixConfig(v)) == Some(PrefixConfig(NormalizePrefix(v)))
  {
    var n := PrefixConfig(NormalizePrefix(v));
    PrefixConfigNormalized(v);
    PlainIsNormal();
    PlainIsOk(env, n);
    SlashIsNotBlank(NormalizePrefix(v));
    assert RouteFault(env, n, n.routes[0]).None?;
  }

  /** A prefix route that is prepared to one value and then to another. */
  lemma SpacedPrefixChangesAgain(env: Env)
    requires env.parse("http://a") == Some("http://a")
    ensures Prepared(env, PrefixConfig("/a /")) == Some(PrefixConfig("/a "))
    ensures Prepared(env, PrefixConfig("/a ")) == Some(PrefixConfig("/a"))
  {
    UnstablePrefixes();
    PrefixConfigPrepared(env, "/a /");
    PrefixConfigPrepared(env, "/a ");
  }

  lemma PlainPrefixPrepares(env: Env)
    requires env.parse("http://a") == Some("http://a")
    ensures Prepared(env, PrefixConfig("/a")) == Some(PrefixConfig("/a"))
  {
    NormalizedIsFixed("/a");
    PrefixConfigPrepared(env, "/a");
  }

  lemma HostConfigNormalized(h: string)
    requires NormalizeHost(h) != ""
    ensures Normalize(HostConfig(h)) == HostConfig(NormalizeHost(h))
  {
    PlainIsNormal();
    assert [h][..0] == [] && NormalizeHosts([]) == [];
    assert NormalizeHosts([h]) == [NormalizeHost(h)];
    var r := HostConfig(h).routes[0];
    assert NormalizeRoute(r, 0) == HostConfig(NormalizeHost(h)).routes[0];
  }

  lemma HostConfigPrepared(env: Env, h: string)
    requires env.parse("http://a") == Some("http://a") && NormalizeHost(h) != ""
    ensures Prepared(env, HostConfig(h)) ==
            if HostOk(NormalizeHost(h)) then Some(HostConfig(NormalizeHost(h))) else None
  {
    var n := HostConfig(NormalizeHost(h));
    HostConfigNormalized(h);
    PlainIsNormal();
    PlainIsOk(env, n);
    HostConfigOkIff(env, NormalizeHost(h));
  }

  lemma HostConfigOkIff(env: Env, h: string)
    requires ActionFault(env, HostConfig(h), PLAIN).None? && Trim("http://a") == "http://a"
    ensures RoutesOk(env, HostConfig(h)) <==> HostOk(h)
  {
    var n := HostConfig(h);
    var r := n.routes[0];
    assert r in n.routes && h in r.hosts;
    assert MatchFault(env, r).None? <==> HostOk(h);
    NoRouteFaultIff(env, n, r);
  }

  lemma BareWildcardIsNotOk()
    ensures HostOk("*..") && !HostOk("*.")
  {
    assert "*.." == "*." + "." && "*.."[1..] == "..";
  }

  /** A host that is prepared to one that is no longer accepted. */
  lemma DottedHostFailsAgain(env: Env)
    requires env.parse("http://a") == Some("http://a")
    ensures Prepared(env, HostConfig("*...")) == Some(HostConfig("*.."))
    ensures Prepared(env, HostConfig("*..")) == None
  {
    UnstableHosts();
    BareWildcardIsNotOk();
    HostConfigPrepared(env, "*...");
    HostConfigPrepared(env, "*..");
  }
}
