/** scripts/check-edge-jwt-payload-unforgeable.py against a step model of Envoy's jwt_authn filter.

    The guard reads a configuration. The model runs requests through it: a verifier strips and writes headers as the
    guard's own description of Envoy v1.34 says, ext_authz and the upstream see what is left. */
module JwtEdge {
  import opened Prelude

  const TRUSTED := "x-jwt-payload"

  // ----------------------------------------------------------- configuration

  /** One requirement. The empty one is Envoy's AllowAllVerifier. */
  datatype Requirement =
    | AllowAll
    | Provider(name: string)
    | AllowMissing
    | AllowMissingOrFailed
    | RequiresAny(inner: seq<Requirement>)
    | RequiresAll(inner: seq<Requirement>)

  datatype Match = Prefix(prefix: string) | Exact(path: string) | OtherMatch(id: nat)

  datatype JwtRule = JwtRule(on: Match, requirement: Requirement)

  /** `providers` gives each provider's forward_payload_header, "" when it has none. */
  datatype JwtConfig = JwtConfig(providers: map<string, string>, rules: seq<JwtRule>, requirementMap: bool, filterStateRules: bool)

  datatype Filter = Jwt(cfg: JwtConfig) | ExtAuthz | OtherFilter

  /** A per-route jwt_authn configuration: the filter is off, or another requirement takes the rules' place. */
  datatype Override = Skip | Instead(requirement: Requirement)

  /** `answers` is a direct_response or a redirect, `forwards` a route to a cluster. `authzOff` is the `disabled` of a
      typed_per_filter_config for ext_authz, None when the scope has none. */
  datatype Route = Route(answers: bool, forwards: bool, jwt: Option<Override>, authzOff: Option<bool>)
  datatype Host = Host(routes: seq<Route>, jwt: Option<Override>, authzOff: Option<bool>)
  datatype Manager = Manager(filters: seq<Filter>, hosts: seq<Host>)

  // ------------------------------------------------------------------ running

  /** Who wrote a header: the client, or a verifier after it checked a token of this provider. */
  datatype Origin = FromClient | FromVerifier(provider: string)
  type Headers = map<string, Origin>

  datatype Presented = NoToken | BadToken | GoodToken(provider: string)

  /** All that a request's tokens and the modelled-elsewhere matchers decide. */
  datatype World = World(good: set<string>, any: Presented, matches: set<(nat, string)>)

  function Forwarded(cfg: JwtConfig, p: string): string
    requires p in cfg.providers
  {
    Lower(cfg.providers[p])
  }

  function Written(cfg: JwtConfig, h: Headers, p: string): Headers {
    if p in cfg.providers && cfg.providers[p] != "" then h[Forwarded(cfg, p) := FromVerifier(p)] else h
  }

  function AllForwarded(cfg: JwtConfig): set<string> {
    set p | p in cfg.providers :: Forwarded(cfg, p)
  }

  datatype Verdict = Verdict(ok: bool, headers: Headers)

  /** A verifier: sanitize first, then judge the token. A provider that does not resolve is a configuration Envoy does
      not load, so nothing passes it. */
  function Verify(cfg: JwtConfig, req: Requirement, w: World, h: Headers): Verdict {
    match req
    case AllowAll => Verdict(true, h)
    case Provider(p) =>
      if p !in cfg.providers then Verdict(false, h) else
        var clean := h - {Forwarded(cfg, p)};
        if p in w.good then Verdict(true, Written(cfg, clean, p)) else Verdict(false, clean)
    case AllowMissing =>
      var clean := h - AllForwarded(cfg);
      (match w.any
       case NoToken => Verdict(true, clean)
       case BadToken => Verdict(false, clean)
       case GoodToken(p) => Verdict(true, Written(cfg, clean, p)))
    case AllowMissingOrFailed =>
      var clean := h - AllForwarded(cfg);
      Verdict(true, if w.any.GoodToken? then Written(cfg, clean, w.any.provider) else clean)
    case RequiresAny(inner) => VerifyAny(cfg, inner, w, h)
    case RequiresAll(inner) => VerifyAll(cfg, inner, w, h)
  }

  function VerifyAny(cfg: JwtConfig, reqs: seq<Requirement>, w: World, h: Headers): Verdict {
    if reqs == [] then Verdict(false, h) else
      var v := Verify(cfg, reqs[0], w, h);
      if v.ok then v else VerifyAny(cfg, reqs[1..], w, v.headers)
  }

  function VerifyAll(cfg: JwtConfig, reqs: seq<Requirement>, w: World, h: Headers): Verdict {
    if reqs == [] then Verdict(true, h) else
      var v := Verify(cfg, reqs[0], w, h);
      if v.ok then VerifyAll(cfg, reqs[1..], w, v.headers) else v
  }

  predicate Matches(m: Match, path: string, w: World) {
    match m
    case Prefix(p) => p <= path
    case Exact(p) => p == path
    case OtherMatch(id) => (id, path) in w.matches
  }

  /** The first rule that matches; a path no rule matches meets no verifier. */
  function ByRules(cfg: JwtConfig, rules: seq<JwtRule>, path: string, w: World, h: Headers): Verdict {
    if rules == [] then Verdict(true, h)
    else if Matches(rules[0].on, path, w) then Verify(cfg, rules[0].requirement, w, h)
    else ByRules(cfg, rules[1..], path, w, h)
  }

  lemma {:induction false} FirstRuleDecides(cfg: JwtConfig, rules: seq<JwtRule>, k: nat, path: string, w: World, h: Headers)
    requires k <= |rules| && forall j :: 0 <= j < k ==> !Matches(rules[j].on, path, w)
    requires k < |rules| ==> Matches(rules[k].on, path, w)
    ensures ByRules(cfg, rules, path, w, h)
              == if k < |rules| then Verify(cfg, rules[k].requirement, w, h) else Verdict(true, h)
  {
    if k > 0 {
      FirstRuleDecides(cfg, rules[1..], k - 1, path, w, h);
    }
  }

  function JwtStep(cfg: JwtConfig, over: Option<Override>, path: string, w: World, h: Headers): Verdict {
    if over.None? then ByRules(cfg, cfg.rules, path, w, h)
    else if over.value.Skip? then Verdict(true, h)
    else Verify(cfg, over.value.requirement, w, h)
  }

  /** What the chosen route sets for this request: the route's own configuration wins over its virtual host's. */
  datatype Scope = Scope(jwt: Option<Override>, authzOff: bool, forwards: bool)

  function ScopeOf(host: Host, r: Route): Scope {
    Scope(if r.jwt.Some? then r.jwt else host.jwt,
          (if r.authzOff.Some? then r.authzOff else host.authzOff) == Some(true),
          r.forwards)
  }

  const NO_ROUTE := Scope(None, false, false)

  datatype Event = AtExtAuthz(seen: Option<Origin>) | AtUpstream(seen: Option<Origin>)

  function SeenIn(h: Headers): Option<Origin> {
    if TRUSTED in h then Some(h[TRUSTED]) else None
  }

  /** The filter chain, then the router: everything that looks at the headers, in order. */
  function Run(filters: seq<Filter>, s: Scope, path: string, w: World, h: Headers): seq<Event> {
    if filters == [] then if s.forwards then [AtUpstream(SeenIn(h))] else []
    else match filters[0]
      case Jwt(cfg) =>
        var v := JwtStep(cfg, s.jwt, path, w, h);
        if v.ok then Run(filters[1..], s, path, w, v.headers) else []
      case ExtAuthz =>
        (if s.authzOff then [] else [AtExtAuthz(SeenIn(h))]) + Run(filters[1..], s, path, w, h)
      case OtherFilter => Run(filters[1..], s, path, w, h)
  }

  ghost predicate IsScope(m: Manager, s: Scope) {
    s == NO_ROUTE || exists host, r :: host in m.hosts && r in host.routes && s == ScopeOf(host, r)
  }

  /** No observer of any request ever sees the trusted header as a client wrote it. */
  ghost predicate Unforgeable(m: Manager) {
    forall s, path, w, h, e ::
      IsScope(m, s) && "/" <= path && e in Run(m.filters, s, path, w, h) ==> e.seen != Some(FromClient)
  }

  // -------------------------------------------------------------------- audit

  datatype Finding =
    | EmptyRequirement(rule: nat, at: seq<nat>)
    | EmptyGroup(rule: nat, at: seq<nat>)
    | NoJwtBefore | NoProviders | ForwardsElsewhere(provider: string) | UsesMap | UsesFilterState
    | NoRules | LastRuleIsNotAll | HostOverrides(host: nat) | RouteOverrides(host: nat, route: nat)

  /** An empty requirement, or a group with no members, at any depth. */
  function RequirementFindings(req: Requirement, rule: nat, at: seq<nat>): seq<Finding> {
    match req
    case AllowAll => [EmptyRequirement(rule, at)]
    case RequiresAny(inner) =>
      (if inner == [] then [EmptyGroup(rule, at)] else []) + GroupFindings(inner, rule, at, 0)
    case RequiresAll(inner) =>
      (if inner == [] then [EmptyGroup(rule, at)] else []) + GroupFindings(inner, rule, at, 0)
    case _ => []
  }

  function GroupFindings(reqs: seq<Requirement>, rule: nat, at: seq<nat>, i: nat): seq<Finding> {
    if reqs == [] then [] else
      RequirementFindings(reqs[0], rule, at + [i]) + GroupFindings(reqs[1..], rule, at, i + 1)
  }

  /** What stands in a requirement at a path of places, each in the group before it. */
  function PartAt(req: Requirement, path: seq<nat>): Option<Requirement> {
    if path == [] then Some(req)
    else match req
      case RequiresAny(inner) => if path[0] < |inner| then PartAt(inner[path[0]], path[1..]) else None
      case RequiresAll(inner) => if path[0] < |inner| then PartAt(inner[path[0]], path[1..]) else None
      case _ => None
  }

  /** An empty requirement, or a group without members. */
  predicate IsEmpty(part: Option<Requirement>) {
    part == Some(AllowAll) || part == Some(RequiresAny([])) || part == Some(RequiresAll([]))
  }

  /** The finding for what is empty at this path, if it is. */
  predicate EmptyAt(req: Requirement, path: seq<nat>, rule: nat, at: seq<nat>, f: Finding) {
    IsEmpty(PartAt(req, path))
    && f == if PartAt(req, path) == Some(AllowAll) then EmptyRequirement(rule, at + path) else EmptyGroup(rule, at + path)
  }

  predicate EmptyIn(reqs: seq<Requirement>, k: nat, path: seq<nat>, rule: nat, at: seq<nat>, i: nat, f: Finding) {
    k < |reqs| && EmptyAt(reqs[k], path, rule, at + [i + k], f)
  }

  /** No part of the requirement, however deep, is empty. */
  ghost predicate NoEmptyPart(req: Requirement) {
    forall path :: !IsEmpty(PartAt(req, path))
  }

  lemma EmptyInside(req: Requirement, path: seq<nat>, rule: nat, at: seq<nat>, f: Finding)
    requires (req.RequiresAny? || req.RequiresAll?) && path != []
    ensures EmptyAt(req, path, rule, at, f) <==> EmptyIn(req.inner, path[0], path[1..], rule, at, 0, f)
  {
    assert at + path == at + [path[0]] + path[1..];
  }

  lemma InsideIff(req: Requirement, rule: nat, at: seq<nat>, f: Finding)
    requires req.RequiresAny? || req.RequiresAll?
    ensures (exists path :: EmptyAt(req, path, rule, at, f)) <==>
        EmptyAt(req, [], rule, at, f) || exists k: nat, path :: EmptyIn(req.inner, k, path, rule, at, 0, f)
  {
    hide EmptyAt, EmptyIn;
    if path :| EmptyAt(req, path, rule, at, f) {
      if path != [] {
        EmptyInside(req, path, rule, at, f);
      }
    }
    if k: nat, path :| EmptyIn(req.inner, k, path, rule, at, 0, f) {
      assert ([k] + path)[1..] == path;
      EmptyInside(req, [k] + path, rule, at, f);
    }
  }

  lemma EmptyHere(req: Requirement, rule: nat, at: seq<nat>, f: Finding)
    ensures EmptyAt(req, [], rule, at, f) <==>
        || (req == AllowAll && f == EmptyRequirement(rule, at))
        || ((req == RequiresAny([]) || req == RequiresAll([])) && f == EmptyGroup(rule, at))
  {
    assert at + [] == at;
  }

  /** What is found is what is empty, each where it stands. */
  lemma {:induction false} FindingsAre(req: Requirement, rule: nat, at: seq<nat>, f: Finding)
    ensures f in RequirementFindings(req, rule, at) <==> exists path :: EmptyAt(req, path, rule, at, f)
    decreases req
  {
    EmptyHere(req, rule, at, f);
    if req.RequiresAny? || req.RequiresAll? {
      GroupFindingsAre(req.inner, rule, at, 0, f);
      InsideIff(req, rule, at, f);
      hide GroupFindings, EmptyIn, EmptyAt;
    }
  }

  lemma EmptyBehind(reqs: seq<Requirement>, k: nat, path: seq<nat>, rule: nat, at: seq<nat>, i: nat, f: Finding)
    requires reqs != []
    ensures EmptyIn(reqs, k + 1, path, rule, at, i, f) <==> EmptyIn(reqs[1..], k, path, rule, at, i + 1, f)
  {
    assert i + (k + 1) == i + 1 + k;
  }

  lemma {:induction false} GroupFindingsAre(reqs: seq<Requirement>, rule: nat, at: seq<nat>, i: nat, f: Finding)
    ensures f in GroupFindings(reqs, rule, at, i) <==> exists k: nat, path :: EmptyIn(reqs, k, path, rule, at, i, f)
    decreases reqs
  {
    if reqs != [] {
      FindingsAre(reqs[0], rule, at + [i], f);
      GroupFindingsAre(reqs[1..], rule, at, i + 1, f);
      hide RequirementFindings, EmptyAt;
      assert i + 0 == i;
      var rest, next := reqs[1..], i + 1;
      if path :| EmptyAt(reqs[0], path, rule, at + [i], f) {
        assert EmptyIn(reqs, 0, path, rule, at, i, f);
      }
      if k: nat, path :| EmptyIn(rest, k, path, rule, at, next, f) {
        EmptyBehind(reqs, k, path, rule, at, i, f);
      }
      if k: nat, path :| EmptyIn(reqs, k, path, rule, at, i, f) {
        if k == 0 {
          assert EmptyAt(reqs[0], path, rule, at + [i], f);
        } else {
          EmptyBehind(reqs, k - 1, path, rule, at, i, f);
        }
      }
    }
  }

  /** So nothing is found exactly when nothing is empty. */
  lemma NoFindingsIff(req: Requirement, rule: nat, at: seq<nat>)
    ensures RequirementFindings(req, rule, at) == [] <==> NoEmptyPart(req)
  {
    hide PartAt, RequirementFindings, IsEmpty;
    var found := RequirementFindings(req, rule, at);
    forall f
      ensures f in found <==> exists path :: EmptyAt(req, path, rule, at, f)
    {
      FindingsAre(req, rule, at, f);
    }
    if found != [] {
      assert found[0] in found;
    }
    if path :| IsEmpty(PartAt(req, path)) {
      var f := if PartAt(req, path) == Some(AllowAll) then EmptyRequirement(rule, at + path) else EmptyGroup(rule, at + path);
      assert EmptyAt(req, path, rule, at, f);
      assert f in found;
    }
  }

  /** True when the scope turns ext_authz off and every route of it answers locally. */
  predicate Sealed(authzOff: Option<bool>, routes: seq<Route>) {
    authzOff == Some(true) && routes != [] && forall r :: r in routes ==> r.answers && !r.forwards
  }

  function IndexOfJwt(filters: seq<Filter>): (i: nat)
    ensures i <= |filters| && (i < |filters| ==> filters[i].Jwt?) && forall k :: 0 <= k < i ==> !filters[k].Jwt?
  {
    if filters == [] || filters[0].Jwt? then 0 else 1 + IndexOfJwt(filters[1..])
  }

  function IndexOfAuthz(filters: seq<Filter>): (i: nat)
    ensures i <= |filters| && (i < |filters| ==> filters[i].ExtAuthz?) && forall k :: 0 <= k < i ==> !filters[k].ExtAuthz?
  {
    if filters == [] || filters[0].ExtAuthz? then 0 else 1 + IndexOfAuthz(filters[1..])
  }

  ghost predicate RulesClean(cfg: JwtConfig) {
    && cfg.rules != []
    && (forall r :: r in cfg.rules ==> NoEmptyPart(r.requirement))
    && cfg.rules[|cfg.rules| - 1].on == Prefix("/")
  }

  ghost predicate ProvidersClean(cfg: JwtConfig) {
    cfg.providers != map[] && forall p :: p in cfg.providers ==> Forwarded(cfg, p) == TRUSTED
  }

  ghost predicate OverridesClean(hosts: seq<Host>) {
    forall host :: host in hosts ==>
      && (host.jwt.Some? ==> Sealed(host.authzOff, host.routes))
      && forall r :: r in host.routes && r.jwt.Some? ==> Sealed(r.authzOff, [r])
  }

  /** The audit finds nothing in a manager that runs ext_authz. */
  ghost predicate Clean(m: Manager) {
    var j, a := IndexOfJwt(m.filters), IndexOfAuthz(m.filters);
    && j < a < |m.filters|
    && ProvidersClean(m.filters[j].cfg) && RulesClean(m.filters[j].cfg)
    && !m.filters[j].cfg.requirementMap && !m.filters[j].cfg.filterStateRules
    && OverridesClean(m.hosts)
  }

  // ---------------------------------------------------------------- findings

  ghost predicate RuleFinding(cfg: JwtConfig, f: Finding) {
    match f
    case NoRules => cfg.rules == []
    case EmptyRequirement(i, at) => i < |cfg.rules| && PartAt(cfg.rules[i].requirement, at) == Some(AllowAll)
    case EmptyGroup(i, at) =>
      i < |cfg.rules|
      && IsEmpty(PartAt(cfg.rules[i].requirement, at)) && PartAt(cfg.rules[i].requirement, at) != Some(AllowAll)
    case LastRuleIsNotAll => cfg.rules != [] && cfg.rules[|cfg.rules| - 1].on != Prefix("/")
    case _ => false
  }

  ghost predicate ProviderFinding(cfg: JwtConfig, f: Finding) {
    match f
    case NoProviders => cfg.providers == map[]
    case ForwardsElsewhere(p) => p in cfg.providers && Forwarded(cfg, p) != TRUSTED
    case _ => false
  }

  ghost predicate HostFinding(hosts: seq<Host>, f: Finding) {
    match f
    case HostOverrides(n) => n < |hosts| && hosts[n].jwt.Some? && !Sealed(hosts[n].authzOff, hosts[n].routes)
    case RouteOverrides(n, i) =>
      n < |hosts| && i < |hosts[n].routes|
      && var r := hosts[n].routes[i]; r.jwt.Some? && !Sealed(r.authzOff, [r])
    case _ => false
  }

  /** What there is to say about a manager that runs ext_authz. */
  ghost predicate ManagerFinding(m: Manager, f: Finding) {
    var j, a := IndexOfJwt(m.filters), IndexOfAuthz(m.filters);
    && a < |m.filters|
    && if j >= a then f == NoJwtBefore else
         var cfg := m.filters[j].cfg;
         || ProviderFinding(cfg, f) || RuleFinding(cfg, f) || HostFinding(m.hosts, f)
         || (f == UsesMap && cfg.requirementMap) || (f == UsesFilterState && cfg.filterStateRules)
  }

  lemma RulesCleanIff(cfg: JwtConfig)
    ensures RulesClean(cfg) <==> forall f :: !RuleFinding(cfg, f)
  {
    hide PartAt;
    if !RulesClean(cfg) {
      if cfg.rules == [] {
        assert RuleFinding(cfg, NoRules);
      } else if cfg.rules[|cfg.rules| - 1].on != Prefix("/") {
        assert RuleFinding(cfg, LastRuleIsNotAll);
      } else {
        var i, at :| 0 <= i < |cfg.rules| && IsEmpty(PartAt(cfg.rules[i].requirement, at));
        if PartAt(cfg.rules[i].requirement, at) == Some(AllowAll) {
          assert RuleFinding(cfg, EmptyRequirement(i, at));
        } else {
          assert RuleFinding(cfg, EmptyGroup(i, at));
        }
      }
    }
  }

  lemma OverridesCleanIff(hosts: seq<Host>)
    ensures OverridesClean(hosts) <==> forall f :: !HostFinding(hosts, f)
  {
    hide Sealed;
    if host :| host in hosts && host.jwt.Some? && !Sealed(host.authzOff, host.routes) {
      var n :| 0 <= n < |hosts| && hosts[n] == host;
      assert HostFinding(hosts, HostOverrides(n));
    }
    if host, r :| host in hosts && r in host.routes && r.jwt.Some? && !Sealed(r.authzOff, [r]) {
      var n :| 0 <= n < |hosts| && hosts[n] == host;
      var i :| 0 <= i < |host.routes| && host.routes[i] == r;
      assert HostFinding(hosts, RouteOverrides(n, i));
    }
  }

  lemma ProvidersCleanIff(cfg: JwtConfig)
    ensures ProvidersClean(cfg) <==> forall f :: !ProviderFinding(cfg, f)
  {
    hide Forwarded;
    if !ProvidersClean(cfg) {
      if cfg.providers == map[] {
        assert ProviderFinding(cfg, NoProviders);
      } else {
        var p :| p in cfg.providers && Forwarded(cfg, p) != TRUSTED;
        assert ProviderFinding(cfg, ForwardsElsewhere(p));
      }
    }
  }

  /** There is nothing to say exactly when the manager is clean. */
  lemma CleanIff(m: Manager)
    requires ExtAuthz in m.filters
    ensures Clean(m) <==> forall f :: !ManagerFinding(m, f)
  {
    hide ProvidersClean, RulesClean, OverridesClean, ProviderFinding, RuleFinding, HostFinding;
    var j, a := IndexOfJwt(m.filters), IndexOfAuthz(m.filters);
    if j >= a {
      assert ManagerFinding(m, NoJwtBefore);
    } else {
      var cfg := m.filters[j].cfg;
      ProvidersCleanIff(cfg);
      RulesCleanIff(cfg);
      OverridesCleanIff(m.hosts);
      assert cfg.requirementMap ==> ManagerFinding(m, UsesMap);
      assert cfg.filterStateRules ==> ManagerFinding(m, UsesFilterState);
      if f :| ProviderFinding(cfg, f) || RuleFinding(cfg, f) || HostFinding(m.hosts, f) {
        assert ManagerFinding(m, f);
      }
    }
  }

  /** The findings in the rules before the `n`-th. */
  ghost predicate RuleFindingUpTo(cfg: JwtConfig, n: nat, f: Finding) {
    && (f.EmptyRequirement? || f.EmptyGroup?) && f.rule < n && RuleFinding(cfg, f)
  }

  lemma OneRule(cfg: JwtConfig, i: nat, f: Finding)
    requires i < |cfg.rules|
    ensures f in RequirementFindings(cfg.rules[i].requirement, i, []) <==>
        (f.EmptyRequirement? || f.EmptyGroup?) && f.rule == i && RuleFinding(cfg, f)
  {
    hide PartAt, RequirementFindings;
    var req := cfg.rules[i].requirement;
    FindingsAre(req, i, [], f);
    if path :| EmptyAt(req, path, i, [], f) {
      assert [] + path == path;
    }
    if (f.EmptyRequirement? || f.EmptyGroup?) && f.rule == i && RuleFinding(cfg, f) {
      assert [] + f.at == f.at;
      assert EmptyAt(req, f.at, i, [], f);
    }
  }

  method AuditRules(cfg: JwtConfig) returns (bad: seq<Finding>)
    ensures forall f :: f in bad <==> RuleFinding(cfg, f)
    ensures bad == [] <==> RulesClean(cfg)
  {
    hide RequirementFindings, PartAt;
    RulesCleanIff(cfg);
    bad := if cfg.rules == [] then [NoRules] else [];
    for i := 0 to |cfg.rules|
      invariant forall f :: f in bad <==> (f == NoRules && cfg.rules == []) || RuleFindingUpTo(cfg, i, f)
    {
      forall f
        ensures f in RequirementFindings(cfg.rules[i].requirement, i, []) <==>
            (f.EmptyRequirement? || f.EmptyGroup?) && f.rule == i && RuleFinding(cfg, f)
      {
        OneRule(cfg, i, f);
      }
      bad := bad + RequirementFindings(cfg.rules[i].requirement, i, []);
    }
    if cfg.rules != [] && cfg.rules[|cfg.rules| - 1].on != Prefix("/") {
      bad := bad + [LastRuleIsNotAll];
    }
    NoneIsEmpty(bad);
  }

  lemma NoneIsEmpty(bad: seq<Finding>)
    ensures bad == [] <==> forall f :: f !in bad
  {
    if bad != [] {
      assert bad[0] in bad;
    }
  }

  method AuditProviders(cfg: JwtConfig) returns (bad: seq<Finding>)
    ensures forall f :: f in bad <==> ProviderFinding(cfg, f)
    ensures bad == [] <==> ProvidersClean(cfg)
  {
    hide Forwarded;
    ProvidersCleanIff(cfg);
    bad := if cfg.providers == map[] then [NoProviders] else [];
    var todo := cfg.providers.Keys;
    while todo != {}
      invariant todo <= cfg.providers.Keys
      invariant forall f :: f in bad <==> ProviderFinding(cfg, f) && !(f.ForwardsElsewhere? && f.provider in todo)
    {
      var p :| p in todo;
      todo := todo - {p};
      if Forwarded(cfg, p) != TRUSTED {
        bad := bad + [ForwardsElsewhere(p)];
      }
    }
    NoneIsEmpty(bad);
  }

  method AuditHost(host: Host, n: nat) returns (bad: seq<Finding>)
    ensures forall f :: f in bad <==> HostFindingAt(host, n, f)
  {
    hide Sealed;
    bad := if host.jwt.Some? && !Sealed(host.authzOff, host.routes) then [HostOverrides(n)] else [];
    for i := 0 to |host.routes|
      invariant forall f :: f in bad <==> HostFindingAt(host, n, f) && (f.RouteOverrides? ==> f.route < i)
    {
      var r := host.routes[i];
      if r.jwt.Some? && !Sealed(r.authzOff, [r]) {
        bad := bad + [RouteOverrides(n, i)];
      }
    }
  }

  /** What there is to say about the host that stands at `n`. */
  ghost predicate HostFindingAt(host: Host, n: nat, f: Finding) {
    match f
    case HostOverrides(k) => k == n && host.jwt.Some? && !Sealed(host.authzOff, host.routes)
    case RouteOverrides(k, i) =>
      k == n && i < |host.routes| && host.routes[i].jwt.Some? && !Sealed(host.routes[i].authzOff, [host.routes[i]])
    case _ => false
  }

  lemma HostsInTurn(hosts: seq<Host>, n: nat, f: Finding)
    requires n < |hosts|
    ensures HostFinding(hosts[..n + 1], f) <==> HostFinding(hosts[..n], f) || HostFindingAt(hosts[n], n, f)
  {
    hide Sealed;
    assert hosts[..n + 1] == hosts[..n] + [hosts[n]];
  }

  method AuditHosts(hosts: seq<Host>) returns (bad: seq<Finding>)
    ensures forall f :: f in bad <==> HostFinding(hosts, f)
  {
    hide HostFinding, HostFindingAt;
    bad := [];
    NoHosts();
    for n := 0 to |hosts|
      invariant forall f :: f in bad <==> HostFinding(hosts[..n], f)
    {
      forall f
        ensures HostFinding(hosts[..n + 1], f) <==> HostFinding(hosts[..n], f) || HostFindingAt(hosts[n], n, f)
      {
        HostsInTurn(hosts, n, f);
      }
      var here := AuditHost(hosts[n], n);
      bad := bad + here;
    }
    assert hosts[..|hosts|] == hosts;
  }

  lemma NoHosts()
    ensures forall f :: !HostFinding([], f)
  {
  }

  /** The audit of one connection manager; `guarded` when it runs ext_authz, otherwise it is not judged. */
  method AuditManager(m: Manager) returns (bad: seq<Finding>, guarded: bool)
    ensures guarded <==> ExtAuthz in m.filters
    ensures forall f :: f in bad <==> ManagerFinding(m, f)
    ensures guarded ==> (bad == [] <==> Clean(m))
  {
    hide ProviderFinding, RuleFinding, HostFinding, Clean;
    bad := [];
    var j, a := IndexOfJwt(m.filters), IndexOfAuthz(m.filters);
    guarded := a < |m.filters|;
    if !guarded {
      return;
    }
    CleanIff(m);
    if j == |m.filters| || j > a {
      bad := [NoJwtBefore];
    } else {
      var cfg := m.filters[j].cfg;
      var providers := AuditProviders(cfg);
      var rules := AuditRules(cfg);
      var hosts := AuditHosts(m.hosts);
      bad := providers + (if cfg.requirementMap then [UsesMap] else [])
             + (if cfg.filterStateRules then [UsesFilterState] else []) + rules + hosts;
    }
    NoneIsEmpty(bad);
  }

  // ------------------------------------------------------------------- safety

  predicate Safe(h: Headers) {
    SeenIn(h) != Some(FromClient)
  }

  /** No verifier ever turns a header into the client's. */
  lemma {:induction false} VerifyForgesNothing(cfg: JwtConfig, req: Requirement, w: World, h: Headers)
    ensures Safe(h) ==> Safe(Verify(cfg, req, w, h).headers)
  {
    match req {
      case RequiresAny(inner) => VerifyAnyForgesNothing(cfg, inner, w, h);
      case RequiresAll(inner) => VerifyAllForgesNothing(cfg, inner, w, h);
      case _ =>
    }
  }

  lemma {:induction false} VerifyAnyForgesNothing(cfg: JwtConfig, reqs: seq<Requirement>, w: World, h: Headers)
    ensures Safe(h) ==> Safe(VerifyAny(cfg, reqs, w, h).headers)
  {
    if reqs != [] {
      VerifyForgesNothing(cfg, reqs[0], w, h);
      VerifyAnyForgesNothing(cfg, reqs[1..], w, Verify(cfg, reqs[0], w, h).headers);
    }
  }

  lemma {:induction false} VerifyAllForgesNothing(cfg: JwtConfig, reqs: seq<Requirement>, w: World, h: Headers)
    ensures Safe(h) ==> Safe(VerifyAll(cfg, reqs, w, h).headers)
  {
    if reqs != [] {
      VerifyForgesNothing(cfg, reqs[0], w, h);
      VerifyAllForgesNothing(cfg, reqs[1..], w, Verify(cfg, reqs[0], w, h).headers);
    }
  }

  lemma PartsAreFull(req: Requirement)
    requires NoEmptyPart(req)
    ensures !IsEmpty(Some(req))
    ensures req.RequiresAny? || req.RequiresAll? ==> forall part :: part in req.inner ==> NoEmptyPart(part)
  {
    assert PartAt(req, []) == Some(req);
    if req.RequiresAny? || req.RequiresAll? {
      forall k: nat, path | k < |req.inner|
        ensures !IsEmpty(PartAt(req.inner[k], path))
      {
        assert PartAt(req, [k] + path) == PartAt(req.inner[k], ([k] + path)[1..]) && ([k] + path)[1..] == path;
      }
    }
  }

  /** A clean requirement, however it nests, lets no client header through. */
  lemma {:induction false} CleanRequirementStrips(cfg: JwtConfig, req: Requirement, w: World, h: Headers)
    requires ProvidersClean(cfg) && NoEmptyPart(req)
    ensures var v := Verify(cfg, req, w, h); v.ok ==> Safe(v.headers)
    decreases req, 1
  {
    PartsAreFull(req);
    match req {
      case AllowAll =>
      case Provider(p) =>
      case AllowMissing => AllForwardedIsTrusted(cfg);
      case AllowMissingOrFailed => AllForwardedIsTrusted(cfg);
      case RequiresAny(inner) => CleanAnyStrips(cfg, inner, w, h);
      case RequiresAll(inner) => CleanAllStrips(cfg, inner, w, h);
    }
  }

  lemma AllForwardedIsTrusted(cfg: JwtConfig)
    requires ProvidersClean(cfg)
    ensures AllForwarded(cfg) == {TRUSTED}
  {
    var p :| p in cfg.providers;
    assert Forwarded(cfg, p) in AllForwarded(cfg);
  }

  lemma {:induction false} CleanAnyStrips(cfg: JwtConfig, reqs: seq<Requirement>, w: World, h: Headers)
    requires ProvidersClean(cfg) && forall part :: part in reqs ==> NoEmptyPart(part)
    ensures var v := VerifyAny(cfg, reqs, w, h); v.ok ==> Safe(v.headers)
    decreases reqs, 0
  {
    if reqs != [] {
      CleanRequirementStrips(cfg, reqs[0], w, h);
      CleanAnyStrips(cfg, reqs[1..], w, Verify(cfg, reqs[0], w, h).headers);
    }
  }

  lemma {:induction false} CleanAllStrips(cfg: JwtConfig, reqs: seq<Requirement>, w: World, h: Headers)
    requires ProvidersClean(cfg) && reqs != [] && forall part :: part in reqs ==> NoEmptyPart(part)
    ensures var v := VerifyAll(cfg, reqs, w, h); v.ok ==> Safe(v.headers)
    decreases reqs, 0
  {
    CleanRequirementStrips(cfg, reqs[0], w, h);
    VerifyAllForgesNothing(cfg, reqs[1..], w, Verify(cfg, reqs[0], w, h).headers);
  }

  /** With "/" as the last match, every path meets a rule, and so a clean requirement. */
  lemma {:induction false} CleanRulesStrip(cfg: JwtConfig, rules: seq<JwtRule>, path: string, w: World, h: Headers)
    requires ProvidersClean(cfg) && "/" <= path && rules != [] && rules[|rules| - 1].on == Prefix("/")
    requires forall r :: r in rules ==> NoEmptyPart(r.requirement)
    ensures var v := ByRules(cfg, rules, path, w, h); v.ok ==> Safe(v.headers)
  {
    if Matches(rules[0].on, path, w) {
      assert rules[0] in rules;
      CleanRequirementStrips(cfg, rules[0].requirement, w, h);
    } else {
      assert |rules| > 1;
      CleanRulesStrip(cfg, rules[1..], path, w, h);
    }
  }

  lemma {:induction false} ByRulesForgesNothing(cfg: JwtConfig, rules: seq<JwtRule>, path: string, w: World, h: Headers)
    ensures Safe(h) ==> Safe(ByRules(cfg, rules, path, w, h).headers)
  {
    if rules != [] {
      VerifyForgesNothing(cfg, rules[0].requirement, w, h);
      ByRulesForgesNothing(cfg, rules[1..], path, w, h);
    }
  }

  lemma StepForgesNothing(cfg: JwtConfig, over: Option<Override>, path: string, w: World, h: Headers)
    ensures Safe(h) ==> Safe(JwtStep(cfg, over, path, w, h).headers)
  {
    ByRulesForgesNothing(cfg, cfg.rules, path, w, h);
    if over.Some? && over.value.Instead? {
      VerifyForgesNothing(cfg, over.value.requirement, w, h);
    }
  }

  /** Once the header is not the client's, no later filter or observer sees it as the client's. */
  lemma {:induction false} SafeStaysSafe(filters: seq<Filter>, s: Scope, path: string, w: World, h: Headers, e: Event)
    requires Safe(h) && e in Run(filters, s, path, w, h)
    ensures e.seen != Some(FromClient)
  {
    if filters != [] {
      match filters[0] {
        case Jwt(cfg) =>
          StepForgesNothing(cfg, s.jwt, path, w, h);
          SafeStaysSafe(filters[1..], s, path, w, JwtStep(cfg, s.jwt, path, w, h).headers, e);
        case ExtAuthz =>
          if e in Run(filters[1..], s, path, w, h) {
            SafeStaysSafe(filters[1..], s, path, w, h, e);
          }
        case OtherFilter => SafeStaysSafe(filters[1..], s, path, w, h, e);
      }
    }
  }

  /** With ext_authz off and no upstream, nothing observes the request at all. */
  lemma {:induction false} ClosedScopeShowsNothing(filters: seq<Filter>, s: Scope, path: string, w: World, h: Headers)
    requires s.authzOff && !s.forwards
    ensures Run(filters, s, path, w, h) == []
  {
    if filters != [] {
      match filters[0] {
        case Jwt(cfg) => ClosedScopeShowsNothing(filters[1..], s, path, w, JwtStep(cfg, s.jwt, path, w, h).headers);
        case ExtAuthz => ClosedScopeShowsNothing(filters[1..], s, path, w, h);
        case OtherFilter => ClosedScopeShowsNothing(filters[1..], s, path, w, h);
      }
    }
  }

  /** The chain up to the judged jwt_authn filter observes nothing, and behind it the header is not the client's. */
  lemma {:induction false} GuardedChain(filters: seq<Filter>, j: nat, s: Scope, path: string, w: World, h: Headers, e: Event)
    requires j < |filters| && filters[j].Jwt? && (forall k :: 0 <= k < j ==> filters[k].OtherFilter?)
    requires ProvidersClean(filters[j].cfg) && RulesClean(filters[j].cfg)
    requires s.jwt.None? && "/" <= path && e in Run(filters, s, path, w, h)
    ensures e.seen != Some(FromClient)
  {
    if j > 0 {
      GuardedChain(filters[1..], j - 1, s, path, w, h, e);
    } else {
      var cfg := filters[0].cfg;
      CleanRulesStrip(cfg, cfg.rules, path, w, h);
      SafeStaysSafe(filters[1..], s, path, w, JwtStep(cfg, None, path, w, h).headers, e);
    }
  }

  /** The route turns ext_authz back on inside a host that overrides jwt_authn. */
  predicate Reenables(host: Host, r: Route) {
    host.jwt.Some? && r.jwt.None? && r.authzOff.Some? && !r.authzOff.value
  }

  /** There is no such route. The audit does not look at this. */
  ghost predicate NoReenable(m: Manager) {
    forall host, r :: host in m.hosts && r in host.routes ==> !Reenables(host, r)
  }

  /** An overridden scope of a clean manager: closed to every observer, or one that turns ext_authz back on. */
  lemma OverriddenScope(m: Manager, host: Host, r: Route)
    requires Clean(m) && host in m.hosts && r in host.routes && ScopeOf(host, r).jwt.Some?
    ensures !ScopeOf(host, r).forwards
    ensures ScopeOf(host, r).authzOff || (Reenables(host, r) && ScopeOf(host, r).jwt == host.jwt)
  {
    if r.jwt.Some? {
      assert Sealed(r.authzOff, [r]);
      assert r in [r];
    } else {
      assert Sealed(host.authzOff, host.routes);
      assert r.authzOff.Some? && r.authzOff.value ==> r.authzOff == Some(true);
    }
  }

  /** The guard's promise: with no finding, no client forges the header, for every path, token and nesting. */
  lemma CleanIsUnforgeable(m: Manager)
    requires Clean(m) && NoReenable(m)
    ensures Unforgeable(m)
  {
    var j := IndexOfJwt(m.filters);
    forall s, path, w, h, e | IsScope(m, s) && "/" <= path && e in Run(m.filters, s, path, w, h)
      ensures e.seen != Some(FromClient)
    {
      if s.jwt.None? {
        GuardedChain(m.filters, j, s, path, w, h, e);
      } else {
        var host, r :| host in m.hosts && r in host.routes && s == ScopeOf(host, r);
        OverriddenScope(m, host, r);
        ClosedScopeShowsNothing(m.filters, s, path, w, h);
      }
    }
  }

  // ------------------------------------------------------------ exactly when it holds

  /** What a requirement does to a request with the header on it, if it touches no header: it passes, or it fails. None
      when it meets a provider or reads any token, and so strips the header. */
  function BareOutcome(cfg: JwtConfig, req: Requirement): Option<bool> {
    match req
    case AllowAll => Some(true)
    case Provider(p) => if p in cfg.providers then None else Some(false)
    case AllowMissing => None
    case AllowMissingOrFailed => None
    case RequiresAny(inner) => BareAny(cfg, inner)
    case RequiresAll(inner) => BareAll(cfg, inner)
  }

  /** The first that passes ends the reading, one that fails passes it on, and one that strips the header ends it. */
  function BareAny(cfg: JwtConfig, reqs: seq<Requirement>): Option<bool> {
    if reqs == [] then Some(false)
    else if BareOutcome(cfg, reqs[0]) == Some(false) then BareAny(cfg, reqs[1..])
    else BareOutcome(cfg, reqs[0])
  }

  function BareAll(cfg: JwtConfig, reqs: seq<Requirement>): Option<bool> {
    if reqs == [] then Some(true)
    else if BareOutcome(cfg, reqs[0]) == Some(true) then BareAll(cfg, reqs[1..])
    else BareOutcome(cfg, reqs[0])
  }

  /** A requirement that touches no header has one outcome for every token, and leaves all headers as they are. */
  lemma {:induction false} BareVerify(cfg: JwtConfig, req: Requirement, w: World, h: Headers)
    requires BareOutcome(cfg, req).Some?
    ensures Verify(cfg, req, w, h) == Verdict(BareOutcome(cfg, req).value, h)
  {
    match req {
      case RequiresAny(inner) => BareVerifyAny(cfg, inner, w, h);
      case RequiresAll(inner) => BareVerifyAll(cfg, inner, w, h);
      case _ =>
    }
  }

  lemma {:induction false} BareVerifyAny(cfg: JwtConfig, reqs: seq<Requirement>, w: World, h: Headers)
    requires BareAny(cfg, reqs).Some?
    ensures VerifyAny(cfg, reqs, w, h) == Verdict(BareAny(cfg, reqs).value, h)
  {
    if reqs != [] {
      BareVerify(cfg, reqs[0], w, h);
      if BareOutcome(cfg, reqs[0]) == Some(false) {
        BareVerifyAny(cfg, reqs[1..], w, h);
      }
    }
  }

  lemma {:induction false} BareVerifyAll(cfg: JwtConfig, reqs: seq<Requirement>, w: World, h: Headers)
    requires BareAll(cfg, reqs).Some?
    ensures VerifyAll(cfg, reqs, w, h) == Verdict(BareAll(cfg, reqs).value, h)
  {
    if reqs != [] {
      BareVerify(cfg, reqs[0], w, h);
      if BareOutcome(cfg, reqs[0]) == Some(true) {
        BareVerifyAll(cfg, reqs[1..], w, h);
      }
    }
  }

  /** Any other strips the header, whether it passes or fails. */
  lemma {:induction false} TouchedIsSafe(cfg: JwtConfig, req: Requirement, w: World, h: Headers)
    requires ProvidersClean(cfg) && BareOutcome(cfg, req) == None
    ensures Safe(Verify(cfg, req, w, h).headers)
  {
    match req {
      case RequiresAny(inner) => TouchedAnyIsSafe(cfg, inner, w, h);
      case RequiresAll(inner) => TouchedAllIsSafe(cfg, inner, w, h);
      case _ => AllForwardedIsTrusted(cfg);
    }
  }

  lemma {:induction false} TouchedAnyIsSafe(cfg: JwtConfig, reqs: seq<Requirement>, w: World, h: Headers)
    requires ProvidersClean(cfg) && BareAny(cfg, reqs) == None
    ensures Safe(VerifyAny(cfg, reqs, w, h).headers)
  {
    if BareOutcome(cfg, reqs[0]) == None {
      TouchedIsSafe(cfg, reqs[0], w, h);
      VerifyAnyForgesNothing(cfg, reqs[1..], w, Verify(cfg, reqs[0], w, h).headers);
    } else {
      BareVerify(cfg, reqs[0], w, h);
      TouchedAnyIsSafe(cfg, reqs[1..], w, h);
    }
  }

  lemma {:induction false} TouchedAllIsSafe(cfg: JwtConfig, reqs: seq<Requirement>, w: World, h: Headers)
    requires ProvidersClean(cfg) && BareAll(cfg, reqs) == None
    ensures Safe(VerifyAll(cfg, reqs, w, h).headers)
  {
    if BareOutcome(cfg, reqs[0]) == None {
      TouchedIsSafe(cfg, reqs[0], w, h);
      VerifyAllForgesNothing(cfg, reqs[1..], w, Verify(cfg, reqs[0], w, h).headers);
    } else {
      BareVerify(cfg, reqs[0], w, h);
      TouchedAllIsSafe(cfg, reqs[1..], w, h);
    }
  }

  /** The filter, under this override, passes a request with no token and leaves the client's header on it. */
  predicate PassesBare(f: Filter, over: Override) {
    f.Jwt? ==> over.Skip? || BareOutcome(f.cfg, over.requirement) == Some(true)
  }

  /** What stands in front of ext_authz. */
  predicate FrontPassesBare(filters: seq<Filter>, over: Override) {
    forall k :: 0 <= k < IndexOfAuthz(filters) ==> PassesBare(filters[k], over)
  }

  /** An override that every filter in front of ext_authz passes bare shows it the client's own header. */
  lemma {:induction false} BareChainLeaks(filters: seq<Filter>, s: Scope, path: string, w: World, h: Headers)
    requires ExtAuthz in filters && s.jwt.Some? && !s.authzOff && FrontPassesBare(filters, s.jwt.value)
    ensures AtExtAuthz(SeenIn(h)) in Run(filters, s, path, w, h)
  {
    if !filters[0].ExtAuthz? {
      assert forall k :: 0 <= k < IndexOfAuthz(filters[1..]) ==> filters[1..][k] == filters[k + 1];
      BareChainLeaks(filters[1..], s, path, w, h);
      if filters[0].Jwt? && s.jwt.value.Instead? {
        assert PassesBare(filters[0], s.jwt.value);
        BareVerify(filters[0].cfg, s.jwt.value.requirement, w, h);
      }
    }
  }

  /** One that some filter in front does not pass bare shows it to nobody, when the filters up to there forward to it. */
  lemma {:induction false} StoppedChainIsSafe(filters: seq<Filter>, k: nat, s: Scope, path: string, w: World, h: Headers, e: Event)
    requires k < IndexOfAuthz(filters) && s.jwt.Some? && !PassesBare(filters[k], s.jwt.value)
    requires forall i :: 0 <= i <= k && filters[i].Jwt? ==> ProvidersClean(filters[i].cfg)
    requires e in Run(filters, s, path, w, h)
    ensures e.seen != Some(FromClient)
  {
    hide ProvidersClean, Safe;
    match filters[0] {
      case Jwt(cfg) =>
        var v := JwtStep(cfg, s.jwt, path, w, h);
        if s.jwt.value.Instead? && BareOutcome(cfg, s.jwt.value.requirement) == None {
          TouchedIsSafe(cfg, s.jwt.value.requirement, w, h);
          SafeStaysSafe(filters[1..], s, path, w, v.headers, e);
        } else {
          if s.jwt.value.Instead? {
            BareVerify(cfg, s.jwt.value.requirement, w, h);
          }
          assert k > 0;
          StoppedChainIsSafe(filters[1..], k - 1, s, path, w, v.headers, e);
        }
      case OtherFilter => StoppedChainIsSafe(filters[1..], k - 1, s, path, w, h, e);
    }
  }

  /** No override of such a route lets a bare request through. */
  ghost predicate NoBareReenable(m: Manager) {
    forall host, r :: host in m.hosts && r in host.routes && Reenables(host, r) ==> !FrontPassesBare(m.filters, host.jwt.value)
  }

  /** Every provider the requirement names is one of the filter's. */
  predicate Resolves(cfg: JwtConfig, req: Requirement) {
    match req
    case Provider(p) => p in cfg.providers
    case RequiresAny(inner) => forall k :: 0 <= k < |inner| ==> Resolves(cfg, inner[k])
    case RequiresAll(inner) => forall k :: 0 <= k < |inner| ==> Resolves(cfg, inner[k])
    case _ => true
  }

  /** With every name resolved, an outcome that touches no header owes nothing to the providers. */
  lemma {:induction false} BareAnywhere(cfg: JwtConfig, req: Requirement, other: JwtConfig)
    requires Resolves(cfg, req) && BareOutcome(cfg, req).Some?
    ensures BareOutcome(other, req) == BareOutcome(cfg, req)
  {
    match req {
      case RequiresAny(inner) => BareAnyAnywhere(cfg, inner, other);
      case RequiresAll(inner) => BareAllAnywhere(cfg, inner, other);
      case _ =>
    }
  }

  lemma {:induction false} BareAnyAnywhere(cfg: JwtConfig, reqs: seq<Requirement>, other: JwtConfig)
    requires (forall k :: 0 <= k < |reqs| ==> Resolves(cfg, reqs[k])) && BareAny(cfg, reqs).Some?
    ensures BareAny(other, reqs) == BareAny(cfg, reqs)
  {
    if reqs != [] {
      BareAnywhere(cfg, reqs[0], other);
      if BareOutcome(cfg, reqs[0]) == Some(false) {
        BareAnyAnywhere(cfg, reqs[1..], other);
      }
    }
  }

  lemma {:induction false} BareAllAnywhere(cfg: JwtConfig, reqs: seq<Requirement>, other: JwtConfig)
    requires (forall k :: 0 <= k < |reqs| ==> Resolves(cfg, reqs[k])) && BareAll(cfg, reqs).Some?
    ensures BareAll(other, reqs) == BareAll(cfg, reqs)
  {
    if reqs != [] {
      BareAnywhere(cfg, reqs[0], other);
      if BareOutcome(cfg, reqs[0]) == Some(true) {
        BareAllAnywhere(cfg, reqs[1..], other);
      }
    }
  }

  /**
   * The audit judges the first jwt_authn filter alone. Either every one in front of ext_authz forwards to the trusted
   * header, as when there is no second one, or the names in an override resolve in the first, as Envoy asks before it
   * loads a configuration.
   */
  ghost predicate FrontIsJudged(m: Manager) {
    || (forall k :: 0 <= k < IndexOfAuthz(m.filters) && m.filters[k].Jwt? ==> ProvidersClean(m.filters[k].cfg))
    || (forall host :: host in m.hosts && host.jwt.Some? && host.jwt.value.Instead? && IndexOfJwt(m.filters) < |m.filters| ==>
          Resolves(m.filters[IndexOfJwt(m.filters)].cfg, host.jwt.value.requirement))
  }

  /** The filter that keeps an override from passing bare, with only filters in front of it that forward to the header. */
  lemma StopsBare(m: Manager, host: Host) returns (k: nat)
    requires Clean(m) && FrontIsJudged(m) && host in m.hosts && host.jwt.Some?
    requires !FrontPassesBare(m.filters, host.jwt.value)
    ensures k < IndexOfAuthz(m.filters) && !PassesBare(m.filters[k], host.jwt.value)
    ensures forall i :: 0 <= i <= k && m.filters[i].Jwt? ==> ProvidersClean(m.filters[i].cfg)
  {
    hide ProvidersClean, RulesClean, OverridesClean, BareOutcome, Resolves;
    var j := IndexOfJwt(m.filters);
    k :| 0 <= k < IndexOfAuthz(m.filters) && !PassesBare(m.filters[k], host.jwt.value);
    if exists i :: 0 <= i <= k && m.filters[i].Jwt? && !ProvidersClean(m.filters[i].cfg) {
      var first, req := m.filters[j].cfg, host.jwt.value.requirement;
      if BareOutcome(first, req).Some? {
        BareAnywhere(first, req, m.filters[k].cfg);
      }
      k := j;
    }
  }

  /** Exactly when a clean configuration keeps the promise: if and only if no route that turns ext_authz back on inside an
      overriding host has an override that lets a bare request through. */
  lemma CleanIsUnforgeableIff(m: Manager)
    requires Clean(m) && FrontIsJudged(m)
    ensures Unforgeable(m) <==> NoBareReenable(m)
  {
    hide ProvidersClean, RulesClean, OverridesClean, FrontIsJudged, FrontPassesBare;
    if NoBareReenable(m) {
      forall s, path, w, h, e | IsScope(m, s) && "/" <= path && e in Run(m.filters, s, path, w, h)
        ensures e.seen != Some(FromClient)
      {
        NothingBareIsSeen(m, s, path, w, h, e);
      }
    } else {
      var host, r :| host in m.hosts && r in host.routes && Reenables(host, r) && FrontPassesBare(m.filters, host.jwt.value);
      BareRouteLeaks(m, host, r);
    }
  }

  lemma NothingBareIsSeen(m: Manager, s: Scope, path: string, w: World, h: Headers, e: Event)
    requires Clean(m) && FrontIsJudged(m) && NoBareReenable(m)
    requires IsScope(m, s) && "/" <= path && e in Run(m.filters, s, path, w, h)
    ensures e.seen != Some(FromClient)
  {
    hide ProvidersClean, RulesClean, OverridesClean, FrontIsJudged, FrontPassesBare, Run, PassesBare;
    if s.jwt.None? {
      GuardedChain(m.filters, IndexOfJwt(m.filters), s, path, w, h, e);
    } else {
      var host, r :| host in m.hosts && r in host.routes && s == ScopeOf(host, r);
      OverriddenScope(m, host, r);
      if s.authzOff {
        ClosedScopeShowsNothing(m.filters, s, path, w, h);
      } else {
        var k := StopsBare(m, host);
        StoppedChainIsSafe(m.filters, k, s, path, w, h, e);
      }
    }
  }

  lemma BareRouteLeaks(m: Manager, host: Host, r: Route)
    requires Clean(m) && host in m.hosts && r in host.routes && Reenables(host, r)
    requires FrontPassesBare(m.filters, host.jwt.value)
    ensures !Unforgeable(m)
  {
    hide ProvidersClean, RulesClean, OverridesClean, FrontPassesBare, Run;
    var s := ScopeOf(host, r);
    var h: Headers := map[TRUSTED := FromClient];
    var w := World({}, NoToken, {});
    assert m.filters[IndexOfAuthz(m.filters)] == ExtAuthz;
    BareChainLeaks(m.filters, s, "/", w, h);
    assert IsScope(m, s);
    assert AtExtAuthz(SeenIn(h)).seen == Some(FromClient);
  }

  /** Where the override turns jwt_authn off, any such route leaks; where its requirement has no empty part, none does. */
  lemma BareOverrides(m: Manager, over: Override)
    requires Clean(m)
    ensures over.Skip? ==> FrontPassesBare(m.filters, over)
    ensures over.Instead? && NoEmptyPart(over.requirement) ==> !FrontPassesBare(m.filters, over)
  {
    var j := IndexOfJwt(m.filters);
    if over.Instead? && NoEmptyPart(over.requirement) && PassesBare(m.filters[j], over) {
      var h: Headers := map[TRUSTED := FromClient];
      var w := World({}, NoToken, {});
      BareVerify(m.filters[j].cfg, over.requirement, w, h);
      CleanRequirementStrips(m.filters[j].cfg, over.requirement, w, h);
    }
  }

  // ----------------------------------------------------------- sealed scopes

  /** No filter chain shows anyone anything of a request in this scope. */
  ghost predicate Silent(s: Scope) {
    forall filters, path, w, h :: Run(filters, s, path, w, h) == []
  }

  lemma {:induction false} ClosedIsSilent(filters: seq<Filter>, s: Scope, path: string, w: World, h: Headers)
    requires s.authzOff && !s.forwards
    ensures Run(filters, s, path, w, h) == []
  {
    if filters != [] {
      match filters[0] {
        case Jwt(cfg) => ClosedIsSilent(filters[1..], s, path, w, JwtStep(cfg, s.jwt, path, w, h).headers);
        case _ => ClosedIsSilent(filters[1..], s, path, w, h);
      }
    }
  }

  lemma SilentIff(s: Scope)
    ensures Silent(s) <==> s.authzOff && !s.forwards
  {
    if s.authzOff && !s.forwards {
      forall filters, path, w, h
        ensures Run(filters, s, path, w, h) == []
      {
        ClosedIsSilent(filters, s, path, w, h);
      }
    }
    if Silent(s) {
      var w := World({}, NoToken, {});
      assert Run([], s, "/", w, map[]) == [];
      assert Run([ExtAuthz], s, "/", w, map[]) == [];
      assert [ExtAuthz][1..] == [];
    }
  }

  /** Nor with any override of jwt_authn. */
  ghost predicate SilentAnyhow(authzOff: bool, forwards: bool) {
    forall jwt :: Silent(Scope(jwt, authzOff, forwards))
  }

  lemma SilentAnyhowIff(authzOff: bool, forwards: bool)
    ensures SilentAnyhow(authzOff, forwards) <==> authzOff && !forwards
  {
    hide Silent;
    forall jwt
      ensures Silent(Scope(jwt, authzOff, forwards)) <==> authzOff && !forwards
    {
      SilentIff(Scope(jwt, authzOff, forwards));
    }
    assert Silent(Scope(None, authzOff, forwards)) <==> authzOff && !forwards;
  }

  /** A scope is sealed exactly when it has routes, each answers by itself, and none of them shows a request to ext_authz or
      an upstream, whatever jwt_authn does. */
  lemma SealedIff(authzOff: Option<bool>, routes: seq<Route>)
    ensures Sealed(authzOff, routes) <==>
        routes != [] && forall r :: r in routes ==> r.answers && SilentAnyhow(authzOff == Some(true), r.forwards)
  {
    hide SilentAnyhow;
    SilentAnyhowIff(authzOff == Some(true), true);
    SilentAnyhowIff(authzOff == Some(true), false);
    if routes != [] {
      assert routes[0] in routes;
    }
  }
}
