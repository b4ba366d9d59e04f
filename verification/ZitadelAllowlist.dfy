/** scripts/check-edge-zitadel-routes.py, the allowlist of audit: every route to Zitadel is listed, every entry is used. */
module ZitadelAllowlist {
  import opened Prelude
  import opened ZitadelRoutes

  const CLUSTERS: set<string> := {"zitadel_upstream", "zitadel_login"}
  const ADMIN_PREFIXES := ["/ui/console", "/admin/v1/", "/management/v1/", "/zitadel."]

  /** A virtual host within its route config. */
  datatype Host = Host(config: string, name: string, routes: seq<Route>)

  /** How the allowlist names a route: its config, its host and what it tests the path for. */
  datatype Key = Key(config: string, host: string, path: PathTest)

  datatype Finding = Unlisted(key: Key) | AdminSurface(key: Key) | StaleEntry(key: Key)

  function KeyOf(h: Host, r: Route): Key {
    Key(h.config, h.name, r.on.path)
  }

  predicate ToZitadel(r: Route) {
    r.action.Cluster? && r.action.name in CLUSTERS
  }

  /** The text a path test names, unless it is an expression. */
  function NamedText(p: PathTest): string {
    match p
    case PathPrefix(t) => t
    case WholePath(t) => t
    case SeparatedPrefix(t) => t
    case _ => ""
  }

  predicate NamesAdmin(p: PathTest) {
    exists a | a in ADMIN_PREFIXES :: a <= NamedText(p)
  }

  ghost predicate Produced(hosts: seq<Host>, key: Key) {
    exists h, r :: h in hosts && r in h.routes && ToZitadel(r) && KeyOf(h, r) == key
  }

  ghost predicate IsFinding(hosts: seq<Host>, listed: set<Key>, f: Finding) {
    match f
    case Unlisted(key) => Produced(hosts, key) && key !in listed
    case AdminSurface(key) => Produced(hosts, key) && NamesAdmin(key.path)
    case StaleEntry(key) => key in listed && !Produced(hosts, key)
  }

  method SeenIn(h: Host) returns (seen: set<Key>)
    ensures forall key :: key in seen <==> exists r :: r in h.routes && ToZitadel(r) && KeyOf(h, r) == key
  {
    seen := {};
    for i := 0 to |h.routes|
      invariant forall key :: key in seen <==> exists r :: r in h.routes[..i] && ToZitadel(r) && KeyOf(h, r) == key
    {
      var r := h.routes[i];
      assert forall x :: x in h.routes[..i + 1] <==> x in h.routes[..i] || x == r;
      if ToZitadel(r) {
        seen := seen + {KeyOf(h, r)};
      }
    }
    assert h.routes[..|h.routes|] == h.routes;
  }

  method SeenKeys(hosts: seq<Host>) returns (seen: set<Key>)
    ensures forall key :: key in seen <==> Produced(hosts, key)
  {
    seen := {};
    for i := 0 to |hosts|
      invariant forall key :: key in seen <==> Produced(hosts[..i], key)
    {
      var here := SeenIn(hosts[i]);
      assert forall h :: h in hosts[..i + 1] <==> h in hosts[..i] || h == hosts[i];
      seen := seen + here;
    }
    assert hosts[..|hosts|] == hosts;
  }

  /** The allowlist half of the audit: unlisted routes, routes named for the admin surface, and stale entries. */
  method AuditAllowlist(hosts: seq<Host>, listed: set<Key>) returns (bad: set<Finding>, seen: set<Key>)
    ensures forall key :: key in seen <==> Produced(hosts, key)
    ensures forall f :: f in bad <==> IsFinding(hosts, listed, f)
  {
    seen := SeenKeys(hosts);
    var unlisted := set key | key in seen && key !in listed :: Unlisted(key);
    var admin := set key | key in seen && NamesAdmin(key.path) :: AdminSurface(key);
    var stale := set key | key in listed && key !in seen :: StaleEntry(key);
    bad := unlisted + admin + stale;
  }

  ghost predicate CleanList(hosts: seq<Host>, listed: set<Key>) {
    forall f :: !IsFinding(hosts, listed, f)
  }

  /** Behind a clean allowlist a request reaches Zitadel only through a route that takes it, is listed, and names no admin path. */
  lemma ReachedThroughListed(re: Regex, hosts: seq<Host>, listed: set<Key>, h: Host, rq: Request, cluster: string)
    requires CleanList(hosts, listed) && h in hosts && AllModelled(h.routes) && cluster in CLUSTERS
    requires Outcomes(re, h.routes, rq) == Decided(Cluster(cluster))
    ensures exists i: nat :: IsFirst(re, h.routes, rq, i) && ToZitadel(h.routes[i])
                             && KeyOf(h, h.routes[i]) in listed && !NamesAdmin(h.routes[i].on.path)
  {
    FirstDecides(re, h.routes, rq);
    var i: nat :| IsFirst(re, h.routes, rq, i);
    var r := h.routes[i];
    assert r in h.routes && Produced(hosts, KeyOf(h, r));
    assert !IsFinding(hosts, listed, Unlisted(KeyOf(h, r)));
    assert !IsFinding(hosts, listed, AdminSurface(KeyOf(h, r)));
  }

  // --------------------------------------------------------- the admin surface

  predicate Literal(p: PathTest) {
    p.PathPrefix? || p.WholePath? || p.SeparatedPrefix?
  }

  /** The test is a prefix that stops short of the admin prefix. */
  predicate StopsShort(p: PathTest, a: string) {
    (p.PathPrefix? && p.text < a) || (p.SeparatedPrefix? && p.text + "/" <= a)
  }

  ghost predicate TakesUnder(re: Regex, p: PathTest, a: string) {
    exists path :: a <= path && PathMatches(re, p, path) == Some(true)
  }

  lemma PrefixesOfOne(x: string, y: string, whole: string)
    requires x <= whole && y <= whole
    ensures x < y || y <= x
  {
    if |y| <= |x| {
      assert x[..|y|] == whole[..|y|] == y;
    } else {
      assert y[..|x|] == whole[..|x|] == x;
    }
  }

  lemma ShorterStandsBefore(text: string, more: string, a: string)
    ensures a <= text + more && |a| <= |text| ==> a <= text
  {
    if a <= text + more && |a| <= |text| {
      assert a == (text + more)[..|a|] == text[..|a|];
    }
  }

  /** A literal test that names no admin path takes one under an admin prefix exactly when it stops short of it. */
  lemma TakesUnderIff(re: Regex, p: PathTest, a: string)
    requires Literal(p) && a in ADMIN_PREFIXES && !NamesAdmin(p)
    ensures TakesUnder(re, p, a) <==> StopsShort(p, a)
  {
    assert !(a <= p.text);
    if path :| a <= path && PathMatches(re, p, path) == Some(true) {
      if p.PathPrefix? {
        PrefixesOfOne(p.text, a, path);
      } else if p.SeparatedPrefix? {
        PrefixesOfOne(p.text + "/", a, path);
        ShorterStandsBefore(p.text, "/", a);
      }
    }
    if StopsShort(p, a) {
      assert a <= a && PathMatches(re, p, a) == Some(true) by {
        assert p.SeparatedPrefix? ==> p.text + "/" <= a;
      }
    }
  }

  /** What the test is open to, read off it: a literal one by where it stops, an expression by what it matches. */
  ghost predicate OpensUnder(re: Regex, p: PathTest, a: string) {
    match p
    case PathRegex(expression) => exists path :: a <= path && re(expression, path)
    case NoPath => false
    case _ => StopsShort(p, a)
  }

  lemma OpensUnderIff(re: Regex, p: PathTest, a: string)
    requires a in ADMIN_PREFIXES && !NamesAdmin(p)
    ensures OpensUnder(re, p, a) <==> TakesUnder(re, p, a)
  {
    hide NamesAdmin, StopsShort;
    if Literal(p) {
      TakesUnderIff(re, p, a);
    } else if p.PathRegex? {
      forall path
        ensures PathMatches(re, p, path) == Some(re(p.text, path))
      {
      }
    }
  }

  /** A host of one route to Zitadel, on this test, and what a clean list of its key lets through. */
  ghost predicate Reached(re: Regex, p: PathTest, a: string) {
    exists h: Host, listed: set<Key>, rq: Request ::
      && |h.routes| == 1 && h.routes[0].on.path == p && AllModelled(h.routes) && CleanList([h], listed)
      && a <= rq.path && Outcomes(re, h.routes, rq) == Decided(Cluster("zitadel_upstream"))
  }

  /** So the list alone does not shut the admin surface: exactly these tests leave it open. */
  lemma ReachedIff(re: Regex, p: PathTest, a: string)
    requires a in ADMIN_PREFIXES && !NamesAdmin(p)
    ensures Reached(re, p, a) <==> OpensUnder(re, p, a)
  {
    hide NamesAdmin, StopsShort, OpensUnder;
    OpensUnderIff(re, p, a);
    if path :| a <= path && PathMatches(re, p, path) == Some(true) {
      var r := Route(RouteMatch(p, [], false), Cluster("zitadel_upstream"));
      var h, rq := Host("public_routes", "app", [r]), Request(path, map[]);
      assert AllHeaders(re, [], rq.headers) == Some(true);
      assert Outcomes(re, [r], rq) == Decided(r.action);
      OneListedIsClean(h, r);
      assert CleanList([h], {KeyOf(h, r)}) && AllModelled(h.routes) && |h.routes| == 1;
    }
    if h: Host, listed: set<Key>, rq: Request :|
      && |h.routes| == 1 && h.routes[0].on.path == p && AllModelled(h.routes) && CleanList([h], listed)
      && a <= rq.path && Outcomes(re, h.routes, rq) == Decided(Cluster("zitadel_upstream"))
    {
      assert h.routes == [h.routes[0]];
      OneRouteTakes(re, h.routes[0], rq);
    }
  }

  lemma OneRouteTakes(re: Regex, r: Route, rq: Request)
    requires Outcomes(re, [r], rq).Decided?
    ensures PathMatches(re, r.on.path, rq.path) == Some(true)
  {
    assert [r][1..] == [];
  }

  lemma OneListedIsClean(h: Host, r: Route)
    requires h.routes == [r] && ToZitadel(r) && !NamesAdmin(r.on.path)
    ensures CleanList([h], {KeyOf(h, r)})
  {
    hide NamesAdmin;
    assert h in [h] && r in h.routes && Produced([h], KeyOf(h, r));
    forall f
      ensures !IsFinding([h], {KeyOf(h, r)}, f)
    {
    }
  }

  /** With it shut in that sense too, no request under an admin prefix reaches Zitadel, whatever routes stand around. */
  lemma AdminStaysShut(re: Regex, hosts: seq<Host>, listed: set<Key>, h: Host, rq: Request, a: string, cluster: string)
    requires CleanList(hosts, listed) && h in hosts && AllModelled(h.routes) && cluster in CLUSTERS
    requires a in ADMIN_PREFIXES && a <= rq.path
    requires forall r :: r in h.routes && ToZitadel(r) ==> !OpensUnder(re, r.on.path, a)
    ensures Outcomes(re, h.routes, rq) != Decided(Cluster(cluster))
  {
    hide NamesAdmin, OpensUnder, IsFinding;
    forall r | r in h.routes && ToZitadel(r) && !NamesAdmin(r.on.path)
      ensures !Takes(re, r, rq)
    {
      OpensUnderIff(re, r.on.path, a);
    }
    if Outcomes(re, h.routes, rq) == Decided(Cluster(cluster)) {
      ReachedThroughListed(re, hosts, listed, h, rq, cluster);
    }
  }

  /** Two routes share a key exactly when their config, their host and their path test are the same. */
  lemma KeysTellApart(h: Host, r: Route, g: Host, s: Route)
    ensures KeyOf(h, r) == KeyOf(g, s) <==> h.config == g.config && h.name == g.name && r.on.path == s.on.path
  {
  }

  /** A literal test is named for the admin surface exactly when all it takes lies under one admin prefix; no other test is. */
  lemma NamesAdminIff(re: Regex, p: PathTest)
    ensures Literal(p) ==> (NamesAdmin(p) <==> exists a :: a in ADMIN_PREFIXES && TakesOnlyUnder(re, p, a))
    ensures !Literal(p) ==> !NamesAdmin(p)
  {
    if Literal(p) {
      assert PathTaken(re, p, p.text) by {
        if p.PathPrefix? {
          assert p.text == p.text + "";
        }
      }
      forall a
        ensures TakesOnlyUnder(re, p, a) <==> a <= p.text
      {
        if a <= p.text {
          forall path | PathTaken(re, p, path)
            ensures a <= path
          {
            TakenBegins(re, p, path);
          }
        }
      }
    } else {
      NothingBeginsSo();
    }
  }

  ghost predicate TakesOnlyUnder(re: Regex, p: PathTest, a: string) {
    forall path :: PathTaken(re, p, path) ==> a <= path
  }

  lemma TakenBegins(re: Regex, p: PathTest, path: string)
    requires Literal(p) && PathTaken(re, p, path)
    ensures p.text <= path
  {
  }

  lemma NothingBeginsSo()
    ensures forall a :: a in ADMIN_PREFIXES ==> !(a <= "")
  {
  }
}
