/** scripts/check-owner-credential-readers.py, the takeover half: which ServiceAccounts can become a reader. */
module Takeover {
  import opened Prelude
  import opened Rbac
  import OwnerReaders

  const RBAC_GROUP := "rbac.authorization.k8s.io"
  const NS := OwnerReaders.NS

  datatype Power = Exec | Patch | CreatePod | Token | Impersonate | Bind

  /** What a power reaches: a workload by kind and name, a namespace, an account, one role or every role of a kind. */
  datatype Target =
    | OnWorkload(kind: string, name: string)
    | OnNamespace(ns: string)
    | OnAccount(account: Account)
    | OnEveryRole(kind: string)
    | OnRole(kind: string, name: string)

  type Reach = (Power, Target)

  /** A pod-carrying object of the render, with the ServiceAccount its pods run as. */
  datatype Workload = Workload(kind: string, name: string, ns: string, sa: string)

  function RunsAs(w: Workload): Account {
    Account(w.ns, w.sa)
  }

  // -------------------------------------------------------------- authority

  /** Every request these rules authorize in this scope. */
  ghost function AuthorityOf(rules: seq<Rule>, scope: Option<string>): iset<Request> {
    iset req: Request | Covers(scope, req.ns) && RulesAllow(rules, req)
  }

  /** One of `verbs` on group/resource, for the named object (None: for every name). */
  ghost predicate Can(a: iset<Request>, verbs: seq<string>, group: string, resource: string,
                      ns: Option<string>, name: Option<string>)
  {
    exists v :: v in verbs && Request(v, group, resource, ns, name) in a
  }

  /** The same for at least one name, which is what a grant that ignores resourceNames asks. */
  ghost predicate CanSome(a: iset<Request>, verbs: seq<string>, group: string, resource: string, ns: Option<string>) {
    exists name :: Can(a, verbs, group, resource, ns, name)
  }

  // -------------------------------------------------------------- one grant

  function AnyVerb(verbs: seq<string>, rule: Rule): bool {
    exists v | v in verbs :: Lists(rule.verbs, v)
  }

  function ResourceMatches(listed: seq<string>, resource: string): bool {
    exists r | r in listed :: Reaches(r, resource)
  }

  /** The rule grants one of `verbs` on group/resource, whatever names it carries. */
  predicate Hits(rule: Rule, group: string, resource: string, verbs: seq<string>) {
    Lists(rule.apiGroups, group) && ResourceMatches(rule.resources, resource) && AnyVerb(verbs, rule)
  }

  /** Whether some rule hits, whether one of those that do binds no names, and every name the others bind. */
  method Grant(rules: seq<Rule>, group: string, resource: string, verbs: seq<string>)
    returns (hit: bool, every: bool, names: set<string>)
    ensures hit <==> exists r :: r in rules && Hits(r, group, resource, verbs)
    ensures every <==> exists r :: r in rules && Hits(r, group, resource, verbs) && r.resourceNames == []
    ensures forall n :: n in names <==> exists r :: r in rules && Hits(r, group, resource, verbs) && n in r.resourceNames
  {
    hit, every, names := false, false, {};
    for i := 0 to |rules|
      invariant hit <==> exists r :: r in rules[..i] && Hits(r, group, resource, verbs)
      invariant every <==> exists r :: r in rules[..i] && Hits(r, group, resource, verbs) && r.resourceNames == []
      invariant forall n :: n in names <==>
          exists r :: r in rules[..i] && Hits(r, group, resource, verbs) && n in r.resourceNames
    {
      var r := rules[i];
      assert forall q :: q in rules[..i + 1] <==> q in rules[..i] || q == r;
      if Hits(r, group, resource, verbs) {
        hit := true;
        if r.resourceNames != [] {
          names := names + (set n | n in r.resourceNames);
        } else {
          every := true;
        }
      }
    }
    assert rules[..|rules|] == rules;
  }

  lemma HitIsMatch(r: Rule, group: string, resource: string, verbs: seq<string>, ns: Option<string>, name: Option<string>)
    ensures Hits(r, group, resource, verbs) && Named(r, name) <==>
        exists v :: v in verbs && RuleMatches(r, Request(v, group, resource, ns, name))
  {
    if Hits(r, group, resource, verbs) && Named(r, name) {
      var v :| v in verbs && Lists(r.verbs, v);
      assert RuleMatches(r, Request(v, group, resource, ns, name));
    }
  }

  /** What the three results of Grant mean to the authorizer. */
  lemma GrantMeans(rules: seq<Rule>, scope: Option<string>, group: string, resource: string, verbs: seq<string>,
                   ns: Option<string>, name: Option<string>)
    ensures Can(AuthorityOf(rules, scope), verbs, group, resource, ns, name) <==>
        Covers(scope, ns) && exists r :: r in rules && Hits(r, group, resource, verbs) && Named(r, name)
  {
    hide Hits, RuleMatches, Rbac.Named;
    var a := AuthorityOf(rules, scope);
    forall r | r in rules {
      HitIsMatch(r, group, resource, verbs, ns, name);
    }
    if Can(a, verbs, group, resource, ns, name) {
      var v :| v in verbs && Request(v, group, resource, ns, name) in a;
      var r :| r in rules && RuleMatches(r, Request(v, group, resource, ns, name));
    }
    if r :| r in rules && Covers(scope, ns) && Hits(r, group, resource, verbs) && Named(r, name) {
      var v :| v in verbs && RuleMatches(r, Request(v, group, resource, ns, name));
      assert Request(v, group, resource, ns, name) in a;
    }
  }

  lemma HitMeans(rules: seq<Rule>, scope: Option<string>, group: string, resource: string, verbs: seq<string>,
                 ns: Option<string>)
    ensures CanSome(AuthorityOf(rules, scope), verbs, group, resource, ns) <==>
        Covers(scope, ns) && exists r :: r in rules && Hits(r, group, resource, verbs)
  {
    var a := AuthorityOf(rules, scope);
    if CanSome(a, verbs, group, resource, ns) {
      var name :| Can(a, verbs, group, resource, ns, name);
      GrantMeans(rules, scope, group, resource, verbs, ns, name);
    }
    if r :| r in rules && Covers(scope, ns) && Hits(r, group, resource, verbs) {
      var name := if r.resourceNames == [] then None else Some(r.resourceNames[0]);
      GrantMeans(rules, scope, group, resource, verbs, ns, name);
    }
  }

  // ------------------------------------------------------- the powers, declared

  /** A Pod's subresources that let the caller run code inside it, each with the verbs that do. */
  const EXEC_SUBRESOURCES: seq<(string, seq<string>)> := [
    ("pods/exec", ["create", "get"]),
    ("pods/attach", ["create", "get"]),
    ("pods/ephemeralcontainers", ["patch", "update"])
  ]

  /** (group, resource) of the workloads: creating one starts Pods. */
  const POD_MAKERS: seq<(string, string)> := [
    ("", "pods"), ("", "replicationcontrollers"), ("apps", "deployments"), ("apps", "statefulsets"),
    ("apps", "daemonsets"), ("apps", "replicasets"), ("batch", "jobs"), ("batch", "cronjobs")
  ]

  const EDIT := ["patch", "update"]
  const WRITE := ["create", "update", "patch"]

  /** The resource that patches the pod template a kind owns. A Job is absent: its template is immutable. */
  function KindResource(kind: string): Option<(string, string)> {
    if kind == "Deployment" then Some(("apps", "deployments"))
    else if kind == "StatefulSet" then Some(("apps", "statefulsets"))
    else if kind == "DaemonSet" then Some(("apps", "daemonsets"))
    else if kind == "ReplicaSet" then Some(("apps", "replicasets"))
    else if kind == "CronJob" then Some(("batch", "cronjobs"))
    else if kind == "Pod" then Some(("", "pods"))
    else None
  }

  /** `<name>-<ordinal>`, the shape of a StatefulSet's pod names. */
  predicate OrdinalName(name: string, n: string) {
    && |n| > |name| + 1
    && name + "-" <= n
    && forall k :: |name| < k < |n| ==> '0' <= n[k] <= '9'
  }

  /** The pod names known in advance: a bare Pod's own, and a StatefulSet's ordinals. */
  predicate PodNamed(w: Workload, n: string) {
    if w.kind == "Pod" then n == w.name
    else w.kind == "StatefulSet" && OrdinalName(w.name, n)
  }

  ghost predicate OnPods(a: iset<Request>, verbs: seq<string>, resource: string, w: Workload) {
    || Can(a, verbs, "", resource, Some(w.ns), None)
    || exists n :: PodNamed(w, n) && Can(a, verbs, "", resource, Some(w.ns), Some(n))
  }

  ghost predicate ExecReach(a: iset<Request>, w: Workload) {
    || CanSome(a, ["get", "create"], "", "nodes/proxy", None)
    || exists e :: e in EXEC_SUBRESOURCES && OnPods(a, e.1, e.0, w)
  }

  ghost predicate PatchReach(a: iset<Request>, w: Workload) {
    || OnPods(a, EDIT, "pods", w)
    || (w.kind != "Pod" && KindResource(w.kind).Some? &&
        var (g, r) := KindResource(w.kind).value; Can(a, EDIT, g, r, Some(w.ns), Some(w.name)))
  }

  ghost predicate MakesPods(a: iset<Request>) {
    exists m :: m in POD_MAKERS && CanSome(a, ["create"], m.0, m.1, Some(NS))
  }

  ghost predicate MintsToken(a: iset<Request>, sa: Account) {
    Can(a, ["create"], "", "serviceaccounts/token", Some(sa.ns), Some(sa.name))
  }

  function UserOf(sa: Account): string {
    "system:serviceaccount:" + sa.ns + ":" + sa.name
  }

  ghost predicate ActsAs(a: iset<Request>, sa: Account) {
    || Can(a, ["impersonate"], "", "serviceaccounts", Some(sa.ns), Some(sa.name))
    || Can(a, ["impersonate"], "", "users", None, Some(UserOf(sa)))
  }

  /** The workloads, accounts and namespace that holders are judged against. */
  datatype Scene = Scene(targets: seq<Workload>, sas: set<Account>)

  /** Authority `a` of `holder` amounts to power `p` over `t`; the holder's own account and its workloads are no targets.
      `Bind` takes two requests at once and stands apart. */
  ghost predicate HasPower(a: iset<Request>, holder: Option<Account>, scene: Scene, p: Power, t: Target) {
    match p
    case Exec | Patch => exists w :: w in scene.targets && OthersWorkload(w, holder, t) && OverWorkload(a, w, p)
    case CreatePod => t == OnNamespace(NS) && MakesPods(a)
    case Token | Impersonate => OthersAccount(scene.sas, holder, t) && OverAccount(a, t.account, p)
    case Bind => false
  }

  ghost predicate OverWorkload(a: iset<Request>, w: Workload, p: Power) {
    (p == Exec && ExecReach(a, w)) || (p == Patch && PatchReach(a, w))
  }

  ghost predicate OverAccount(a: iset<Request>, sa: Account, p: Power) {
    (p == Token && MintsToken(a, sa)) || (p == Impersonate && ActsAs(a, sa))
  }

  ghost predicate OthersAccount(sas: set<Account>, holder: Option<Account>, t: Target) {
    t.OnAccount? && t.account in sas && holder != Some(t.account)
  }

  ghost predicate OthersWorkload(w: Workload, holder: Option<Account>, t: Target) {
    t == OnWorkload(w.kind, w.name) && holder != Some(RunsAs(w))
  }

  // ------------------------------------------------------- the powers, computed

  method ReachesPods(rules: seq<Rule>, scope: Option<string>, w: Workload, verbs: seq<string>, resource: string)
    returns (b: bool)
    requires Covers(scope, Some(w.ns))
    ensures b <==> OnPods(AuthorityOf(rules, scope), verbs, resource, w)
  {
    var hit, every, names := Grant(rules, "", resource, verbs);
    b := hit && (every || exists n | n in names :: PodNamed(w, n));
    GrantMeans(rules, scope, "", resource, verbs, Some(w.ns), None);
    forall n {
      GrantMeans(rules, scope, "", resource, verbs, Some(w.ns), Some(n));
    }
  }

  method ReachesNamed(rules: seq<Rule>, scope: Option<string>, verbs: seq<string>, group: string, resource: string,
                      ns: Option<string>, name: string)
    returns (b: bool)
    requires Covers(scope, ns)
    ensures b <==> Can(AuthorityOf(rules, scope), verbs, group, resource, ns, Some(name))
  {
    var hit, every, names := Grant(rules, group, resource, verbs);
    b := hit && (every || name in names);
    GrantMeans(rules, scope, group, resource, verbs, ns, Some(name));
  }

  method ReachesSome(rules: seq<Rule>, scope: Option<string>, verbs: seq<string>, group: string, resource: string,
                     ns: Option<string>)
    returns (b: bool)
    ensures b <==> CanSome(AuthorityOf(rules, scope), verbs, group, resource, ns)
  {
    var hit, _, _ := Grant(rules, group, resource, verbs);
    b := Covers(scope, ns) && hit;
    HitMeans(rules, scope, group, resource, verbs, ns);
  }

  method WorkloadPowers(rules: seq<Rule>, scope: Option<string>, w: Workload) returns (exec: bool, patch: bool)
    ensures exec <==> ExecReach(AuthorityOf(rules, scope), w)
    ensures patch <==> PatchReach(AuthorityOf(rules, scope), w)
  {
    ghost var a := AuthorityOf(rules, scope);
    exec := ReachesSome(rules, scope, ["get", "create"], "", "nodes/proxy", None);
    patch := false;
    if !Covers(scope, Some(w.ns)) {
      return;
    }
    for i := 0 to |EXEC_SUBRESOURCES|
      invariant exec <==> CanSome(a, ["get", "create"], "", "nodes/proxy", None)
                          || exists e :: e in EXEC_SUBRESOURCES[..i] && OnPods(a, e.1, e.0, w)
    {
      var e := EXEC_SUBRESOURCES[i];
      assert forall x :: x in EXEC_SUBRESOURCES[..i + 1] <==> x in EXEC_SUBRESOURCES[..i] || x == e;
      var hit := ReachesPods(rules, scope, w, e.1, e.0);
      exec := exec || hit;
    }
    assert EXEC_SUBRESOURCES[..|EXEC_SUBRESOURCES|] == EXEC_SUBRESOURCES;
    patch := ReachesPods(rules, scope, w, EDIT, "pods");
    if KindResource(w.kind).Some? && w.kind != "Pod" {
      var (g, r) := KindResource(w.kind).value;
      var hit := ReachesNamed(rules, scope, EDIT, g, r, Some(w.ns), w.name);
      patch := patch || hit;
    }
  }

  method CreatesPods(rules: seq<Rule>, scope: Option<string>) returns (b: bool)
    ensures b <==> MakesPods(AuthorityOf(rules, scope))
  {
    ghost var a := AuthorityOf(rules, scope);
    b := false;
    for i := 0 to |POD_MAKERS|
      invariant b <==> exists m :: m in POD_MAKERS[..i] && CanSome(a, ["create"], m.0, m.1, Some(NS))
    {
      var m := POD_MAKERS[i];
      assert forall x :: x in POD_MAKERS[..i + 1] <==> x in POD_MAKERS[..i] || x == m;
      var hit := ReachesSome(rules, scope, ["create"], m.0, m.1, Some(NS));
      b := b || hit;
    }
    assert POD_MAKERS[..|POD_MAKERS|] == POD_MAKERS;
  }

  method AccountPowers(rules: seq<Rule>, scope: Option<string>, sa: Account) returns (token: bool, acts: bool)
    ensures token <==> MintsToken(AuthorityOf(rules, scope), sa)
    ensures acts <==> ActsAs(AuthorityOf(rules, scope), sa)
  {
    token, acts := false, false;
    if Covers(scope, Some(sa.ns)) {
      token := ReachesNamed(rules, scope, ["create"], "", "serviceaccounts/token", Some(sa.ns), sa.name);
      acts := ReachesNamed(rules, scope, ["impersonate"], "", "serviceaccounts", Some(sa.ns), sa.name);
    }
    if scope.None? {
      var user := ReachesNamed(rules, scope, ["impersonate"], "", "users", None, UserOf(sa));
      acts := acts || user;
    }
  }

  method OverWorkloads(rules: seq<Rule>, scope: Option<string>, holder: Option<Account>, targets: seq<Workload>)
    returns (got: set<Reach>)
    ensures forall p, t :: (p, t) in got <==>
        exists w :: w in targets && OthersWorkload(w, holder, t) && OverWorkload(AuthorityOf(rules, scope), w, p)
  {
    ghost var a := AuthorityOf(rules, scope);
    got := {};
    for i := 0 to |targets|
      invariant forall p, t :: (p, t) in got <==>
          exists w :: w in targets[..i] && OthersWorkload(w, holder, t) && OverWorkload(a, w, p)
    {
      var w := targets[i];
      assert forall x :: x in targets[..i + 1] <==> x in targets[..i] || x == w;
      var add: set<Reach> := {};
      if holder != Some(RunsAs(w)) {
        var exec, patch := WorkloadPowers(rules, scope, w);
        var wid := OnWorkload(w.kind, w.name);
        add := (if exec then {(Exec, wid)} else {}) + (if patch then {(Patch, wid)} else {});
        assert forall p :: OverWorkload(a, w, p) <==> (p == Exec && exec) || (p == Patch && patch);
      }
      assert forall p, t :: (p, t) in add <==> OthersWorkload(w, holder, t) && OverWorkload(a, w, p);
      got := got + add;
    }
    assert targets[..|targets|] == targets;
  }

  method OverAccounts(rules: seq<Rule>, scope: Option<string>, holder: Option<Account>, sas: set<Account>)
    returns (got: set<Reach>)
    ensures forall p, t :: (p, t) in got <==>
        OthersAccount(sas, holder, t) && OverAccount(AuthorityOf(rules, scope), t.account, p)
  {
    ghost var a := AuthorityOf(rules, scope);
    got := {};
    var todo := sas;
    while todo != {}
      invariant todo <= sas
      invariant forall p, t :: (p, t) in got <==>
          OthersAccount(sas - todo, holder, t) && OverAccount(a, t.account, p)
    {
      var sa :| sa in todo;
      todo := todo - {sa};
      if holder != Some(sa) {
        var token, acts := AccountPowers(rules, scope, sa);
        got := got + (if token then {(Token, OnAccount(sa))} else {}) + (if acts then {(Impersonate, OnAccount(sa))} else {});
      }
    }
  }

  /** Every power but `Bind`, which is also what a role bound by name is judged on. */
  method DirectPowers(rules: seq<Rule>, scope: Option<string>, holder: Option<Account>, scene: Scene)
    returns (got: set<Reach>)
    ensures forall p, t :: (p, t) in got <==> HasPower(AuthorityOf(rules, scope), holder, scene, p, t)
  {
    var over := OverWorkloads(rules, scope, holder, scene.targets);
    var makes := CreatesPods(rules, scope);
    var accounts := OverAccounts(rules, scope, holder, scene.sas);
    got := over + (if makes then {(CreatePod, OnNamespace(NS))} else {}) + accounts;
    ghost var a := AuthorityOf(rules, scope);
    hide AuthorityOf, MakesPods, ExecReach, PatchReach, MintsToken, ActsAs, OthersAccount, OthersWorkload;
    forall p, t
      ensures (p, t) in got <==> HasPower(a, holder, scene, p, t)
    {
      match p {
        case Exec =>
        case Patch =>
        case CreatePod =>
        case Token =>
        case Impersonate =>
        case Bind =>
      }
    }
  }

  // ------------------------------------------------------------------- bind

  function RoleResource(kind: string): Option<string> {
    if kind == "ClusterRole" then Some("clusterroles") else if kind == "Role" then Some("roles") else None
  }

  ghost predicate WritesBindings(a: iset<Request>) {
    || CanSome(a, WRITE, RBAC_GROUP, "rolebindings", Some(NS))
    || CanSome(a, WRITE, RBAC_GROUP, "clusterrolebindings", None)
  }

  ghost predicate Escalates(a: iset<Request>, resource: string, ns: Option<string>) {
    CanSome(a, ["escalate"], RBAC_GROUP, resource, ns) && CanSome(a, WRITE, RBAC_GROUP, resource, ns)
  }

  ghost predicate BindsByName(rules: seq<Rule>, resource: string, n: string) {
    exists r :: r in rules && Hits(r, RBAC_GROUP, resource, ["bind"]) && n in r.resourceNames
  }

  predicate RoleReads(rules: seq<Rule>, owner: set<string>) {
    exists v | v in OwnerReaders.READ_VERBS ::
      OwnerReaders.AnyAllows(rules, v, None) || exists n | n in owner :: OwnerReaders.AnyAllows(rules, v, Some(n))
  }

  function RoleOf(docs: seq<Doc>, kind: string, n: string): Option<seq<Rule>> {
    Resolve(docs, RoleRef(kind, n), Some(NS), NS)
  }

  /** Binding this role in the release namespace reads an owner credential or holds a power; an unknown role might. */
  ghost predicate WorthBinding(docs: seq<Doc>, owner: set<string>, holder: Option<Account>, scene: Scene,
                               kind: string, n: string)
  {
    var bound := RoleOf(docs, kind, n);
    || bound.None?
    || RoleReads(bound.value, owner)
    || exists p, t :: HasPower(AuthorityOf(bound.value, Some(NS)), holder, scene, p, t)
  }

  /** Binds roles of this kind: every one of them (`n` None), or the one it names. */
  ghost predicate BindsKind(rules: seq<Rule>, scope: Option<string>, holder: Option<Account>, scene: Scene,
                            docs: seq<Doc>, owner: set<string>, t: Target)
  {
    match t
    case OnEveryRole(kind) =>
      RoleResource(kind).Some?
      && Can(AuthorityOf(rules, scope), ["bind"], RBAC_GROUP, RoleResource(kind).value, Some(NS), None)
    case OnRole(kind, n) =>
      RoleResource(kind).Some?
      && BindsByName(rules, RoleResource(kind).value, n) && WorthBinding(docs, owner, holder, scene, kind, n)
    case _ => false
  }

  predicate OfKind(t: Target, kind: string) {
    (t.OnEveryRole? && t.kind == kind) || (t.OnRole? && t.kind == kind)
  }

  ghost predicate HasBind(rules: seq<Rule>, scope: Option<string>, holder: Option<Account>, scene: Scene,
                          docs: seq<Doc>, owner: set<string>, t: Target)
  {
    var a := AuthorityOf(rules, scope);
    && Covers(scope, Some(NS))
    && (|| (WritesBindings(a) && BindsKind(rules, scope, holder, scene, docs, owner, t))
        || (t == OnEveryRole("Role") && Escalates(a, "roles", Some(NS)))
        || (t == OnEveryRole("ClusterRole") && Escalates(a, "clusterroles", None)))
  }

  method IsWorthBinding(docs: seq<Doc>, roles: map<RoleKey, seq<Rule>>, owner: set<string>, holder: Option<Account>,
                        scene: Scene, kind: string, n: string)
    returns (b: bool)
    requires forall key: RoleKey :: OwnerReaders.TableAgrees(roles, docs, |docs|, key, NS)
    ensures b <==> WorthBinding(docs, owner, holder, scene, kind, n)
  {
    var bound := OwnerReaders.ResolveIn(roles, RoleRef(kind, n), Some(NS), docs, NS);
    if bound.None? || RoleReads(bound.value, owner) {
      return true;
    }
    var got := DirectPowers(bound.value, Some(NS), holder, scene);
    b := got != {};
    if b {
      var x :| x in got;
      assert HasPower(AuthorityOf(bound.value, Some(NS)), holder, scene, x.0, x.1);
    }
  }

  method BindKind(rules: seq<Rule>, scope: Option<string>, holder: Option<Account>, scene: Scene, docs: seq<Doc>,
                  roles: map<RoleKey, seq<Rule>>, owner: set<string>, kind: string, resource: string)
    returns (got: set<Target>)
    requires Covers(scope, Some(NS)) && RoleResource(kind) == Some(resource)
    requires forall key: RoleKey :: OwnerReaders.TableAgrees(roles, docs, |docs|, key, NS)
    ensures forall t :: t in got <==>
        OfKind(t, kind) && BindsKind(rules, scope, holder, scene, docs, owner, t)
  {
    var hit, every, names := Grant(rules, RBAC_GROUP, resource, ["bind"]);
    GrantMeans(rules, scope, RBAC_GROUP, resource, ["bind"], Some(NS), None);
    got := if hit && every then {OnEveryRole(kind)} else {};
    ghost var start := got;
    var todo := names;
    while todo != {}
      invariant todo <= names
      invariant forall t :: t in got <==>
          || t in start
          || (t.OnRole? && t.kind == kind && t.name in names - todo && WorthBinding(docs, owner, holder, scene, kind, t.name))
    {
      var n :| n in todo;
      todo := todo - {n};
      var worth := IsWorthBinding(docs, roles, owner, holder, scene, kind, n);
      if worth {
        got := got + {OnRole(kind, n)};
      }
    }
  }

  method EscalatesIn(rules: seq<Rule>, scope: Option<string>, resource: string, ns: Option<string>) returns (b: bool)
    ensures b <==> Escalates(AuthorityOf(rules, scope), resource, ns)
  {
    var escalates := ReachesSome(rules, scope, ["escalate"], RBAC_GROUP, resource, ns);
    var writes := ReachesSome(rules, scope, WRITE, RBAC_GROUP, resource, ns);
    b := escalates && writes;
  }

  method BindEither(rules: seq<Rule>, scope: Option<string>, holder: Option<Account>, scene: Scene, docs: seq<Doc>,
                    roles: map<RoleKey, seq<Rule>>, owner: set<string>)
    returns (got: set<Target>)
    requires Covers(scope, Some(NS))
    requires forall key: RoleKey :: OwnerReaders.TableAgrees(roles, docs, |docs|, key, NS)
    ensures forall t :: t in got <==>
        WritesBindings(AuthorityOf(rules, scope)) && BindsKind(rules, scope, holder, scene, docs, owner, t)
  {
    got := {};
    var local := ReachesSome(rules, scope, WRITE, RBAC_GROUP, "rolebindings", Some(NS));
    var wide := ReachesSome(rules, scope, WRITE, RBAC_GROUP, "clusterrolebindings", None);
    if local || wide {
      var clusterRoles := BindKind(rules, scope, holder, scene, docs, roles, owner, "ClusterRole", "clusterroles");
      var localRoles := BindKind(rules, scope, holder, scene, docs, roles, owner, "Role", "roles");
      got := clusterRoles + localRoles;
    }
  }

  method BindPowers(rules: seq<Rule>, scope: Option<string>, holder: Option<Account>, scene: Scene, docs: seq<Doc>,
                    roles: map<RoleKey, seq<Rule>>, owner: set<string>)
    returns (got: set<Target>)
    requires forall key: RoleKey :: OwnerReaders.TableAgrees(roles, docs, |docs|, key, NS)
    ensures forall t :: t in got <==> HasBind(rules, scope, holder, scene, docs, owner, t)
  {
    got := {};
    if !Covers(scope, Some(NS)) {
      return;
    }
    got := BindEither(rules, scope, holder, scene, docs, roles, owner);
    var escalates := EscalatesIn(rules, scope, "roles", Some(NS));
    if escalates {
      got := got + {OnEveryRole("Role")};
    }
    escalates := EscalatesIn(rules, scope, "clusterroles", None);
    if escalates {
      got := got + {OnEveryRole("ClusterRole")};
    }
  }

  /** `powers` at depth 0. */
  method Powers(rules: seq<Rule>, scope: Option<string>, holder: Option<Account>, scene: Scene, docs: seq<Doc>,
                roles: map<RoleKey, seq<Rule>>, owner: set<string>)
    returns (got: set<Reach>)
    requires forall key: RoleKey :: OwnerReaders.TableAgrees(roles, docs, |docs|, key, NS)
    ensures forall p, t :: (p, t) in got <==>
        || HasPower(AuthorityOf(rules, scope), holder, scene, p, t)
        || (p == Bind && HasBind(rules, scope, holder, scene, docs, owner, t))
  {
    var direct := DirectPowers(rules, scope, holder, scene);
    var binds := BindPowers(rules, scope, holder, scene, docs, roles, owner);
    got := direct + (set t | t in binds :: (Bind, t));
  }
}
