/** scripts/check-owner-credential-readers.py: which requests a takeover comes down to. */
module TakeoverRequests {
  import opened Prelude
  import opened Rbac
  import OwnerReaders
  import opened Takeover

  predicate Verb(req: Request, verbs: seq<string>) {
    req.verb in verbs
  }

  /** The names a pod of the workload is known to have: a bare pod's own, or a StatefulSet's with a number behind a dash. */
  ghost predicate IsPodOf(w: Workload, n: string) {
    (w.kind == "Pod" && n == w.name)
    || (w.kind == "StatefulSet" && exists digits :: digits != "" && AllDigits(digits) && n == w.name + ("-" + digits))
  }

  predicate AllDigits(s: string) {
    forall k :: 0 <= k < |s| ==> '0' <= s[k] <= '9'
  }

  /** A request on every pod of the workload's namespace, or on one of its own. */
  ghost predicate OnPodsOf(req: Request, w: Workload, resource: string) {
    && req.group == "" && req.resource == resource && req.ns == Some(w.ns)
    && (req.name == None || exists n :: IsPodOf(w, n) && req.name == Some(n))
  }

  /** Running a command in a pod of the workload: through its node, or through one of three subresources. */
  ghost predicate RunsIn(req: Request, w: Workload) {
    || (req.group == "" && req.resource == "nodes/proxy" && req.ns == None && Verb(req, ["get", "create"]))
    || (OnPodsOf(req, w, "pods/exec") && Verb(req, ["create", "get"]))
    || (OnPodsOf(req, w, "pods/attach") && Verb(req, ["create", "get"]))
    || (OnPodsOf(req, w, "pods/ephemeralcontainers") && Verb(req, ["patch", "update"]))
  }

  /** The resource of the kinds whose pod template can be changed. */
  predicate HasTemplate(kind: string, group: string, resource: string) {
    || (kind == "Deployment" && group == "apps" && resource == "deployments")
    || (kind == "StatefulSet" && group == "apps" && resource == "statefulsets")
    || (kind == "DaemonSet" && group == "apps" && resource == "daemonsets")
    || (kind == "ReplicaSet" && group == "apps" && resource == "replicasets")
    || (kind == "CronJob" && group == "batch" && resource == "cronjobs")
  }

  /** Changing a pod of the workload, or the template its pods are made from. */
  ghost predicate Changes(req: Request, w: Workload) {
    && Verb(req, ["patch", "update"])
    && (|| OnPodsOf(req, w, "pods")
        || (HasTemplate(w.kind, req.group, req.resource) && req.ns == Some(w.ns) && req.name == Some(w.name)))
  }

  /** Creating, in the release namespace, something that makes a pod run. */
  predicate MakesAPod(req: Request) {
    && req.verb == "create" && req.ns == Some(NS)
    && (|| (req.group == "" && (req.resource == "pods" || req.resource == "replicationcontrollers"))
        || (req.group == "apps"
            && (req.resource == "deployments" || req.resource == "statefulsets" || req.resource == "daemonsets"
                || req.resource == "replicasets"))
        || (req.group == "batch" && (req.resource == "jobs" || req.resource == "cronjobs")))
  }

  /** Minting a token of the account. */
  predicate Mints(req: Request, sa: Account) {
    req == Request("create", "", "serviceaccounts/token", Some(sa.ns), Some(sa.name))
  }

  /** Acting as the account, as a ServiceAccount or under its user name. */
  predicate Impersonates(req: Request, sa: Account) {
    || req == Request("impersonate", "", "serviceaccounts", Some(sa.ns), Some(sa.name))
    || req == Request("impersonate", "", "users", None, Some("system:serviceaccount:" + sa.ns + ":" + sa.name))
  }

  /** A request that by itself gives the power over the target. */
  ghost predicate GivesPower(req: Request, holder: Option<Account>, scene: Scene, p: Power, t: Target) {
    match p
    case Exec => exists w :: w in scene.targets && IsOthers(w, holder, t) && RunsIn(req, w)
    case Patch => exists w :: w in scene.targets && IsOthers(w, holder, t) && Changes(req, w)
    case CreatePod => t == OnNamespace("gibson") && MakesAPod(req)
    case Token => t.OnAccount? && t.account in scene.sas && holder != Some(t.account) && Mints(req, t.account)
    case Impersonate => t.OnAccount? && t.account in scene.sas && holder != Some(t.account) && Impersonates(req, t.account)
    case Bind => false
  }

  /** The target is this workload, and its account is not the holder. */
  predicate IsOthers(w: Workload, holder: Option<Account>, t: Target) {
    t == OnWorkload(w.kind, w.name) && holder != Some(Account(w.ns, w.sa))
  }

  // ------------------------------------------------------------------- proofs

  lemma OrdinalIff(name: string, n: string)
    ensures OrdinalName(name, n) <==> exists digits :: digits != "" && AllDigits(digits) && n == name + ("-" + digits)
  {
    hide OrdinalName;
    if OrdinalName(name, n) {
      OrdinalSplits(name, n);
    }
    if digits :| digits != "" && AllDigits(digits) && n == name + ("-" + digits) {
      OrdinalJoins(name, digits, "-");
    }
  }

  lemma OrdinalSplits(name: string, n: string)
    requires OrdinalName(name, n)
    ensures var digits := n[|name| + 1..]; digits != "" && AllDigits(digits) && n == name + ("-" + digits)
  {
    assert n[..|name| + 1] == name + "-";
    var from := |name| + 1;
    var digits := n[from..];
    assert forall k :: 0 <= k < |digits| ==> digits[k] == n[from + k];
  }

  lemma OrdinalJoins(name: string, digits: string, dash: string)
    requires digits != "" && AllDigits(digits) && dash == "-"
    ensures OrdinalName(name, name + (dash + digits))
  {
    var n := name + (dash + digits);
    assert n[..|name| + 1] == name + dash;
    assert forall k :: |name| < k < |n| ==> n[k] == digits[k - |name| - 1];
  }

  lemma PodNamedIff(w: Workload, n: string)
    ensures PodNamed(w, n) <==> IsPodOf(w, n)
  {
    OrdinalIff(w.name, n);
  }

  lemma OnPodsIff(a: iset<Request>, verbs: seq<string>, resource: string, w: Workload)
    ensures OnPods(a, verbs, resource, w) <==> exists req :: req in a && OnPodsOf(req, w, resource) && Verb(req, verbs)
  {
    hide PodNamed, IsPodOf;
    forall n
      ensures PodNamed(w, n) <==> IsPodOf(w, n)
    {
      PodNamedIff(w, n);
    }
    if req :| req in a && OnPodsOf(req, w, resource) && Verb(req, verbs) {
      assert req == Request(req.verb, "", resource, Some(w.ns), req.name);
      assert Can(a, verbs, "", resource, Some(w.ns), req.name);
    }
    if OnPods(a, verbs, resource, w) {
      var name: Option<string> := None;
      if !Can(a, verbs, "", resource, Some(w.ns), None) {
        var n :| PodNamed(w, n) && Can(a, verbs, "", resource, Some(w.ns), Some(n));
        name := Some(n);
      }
      var v :| v in verbs && Request(v, "", resource, Some(w.ns), name) in a;
      var req := Request(v, "", resource, Some(w.ns), name);
      assert req in a && OnPodsOf(req, w, resource) && Verb(req, verbs);
    }
  }

  lemma CanSomeIff(a: iset<Request>, verbs: seq<string>, group: string, resource: string, ns: Option<string>)
    ensures CanSome(a, verbs, group, resource, ns) <==>
        exists req :: req in a && Verb(req, verbs) && req.group == group && req.resource == resource && req.ns == ns
  {
    if name, v :| v in verbs && Request(v, group, resource, ns, name) in a {
      assert Verb(Request(v, group, resource, ns, name), verbs);
    }
    if req :| req in a && Verb(req, verbs) && req.group == group && req.resource == resource && req.ns == ns {
      assert req == Request(req.verb, group, resource, ns, req.name);
      assert Can(a, verbs, group, resource, ns, req.name);
    }
  }

  lemma CanIff(a: iset<Request>, verbs: seq<string>, group: string, resource: string, ns: Option<string>, name: Option<string>)
    ensures Can(a, verbs, group, resource, ns, name) <==>
        exists req :: req in a && Verb(req, verbs) && req == Request(req.verb, group, resource, ns, name)
  {
    if v :| v in verbs && Request(v, group, resource, ns, name) in a {
      assert Verb(Request(v, group, resource, ns, name), verbs);
    }
  }

  lemma ExecIff(a: iset<Request>, w: Workload)
    ensures ExecReach(a, w) <==> exists req :: req in a && RunsIn(req, w)
  {
    hide OnPods, OnPodsOf, CanSome, Verb;
    CanSomeIff(a, ["get", "create"], "", "nodes/proxy", None);
    OnPodsIff(a, ["create", "get"], "pods/exec", w);
    OnPodsIff(a, ["create", "get"], "pods/attach", w);
    OnPodsIff(a, ["patch", "update"], "pods/ephemeralcontainers", w);
    assert EXEC_SUBRESOURCES[0] == ("pods/exec", ["create", "get"]);
    assert EXEC_SUBRESOURCES[1] == ("pods/attach", ["create", "get"]);
    assert EXEC_SUBRESOURCES[2] == ("pods/ephemeralcontainers", ["patch", "update"]);
  }

  lemma TemplateIff(kind: string, group: string, resource: string)
    ensures HasTemplate(kind, group, resource) <==> kind != "Pod" && KindResource(kind) == Some((group, resource))
  {
  }

  lemma PatchIff(a: iset<Request>, w: Workload)
    ensures PatchReach(a, w) <==> exists req :: req in a && Changes(req, w)
  {
    hide OnPods, OnPodsOf, Can, Verb, HasTemplate, KindResource;
    OnPodsIff(a, ["patch", "update"], "pods", w);
    forall group, resource
      ensures HasTemplate(w.kind, group, resource) <==> w.kind != "Pod" && KindResource(w.kind) == Some((group, resource))
    {
      TemplateIff(w.kind, group, resource);
    }
    if w.kind != "Pod" && KindResource(w.kind).Some? {
      var (g, r) := KindResource(w.kind).value;
      CanIff(a, ["patch", "update"], g, r, Some(w.ns), Some(w.name));
    }
  }

  lemma MakesIff(a: iset<Request>)
    ensures MakesPods(a) <==> exists req :: req in a && MakesAPod(req)
  {
    hide CanSome;
    forall m | m in POD_MAKERS
      ensures CanSome(a, ["create"], m.0, m.1, Some(NS)) <==>
          exists req :: req in a && Verb(req, ["create"]) && req.group == m.0 && req.resource == m.1 && req.ns == Some(NS)
    {
      CanSomeIff(a, ["create"], m.0, m.1, Some(NS));
    }
    assert forall req :: MakesAPod(req) <==> Verb(req, ["create"]) && req.ns == Some(NS) && (req.group, req.resource) in POD_MAKERS;
  }

  lemma AccountIff(a: iset<Request>, sa: Account)
    ensures MintsToken(a, sa) <==> exists req :: req in a && Mints(req, sa)
    ensures ActsAs(a, sa) <==> exists req :: req in a && Impersonates(req, sa)
  {
    hide Can;
    CanIff(a, ["create"], "", "serviceaccounts/token", Some(sa.ns), Some(sa.name));
    CanIff(a, ["impersonate"], "", "serviceaccounts", Some(sa.ns), Some(sa.name));
    CanIff(a, ["impersonate"], "", "users", None, Some(UserOf(sa)));
  }

  /** An authority holds a power exactly when one request in it gives the power by itself; bind, which takes two, is not one
      of them. */
  lemma PowerIsOneRequest(a: iset<Request>, holder: Option<Account>, scene: Scene, p: Power, t: Target)
    ensures HasPower(a, holder, scene, p, t) <==> exists req :: req in a && GivesPower(req, holder, scene, p, t)
  {
    hide ExecReach, PatchReach, MakesPods, MintsToken, ActsAs, RunsIn, Changes, MakesAPod, Mints, Impersonates;
    forall w
      ensures ExecReach(a, w) <==> exists req :: req in a && RunsIn(req, w)
      ensures PatchReach(a, w) <==> exists req :: req in a && Changes(req, w)
    {
      ExecIff(a, w);
      PatchIff(a, w);
    }
    MakesIff(a);
    if t.OnAccount? {
      AccountIff(a, t.account);
    }
  }

  // --------------------------------------------------------------------- bind

  predicate Writes(req: Request) {
    req.verb == "create" || req.verb == "update" || req.verb == "patch"
  }

  predicate OfRbac(req: Request) {
    req.group == "rbac.authorization.k8s.io"
  }

  /** Writing a binding that takes effect in the release namespace. */
  predicate WritesBinding(req: Request) {
    Writes(req) && OfRbac(req)
    && ((req.resource == "rolebindings" && req.ns == Some(NS)) || (req.resource == "clusterrolebindings" && req.ns == None))
  }

  predicate IsRoleKind(kind: string, resource: string) {
    (kind == "Role" && resource == "roles") || (kind == "ClusterRole" && resource == "clusterroles")
  }

  /** Binding every role of the kind. */
  predicate BindsEvery(req: Request, kind: string) {
    req.verb == "bind" && OfRbac(req) && IsRoleKind(kind, req.resource) && req.ns == Some(NS) && req.name == None
  }

  /** A request on the roles of the kind where they live: in the release namespace, or in the cluster. */
  predicate OnRoles(req: Request, kind: string) {
    OfRbac(req) && IsRoleKind(kind, req.resource) && req.ns == (if kind == "Role" then Some(NS) else None)
  }

  lemma WritesBindingsIff(a: iset<Request>)
    ensures WritesBindings(a) <==> exists req :: req in a && WritesBinding(req)
  {
    hide CanSome;
    CanSomeIff(a, WRITE, RBAC_GROUP, "rolebindings", Some(NS));
    CanSomeIff(a, WRITE, RBAC_GROUP, "clusterrolebindings", None);
    assert forall req :: Verb(req, WRITE) <==> Writes(req);
  }

  lemma EscalatesIff(a: iset<Request>, kind: string, resource: string)
    requires IsRoleKind(kind, resource)
    ensures Escalates(a, resource, if kind == "Role" then Some(NS) else None) <==>
        && (exists req :: req in a && req.verb == "escalate" && OnRoles(req, kind))
        && exists req :: req in a && Writes(req) && OnRoles(req, kind)
  {
    hide CanSome;
    var ns := if kind == "Role" then Some(NS) else None;
    CanSomeIff(a, ["escalate"], RBAC_GROUP, resource, ns);
    CanSomeIff(a, WRITE, RBAC_GROUP, resource, ns);
    assert forall req :: Verb(req, WRITE) <==> Writes(req);
    assert forall req :: Verb(req, ["escalate"]) <==> req.verb == "escalate";
  }

  lemma BindsEveryIff(a: iset<Request>, kind: string, resource: string)
    requires IsRoleKind(kind, resource)
    ensures Can(a, ["bind"], RBAC_GROUP, resource, Some(NS), None) <==> exists req :: req in a && BindsEvery(req, kind)
  {
    hide Can;
    CanIff(a, ["bind"], RBAC_GROUP, resource, Some(NS), None);
    assert forall req :: Verb(req, ["bind"]) <==> req.verb == "bind";
    if req :| req in a && BindsEvery(req, kind) {
      assert req == Request(req.verb, RBAC_GROUP, resource, Some(NS), None);
    }
  }

  /** Every role of a kind is bindable through two requests: a binding is written and the roles are bound, or the roles are
      written and escalated. */
  lemma BindIsTwoRequests(rules: seq<Rule>, scope: Option<string>, holder: Option<Account>, scene: Scene, docs: seq<Doc>,
                          owner: set<string>, kind: string)
    ensures HasBind(rules, scope, holder, scene, docs, owner, OnEveryRole(kind)) <==>
        var a := AuthorityOf(rules, scope);
        && Covers(scope, Some(NS)) && (kind == "Role" || kind == "ClusterRole")
        && (|| ((exists req :: req in a && WritesBinding(req)) && exists req :: req in a && BindsEvery(req, kind))
            || ((exists req :: req in a && req.verb == "escalate" && OnRoles(req, kind))
                && exists req :: req in a && Writes(req) && OnRoles(req, kind)))
  {
    hide AuthorityOf, Can, WritesBindings, Escalates, WorthBinding, WritesBinding, BindsEvery, OnRoles;
    var a := AuthorityOf(rules, scope);
    WritesBindingsIff(a);
    if kind == "Role" {
      BindsEveryIff(a, kind, "roles");
      EscalatesIff(a, kind, "roles");
    } else if kind == "ClusterRole" {
      BindsEveryIff(a, kind, "clusterroles");
      EscalatesIff(a, kind, "clusterroles");
    }
  }

  /** A role bound by name: a binding is written, a rule binds it by that name, and it is worth binding. */
  lemma NamedBindIs(rules: seq<Rule>, scope: Option<string>, holder: Option<Account>, scene: Scene, docs: seq<Doc>,
                    owner: set<string>, kind: string, n: string)
    ensures HasBind(rules, scope, holder, scene, docs, owner, OnRole(kind, n)) <==>
        && Covers(scope, Some(NS)) && (exists req :: req in AuthorityOf(rules, scope) && WritesBinding(req))
        && WorthBinding(docs, owner, holder, scene, kind, n)
        && exists r, resource :: r in rules && IsRoleKind(kind, resource) && r.resourceNames != []
             && RuleMatches(r, Request("bind", "rbac.authorization.k8s.io", resource, Some(NS), Some(n)))
  {
    hide AuthorityOf, WritesBindings, WorthBinding, WritesBinding, Reaches;
    WritesBindingsIff(AuthorityOf(rules, scope));
    forall r, resource
      ensures Hits(r, RBAC_GROUP, resource, ["bind"]) && n in r.resourceNames <==>
          r.resourceNames != [] && RuleMatches(r, Request("bind", RBAC_GROUP, resource, Some(NS), Some(n)))
    {
      assert AnyVerb(["bind"], r) <==> Lists(r.verbs, "bind");
    }
    hide Hits, RuleMatches;
  }

  /** A role reads an owner credential exactly when it allows a read of every Secret, or of one of them by name. */
  lemma RoleReadsIff(rules: seq<Rule>, owner: set<string>)
    ensures RoleReads(rules, owner) <==>
        exists v, n: Option<string> :: (v == "get" || v == "list" || v == "watch") && (n.Some? ==> n.value in owner)
                                       && RulesAllow(rules, Request(v, "", "secrets", Some("gibson"), n))
  {
    forall v: string, n: Option<string>
      ensures OwnerReaders.AnyAllows(rules, v, n) <==> RulesAllow(rules, Request(v, "", "secrets", Some("gibson"), n))
    {
      assert OwnerReaders.SecretRequest(v, n) == Request(v, "", "secrets", Some("gibson"), n);
    }
    hide OwnerReaders.AnyAllows, RulesAllow;
    assert forall v :: v in OwnerReaders.READ_VERBS <==> v == "get" || v == "list" || v == "watch";
    if RoleReads(rules, owner) {
      var v :| v in OwnerReaders.READ_VERBS
               && (OwnerReaders.AnyAllows(rules, v, None) || exists n | n in owner :: OwnerReaders.AnyAllows(rules, v, Some(n)));
      if OwnerReaders.AnyAllows(rules, v, None) {
        assert RulesAllow(rules, Request(v, "", "secrets", Some("gibson"), None));
      } else {
        var n :| n in owner && OwnerReaders.AnyAllows(rules, v, Some(n));
        assert RulesAllow(rules, Request(v, "", "secrets", Some("gibson"), Some(n)));
      }
    }
    forall v, n: Option<string> |
      && (v == "get" || v == "list" || v == "watch") && (n.Some? ==> n.value in owner)
      && RulesAllow(rules, Request(v, "", "secrets", Some("gibson"), n))
      ensures RoleReads(rules, owner)
    {
      assert v in OwnerReaders.READ_VERBS && OwnerReaders.AnyAllows(rules, v, n);
      assert OwnerReaders.AnyAllows(rules, v, None) || exists m | m in owner :: OwnerReaders.AnyAllows(rules, v, Some(m));
    }
  }
}
