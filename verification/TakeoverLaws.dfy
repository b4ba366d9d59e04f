/** What holds of the takeover powers over every rule list, scope and render. */
module TakeoverLaws {
  import opened Prelude
  import opened Rbac
  import opened Takeover
  import OwnerReaders

  // ------------------------------------------- powers are a union of requests

  lemma CanOfUnion(a: iset<Request>, b: iset<Request>, verbs: seq<string>, group: string, resource: string,
                   ns: Option<string>, name: Option<string>)
    ensures Can(a + b, verbs, group, resource, ns, name) <==>
        Can(a, verbs, group, resource, ns, name) || Can(b, verbs, group, resource, ns, name)
  {
  }

  lemma CanSomeOfUnion(a: iset<Request>, b: iset<Request>, verbs: seq<string>, group: string, resource: string,
                       ns: Option<string>)
    ensures CanSome(a + b, verbs, group, resource, ns) <==>
        CanSome(a, verbs, group, resource, ns) || CanSome(b, verbs, group, resource, ns)
  {
    forall name {
      CanOfUnion(a, b, verbs, group, resource, ns, name);
    }
  }

  lemma OnPodsOfUnion(a: iset<Request>, b: iset<Request>, verbs: seq<string>, resource: string, w: Workload)
    ensures OnPods(a + b, verbs, resource, w) <==> OnPods(a, verbs, resource, w) || OnPods(b, verbs, resource, w)
  {
    CanOfUnion(a, b, verbs, "", resource, Some(w.ns), None);
    forall n {
      CanOfUnion(a, b, verbs, "", resource, Some(w.ns), Some(n));
    }
  }

  lemma WorkloadOfUnion(a: iset<Request>, b: iset<Request>, w: Workload, p: Power)
    ensures OverWorkload(a + b, w, p) <==> OverWorkload(a, w, p) || OverWorkload(b, w, p)
  {
    CanSomeOfUnion(a, b, ["get", "create"], "", "nodes/proxy", None);
    forall e | e in EXEC_SUBRESOURCES {
      OnPodsOfUnion(a, b, e.1, e.0, w);
    }
    OnPodsOfUnion(a, b, EDIT, "pods", w);
    if KindResource(w.kind).Some? {
      var (g, r) := KindResource(w.kind).value;
      CanOfUnion(a, b, EDIT, g, r, Some(w.ns), Some(w.name));
    }
  }

  lemma AccountOfUnion(a: iset<Request>, b: iset<Request>, sa: Account, p: Power)
    ensures OverAccount(a + b, sa, p) <==> OverAccount(a, sa, p) || OverAccount(b, sa, p)
  {
    CanOfUnion(a, b, ["create"], "", "serviceaccounts/token", Some(sa.ns), Some(sa.name));
    CanOfUnion(a, b, ["impersonate"], "", "serviceaccounts", Some(sa.ns), Some(sa.name));
    CanOfUnion(a, b, ["impersonate"], "", "users", None, Some(UserOf(sa)));
  }

  /** Exec, patch, create-pod, token and impersonate: an authority has a power exactly when one of its parts has it. */
  lemma PowerOfUnion(a: iset<Request>, b: iset<Request>, holder: Option<Account>, scene: Scene, p: Power, t: Target)
    ensures HasPower(a + b, holder, scene, p, t) <==> HasPower(a, holder, scene, p, t) || HasPower(b, holder, scene, p, t)
  {
    hide OverWorkload, OverAccount;
    forall w | w in scene.targets {
      WorkloadOfUnion(a, b, w, p);
    }
    forall m | m in POD_MAKERS {
      CanSomeOfUnion(a, b, ["create"], m.0, m.1, Some(NS));
    }
    if t.OnAccount? {
      AccountOfUnion(a, b, t.account, p);
    }
  }

  /** A wider authority keeps every power. */
  lemma {:induction false} PowerIsMonotone(a: iset<Request>, b: iset<Request>, holder: Option<Account>, scene: Scene, p: Power, t: Target)
    requires a <= b
    ensures HasPower(a, holder, scene, p, t) ==> HasPower(b, holder, scene, p, t)
  {
    assert a + b == b;
    PowerOfUnion(a, b, holder, scene, p, t);
  }

  lemma RulesAllowConcat(x: seq<Rule>, y: seq<Rule>, req: Request)
    ensures RulesAllow(x + y, req) <==> RulesAllow(x, req) || RulesAllow(y, req)
  {
  }

  lemma AuthorityOfConcat(x: seq<Rule>, y: seq<Rule>, scope: Option<string>)
    ensures AuthorityOf(x + y, scope) == AuthorityOf(x, scope) + AuthorityOf(y, scope)
  {
    forall req: Request {
      RulesAllowConcat(x, y, req);
    }
  }

  /** Evaluating rule lists one binding at a time finds exactly the direct powers of the merged list. */
  lemma {:induction false} PowersDistribute(x: seq<Rule>, y: seq<Rule>, scope: Option<string>, holder: Option<Account>, scene: Scene,
                         p: Power, t: Target)
    ensures HasPower(AuthorityOf(x + y, scope), holder, scene, p, t) <==>
        || HasPower(AuthorityOf(x, scope), holder, scene, p, t)
        || HasPower(AuthorityOf(y, scope), holder, scene, p, t)
  {
    AuthorityOfConcat(x, y, scope);
    PowerOfUnion(AuthorityOf(x, scope), AuthorityOf(y, scope), holder, scene, p, t);
  }

  // ------------------------------------------------------------------- bind

  predicate Widens(narrow: Option<string>, wide: Option<string>) {
    wide.None? || wide == narrow
  }

  lemma AuthorityWidens(x: seq<Rule>, y: seq<Rule>, narrow: Option<string>, wide: Option<string>)
    requires (forall r :: r in x ==> r in y) && Widens(narrow, wide)
    ensures AuthorityOf(x, narrow) <= AuthorityOf(y, wide)
  {
    forall req: Request {
      MoreRulesAllowMore(x, y, req);
    }
  }

  /** Direct powers grow with the rules and with the scope. */
  lemma {:induction false} PowersGrow(x: seq<Rule>, y: seq<Rule>, narrow: Option<string>, wide: Option<string>, holder: Option<Account>,
                   scene: Scene, p: Power, t: Target)
    requires (forall r :: r in x ==> r in y) && Widens(narrow, wide)
    ensures HasPower(AuthorityOf(x, narrow), holder, scene, p, t) ==> HasPower(AuthorityOf(y, wide), holder, scene, p, t)
  {
    AuthorityWidens(x, y, narrow, wide);
    PowerIsMonotone(AuthorityOf(x, narrow), AuthorityOf(y, wide), holder, scene, p, t);
  }

  lemma CanSomeGrows(a: iset<Request>, b: iset<Request>, verbs: seq<string>, group: string, resource: string,
                     ns: Option<string>)
    requires a <= b
    ensures CanSome(a, verbs, group, resource, ns) ==> CanSome(b, verbs, group, resource, ns)
  {
    assert a + b == b;
    CanSomeOfUnion(a, b, verbs, group, resource, ns);
  }

  lemma EscalatesGrows(a: iset<Request>, b: iset<Request>, resource: string, ns: Option<string>)
    requires a <= b
    ensures Escalates(a, resource, ns) ==> Escalates(b, resource, ns)
  {
    CanSomeGrows(a, b, ["escalate"], RBAC_GROUP, resource, ns);
    CanSomeGrows(a, b, WRITE, RBAC_GROUP, resource, ns);
  }

  /** So does bind, although it needs two grants at once. */
  lemma BindGrows(x: seq<Rule>, y: seq<Rule>, narrow: Option<string>, wide: Option<string>, holder: Option<Account>,
                  scene: Scene, docs: seq<Doc>, owner: set<string>, t: Target)
    requires (forall r :: r in x ==> r in y) && Widens(narrow, wide)
    ensures HasBind(x, narrow, holder, scene, docs, owner, t) ==> HasBind(y, wide, holder, scene, docs, owner, t)
  {
    AuthorityWidens(x, y, narrow, wide);
    var a, b := AuthorityOf(x, narrow), AuthorityOf(y, wide);
    CanSomeGrows(a, b, WRITE, RBAC_GROUP, "rolebindings", Some(NS));
    CanSomeGrows(a, b, WRITE, RBAC_GROUP, "clusterrolebindings", None);
    EscalatesGrows(a, b, "roles", Some(NS));
    EscalatesGrows(a, b, "clusterroles", None);
  }

  /** A rule list that holds none of these verbs cannot use them. */
  lemma VerbUnheld(rules: seq<Rule>, scope: Option<string>, verbs: seq<string>, group: string, resource: string,
                   ns: Option<string>)
    requires forall r, v :: r in rules && v in verbs ==> !Lists(r.verbs, v)
    ensures !CanSome(AuthorityOf(rules, scope), verbs, group, resource, ns)
  {
    HitMeans(rules, scope, group, resource, verbs, ns);
  }

  lemma NoBindWithoutVerb(rules: seq<Rule>, scope: Option<string>, holder: Option<Account>, scene: Scene,
                          docs: seq<Doc>, owner: set<string>, t: Target)
    requires || (forall r :: r in rules ==> !Lists(r.verbs, "bind") && !Lists(r.verbs, "escalate"))
             || (forall r, v :: r in rules && v in WRITE ==> !Lists(r.verbs, v))
    ensures !HasBind(rules, scope, holder, scene, docs, owner, t)
  {
    if forall r :: r in rules ==> !Lists(r.verbs, "bind") && !Lists(r.verbs, "escalate") {
      VerbUnheld(rules, scope, ["escalate"], RBAC_GROUP, "roles", Some(NS));
      VerbUnheld(rules, scope, ["escalate"], RBAC_GROUP, "clusterroles", None);
      if t.OnEveryRole? && RoleResource(t.kind).Some? {
        VerbUnheld(rules, scope, ["bind"], RBAC_GROUP, RoleResource(t.kind).value, Some(NS));
      }
    } else {
      VerbUnheld(rules, scope, WRITE, RBAC_GROUP, "rolebindings", Some(NS));
      VerbUnheld(rules, scope, WRITE, RBAC_GROUP, "clusterrolebindings", None);
      VerbUnheld(rules, scope, WRITE, RBAC_GROUP, "roles", Some(NS));
      VerbUnheld(rules, scope, WRITE, RBAC_GROUP, "clusterroles", None);
    }
  }

  function PlainRule(group: string, resource: string, verb: string): Rule {
    Rule([group], [resource], [verb], [])
  }

  lemma PlainRuleHits(group: string, resource: string, verb: string, verbs: seq<string>)
    requires verb in verbs
    ensures Hits(PlainRule(group, resource, verb), group, resource, verbs)
  {
    assert Reaches(resource, resource);
    assert PlainRule(group, resource, verb).resources[0] == resource;
    assert PlainRule(group, resource, verb).verbs[0] == verb;
    assert PlainRule(group, resource, verb).apiGroups[0] == group;
  }

  lemma WritesRoleBindings(writes: Rule, rules: seq<Rule>)
    requires writes == PlainRule(RBAC_GROUP, "rolebindings", "create") && writes in rules
    ensures WritesBindings(AuthorityOf(rules, Some(NS)))
  {
    assert WRITE[0] == "create";
    PlainRuleHits(RBAC_GROUP, "rolebindings", "create", WRITE);
    HitMeans(rules, Some(NS), RBAC_GROUP, "rolebindings", WRITE, Some(NS));
  }

  lemma BindsClusterRoles(binds: Rule, rules: seq<Rule>)
    requires binds == PlainRule(RBAC_GROUP, "clusterroles", "bind") && binds in rules
    ensures Can(AuthorityOf(rules, Some(NS)), ["bind"], RBAC_GROUP, "clusterroles", Some(NS), None)
  {
    PlainRuleHits(RBAC_GROUP, "clusterroles", "bind", ["bind"]);
    GrantMeans(rules, Some(NS), RBAC_GROUP, "clusterroles", ["bind"], Some(NS), None);
  }

  /** Both halves of bind in one list: RoleBindings are written, and every ClusterRole may be bound. */
  lemma BothGrantsBind(writes: Rule, binds: Rule, holder: Option<Account>, scene: Scene, docs: seq<Doc>, owner: set<string>)
    requires writes == PlainRule(RBAC_GROUP, "rolebindings", "create")
    requires binds == PlainRule(RBAC_GROUP, "clusterroles", "bind")
    ensures HasBind([writes, binds], Some(NS), holder, scene, docs, owner, OnEveryRole("ClusterRole"))
  {
    var both := [writes, binds];
    hide AuthorityOf, WritesBindings, Can, PlainRule, WorthBinding;
    assert both[0] == writes && both[1] == binds;
    WritesRoleBindings(writes, both);
    BindsClusterRoles(binds, both);
  }

  /** Bind does not distribute: one rule list writes RoleBindings, another binds ClusterRoles, and only the two
      together bind. A holder with both through two bindings is not reported. */
  lemma BindNeedsBothGrants(holder: Option<Account>, scene: Scene, docs: seq<Doc>, owner: set<string>)
    ensures exists x, y ::
        && HasBind(x + y, Some(NS), holder, scene, docs, owner, OnEveryRole("ClusterRole"))
        && (forall t :: !HasBind(x, Some(NS), holder, scene, docs, owner, t))
        && (forall t :: !HasBind(y, Some(NS), holder, scene, docs, owner, t))
  {
    var writes := PlainRule(RBAC_GROUP, "rolebindings", "create");
    var binds := PlainRule(RBAC_GROUP, "clusterroles", "bind");
    forall t
      ensures !HasBind([writes], Some(NS), holder, scene, docs, owner, t)
      ensures !HasBind([binds], Some(NS), holder, scene, docs, owner, t)
    {
      NoBindWithoutVerb([writes], Some(NS), holder, scene, docs, owner, t);
      NoBindWithoutVerb([binds], Some(NS), holder, scene, docs, owner, t);
    }
    assert [writes] + [binds] == [writes, binds];
    BothGrantsBind(writes, binds, holder, scene, docs, owner);
  }
}
