/** The Kubernetes RBAC authorizer that every RBAC guard of the chart is measured against.

    A binding grants the rules of its role to its subjects, in one namespace or in all of them. A request is
    authorized when some binding that reaches its namespace, and names the account, holds a matching rule. */
module Rbac {
  import opened Prelude

  datatype Rule = Rule(apiGroups: seq<string>, resources: seq<string>, verbs: seq<string>, resourceNames: seq<string>)

  datatype RoleRef = RoleRef(kind: string, name: string)
  datatype SubjectRef = SubjectRef(kind: string, ns: Option<string>, name: string)

  datatype LabelTest = LabelTest(key: string, operator: string, values: seq<string>)
  datatype Selector = Selector(matchLabels: map<string, string>, matchExpressions: seq<LabelTest>)

  /** The rendered documents the guards read. `Other` stands for every kind they skip. */
  datatype Doc =
    | Role(ns: Option<string>, name: string, rules: seq<Rule>)
    | ClusterRole(name: string, labels: map<string, string>, rules: seq<Rule>, selectors: seq<Selector>)
    | RoleBinding(ns: Option<string>, name: string, ref: RoleRef, subjects: seq<SubjectRef>)
    | ClusterRoleBinding(name: string, ref: RoleRef, subjects: seq<SubjectRef>)
    | Other

  datatype Account = Account(ns: string, name: string)

  /** A request: `resource` carries its subresource after a slash, `ns` is None for a cluster-scoped request. */
  datatype Request = Request(verb: string, group: string, resource: string, ns: Option<string>, name: Option<string>)

  datatype Subject = ServiceAccount(account: Account) | Group(group: string) | Unrelated

  /** One effective binding: `scope` is None for every namespace. */
  datatype Binding = Binding(scope: Option<string>, subjects: seq<Subject>, rules: seq<Rule>)

  // ------------------------------------------------------------------ rules

  predicate Lists(listed: seq<string>, value: string) {
    value in listed || "*" in listed
  }

  /** One listed resource reaches `resource`: "*", the resource itself, or one half of a subresource. */
  predicate Reaches(listed: string, resource: string) {
    || listed == "*" || listed == resource
    || exists k | 0 <= k < |resource| ::
         && resource[k] == '/' && '/' !in resource[..k]
         && (listed == resource[..k] + "/*" || listed == "*/" + resource[k + 1..])
  }

  predicate Named(rule: Rule, name: Option<string>) {
    rule.resourceNames == [] || (name.Some? && name.value in rule.resourceNames)
  }

  ghost predicate RuleMatches(rule: Rule, req: Request) {
    && Lists(rule.apiGroups, req.group)
    && (exists r :: r in rule.resources && Reaches(r, req.resource))
    && Lists(rule.verbs, req.verb)
    && Named(rule, req.name)
  }

  ghost predicate RulesAllow(rules: seq<Rule>, req: Request) {
    exists r :: r in rules && RuleMatches(r, req)
  }

  // --------------------------------------------------------------- bindings

  predicate Covers(scope: Option<string>, ns: Option<string>) {
    scope.None? || scope == ns
  }

  /** The groups that hold every ServiceAccount, or every one of a namespace. */
  predicate HoldsAccount(group: string, who: Account) {
    || group == "system:serviceaccounts"
    || group == "system:authenticated"
    || group == "system:serviceaccounts:" + who.ns
  }

  predicate Names(s: Subject, who: Account) {
    match s
    case ServiceAccount(a) => a == who
    case Group(g) => HoldsAccount(g, who)
    case Unrelated => false
  }

  /** This binding authorizes the request for the account. */
  ghost predicate Allows(b: Binding, who: Account, req: Request) {
    Covers(b.scope, req.ns) && RulesAllow(b.rules, req) && exists s :: s in b.subjects && Names(s, who)
  }

  lemma MoreRulesAllowMore(few: seq<Rule>, many: seq<Rule>, req: Request)
    requires forall r :: r in few ==> r in many
    ensures RulesAllow(few, req) ==> RulesAllow(many, req)
  {
  }

  /** A resource without a slash is reached by "*" and by its own name only. */
  lemma ReachesPlain(listed: string, resource: string)
    requires '/' !in resource
    ensures Reaches(listed, resource) <==> listed == "*" || listed == resource
  {
  }

  // ------------------------------------------- from documents to bindings

  datatype RoleKey = RoleKey(kind: string, ns: string, name: string)

  predicate LabelTestPasses(labels: map<string, string>, t: LabelTest) {
    && (t.operator == "In" ==> t.key in labels && labels[t.key] in t.values)
    && (t.operator == "NotIn" ==> !(t.key in labels && labels[t.key] in t.values))
    && (t.operator == "Exists" ==> t.key in labels)
    && (t.operator == "DoesNotExist" ==> t.key !in labels)
  }

  predicate MatchesSelector(labels: map<string, string>, sel: Selector) {
    && (forall k :: k in sel.matchLabels ==> k in labels && labels[k] == sel.matchLabels[k])
    && (forall t :: t in sel.matchExpressions ==> LabelTestPasses(labels, t))
  }

  /** The rules that selector `sel` of ClusterRole `i` takes from the first `n` documents. */
  function Selected(docs: seq<Doc>, i: nat, sel: Selector, n: nat): seq<Rule>
    requires n <= |docs|
  {
    if n == 0 then [] else
      var d := docs[n - 1];
      Selected(docs, i, sel, n - 1)
      + (if n - 1 != i && d.ClusterRole? && MatchesSelector(d.labels, sel) then d.rules else [])
  }

  /** One level of aggregation: the role's own rules, then what its first `m` selectors take. */
  function Aggregated(docs: seq<Doc>, i: nat, m: nat): seq<Rule>
    requires i < |docs| && docs[i].ClusterRole? && m <= |docs[i].selectors|
  {
    if m == 0 then docs[i].rules
    else Aggregated(docs, i, m - 1) + Selected(docs, i, docs[i].selectors[m - 1], |docs|)
  }

  lemma {:induction false} AggregatedKeepsOwn(docs: seq<Doc>, i: nat, m: nat)
    requires i < |docs| && docs[i].ClusterRole? && m <= |docs[i].selectors|
    ensures docs[i].rules <= Aggregated(docs, i, m)
  {
    if m > 0 {
      AggregatedKeepsOwn(docs, i, m - 1);
    }
  }

  predicate Selects(docs: seq<Doc>, i: nat, sel: Selector, k: nat)
    requires k < |docs|
  {
    k != i && docs[k].ClusterRole? && MatchesSelector(docs[k].labels, sel)
  }

  lemma {:induction false} SelectedHolds(docs: seq<Doc>, i: nat, sel: Selector, n: nat, r: Rule)
    requires n <= |docs|
    ensures r in Selected(docs, i, sel, n) <==> exists k :: 0 <= k < n && Selects(docs, i, sel, k) && r in docs[k].rules
  {
    hide MatchesSelector;
    if n > 0 {
      SelectedHolds(docs, i, sel, n - 1, r);
    }
  }

  /** Aggregation adds exactly the rules of every other ClusterRole that one of the selectors matches. */
  lemma {:induction false} AggregatedHolds(docs: seq<Doc>, i: nat, m: nat, r: Rule)
    requires i < |docs| && docs[i].ClusterRole? && m <= |docs[i].selectors|
    ensures r in Aggregated(docs, i, m) <==>
        || r in docs[i].rules
        || exists j, k :: 0 <= j < m && 0 <= k < |docs| && Selects(docs, i, docs[i].selectors[j], k) && r in docs[k].rules
  {
    hide Selects, Selected;
    if m > 0 {
      AggregatedHolds(docs, i, m - 1, r);
      SelectedHolds(docs, i, docs[i].selectors[m - 1], |docs|, r);
    }
  }

  predicate Defines(d: Doc, key: RoleKey, defaultNs: string) {
    || (d.Role? && key == RoleKey("Role", OrElse(d.ns, defaultNs), d.name))
    || (d.ClusterRole? && key == RoleKey("ClusterRole", "", d.name))
  }

  function RulesOfDoc(docs: seq<Doc>, i: nat): seq<Rule>
    requires i < |docs| && (docs[i].Role? || docs[i].ClusterRole?)
  {
    if docs[i].Role? then docs[i].rules else Aggregated(docs, i, |docs[i].selectors|)
  }

  /** The rules of a role among the first `n` documents; the last definition of a key wins. */
  function Lookup(docs: seq<Doc>, n: nat, key: RoleKey, defaultNs: string): Option<seq<Rule>>
    requires n <= |docs|
  {
    if n == 0 then None
    else if Defines(docs[n - 1], key, defaultNs) then Some(RulesOfDoc(docs, n - 1))
    else Lookup(docs, n - 1, key, defaultNs)
  }

  /** The built-in ClusterRoles a chart may bind, with the reach the API server ships on Secrets. */
  function Builtin(name: string): Option<seq<Rule>> {
    var secrets := Rule([""], ["secrets"], ["get", "list", "watch"], []);
    if name == "cluster-admin" then Some([Rule(["*"], ["*"], ["*"], [])])
    else if name == "admin" || name == "edit" then Some([secrets])
    else if name == "view" || name == "system:auth-delegator" then Some([])
    else None
  }

  predicate IsBinding(d: Doc) {
    d.RoleBinding? || d.ClusterRoleBinding?
  }

  function ScopeOf(d: Doc, defaultNs: string): Option<string>
    requires IsBinding(d)
  {
    if d.RoleBinding? then Some(OrElse(d.ns, defaultNs)) else None
  }

  /** The rules a roleRef resolves to from a binding of this scope; None when no document defines the role. */
  function Resolve(docs: seq<Doc>, ref: RoleRef, scope: Option<string>, defaultNs: string): Option<seq<Rule>> {
    if ref.kind == "Role" then
      if scope.None? then None else Lookup(docs, |docs|, RoleKey("Role", scope.value, ref.name), defaultNs)
    else if ref.kind == "ClusterRole" then
      var found := Lookup(docs, |docs|, RoleKey("ClusterRole", "", ref.name), defaultNs);
      if found.Some? then found else Builtin(ref.name)
    else
      None
  }

  function SubjectOf(s: SubjectRef, scope: Option<string>, defaultNs: string): Subject {
    if s.kind == "ServiceAccount" then
      ServiceAccount(Account(OrElse(s.ns, OrElse(scope, defaultNs)), s.name))
    else if s.kind == "Group" then Group(s.name)
    else Unrelated
  }

  function SubjectsOf(d: Doc, defaultNs: string): seq<Subject>
    requires IsBinding(d)
  {
    seq(|d.subjects|, k requires 0 <= k < |d.subjects| => SubjectOf(d.subjects[k], ScopeOf(d, defaultNs), defaultNs))
  }

  /** Document `i` as an effective binding, when it is a binding whose role is known. */
  function BindingAt(docs: seq<Doc>, i: nat, defaultNs: string): Option<Binding>
    requires i < |docs|
  {
    var d := docs[i];
    if !IsBinding(d) then None else
      var scope := ScopeOf(d, defaultNs);
      var rules := Resolve(docs, d.ref, scope, defaultNs);
      if rules.None? then None else Some(Binding(scope, SubjectsOf(d, defaultNs), rules.value))
  }

  /** What the API server authorizes for an account when these documents are installed. */
  ghost predicate DocsAuthorize(docs: seq<Doc>, defaultNs: string, who: Account, req: Request) {
    exists i :: 0 <= i < |docs| && DocAllows(docs, i, defaultNs, who, req)
  }

  ghost predicate DocAllows(docs: seq<Doc>, i: nat, defaultNs: string, who: Account, req: Request)
    requires i < |docs|
  {
    var b := BindingAt(docs, i, defaultNs);
    b.Some? && Allows(b.value, who, req)
  }
}
