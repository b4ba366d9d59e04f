/** scripts/check-kubectl-rbac.py: exactly what a binding gives that the guard does not credit. */
module KubectlLosses {
  import opened Prelude
  import opened Rbac
  import opened ResourcePatterns
  import opened KubectlRequests
  import opened KubectlCheck

  type Triple = (string, string, string)  // (API group, listed resource, verb)

  predicate Asks(r: Rule, t: Triple) {
    t.0 in r.apiGroups && t.1 in r.resources && t.2 in r.verbs
  }

  /** The guard takes a listed resource for "*" or for the resource itself, never for a pattern. */
  predicate ListsWhole(listed: seq<string>, resource: string) {
    "*" in listed || (resource in listed && !Half(resource))
  }

  predicate Credits(s: Rule, t: Triple) {
    Lists(s.apiGroups, t.0) && ListsWhole(s.resources, t.1) && Lists(s.verbs, t.2)
  }

  /** Some request for the triple may carry a name: it is no list and no watch, and a create is on a subresource. */
  predicate Nameable(t: Triple) {
    t.2 !in ["list", "watch", "deletecollection"] && (t.2 == "create" ==> NamesSubresource(t.1))
  }

  predicate CreditedTo(credited: seq<Rule>, t: Triple, name: Option<string>) {
    exists s | s in credited :: Rbac.Named(s, name) && Credits(s, t)
  }

  /** Each triple of a rule is credited: under each of its names that a request can carry, or without names. */
  ghost predicate AllCredited(rules: seq<Rule>, credited: seq<Rule>) {
    forall r, t :: r in rules && Asks(r, t) ==>
      if r.resourceNames == [] then CreditedTo(credited, t, None)
      else Nameable(t) ==> forall n :: n in r.resourceNames ==> CreditedTo(credited, t, Some(n))
  }

  ghost predicate GrantedBy(credited: seq<Rule>, rq: ApiRequest) {
    exists s :: s in credited && RuleGrants(rq, (None, s))
  }

  // ------------------------------------------------------------ one rule list

  lemma AskedTriple(r: Rule, rq: ApiRequest)
    requires RuleMatches(r, Asked(rq))
    ensures exists t :: Asks(r, t) && (t.0 == "*" || t.0 == rq.kind.0) && Reaches(t.1, ResourceOf(rq))
                        && (t.2 == "*" || t.2 == rq.verb)
  {
    hide Reaches;
    var res :| res in r.resources && Reaches(res, ResourceOf(rq));
    var t := (if "*" in r.apiGroups then "*" else rq.kind.0, res, if "*" in r.verbs then "*" else rq.verb);
    assert Asks(r, t);
  }

  /** A named request for a triple makes it nameable. */
  lemma NamedIsNameable(t: Triple, rq: ApiRequest)
    requires !OnCollection(rq) && Reaches(t.1, ResourceOf(rq)) && (t.2 == "*" || t.2 == rq.verb)
    ensures Nameable(t)
  {
    if t.2 == "create" {
      var i := |rq.kind.1|;
      assert ResourceOf(rq)[i] == '/' && i < |ResourceOf(rq)| - 1;
      ReachedSubresource(t.1, ResourceOf(rq), i);
    }
  }

  lemma ReachedSubresource(listed: string, res: string, i: nat)
    requires Reaches(listed, res) && i < |res| - 1 && res[i] == '/'
    ensures NamesSubresource(listed)
  {
    ReachesSplit(listed, res);
    if listed != "*" && listed != res {
      var (a, b) := SplitAt(res, '/');
      assert |a| <= i && b != "";
      if listed == a + "/*" {
        assert listed[|a|] == '/' && |a| < |listed| - 1;
      } else {
        assert listed[1] == '/' && 1 < |listed| - 1;
      }
    }
  }

  lemma CreditGrants(credited: seq<Rule>, t: Triple, rq: ApiRequest)
    requires CreditedTo(credited, t, rq.name) || CreditedTo(credited, t, None)
    requires rq.name.Some? ==> CreditedTo(credited, t, None) || !OnCollection(rq)
    requires (t.0 == "*" || t.0 == rq.kind.0) && Reaches(t.1, ResourceOf(rq)) && (t.2 == "*" || t.2 == rq.verb)
    ensures GrantedBy(credited, rq)
  {
    hide OnCollection, Reaches, Half;
    var name := if CreditedTo(credited, t, None) then None else rq.name;
    var s :| s in credited && Rbac.Named(s, name) && Credits(s, t);
    if "*" !in s.resources {
      WholeReaches(t.1, ResourceOf(rq));
    }
    assert RuleGrants(rq, (None, s));
  }

  lemma CreditedIsGranted(rules: seq<Rule>, credited: seq<Rule>, rq: ApiRequest)
    requires AllCredited(rules, credited) && NamesNoCollection(rq) && RulesAllow(rules, Asked(rq))
    ensures GrantedBy(credited, rq)
  {
    hide OnCollection, Reaches, Credits, Nameable, GrantedBy;
    var r :| r in rules && RuleMatches(r, Asked(rq));
    AskedTriple(r, rq);
    var t :| Asks(r, t) && (t.0 == "*" || t.0 == rq.kind.0) && Reaches(t.1, ResourceOf(rq)) && (t.2 == "*" || t.2 == rq.verb);
    if r.resourceNames != [] {
      NamedIsNameable(t, rq);
    }
    CreditGrants(credited, t, rq);
  }

  // ------------------------------------------------- the request that is missed

  /** A resource the pattern reaches and no credited rule lists, unless it is the pattern itself. */
  function Probed(listed: string, credited: seq<Rule>): string {
    var f := Filling(credited);
    if listed == "*" then f + "/" + f else Instance(listed, f)
  }

  lemma ProbedIsReached(listed: string, credited: seq<Rule>)
    ensures Reaches(listed, Probed(listed, credited))
  {
    hide Instance, Reaches;
    var f := Filling(credited);
    if listed == "*" {
      ReachesSplit(listed, Probed(listed, credited));
    } else {
      InstanceReached(listed, f);
    }
  }

  lemma ProbedIsListed(listed: string, credited: seq<Rule>, s: Rule)
    requires s in credited && Lists(s.resources, Probed(listed, credited))
    ensures ListsWhole(s.resources, listed)
  {
    hide Instance, Half, Reaches;
    var f := Filling(credited);
    if "*" !in s.resources {
      var res := Probed(listed, credited);
      assert Unlisted(f, res);
      if listed != "*" {
        OnlySpansReach(res, listed, f);
        InstanceIsWhole(listed, f);
      }
    }
  }

  lemma InstanceIsWhole(listed: string, filling: string)
    ensures !Half(listed) ==> Instance(listed, filling) == listed
  {
  }

  lemma ProbedHasSubresource(listed: string, credited: seq<Rule>)
    requires NamesSubresource(listed)
    ensures exists i :: 0 <= i < |Probed(listed, credited)| - 1 && Probed(listed, credited)[i] == '/'
  {
    hide Reaches;
    var f, res := Filling(credited), Probed(listed, credited);
    if listed == "*" {
      assert res[|f|] == '/' && |f| < |res| - 1;
    } else if Half(listed) {
      var (a, b) := SplitAt(listed, '/');
      JoinedOfSplit(listed, '/');
      assert listed == a + ['/'] + b;
      if a == "*" {
        var i :| 0 <= i < |listed| - 1 && listed[i] == '/';
        assert b != "";
        assert res[|f|] == '/' && |f| < |res| - 1;
      } else {
        assert res[|a|] == '/' && |a| < |res| - 1;
      }
    }
  }

  /** A request for the triple under this name. */
  lemma RequestFor(t: Triple, credited: seq<Rule>, name: Option<string>, ns: Option<string>) returns (rq: ApiRequest)
    requires name.Some? ==> Nameable(t)
    ensures rq.verb == t.2 && rq.kind.0 == t.0 && ResourceOf(rq) == Probed(t.1, credited) && rq.ns == ns && rq.name == name
    ensures NamesNoCollection(rq)
  {
    hide Probed;
    var res := Probed(t.1, credited);
    if name.Some? && t.2 == "create" {
      ProbedHasSubresource(t.1, credited);
      var i :| 0 <= i < |res| - 1 && res[i] == '/';
      rq := ApiRequest(t.2, (t.0, res[..i]), res[i + 1..], ns, name);
      assert res[..i] + "/" + res[i + 1..] == res;
    } else {
      rq := ApiRequest(t.2, (t.0, res), "", ns, name);
    }
  }

  lemma GrantedIsCredited(credited: seq<Rule>, t: Triple, rq: ApiRequest)
    requires GrantedBy(credited, rq)
    requires rq.verb == t.2 && rq.kind.0 == t.0 && ResourceOf(rq) == Probed(t.1, credited)
    ensures CreditedTo(credited, t, rq.name)
  {
    hide OnCollection, Probed, ListsWhole;
    var s :| s in credited && RuleGrants(rq, (None, s));
    ProbedIsListed(t.1, credited, s);
    assert Credits(s, t);
  }

  /** In one namespace all that the rules authorize is granted exactly when each of their triples is credited. */
  lemma AllGrantedIff(rules: seq<Rule>, credited: seq<Rule>, ns: Option<string>)
    ensures AllCredited(rules, credited) <==>
        forall rq: ApiRequest :: rq.ns == ns && NamesNoCollection(rq) && RulesAllow(rules, Asked(rq)) ==> GrantedBy(credited, rq)
  {
    hide NamesNoCollection, GrantedBy, CreditedTo, Nameable;
    if AllCredited(rules, credited) {
      forall rq: ApiRequest | rq.ns == ns && NamesNoCollection(rq) && RulesAllow(rules, Asked(rq))
        ensures GrantedBy(credited, rq)
      {
        CreditedIsGranted(rules, credited, rq);
      }
    }
    if forall rq: ApiRequest :: rq.ns == ns && NamesNoCollection(rq) && RulesAllow(rules, Asked(rq)) ==> GrantedBy(credited, rq) {
      forall r, t | r in rules && Asks(r, t)
        ensures r.resourceNames == [] ==> CreditedTo(credited, t, None)
        ensures Nameable(t) ==> forall n :: n in r.resourceNames ==> CreditedTo(credited, t, Some(n))
      {
        if r.resourceNames == [] {
          GrantedTriple(rules, credited, ns, r, t, None);
        }
        if Nameable(t) {
          forall n | n in r.resourceNames
            ensures CreditedTo(credited, t, Some(n))
          {
            GrantedTriple(rules, credited, ns, r, t, Some(n));
          }
        }
      }
    }
  }

  lemma GrantedTriple(rules: seq<Rule>, credited: seq<Rule>, ns: Option<string>, r: Rule, t: Triple, name: Option<string>)
    requires forall rq: ApiRequest :: rq.ns == ns && NamesNoCollection(rq) && RulesAllow(rules, Asked(rq)) ==> GrantedBy(credited, rq)
    requires r in rules && Asks(r, t) && Rbac.Named(r, name) && (name.Some? ==> Nameable(t))
    ensures CreditedTo(credited, t, name)
  {
    hide NamesNoCollection, GrantedBy, CreditedTo, Nameable, Reaches, Probed;
    var rq := RequestFor(t, credited, name, ns);
    ProbedIsReached(t.1, credited);
    assert RuleMatches(r, Asked(rq));
    assert RulesAllow(rules, Asked(rq));
    GrantedIsCredited(credited, t, rq);
  }

  // -------------------------------------------------------------- one binding

  /** The rules the guard credits the account with by document `k`, in the scope the binding has when installed: none when
      the document writes an empty namespace that stands for another. */
  function Credited(docs: seq<Doc>, k: nat, sa: Account, defaultNs: string): seq<Rule>
    requires k < |docs| && IsBinding(docs[k])
  {
    if docs[k].RoleBinding? && docs[k].ns == Some("") && defaultNs != "" then [] else RulesAt(docs, k, sa)
  }

  /** The rules document `k` gives the account when installed: aggregation, built-in roles and groups followed. */
  ghost function GivenRules(docs: seq<Doc>, k: nat, sa: Account, defaultNs: string): seq<Rule>
    requires k < |docs|
  {
    var b := BindingAt(docs, k, defaultNs);
    if b.Some? && exists s :: s in b.value.subjects && Names(s, sa) then b.value.rules else []
  }

  lemma GivenAllows(docs: seq<Doc>, k: nat, sa: Account, defaultNs: string, req: Request)
    requires k < |docs| && IsBinding(docs[k])
    ensures DocAllows(docs, k, defaultNs, sa, req) <==>
        Covers(ScopeOf(docs[k], defaultNs), req.ns) && RulesAllow(GivenRules(docs, k, sa, defaultNs), req)
  {
    hide RuleMatches;
  }

  lemma CreditedPermits(docs: seq<Doc>, k: nat, sa: Account, defaultNs: string, rq: ApiRequest)
    requires k < |docs| && IsBinding(docs[k]) && Covers(ScopeOf(docs[k], defaultNs), rq.ns)
    ensures BindingPermits(docs, k, sa, rq) <==> GrantedBy(Credited(docs, k, sa, defaultNs), rq)
  {
    hide RulesAt, OnCollection;
    if r :| r in RulesAt(docs, k, sa) && RuleGrants(rq, (DocNs(docs[k]), r)) {
      assert RuleGrants(rq, (None, r));
    }
    if r :| r in Credited(docs, k, sa, defaultNs) && RuleGrants(rq, (None, r)) {
      assert RuleGrants(rq, (DocNs(docs[k]), r));
    }
  }

  /** Exact, for each binding: whatever it authorizes the account for the guard grants by it, if and only if each triple of
      the rules it gives is credited. */
  lemma BindingLosesNothingIff(docs: seq<Doc>, k: nat, defaultNs: string, sa: Account)
    requires k < |docs| && IsBinding(docs[k])
    ensures (forall rq :: NamesNoCollection(rq) && DocAllows(docs, k, defaultNs, sa, Asked(rq)) ==> BindingPermits(docs, k, sa, rq))
              <==> AllCredited(GivenRules(docs, k, sa, defaultNs), Credited(docs, k, sa, defaultNs))
  {
    hide NamesNoCollection, DocAllows, BindingPermits, GrantedBy, AllCredited, GivenRules, Credited, RulesAllow;
    var scope := ScopeOf(docs[k], defaultNs);
    var given, credited := GivenRules(docs, k, sa, defaultNs), Credited(docs, k, sa, defaultNs);
    forall rq
      ensures DocAllows(docs, k, defaultNs, sa, Asked(rq)) <==> Covers(scope, rq.ns) && RulesAllow(given, Asked(rq))
      ensures Covers(scope, rq.ns) ==> (BindingPermits(docs, k, sa, rq) <==> GrantedBy(credited, rq))
    {
      GivenAllows(docs, k, sa, defaultNs, Asked(rq));
      if Covers(scope, rq.ns) {
        CreditedPermits(docs, k, sa, defaultNs, rq);
      }
    }
    AllGrantedIff(given, credited, scope);
    if AllCredited(given, credited) {
      forall rq | NamesNoCollection(rq) && DocAllows(docs, k, defaultNs, sa, Asked(rq))
        ensures GrantedBy(credited, rq)
      {
        AllGrantedIff(given, credited, rq.ns);
      }
    }
  }

  /** So where each binding is credited in full, an authorized request is permitted. */
  lemma CreditedIsPermitted(docs: seq<Doc>, defaultNs: string, sa: Account, rq: ApiRequest)
    requires forall k :: 0 <= k < |docs| && IsBinding(docs[k]) ==>
               AllCredited(GivenRules(docs, k, sa, defaultNs), Credited(docs, k, sa, defaultNs))
    requires NamesNoCollection(rq) && DocsAuthorize(docs, defaultNs, sa, Asked(rq))
    ensures Permitted(docs, sa, rq)
  {
    hide AllCredited, GivenRules, Credited, NamesNoCollection, Allows;
    var k :| 0 <= k < |docs| && DocAllows(docs, k, defaultNs, sa, Asked(rq));
    BindingLosesNothingIff(docs, k, defaultNs, sa);
    PermittedByBinding(docs, sa, rq);
  }

  // ---------------------------------------------------------- what gets lost

  /** A built-in ClusterRole: nothing is credited. */
  lemma BuiltinIsLost(sa: Account, defaultNs: string, rq: ApiRequest)
    requires sa.ns != "" && NamesNoCollection(rq)
    ensures var docs := [ClusterRoleBinding("b", RoleRef("ClusterRole", "cluster-admin"),
                                            [SubjectRef("ServiceAccount", Some(sa.ns), sa.name)])];
            DocsAuthorize(docs, defaultNs, sa, Asked(rq)) && !Permitted(docs, sa, rq)
  {
    var d := ClusterRoleBinding("b", RoleRef("ClusterRole", "cluster-admin"), [SubjectRef("ServiceAccount", Some(sa.ns), sa.name)]);
    var docs := [d];
    var all := Rule(["*"], ["*"], ["*"], []);
    var key := RoleKey("ClusterRole", "", "cluster-admin");
    assert Lookup(docs, 0, key, defaultNs) == None && Lookup(docs, 1, key, defaultNs) == None;
    assert BindingAt(docs, 0, defaultNs) == Some(Binding(None, SubjectsOf(d, defaultNs), [all]));
    assert SubjectsOf(d, defaultNs)[0] == ServiceAccount(sa) && Names(ServiceAccount(sa), sa);
    assert all.resources[0] == "*" && RuleMatches(all, Asked(rq)) && all in [all];
    assert DocAllows(docs, 0, defaultNs, sa, Asked(rq));
    assert OwnRole(docs, 0, d.ref, None) == [] && OwnRole(docs, 1, d.ref, None) == [];
    PermittedByBinding(docs, sa, rq);
  }

  /** A ClusterRole with no rules of its own that selects every other, one such other, and a binding of the first. */
  function BoundWhole(sa: Account, rule: Rule): seq<Doc> {
    [ClusterRole("part", map[], [rule], []),
     ClusterRole("whole", map[], [], [Selector(map[], [])]),
     ClusterRoleBinding("b", RoleRef("ClusterRole", "whole"), [SubjectRef("ServiceAccount", Some(sa.ns), sa.name)])]
  }

  /** An aggregated ClusterRole: what its selectors take is not credited. */
  lemma AggregatedIsLost(sa: Account, defaultNs: string, rule: Rule, rq: ApiRequest)
    requires sa.ns != "" && NamesNoCollection(rq) && RuleMatches(rule, Asked(rq))
    ensures var docs := BoundWhole(sa, rule); DocsAuthorize(docs, defaultNs, sa, Asked(rq)) && !Permitted(docs, sa, rq)
  {
    var docs := BoundWhole(sa, rule);
    WholeIsGiven(sa, defaultNs, rule);
    assert DocAllows(docs, 2, defaultNs, sa, Asked(rq));
    assert OwnRole(docs, 2, docs[2].ref, None) == [] && OwnRole(docs, 3, docs[2].ref, None) == [];
    PermittedByBinding(docs, sa, rq);
  }

  lemma WholeIsGiven(sa: Account, defaultNs: string, rule: Rule)
    requires sa.ns != ""
    ensures var b := BindingAt(BoundWhole(sa, rule), 2, defaultNs);
            b.Some? && b.value.scope == None && rule in b.value.rules && exists s :: s in b.value.subjects && Names(s, sa)
  {
    var docs := BoundWhole(sa, rule);
    var key := RoleKey("ClusterRole", "", "whole");
    assert Lookup(docs, 2, key, defaultNs) == Some(RulesOfDoc(docs, 1));
    assert Lookup(docs, 3, key, defaultNs) == Some(RulesOfDoc(docs, 1));
    assert Selects(docs, 1, docs[1].selectors[0], 0) && rule in docs[0].rules;
    AggregatedHolds(docs, 1, 1, rule);
    assert SubjectsOf(docs[2], defaultNs)[0] == ServiceAccount(sa) && Names(ServiceAccount(sa), sa);
  }
}
