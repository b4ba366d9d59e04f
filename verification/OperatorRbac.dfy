/** scripts/check-operator-rbac-covers.py: the chart grants an operator at least the role its controllers declare. */
module OperatorRbac {
  import opened Prelude
  import opened Rbac
  import opened ResourcePatterns

  type Gap = (string, string, string)  // (API group, resource, verb)

  /** One rule of the chart covers a triple; `has` on each of its three lists. */
  predicate CoversGap(rule: Rule, gap: Gap) {
    Lists(rule.apiGroups, gap.0) && Lists(rule.resources, gap.1) && Lists(rule.verbs, gap.2)
  }

  predicate CoveredBy(rules: seq<Rule>, gap: Gap) {
    exists g | g in rules :: CoversGap(g, gap)
  }

  /** A wanted rule with no apiGroups is read as the core group. */
  function WantedGroups(rule: Rule): seq<string> {
    if rule.apiGroups == [] then [""] else rule.apiGroups
  }

  /** The rule asks for this triple. */
  predicate Wants(rule: Rule, gap: Gap) {
    gap.0 in WantedGroups(rule) && gap.1 in rule.resources && gap.2 in rule.verbs
  }

  ghost predicate IsGap(want: seq<Rule>, got: seq<Rule>, gap: Gap) {
    !CoveredBy(got, gap) && exists r :: r in want && Wants(r, gap)
  }

  /** Nothing wanted is missing. */
  ghost predicate NothingMissing(want: seq<Rule>, got: seq<Rule>) {
    forall gap :: !IsGap(want, got, gap)
  }

  method RuleGaps(r: Rule, got: seq<Rule>) returns (out: seq<Gap>)
    ensures forall gap :: gap in out <==> Wants(r, gap) && !CoveredBy(got, gap)
  {
    out := [];
    var groups := WantedGroups(r);
    for i := 0 to |groups|
      invariant forall gap :: gap in out <==> gap.0 in groups[..i] && Wants(r, gap) && !CoveredBy(got, gap)
    {
      var here := GroupGaps(r, groups[i], got);
      assert forall x :: x in groups[..i + 1] <==> x in groups[..i] || x == groups[i];
      out := out + here;
    }
    assert groups[..|groups|] == groups;
  }

  method GroupGaps(r: Rule, group: string, got: seq<Rule>) returns (out: seq<Gap>)
    ensures forall gap :: gap in out <==>
        gap.0 == group && gap.1 in r.resources && gap.2 in r.verbs && !CoveredBy(got, gap)
  {
    out := [];
    for j := 0 to |r.resources|
      invariant forall gap :: gap in out <==>
          gap.0 == group && gap.1 in r.resources[..j] && gap.2 in r.verbs && !CoveredBy(got, gap)
    {
      var res := r.resources[j];
      assert forall x :: x in r.resources[..j + 1] <==> x in r.resources[..j] || x == res;
      ghost var before := out;
      for k := 0 to |r.verbs|
        invariant forall gap :: gap in out <==>
            || gap in before
            || (gap.0 == group && gap.1 == res && gap.2 in r.verbs[..k] && !CoveredBy(got, gap))
      {
        var gap := (group, res, r.verbs[k]);
        assert forall x :: x in r.verbs[..k + 1] <==> x in r.verbs[..k] || x == r.verbs[k];
        if !CoveredBy(got, gap) {
          out := out + [gap];
        }
      }
      assert r.verbs[..|r.verbs|] == r.verbs;
    }
    assert r.resources[..|r.resources|] == r.resources;
  }

  method Missing(want: seq<Rule>, got: seq<Rule>) returns (out: seq<Gap>)
    ensures forall gap :: gap in out <==> IsGap(want, got, gap)
    ensures out == [] <==> NothingMissing(want, got)
  {
    out := [];
    for i := 0 to |want|
      invariant forall gap :: gap in out <==> IsGap(want[..i], got, gap)
    {
      var here := RuleGaps(want[i], got);
      assert forall x :: x in want[..i + 1] <==> x in want[..i] || x == want[i];
      out := out + here;
    }
    assert want[..|want|] == want;
    assert out != [] ==> out[0] in out;
  }

  // ----------------------------------------------------- what coverage means

  lemma WantedTriple(r: Rule, req: Request)
    requires RuleMatches(r, req)
    ensures exists gap :: Wants(r, gap) && (gap.0 == "*" || gap.0 == req.group) && Reaches(gap.1, req.resource)
                          && (gap.2 == "*" || gap.2 == req.verb)
  {
    var res :| res in r.resources && Reaches(res, req.resource);
    var gap := (if "*" in r.apiGroups then "*" else req.group, res, if "*" in r.verbs then "*" else req.verb);
    assert Wants(r, gap);
  }

  /** Sound: with nothing missing and no names on the chart's rules, every request the operator's role authorizes,
      wildcards included, is authorized by the chart's rules. */
  lemma CoverageAuthorizes(want: seq<Rule>, got: seq<Rule>, req: Request)
    requires NothingMissing(want, got)
    requires forall g :: g in got ==> g.resourceNames == []
    requires RulesAllow(want, req)
    ensures RulesAllow(got, req)
  {
    var r :| r in want && RuleMatches(r, req);
    WantedTriple(r, req);
    var gap :| Wants(r, gap) && (gap.0 == "*" || gap.0 == req.group) && Reaches(gap.1, req.resource)
               && (gap.2 == "*" || gap.2 == req.verb);
    assert !IsGap(want, got, gap);
    var g :| g in got && CoversGap(g, gap);
    var res := if "*" in g.resources then "*" else gap.1;
    assert res in g.resources && Reaches(res, req.resource);
    assert RuleMatches(g, req);
  }

  /** "pods/..." or ".../exec" as a pattern: a listed resource that names one half of a subresource. */
  predicate HalfForm(listed: string) {
    EndsWith(listed, "/*") || "*/" <= listed
  }

  lemma ReachesWhole(listed: string, resource: string)
    requires !HalfForm(listed)
    ensures Reaches(listed, resource) <==> listed == "*" || listed == resource
  {
    forall k | 0 <= k < |resource|
      ensures listed != resource[..k] + "/*" && listed != "*/" + resource[k + 1..]
    {
      assert EndsWith(resource[..k] + "/*", "/*");
      assert "*/" <= "*/" + resource[k + 1..];
    }
  }

  /** A request that asks for exactly this triple, under a name the rule allows. */
  function RequestFor(r: Rule, gap: Gap): Request {
    Request(gap.2, gap.0, gap.1, None, if r.resourceNames == [] then None else Some(r.resourceNames[0]))
  }

  /** Exact: where the chart's rules carry no names and no half-subresource patterns, and every wanted rule names its
      groups, nothing is missing if and only if the chart authorizes all that the operator's role authorizes. */
  lemma CoverageIsExact(want: seq<Rule>, got: seq<Rule>)
    requires forall g, res :: g in got && res in g.resources ==> !HalfForm(res)
    requires forall g :: g in got ==> g.resourceNames == []
    requires forall r :: r in want ==> r.apiGroups != []
    ensures NothingMissing(want, got) <==> forall req :: RulesAllow(want, req) ==> RulesAllow(got, req)
  {
    if NothingMissing(want, got) {
      forall req | RulesAllow(want, req)
        ensures RulesAllow(got, req)
      {
        CoverageAuthorizes(want, got, req);
      }
    }
    if forall req :: RulesAllow(want, req) ==> RulesAllow(got, req) {
      forall gap
        ensures !IsGap(want, got, gap)
      {
        if r :| r in want && Wants(r, gap) {
          var req := RequestFor(r, gap);
          assert Reaches(gap.1, gap.1);
          assert RuleMatches(r, req);
          assert RulesAllow(want, req);
          var g :| g in got && RuleMatches(g, req);
          var res :| res in g.resources && Reaches(res, gap.1);
          ReachesWhole(res, gap.1);
          assert CoversGap(g, gap);
        }
      }
    }
  }

  // ------------------------------------------------------- rules with names

  /** The chart's rules that bind no names, and those that reach an object of this name. */
  function Unnamed(rules: seq<Rule>): (r: seq<Rule>)
    ensures forall g :: g in r <==> g in rules && g.resourceNames == []
  {
    if rules == [] then [] else (if rules[0].resourceNames == [] then [rules[0]] else []) + Unnamed(rules[1..])
  }

  function UnderName(rules: seq<Rule>, name: string): (r: seq<Rule>)
    ensures forall g :: g in r <==> g in rules && Rbac.Named(g, Some(name))
  {
    if rules == [] then [] else (if Rbac.Named(rules[0], Some(name)) then [rules[0]] else []) + UnderName(rules[1..], name)
  }

  /** The rules of a list that grant under this name or none. */
  function Reaching(got: seq<Rule>, name: Option<string>): (r: seq<Rule>)
    ensures forall g :: g in r <==> g in got && Rbac.Named(g, name)
  {
    if name.Some? then UnderName(got, name.value) else Unnamed(got)
  }

  /** One rule of the chart grants all that the triple asks for, by a pattern too. */
  predicate SpansGap(rule: Rule, gap: Gap) {
    && Lists(rule.apiGroups, gap.0) && Lists(rule.verbs, gap.2)
    && exists res | res in rule.resources :: Spans(res, gap.1)
  }

  predicate SpannedBy(rules: seq<Rule>, gap: Gap) {
    exists g | g in rules :: SpansGap(g, gap)
  }

  /** Each triple of a wanted rule is granted under each of its names, or by a rule without names where it has none. */
  ghost predicate NamesCovered(want: seq<Rule>, got: seq<Rule>) {
    forall r, gap :: r in want && Wants(r, gap) ==>
      if r.resourceNames == [] then SpannedBy(Unnamed(got), gap)
      else forall n :: n in r.resourceNames ==> SpannedBy(UnderName(got, n), gap)
  }

  /** The operator's role as the check reads it: a rule with no apiGroups asks for the core group. */
  function AsRead(want: seq<Rule>): (read: seq<Rule>)
    ensures |read| == |want| && forall k :: 0 <= k < |want| ==> read[k] == want[k].(apiGroups := WantedGroups(want[k]))
  {
    seq(|want|, k requires 0 <= k < |want| => want[k].(apiGroups := WantedGroups(want[k])))
  }

  /** Whatever the role authorizes, as the check reads it, the chart's rules authorize. */
  ghost predicate CarriesOver(want: seq<Rule>, got: seq<Rule>) {
    forall req :: RulesAllow(AsRead(want), req) ==> RulesAllow(got, req)
  }

  /** Reading it so changes nothing for a role that names its groups. */
  lemma NamedGroupsReadAsThemselves(want: seq<Rule>)
    requires forall r :: r in want ==> r.apiGroups != []
    ensures AsRead(want) == want
  {
  }

  lemma TripleCarries(got: seq<Rule>, gap: Gap, req: Request)
    requires SpannedBy(Reaching(got, req.name), gap)
    requires (gap.0 == "*" || gap.0 == req.group) && Reaches(gap.1, req.resource) && (gap.2 == "*" || gap.2 == req.verb)
    ensures RulesAllow(got, req)
  {
    var g :| g in Reaching(got, req.name) && SpansGap(g, gap);
    var res :| res in g.resources && Spans(res, gap.1);
    SpansCarry(res, gap.1, req.resource);
    assert RuleMatches(g, req);
  }

  lemma SpanGrows(few: seq<Rule>, many: seq<Rule>, gap: Gap)
    requires (forall g :: g in few ==> g in many) && SpannedBy(few, gap)
    ensures SpannedBy(many, gap)
  {
  }

  /** A covered triple is spanned. */
  lemma CoveredIsSpanned(rules: seq<Rule>, gap: Gap)
    requires CoveredBy(rules, gap)
    ensures SpannedBy(rules, gap)
  {
    var g :| g in rules && CoversGap(g, gap);
    var res := if "*" in g.resources then "*" else gap.1;
    assert res in g.resources && Spans(res, gap.1);
    assert SpansGap(g, gap);
  }

  /** The request that only a rule spanning the triple grants: its open half is one that no rule lists. */
  function Probe(got: seq<Rule>, gap: Gap, name: Option<string>): Request {
    Request(gap.2, gap.0, Instance(gap.1, Filling(got)), None, name)
  }

  lemma ProbeIsSpanned(got: seq<Rule>, gap: Gap, name: Option<string>)
    requires RulesAllow(got, Probe(got, gap, name))
    ensures SpannedBy(Reaching(got, name), gap)
  {
    hide Half, Spans, Instance;
    var g :| g in got && RuleMatches(g, Probe(got, gap, name));
    var res :| res in g.resources && Reaches(res, Instance(gap.1, Filling(got)));
    OnlySpansReach(res, gap.1, Filling(got));
    assert SpansGap(g, gap) && g in Reaching(got, name);
  }

  /** Exact, for any rules on either side, names and patterns included: all that the role authorizes carries over if and
      only if each wanted triple is granted under each wanted name. */
  lemma NamedCoverageIsExact(want: seq<Rule>, got: seq<Rule>)
    ensures NamesCovered(want, got) <==> CarriesOver(want, got)
  {
    if NamesCovered(want, got) {
      forall req | RulesAllow(AsRead(want), req)
        ensures RulesAllow(got, req)
      {
        CoveredCarries(want, got, req);
      }
    }
    if CarriesOver(want, got) {
      forall r, gap | r in want && Wants(r, gap)
        ensures r.resourceNames == [] ==> SpannedBy(Unnamed(got), gap)
        ensures forall n :: n in r.resourceNames ==> SpannedBy(UnderName(got, n), gap)
      {
        if r.resourceNames == [] {
          CarriedIsSpanned(want, got, r, gap, None);
        }
        forall n | n in r.resourceNames
          ensures SpannedBy(UnderName(got, n), gap)
        {
          CarriedIsSpanned(want, got, r, gap, Some(n));
        }
      }
    }
  }

  lemma CoveredCarries(want: seq<Rule>, got: seq<Rule>, req: Request)
    requires NamesCovered(want, got) && RulesAllow(AsRead(want), req)
    ensures RulesAllow(got, req)
  {
    hide Spans, Reaches;
    var read :| read in AsRead(want) && RuleMatches(read, req);
    var k :| 0 <= k < |want| && AsRead(want)[k] == read;
    WantedTriple(read, req);
    var gap :| Wants(read, gap) && (gap.0 == "*" || gap.0 == req.group) && Reaches(gap.1, req.resource)
               && (gap.2 == "*" || gap.2 == req.verb);
    assert Wants(want[k], gap) && want[k] in want;
    if read.resourceNames == [] {
      SpanGrows(Unnamed(got), Reaching(got, req.name), gap);
    }
    TripleCarries(got, gap, req);
  }

  lemma CarriedIsSpanned(want: seq<Rule>, got: seq<Rule>, r: Rule, gap: Gap, name: Option<string>)
    requires CarriesOver(want, got) && r in want && Wants(r, gap) && Rbac.Named(r, name)
    ensures SpannedBy(Reaching(got, name), gap)
  {
    hide Instance, Reaches;
    var k :| 0 <= k < |want| && want[k] == r;
    InstanceReached(gap.1, Filling(got));
    assert RuleMatches(AsRead(want)[k], Probe(got, gap, name)) && AsRead(want)[k] in AsRead(want);
    ProbeIsSpanned(got, gap, name);
  }

  /** Every triple of the role is granted by a chart rule that binds no names. */
  ghost predicate SpannedUnnamed(want: seq<Rule>, got: seq<Rule>) {
    forall r, gap :: r in want && Wants(r, gap) ==> SpannedBy(Unnamed(got), gap)
  }

  /** The check does not read resourceNames. Where the operator's role has none, the chart authorizes all of it exactly
      when the chart's rules without names grant each triple, by name or by a pattern. */
  lemma NamesMayLoseRequests(want: seq<Rule>, got: seq<Rule>)
    requires forall r :: r in want ==> r.resourceNames == []
    ensures SpannedUnnamed(want, got) <==> CarriesOver(want, got)
    ensures NothingMissing(want, Unnamed(got)) ==> SpannedUnnamed(want, got) && NothingMissing(want, got)
    ensures (forall g, res :: g in got && res in g.resources ==> !HalfForm(res)) ==>
        (NothingMissing(want, Unnamed(got)) <==> CarriesOver(want, got))
  {
    hide SpannedBy, CoveredBy, HalfForm, CarriesOver;
    NamedCoverageIsExact(want, got);
    if NothingMissing(want, Unnamed(got)) {
      CleanIsSpanned(want, got);
    }
    if (forall g, res :: g in got && res in g.resources ==> !HalfForm(res)) && SpannedUnnamed(want, got) {
      forall gap
        ensures !IsGap(want, Unnamed(got), gap)
      {
        if SpannedBy(Unnamed(got), gap) {
          SpannedIsCovered(Unnamed(got), gap);
        }
      }
    }
  }

  lemma CleanIsSpanned(want: seq<Rule>, got: seq<Rule>)
    requires NothingMissing(want, Unnamed(got))
    ensures SpannedUnnamed(want, got) && NothingMissing(want, got)
  {
    hide CoversGap, SpansGap;
    forall r, gap | r in want && Wants(r, gap)
      ensures SpannedBy(Unnamed(got), gap) && CoveredBy(got, gap)
    {
      assert !IsGap(want, Unnamed(got), gap);
      CoveredIsSpanned(Unnamed(got), gap);
    }
  }

  lemma SpannedIsCovered(rules: seq<Rule>, gap: Gap)
    requires SpannedBy(rules, gap) && forall g, res :: g in rules && res in g.resources ==> !HalfForm(res)
    ensures CoveredBy(rules, gap)
  {
    hide HalfForm, Reaches;
    var g :| g in rules && SpansGap(g, gap);
    var res :| res in g.resources && Spans(res, gap.1);
    ReachesWhole(res, gap.1);
    assert CoversGap(g, gap);
  }

  /** A chart rule that names one object passes the check for a role that names none, and its requests do not carry over. */
  lemma NamesAreIgnored()
    ensures exists want, got :: NothingMissing(want, got) && !CarriesOver(want, got)
  {
    var free := Rule([""], ["secrets"], ["get"], []);
    var held := Rule([""], ["secrets"], ["get"], ["one"]);
    forall gap
      ensures !IsGap([free], [held], gap)
    {
      if Wants(free, gap) {
        assert [held][0] == held && CoversGap(held, gap);
      }
    }
    var req := Request("get", "", "secrets", None, Some("other"));
    assert AsRead([free])[0] == free && free.resources[0] == "secrets" && Reaches("secrets", "secrets");
    assert RuleMatches(free, req) && RulesAllow(AsRead([free]), req);
    assert !RulesAllow([held], req);
    assert NothingMissing([free], [held]) && !CarriesOver([free], [held]);
  }

  /** A pattern without names makes up for a rule that names one object, although the check does not take it for coverage. */
  lemma PatternMakesUp(resource: string, pattern: string, verb: string, want: seq<Rule>, got: seq<Rule>)
    requires Spans(pattern, resource) && pattern != "*" && pattern != resource
    requires want == [Rule([""], [resource], [verb], [])]
    requires got == [Rule([""], [resource], [verb], ["one"]), Rule([""], [pattern], [verb], [])]
    ensures CarriesOver(want, got) && NothingMissing(want, got) && !NothingMissing(want, Unnamed(got))
  {
    hide Spans, HalfForm;
    var gap := ("", resource, verb);
    assert got[0] in got && got[1] in Unnamed(got);
    assert got[1].resources[0] == pattern;
    forall r, g | r in want && Wants(r, g)
      ensures SpannedBy(Unnamed(got), g) && CoveredBy(got, g)
    {
      assert g == gap;
      assert SpansGap(got[1], gap) && CoversGap(got[0], gap);
    }
    NamesMayLoseRequests(want, got);
    assert want[0] in want && want[0].resources[0] == resource && want[0].verbs[0] == verb && Wants(want[0], gap);
    assert !CoveredBy(Unnamed(got), gap);
    assert IsGap(want, Unnamed(got), gap);
  }

  /** As the pattern for all subresources of pods does for exec. */
  lemma PodsPatternSpans(pattern: string, resource: string)
    requires pattern == "pods/*" && resource == "pods/exec"
    ensures Spans(pattern, resource) && pattern != resource
  {
    SplitOf("pods", "exec");
    assert "pods" + "/" + "exec" == resource && "pods" + "/*" == pattern;
    ReachesSplit(pattern, resource);
    assert |pattern| != |resource|;
  }

  // ------------------------------------------------------ the coverage order

  lemma CoverageIsTransitive(a: seq<Rule>, b: seq<Rule>, c: seq<Rule>)
    requires NothingMissing(a, b) && NothingMissing(b, c)
    ensures NothingMissing(a, c)
  {
    forall gap
      ensures !IsGap(a, c, gap)
    {
      if r :| r in a && Wants(r, gap) {
        assert !IsGap(a, b, gap);
        var g :| g in b && CoversGap(g, gap);
        var via := (if gap.0 in g.apiGroups then gap.0 else "*",
                    if gap.1 in g.resources then gap.1 else "*",
                    if gap.2 in g.verbs then gap.2 else "*");
        assert Wants(g, via);
        assert !IsGap(b, c, via);
        var h :| h in c && CoversGap(h, via);
        assert CoversGap(h, gap);
      }
    }
  }

  /** A rule list covers itself exactly when each rule with no apiGroups has its triples covered by some rule that
      names the core group: the wanted side reads a missing list as the core group, the granted side as no group. */
  lemma CoverageOfItself(rules: seq<Rule>)
    ensures NothingMissing(rules, rules) <==>
        forall r, res, verb :: r in rules && r.apiGroups == [] && res in r.resources && verb in r.verbs
          ==> CoveredBy(rules, ("", res, verb))
  {
    if NothingMissing(rules, rules) {
      forall r, res, verb | r in rules && r.apiGroups == [] && res in r.resources && verb in r.verbs
        ensures CoveredBy(rules, ("", res, verb))
      {
        assert Wants(r, ("", res, verb));
        assert !IsGap(rules, rules, ("", res, verb));
      }
    } else {
      var gap :| IsGap(rules, rules, gap);
      var r :| r in rules && Wants(r, gap);
      assert !CoversGap(r, gap);
      assert gap == ("", gap.1, gap.2);
    }
  }

  // ------------------------------------------------------ the chart's rules

  /** The rules of the last ClusterRole of this name among the first `n` documents, aggregation not followed. */
  function OwnRules(docs: seq<Doc>, n: nat, name: string): Option<seq<Rule>>
    requires n <= |docs|
  {
    if n == 0 then None
    else if docs[n - 1].ClusterRole? && docs[n - 1].name == name then Some(docs[n - 1].rules)
    else OwnRules(docs, n - 1, name)
  }

  predicate BindsAccount(d: Doc, sa: string) {
    d.ClusterRoleBinding? && exists s | s in d.subjects :: s.kind == "ServiceAccount" && s.name == sa
  }

  function RulesBoundAt(docs: seq<Doc>, k: nat, sa: string): seq<Rule>
    requires k < |docs|
  {
    if !BindsAccount(docs[k], sa) then [] else
      var own := OwnRules(docs, |docs|, docs[k].ref.name);
      if own.Some? then own.value else []
  }

  /** The rules of all ClusterRoles some ClusterRoleBinding gives to a ServiceAccount called `sa`. */
  method ClusterRules(docs: seq<Doc>, sa: string) returns (out: seq<Rule>)
    ensures forall r :: r in out <==> exists k :: 0 <= k < |docs| && r in RulesBoundAt(docs, k, sa)
  {
    var roles: map<string, seq<Rule>> := map[];
    for i := 0 to |docs|
      invariant forall name :: OwnRules(docs, i, name) == if name in roles then Some(roles[name]) else None
    {
      if docs[i].ClusterRole? {
        roles := roles[docs[i].name := docs[i].rules];
      }
    }
    out := [];
    for i := 0 to |docs|
      invariant forall r :: r in out <==> exists k :: 0 <= k < i && r in RulesBoundAt(docs, k, sa)
    {
      var more := if BindsAccount(docs[i], sa) && docs[i].ref.name in roles then roles[docs[i].ref.name] else [];
      assert more == RulesBoundAt(docs, i, sa);
      out := out + more;
    }
  }

  lemma {:induction false} OwnRulesAreLookedUp(docs: seq<Doc>, n: nat, name: string, defaultNs: string)
    requires n <= |docs|
    requires OwnRules(docs, n, name).Some?
    ensures var key := RoleKey("ClusterRole", "", name);
            Lookup(docs, n, key, defaultNs).Some? && OwnRules(docs, n, name).value <= Lookup(docs, n, key, defaultNs).value
  {
    var d := docs[n - 1];
    if d.ClusterRole? && d.name == name {
      AggregatedKeepsOwn(docs, n - 1, |d.selectors|);
    } else {
      OwnRulesAreLookedUp(docs, n - 1, name, defaultNs);
    }
  }

  /** From the render to the API server: a clean check means the operator's ServiceAccount is authorized, in every
      namespace and at cluster scope, for all that its own role authorizes. The check matches a binding's subject by
      name alone, so the render must bind that name in the operator's own namespace only. */
  lemma CleanCheckAuthorizes(docs: seq<Doc>, defaultNs: string, who: Account, want: seq<Rule>, got: seq<Rule>, req: Request)
    requires forall r :: r in got <==> exists k :: 0 <= k < |docs| && r in RulesBoundAt(docs, k, who.name)
    requires NothingMissing(want, got)
    requires forall g :: g in got ==> g.resourceNames == []
    requires forall d, s | d in docs && d.ClusterRoleBinding? && s in d.subjects :: s.kind == "ServiceAccount" ==>
        s.name == who.name ==> s.ns == Some(who.ns) && d.ref.kind == "ClusterRole"
    requires who.ns != ""
    requires RulesAllow(want, req)
    ensures DocsAuthorize(docs, defaultNs, who, req)
  {
    CoverageAuthorizes(want, got, req);
    var r :| r in got && RuleMatches(r, req);
    var k :| 0 <= k < |docs| && r in RulesBoundAt(docs, k, who.name);
    var d := docs[k];
    OwnRulesAreLookedUp(docs, |docs|, d.ref.name, defaultNs);
    var s :| s in d.subjects && s.kind == "ServiceAccount" && s.name == who.name;
    var at :| 0 <= at < |d.subjects| && d.subjects[at] == s;
    assert d in docs;
    var b := BindingAt(docs, k, defaultNs).value;
    assert b.subjects[at] == ServiceAccount(who);
    assert Names(b.subjects[at], who);
    assert DocAllows(docs, k, defaultNs, who, req);
  }

  /** Nothing is overlooked: where ClusterRoles aggregate nothing, what a ClusterRoleBinding of a rendered ClusterRole gives a
      ServiceAccount it lists is among the rules counted for that name. */
  lemma GivenIsCounted(docs: seq<Doc>, k: nat, defaultNs: string, who: Account, req: Request)
    requires k < |docs| && docs[k].ClusterRoleBinding? && docs[k].ref.kind == "ClusterRole"
    requires exists d :: d in docs && d.ClusterRole? && d.name == docs[k].ref.name
    requires forall d :: d in docs && d.ClusterRole? ==> d.selectors == []
    requires BindingAt(docs, k, defaultNs).Some? && ServiceAccount(who) in BindingAt(docs, k, defaultNs).value.subjects
    requires RulesAllow(BindingAt(docs, k, defaultNs).value.rules, req)
    ensures RulesAllow(RulesBoundAt(docs, k, who.name), req)
  {
    hide RulesAllow;
    var d := docs[k];
    var s :| 0 <= s < |d.subjects| && SubjectsOf(d, defaultNs)[s] == ServiceAccount(who);
    assert d.subjects[s].kind == "ServiceAccount" && d.subjects[s].name == who.name;
    assert d.subjects[s] in d.subjects && BindsAccount(d, who.name);
    var c :| c in docs && c.ClusterRole? && c.name == d.ref.name;
    var at :| 0 <= at < |docs| && docs[at] == c;
    OwnRulesFound(docs, |docs|, at, d.ref.name);
    LookedUpIsOwn(docs, |docs|, d.ref.name, defaultNs);
  }

  lemma {:induction false} OwnRulesFound(docs: seq<Doc>, n: nat, at: nat, name: string)
    requires at < n <= |docs| && docs[at].ClusterRole? && docs[at].name == name
    ensures OwnRules(docs, n, name).Some?
  {
    if at < n - 1 {
      OwnRulesFound(docs, n - 1, at, name);
    }
  }

  lemma {:induction false} LookedUpIsOwn(docs: seq<Doc>, n: nat, name: string, defaultNs: string)
    requires n <= |docs| && forall d :: d in docs && d.ClusterRole? ==> d.selectors == []
    ensures Lookup(docs, n, RoleKey("ClusterRole", "", name), defaultNs) == OwnRules(docs, n, name)
  {
    if n > 0 {
      LookedUpIsOwn(docs, n - 1, name, defaultNs);
      assert docs[n - 1] in docs;
    }
  }
}
