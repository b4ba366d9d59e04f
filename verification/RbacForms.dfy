/** The readings that the guards of this repository share with the authorizer, told by the documents. */
module RbacForms {
  import opened Prelude
  import opened Rbac

  // ------------------------------------------------------------- built-in roles

  predicate IsRead(req: Request) {
    req.group == "" && req.resource == "secrets" && (req.verb == "get" || req.verb == "list" || req.verb == "watch")
  }

  /** What the built-in ClusterRoles allow as far as the guards count it: everything, reads of Secrets, or nothing. */
  lemma BuiltinsAllow(name: string, req: Request)
    ensures name == "cluster-admin" ==> Builtin(name).Some? && RulesAllow(Builtin(name).value, req)
    ensures name == "admin" || name == "edit" ==> Builtin(name).Some? && (RulesAllow(Builtin(name).value, req) <==> IsRead(req))
    ensures name == "view" || name == "system:auth-delegator" ==> Builtin(name).Some? && !RulesAllow(Builtin(name).value, req)
    ensures Builtin(name).Some? ==>
        name in ["cluster-admin", "admin", "edit", "view", "system:auth-delegator"]
  {
    if name == "cluster-admin" {
      var all := Builtin(name).value[0];
      assert all.resources[0] == "*" && RuleMatches(all, req);
    }
    if name == "admin" || name == "edit" {
      var allowed := Builtin(name).value[0];
      assert allowed.resources[0] == "secrets";
      SecretsReach(req.resource, "secrets");
      assert RuleMatches(allowed, req) <==> IsRead(req);
    }
  }

  lemma SecretsReach(resource: string, listed: string)
    requires listed == "secrets"
    ensures Reaches(listed, resource) <==> resource == listed
  {
    forall k | 0 <= k < |resource|
      ensures listed != resource[..k] + "/*" && listed != "*/" + resource[k + 1..]
    {
      assert (resource[..k] + "/*")[|resource[..k] + "/*"| - 1] == '*';
      assert ("*/" + resource[k + 1..])[0] == '*';
      assert listed[0] == 's' && listed[|listed| - 1] == 's';
    }
  }

  // ------------------------------------------------------------------ selectors

  /** Each operator against its opposite: one of the two passes, and both ask about one key. */
  lemma OperatorsOppose(labels: map<string, string>, key: string, values: seq<string>)
    ensures LabelTestPasses(labels, LabelTest(key, "In", values)) <==> !LabelTestPasses(labels, LabelTest(key, "NotIn", values))
    ensures LabelTestPasses(labels, LabelTest(key, "Exists", values)) <==>
        !LabelTestPasses(labels, LabelTest(key, "DoesNotExist", values))
    ensures LabelTestPasses(labels, LabelTest(key, "Exists", values)) <==>
        exists v :: LabelTestPasses(labels, LabelTest(key, "In", [v]))
    ensures LabelTestPasses(labels, LabelTest(key, "In", values)) <==>
        exists v :: v in values && LabelTestPasses(labels, LabelTest(key, "In", [v]))
  {
    if key in labels {
      assert LabelTestPasses(labels, LabelTest(key, "In", [labels[key]]));
    }
  }

  /** A selector matches when each of its labels is there with its value, and each of its tests passes: taking one away
      never loses a match, and nothing at all matches everything. */
  lemma SelectorsNarrow(labels: map<string, string>, sel: Selector, key: string, value: string, t: LabelTest)
    ensures MatchesSelector(labels, Selector(map[], []))
    ensures MatchesSelector(labels, Selector(sel.matchLabels[key := value], sel.matchExpressions)) <==>
        MatchesSelector(labels, Selector(sel.matchLabels - {key}, sel.matchExpressions)) && key in labels && labels[key] == value
    ensures MatchesSelector(labels, Selector(sel.matchLabels, [t] + sel.matchExpressions)) <==>
        MatchesSelector(labels, sel) && LabelTestPasses(labels, t)
  {
    hide LabelTestPasses;
    var with := sel.matchLabels[key := value];
    assert forall k :: k in sel.matchLabels - {key} ==> k in with && with[k] == sel.matchLabels[k];
    assert forall x :: x in [t] + sel.matchExpressions <==> x == t || x in sel.matchExpressions;
  }

  // ----------------------------------------------------------------- namespaces

  /** The namespace that stands there, or the one given for it when none does. */
  function Placed(ns: Option<string>, other: string): string {
    match ns
    case Some(written) => if written == "" then other else written
    case None => other
  }

  /** The document with every namespace written out: its own, and those of its ServiceAccounts. */
  function WrittenOut(d: Doc, defaultNs: string): Doc {
    match d
    case Role(ns, name, rules) => Role(Some(Placed(ns, defaultNs)), name, rules)
    case RoleBinding(ns, name, ref, subjects) =>
      RoleBinding(Some(Placed(ns, defaultNs)), name, ref, AllPlaced(subjects, Placed(ns, defaultNs)))
    case ClusterRoleBinding(name, ref, subjects) => ClusterRoleBinding(name, ref, AllPlaced(subjects, defaultNs))
    case _ => d
  }

  function AllPlaced(subjects: seq<SubjectRef>, ns: string): seq<SubjectRef> {
    seq(|subjects|, k requires 0 <= k < |subjects| => SubjectRef(subjects[k].kind, Some(Placed(subjects[k].ns, ns)), subjects[k].name))
  }

  function AllWrittenOut(docs: seq<Doc>, defaultNs: string): seq<Doc> {
    seq(|docs|, k requires 0 <= k < |docs| => WrittenOut(docs[k], defaultNs))
  }

  lemma PlacedIsOrElse(ns: Option<string>, other: string)
    ensures OrElse(ns, other) == Placed(ns, other)
    ensures OrElse(Some(Placed(ns, other)), other) == Placed(ns, other)
  {
  }

  lemma {:induction false} SelectedWrittenOut(docs: seq<Doc>, defaultNs: string, i: nat, sel: Selector, n: nat)
    requires n <= |docs|
    ensures Selected(AllWrittenOut(docs, defaultNs), i, sel, n) == Selected(docs, i, sel, n)
  {
    hide MatchesSelector;
    if n > 0 {
      SelectedWrittenOut(docs, defaultNs, i, sel, n - 1);
    }
  }

  lemma {:induction false} AggregatedWrittenOut(docs: seq<Doc>, defaultNs: string, i: nat, m: nat)
    requires i < |docs| && docs[i].ClusterRole? && m <= |docs[i].selectors|
    ensures AllWrittenOut(docs, defaultNs)[i] == docs[i]
    ensures Aggregated(AllWrittenOut(docs, defaultNs), i, m) == Aggregated(docs, i, m)
  {
    hide Selected;
    if m > 0 {
      AggregatedWrittenOut(docs, defaultNs, i, m - 1);
      SelectedWrittenOut(docs, defaultNs, i, docs[i].selectors[m - 1], |docs|);
    }
  }

  lemma {:induction false} LookupWrittenOut(docs: seq<Doc>, defaultNs: string, n: nat, key: RoleKey)
    requires n <= |docs|
    ensures Lookup(AllWrittenOut(docs, defaultNs), n, key, defaultNs) == Lookup(docs, n, key, defaultNs)
  {
    hide Aggregated;
    if n > 0 {
      LookupWrittenOut(docs, defaultNs, n - 1, key);
      var d := docs[n - 1];
      if d.Role? {
        PlacedIsOrElse(d.ns, defaultNs);
      }
      if d.ClusterRole? {
        AggregatedWrittenOut(docs, defaultNs, n - 1, |d.selectors|);
      }
    }
  }

  lemma SubjectsWrittenOut(d: Doc, defaultNs: string)
    requires IsBinding(d)
    ensures ScopeOf(WrittenOut(d, defaultNs), defaultNs) == ScopeOf(d, defaultNs)
    ensures SubjectsOf(WrittenOut(d, defaultNs), defaultNs) == SubjectsOf(d, defaultNs)
  {
    var scope := ScopeOf(d, defaultNs);
    var ns := if scope.Some? then scope.value else defaultNs;
    forall k | 0 <= k < |d.subjects|
      ensures OrElse(d.subjects[k].ns, OrElse(scope, defaultNs))
           == OrElse(Some(Placed(d.subjects[k].ns, ns)), OrElse(scope, defaultNs))
    {
      PlacedIsOrElse(d.subjects[k].ns, OrElse(scope, defaultNs));
    }
  }

  /** Writing the namespaces out changes nothing: a Role or a binding without one stands in the default namespace, and a
      ServiceAccount without one in its binding's, or in the default one where the binding has none. */
  lemma WrittenOutAuthorizesAlike(docs: seq<Doc>, defaultNs: string, who: Account, req: Request)
    ensures DocsAuthorize(AllWrittenOut(docs, defaultNs), defaultNs, who, req) <==> DocsAuthorize(docs, defaultNs, who, req)
  {
    hide Lookup, Allows, SubjectsOf, ScopeOf;
    forall k | 0 <= k < |docs|
      ensures BindingAt(AllWrittenOut(docs, defaultNs), k, defaultNs) == BindingAt(docs, k, defaultNs)
    {
      var d := docs[k];
      if IsBinding(d) {
        SubjectsWrittenOut(d, defaultNs);
        forall key
          ensures Lookup(AllWrittenOut(docs, defaultNs), |docs|, key, defaultNs) == Lookup(docs, |docs|, key, defaultNs)
        {
          LookupWrittenOut(docs, defaultNs, |docs|, key);
        }
      }
    }
    hide BindingAt;
    assert forall k :: 0 <= k < |docs| ==>
      (DocAllows(AllWrittenOut(docs, defaultNs), k, defaultNs, who, req) <==> DocAllows(docs, k, defaultNs, who, req));
  }

  /** Written out, a binding in a namespace reaches that namespace and no other, and one of the cluster reaches all; it holds
      the accounts it names. */
  lemma BindingReads(docs: seq<Doc>, k: nat, defaultNs: string)
    requires k < |docs| && IsBinding(docs[k]) && BindingAt(docs, k, defaultNs).Some?
    ensures var b := BindingAt(docs, k, defaultNs).value;
            && (docs[k].ClusterRoleBinding? ==> forall ns :: Covers(b.scope, ns))
            && (docs[k].RoleBinding? && docs[k].ns.Some? && docs[k].ns.value != "" ==>
                  forall ns :: Covers(b.scope, ns) <==> ns == docs[k].ns)
            && (forall j :: 0 <= j < |docs[k].subjects| ==>
                  var s := docs[k].subjects[j];
                  && (s.kind == "ServiceAccount" && s.ns.Some? && s.ns.value != "" ==>
                        forall who :: Names(b.subjects[j], who) <==> who == Account(s.ns.value, s.name))
                  && (s.kind != "ServiceAccount" && s.kind != "Group" ==> forall who :: !Names(b.subjects[j], who)))
  {
    hide Resolve;
  }

  /** Of several definitions of one role the last one counts, and a role that no document defines has no rules. */
  lemma {:induction false} LastDefinitionCounts(docs: seq<Doc>, n: nat, k: nat, key: RoleKey, defaultNs: string)
    requires k <= n <= |docs| && forall j :: k <= j < n ==> !Defines(docs[j], key, defaultNs)
    requires k > 0 ==> Defines(docs[k - 1], key, defaultNs)
    ensures Lookup(docs, n, key, defaultNs) == if k > 0 then Some(RulesOfDoc(docs, k - 1)) else None
  {
    if k < n {
      LastDefinitionCounts(docs, n - 1, k, key, defaultNs);
    }
  }

  /** A Role is looked up in the binding's namespace alone, a ClusterRole among the documents before the built-in ones. */
  lemma RefResolves(docs: seq<Doc>, ref: RoleRef, scope: Option<string>, defaultNs: string, k: nat)
    requires k <= |docs|
    ensures var key := RoleKey(ref.kind, if ref.kind == "Role" then OrElse(scope, "") else "", ref.name);
            (forall j :: k <= j < |docs| ==> !Defines(docs[j], key, defaultNs))
            && (k > 0 ==> Defines(docs[k - 1], key, defaultNs)) ==>
              Resolve(docs, ref, scope, defaultNs)
                == if ref.kind == "Role" && scope.None? then None
                   else if k > 0 then Some(RulesOfDoc(docs, k - 1))
                   else if ref.kind == "ClusterRole" then Builtin(ref.name) else None
  {
    var key := RoleKey(ref.kind, if ref.kind == "Role" then OrElse(scope, "") else "", ref.name);
    if (forall j :: k <= j < |docs| ==> !Defines(docs[j], key, defaultNs)) && (k > 0 ==> Defines(docs[k - 1], key, defaultNs)) {
      LastDefinitionCounts(docs, |docs|, k, key, defaultNs);
    }
    hide Lookup, Builtin, Aggregated;
  }
}
