/** scripts/check-owner-credential-readers.py, the RBAC half: which ServiceAccounts read an owner credential. */
module OwnerReaders {
  import opened Prelude
  import opened Rbac

  const NS := "gibson"
  const READ_VERBS := ["get", "list", "watch"]

  /** One recorded read, "<verb> <object>" kept as a pair. The object is a Secret's name, or the word "secrets" for
      a rule that names none. */
  type Read = (string, string)

  datatype ReadError = UnknownRole(doc: nat) | GrantsEveryAccount(doc: nat, group: string)

  function SecretRequest(verb: string, name: Option<string>): Request {
    Request(verb, "", "secrets", Some(NS), name)
  }

  predicate RuleAllows(rule: Rule, verb: string, name: Option<string>) {
    if "" !in rule.apiGroups && "*" !in rule.apiGroups then false
    else if "secrets" !in rule.resources && "*" !in rule.resources then false
    else if verb !in rule.verbs && "*" !in rule.verbs then false
    else if rule.resourceNames == [] then true
    else name.Some? && name.value in rule.resourceNames
  }

  /** The evaluator's rule test is the authorizer's, on Secrets. */
  lemma RuleAllowsIsMatch(rule: Rule, verb: string, name: Option<string>)
    ensures RuleAllows(rule, verb, name) <==> RuleMatches(rule, SecretRequest(verb, name))
  {
    forall r | r in rule.resources
      ensures Reaches(r, "secrets") <==> r == "*" || r == "secrets"
    {
      ReachesPlain(r, "secrets");
    }
  }

  predicate AnyAllows(rules: seq<Rule>, verb: string, name: Option<string>)
    ensures AnyAllows(rules, verb, name) <==> RulesAllow(rules, SecretRequest(verb, name))
  {
    var any := exists r | r in rules :: RuleAllows(r, verb, name);
    assert any <==> RulesAllow(rules, SecretRequest(verb, name)) by {
      forall r | r in rules {
        RuleAllowsIsMatch(r, verb, name);
      }
    }
    any
  }

  // ---------------------------------------------------------- role tables

  method SelectRules(docs: seq<Doc>, i: nat, sel: Selector) returns (rules: seq<Rule>)
    ensures rules == Selected(docs, i, sel, |docs|)
  {
    rules := [];
    for j := 0 to |docs|
      invariant rules == Selected(docs, i, sel, j)
    {
      var other := docs[j];
      if j != i && other.ClusterRole? && MatchesSelector(other.labels, sel) {
        rules := rules + other.rules;
      }
    }
  }

  ghost predicate TableAgrees(roles: map<RoleKey, seq<Rule>>, docs: seq<Doc>, n: nat, key: RoleKey, defaultNs: string)
    requires n <= |docs|
  {
    Lookup(docs, n, key, defaultNs) == if key in roles then Some(roles[key]) else None
  }

  method RoleRules(docs: seq<Doc>, defaultNs: string) returns (roles: map<RoleKey, seq<Rule>>)
    ensures forall key: RoleKey :: TableAgrees(roles, docs, |docs|, key, defaultNs)
  {
    roles := map[];
    for i := 0 to |docs|
      invariant forall key: RoleKey :: key.kind == "ClusterRole" ==> key !in roles
      invariant forall key: RoleKey :: key.kind != "ClusterRole" ==> TableAgrees(roles, docs, i, key, defaultNs)
    {
      if docs[i].Role? {
        roles := roles[RoleKey("Role", OrElse(docs[i].ns, defaultNs), docs[i].name) := docs[i].rules];
      }
    }
    for i := 0 to |docs|
      invariant forall key: RoleKey :: key.kind == "ClusterRole" ==> TableAgrees(roles, docs, i, key, defaultNs)
      invariant forall key: RoleKey :: key.kind != "ClusterRole" ==> TableAgrees(roles, docs, |docs|, key, defaultNs)
    {
      if docs[i].ClusterRole? {
        var rules := docs[i].rules;
        for m := 0 to |docs[i].selectors|
          invariant rules == Aggregated(docs, i, m)
        {
          var more := SelectRules(docs, i, docs[i].selectors[m]);
          rules := rules + more;
        }
        roles := roles[RoleKey("ClusterRole", "", docs[i].name) := rules];
      }
    }
  }

  method ResolveIn(roles: map<RoleKey, seq<Rule>>, ref: RoleRef, scope: Option<string>,
                   ghost docs: seq<Doc>, ghost defaultNs: string)
    returns (rules: Option<seq<Rule>>)
    requires forall key: RoleKey :: TableAgrees(roles, docs, |docs|, key, defaultNs)
    ensures rules == Resolve(docs, ref, scope, defaultNs)
  {
    rules := None;
    if ref.kind == "Role" && scope.Some? {
      var key := RoleKey("Role", scope.value, ref.name);
      assert TableAgrees(roles, docs, |docs|, key, defaultNs);
      if key in roles {
        rules := Some(roles[key]);
      }
    } else if ref.kind == "ClusterRole" {
      var key := RoleKey("ClusterRole", "", ref.name);
      assert TableAgrees(roles, docs, |docs|, key, defaultNs);
      rules := if key in roles then Some(roles[key]) else Builtin(ref.name);
    }
  }

  // ---------------------------------------------------------------- reads

  /** What one binding's rules record for a verb: every Secret when some rule names none, else the named owners. */
  ghost predicate RulesHold(rules: seq<Rule>, owner: set<string>, verb: string, what: string) {
    verb in READ_VERBS
    && if RulesAllow(rules, SecretRequest(verb, None)) then what == "secrets"
       else what in owner && RulesAllow(rules, SecretRequest(verb, Some(what)))
  }

  method HeldReads(rules: seq<Rule>, owner: set<string>) returns (held: set<Read>)
    ensures forall v, o :: (v, o) in held <==> RulesHold(rules, owner, v, o)
  {
    held := {};
    for i := 0 to |READ_VERBS|
      invariant forall v, o :: (v, o) in held <==> v in READ_VERBS[..i] && RulesHold(rules, owner, v, o)
    {
      var verb := READ_VERBS[i];
      assert READ_VERBS[..i + 1] == READ_VERBS[..i] + [verb];
      assert verb !in READ_VERBS[..i];
      if AnyAllows(rules, verb, None) {
        held := held + {(verb, "secrets")};
      } else {
        var todo := owner;
        while todo != {}
          invariant todo <= owner
          invariant forall v, o :: (v, o) in held <==>
              || (v in READ_VERBS[..i] && RulesHold(rules, owner, v, o))
              || (v == verb && o in owner - todo && RulesHold(rules, owner, v, o))
        {
          var name :| name in todo;
          if AnyAllows(rules, verb, Some(name)) {
            held := held + {(verb, name)};
          }
          todo := todo - {name};
        }
      }
    }
  }

  predicate HoldsEveryAccount(group: string) {
    group == "system:serviceaccounts" || group == "system:authenticated" || "system:serviceaccounts:" <= group
  }

  predicate InReach(d: Doc, defaultNs: string) {
    IsBinding(d) && Covers(ScopeOf(d, defaultNs), Some(NS))
  }

  ghost predicate Unknown(docs: seq<Doc>, k: nat, defaultNs: string)
    requires k < |docs|
  {
    InReach(docs[k], defaultNs) && BindingAt(docs, k, defaultNs).None?
  }

  /** Binding `k` reaches the release namespace and its rules hold this read. */
  ghost predicate HoldsAt(docs: seq<Doc>, k: nat, defaultNs: string, owner: set<string>, verb: string, what: string)
    requires k < |docs|
  {
    var b := BindingAt(docs, k, defaultNs);
    InReach(docs[k], defaultNs) && b.Some? && RulesHold(b.value.rules, owner, verb, what)
  }

  ghost predicate RecordsAt(docs: seq<Doc>, k: nat, defaultNs: string, owner: set<string>,
                            who: Account, verb: string, what: string)
    requires k < |docs|
  {
    && HoldsAt(docs, k, defaultNs, owner, verb, what)
    && ServiceAccount(who) in BindingAt(docs, k, defaultNs).value.subjects
  }

  /** Binding `k` gives a read to a group that holds every ServiceAccount. */
  ghost predicate OpensAt(docs: seq<Doc>, k: nat, defaultNs: string, owner: set<string>)
    requires k < |docs|
  {
    && (exists v, o :: HoldsAt(docs, k, defaultNs, owner, v, o))
    && exists g :: Group(g) in BindingAt(docs, k, defaultNs).value.subjects && HoldsEveryAccount(g)
  }

  /** What binding `k` is an error for: a role nobody knows, or a group of every account that gains a read. */
  ghost predicate IsErrorAt(docs: seq<Doc>, k: nat, defaultNs: string, owner: set<string>, e: ReadError)
    requires k < |docs|
  {
    && e.doc == k
    && match e
       case UnknownRole(_) => Unknown(docs, k, defaultNs)
       case GrantsEveryAccount(_, g) =>
         && (exists v, o :: HoldsAt(docs, k, defaultNs, owner, v, o))
         && Group(g) in BindingAt(docs, k, defaultNs).value.subjects && HoldsEveryAccount(g)
  }

  predicate Recorded(table: map<Account, set<Read>>, who: Account, verb: string, what: string) {
    who in table && (verb, what) in table[who]
  }

  /** The effective subjects of a binding, read off its listed ones. */
  lemma SubjectsListed(d: Doc, defaultNs: string)
    requires IsBinding(d)
    ensures forall a :: ServiceAccount(a) in SubjectsOf(d, defaultNs) <==>
        exists s :: s in d.subjects && SubjectOf(s, ScopeOf(d, defaultNs), defaultNs) == ServiceAccount(a)
    ensures forall g :: Group(g) in SubjectsOf(d, defaultNs) <==>
        exists s :: s in d.subjects && s.kind == "Group" && s.name == g
  {
    var scope, out := ScopeOf(d, defaultNs), SubjectsOf(d, defaultNs);
    forall s | s in d.subjects
      ensures SubjectOf(s, scope, defaultNs) in out
    {
      var k :| 0 <= k < |d.subjects| && d.subjects[k] == s;
      assert out[k] == SubjectOf(s, scope, defaultNs);
    }
    forall g, s | s in d.subjects && s.kind == "Group" && s.name == g
      ensures Group(g) in out
    {
      assert SubjectOf(s, scope, defaultNs) == Group(g);
    }
  }

  predicate IsOpening(e: ReadError, k: nat, subjects: seq<SubjectRef>) {
    e.GrantsEveryAccount? && e.doc == k && HoldsEveryAccount(e.group)
    && exists s | s in subjects :: s.kind == "Group" && s.name == e.group
  }

  method AddSubjects(table: map<Account, set<Read>>, errors: seq<ReadError>, held: set<Read>, k: nat,
                     subjects: seq<SubjectRef>, scope: Option<string>, defaultNs: string)
    returns (table': map<Account, set<Read>>, errors': seq<ReadError>)
    requires held != {}
    ensures forall a, v, o :: Recorded(table', a, v, o) <==>
        || Recorded(table, a, v, o)
        || ((v, o) in held && exists s :: s in subjects && SubjectOf(s, scope, defaultNs) == ServiceAccount(a))
    ensures errors' == [] <==>
        && errors == []
        && !exists s :: s in subjects && s.kind == "Group" && HoldsEveryAccount(s.name)
    ensures forall e :: e in errors' <==> e in errors || IsOpening(e, k, subjects)
  {
    table', errors' := table, errors;
    for i := 0 to |subjects|
      invariant forall a, v, o :: Recorded(table', a, v, o) <==>
          || Recorded(table, a, v, o)
          || ((v, o) in held && exists s :: s in subjects[..i] && SubjectOf(s, scope, defaultNs) == ServiceAccount(a))
      invariant errors' == [] <==>
          && errors == []
          && !exists s :: s in subjects[..i] && s.kind == "Group" && HoldsEveryAccount(s.name)
      invariant forall e :: e in errors' <==> e in errors || IsOpening(e, k, subjects[..i])
    {
      var s := subjects[i];
      assert forall t :: t in subjects[..i + 1] <==> t in subjects[..i] || t == s;
      if s.kind == "Group" {
        if HoldsEveryAccount(s.name) {
          errors' := errors' + [GrantsEveryAccount(k, s.name)];
        }
      } else if s.kind == "ServiceAccount" {
        var who := Account(OrElse(s.ns, OrElse(scope, defaultNs)), s.name);
        assert SubjectOf(s, scope, defaultNs) == ServiceAccount(who);
        var had := if who in table' then table'[who] else {};
        table' := table'[who := had + held];
      }
    }
    assert subjects[..|subjects|] == subjects;
  }

  lemma ErrorsAre(docs: seq<Doc>, k: nat, defaultNs: string, owner: set<string>)
    requires k < |docs|
    ensures !InReach(docs[k], defaultNs) ==> forall e :: !IsErrorAt(docs, k, defaultNs, owner, e)
    ensures InReach(docs[k], defaultNs) && BindingAt(docs, k, defaultNs).None? ==>
        forall e :: IsErrorAt(docs, k, defaultNs, owner, e) <==> e == UnknownRole(k)
    ensures InReach(docs[k], defaultNs) && BindingAt(docs, k, defaultNs).Some? ==>
        forall e :: IsErrorAt(docs, k, defaultNs, owner, e) <==>
          (exists v, o :: HoldsAt(docs, k, defaultNs, owner, v, o)) && IsOpening(e, k, docs[k].subjects)
  {
    if InReach(docs[k], defaultNs) && BindingAt(docs, k, defaultNs).Some? {
      SubjectsListed(docs[k], defaultNs);
    }
    hide OneName, RulesAllow;
  }

  /** One binding's turn: its reads go to its ServiceAccounts, an unknown role or an all-account group is an error. */
  method ReadBinding(docs: seq<Doc>, k: nat, defaultNs: string, owner: set<string>, roles: map<RoleKey, seq<Rule>>,
                     table: map<Account, set<Read>>, errors: seq<ReadError>)
    returns (table': map<Account, set<Read>>, errors': seq<ReadError>)
    requires k < |docs|
    requires forall key: RoleKey :: TableAgrees(roles, docs, |docs|, key, defaultNs)
    ensures forall a, v, o :: Recorded(table', a, v, o) <==>
        Recorded(table, a, v, o) || RecordsAt(docs, k, defaultNs, owner, a, v, o)
    ensures errors' == [] <==>
        errors == [] && !Unknown(docs, k, defaultNs) && !OpensAt(docs, k, defaultNs, owner)
    ensures forall e :: e in errors' <==> e in errors || IsErrorAt(docs, k, defaultNs, owner, e)
  {
    table', errors' := table, errors;
    ErrorsAre(docs, k, defaultNs, owner);
    hide IsErrorAt, IsOpening;
    var d := docs[k];
    if !InReach(d, defaultNs) {
      return;
    }
    var scope := ScopeOf(d, defaultNs);
    var rules := ResolveIn(roles, d.ref, scope, docs, defaultNs);
    if rules.None? {
      errors' := errors + [UnknownRole(k)];
      return;
    }
    var held := HeldReads(rules.value, owner);
    assert forall v, o :: (v, o) in held <==> HoldsAt(docs, k, defaultNs, owner, v, o);
    if held != {} {
      SubjectsListed(d, defaultNs);
      var read :| read in held;
      assert HoldsAt(docs, k, defaultNs, owner, read.0, read.1);
      assert OpensAt(docs, k, defaultNs, owner) <==>
          exists s :: s in d.subjects && s.kind == "Group" && HoldsEveryAccount(s.name);
      table', errors' := AddSubjects(table, errors, held, k, d.subjects, scope, defaultNs);
    }
  }

  /** Reads of every ServiceAccount the render binds, and the errors that leave the answer unknown. */
  method CanRead(docs: seq<Doc>, owner: set<string>, defaultNs: string)
    returns (table: map<Account, set<Read>>, errors: seq<ReadError>)
    ensures forall a, v, o :: Recorded(table, a, v, o) <==>
        exists k :: 0 <= k < |docs| && RecordsAt(docs, k, defaultNs, owner, a, v, o)
    ensures errors == [] <==>
        forall k :: 0 <= k < |docs| ==> !Unknown(docs, k, defaultNs) && !OpensAt(docs, k, defaultNs, owner)
    ensures forall e :: e in errors <==> exists k :: 0 <= k < |docs| && IsErrorAt(docs, k, defaultNs, owner, e)
    ensures errors == [] ==> forall who, v, n | v in READ_VERBS && n in owner ::
        (Recorded(table, who, v, "secrets") || Recorded(table, who, v, n)) <==>
        || DocsAuthorize(docs, defaultNs, who, SecretRequest(v, Some(n)))
        || ("secrets" in owner && DocsAuthorize(docs, defaultNs, who, SecretRequest(v, Some("secrets"))))
  {
    hide RecordsAt, Unknown, OpensAt, IsErrorAt, DocsAuthorize, InReach;
    var roles := RoleRules(docs, defaultNs);
    table, errors := map[], [];
    for i := 0 to |docs|
      invariant forall a, v, o :: Recorded(table, a, v, o) <==>
          exists k :: 0 <= k < i && RecordsAt(docs, k, defaultNs, owner, a, v, o)
      invariant errors == [] <==>
          forall k :: 0 <= k < i ==> !Unknown(docs, k, defaultNs) && !OpensAt(docs, k, defaultNs, owner)
      invariant forall e :: e in errors <==> exists k :: 0 <= k < i && IsErrorAt(docs, k, defaultNs, owner, e)
    {
      table, errors := ReadBinding(docs, i, defaultNs, owner, roles, table, errors);
    }
    if errors == [] {
      forall who, v, n | v in READ_VERBS && n in owner
        ensures (Recorded(table, who, v, "secrets") || Recorded(table, who, v, n)) <==>
          || DocsAuthorize(docs, defaultNs, who, SecretRequest(v, Some(n)))
          || ("secrets" in owner && DocsAuthorize(docs, defaultNs, who, SecretRequest(v, Some("secrets"))))
      {
        RecordsAreAuthority(docs, defaultNs, owner, who, v, n);
      }
    }
  }

  // -------------------------------------------------- against the authorizer

  /** Some binding records the read "v on every Secret" or "v on n" for the account. */
  ghost predicate Records(docs: seq<Doc>, defaultNs: string, owner: set<string>, who: Account, v: string, n: string) {
    exists k :: 0 <= k < |docs| &&
      (RecordsAt(docs, k, defaultNs, owner, who, v, "secrets") || RecordsAt(docs, k, defaultNs, owner, who, v, n))
  }

  /** A record never names more than the authorizer grants, except under the one name clash: an owner Secret called
      "secrets" reads as every Secret. */
  lemma RecordedIsAuthorized(docs: seq<Doc>, k: nat, defaultNs: string, owner: set<string>,
                             who: Account, v: string, n: string)
    requires k < |docs|
    requires RecordsAt(docs, k, defaultNs, owner, who, v, "secrets") || RecordsAt(docs, k, defaultNs, owner, who, v, n)
    ensures || DocAllows(docs, k, defaultNs, who, SecretRequest(v, Some(n)))
            || ("secrets" in owner && DocAllows(docs, k, defaultNs, who, SecretRequest(v, Some("secrets"))))
  {
    var b := BindingAt(docs, k, defaultNs).value;
    assert Names(ServiceAccount(who), who);
    if RulesAllow(b.rules, SecretRequest(v, None)) {
      var r :| r in b.rules && RuleMatches(r, SecretRequest(v, None));
      assert RuleMatches(r, SecretRequest(v, Some(n)));
    }
  }

  /** A group that holds the account holds every account, so it opens the reads. */
  lemma GroupsOpen(docs: seq<Doc>, k: nat, defaultNs: string, owner: set<string>, who: Account)
    requires k < |docs| && BindingAt(docs, k, defaultNs).Some?
    ensures (exists v, o :: HoldsAt(docs, k, defaultNs, owner, v, o)) ==>
              forall g :: Group(g) in BindingAt(docs, k, defaultNs).value.subjects && Names(Group(g), who) ==>
                OpensAt(docs, k, defaultNs, owner)
  {
    assert forall g :: Names(Group(g), who) ==> HoldsEveryAccount(g);
  }

  /** Where no binding opens the reads to a group, whatever a binding authorizes is recorded. */
  lemma AuthorizedIsRecorded(docs: seq<Doc>, k: nat, defaultNs: string, owner: set<string>,
                             who: Account, v: string, n: string)
    requires k < |docs| && v in READ_VERBS && n in owner
    requires DocAllows(docs, k, defaultNs, who, SecretRequest(v, Some(n)))
    requires !OpensAt(docs, k, defaultNs, owner)
    ensures RecordsAt(docs, k, defaultNs, owner, who, v, "secrets") || RecordsAt(docs, k, defaultNs, owner, who, v, n)
  {
    hide OpensAt;
    var b := BindingAt(docs, k, defaultNs).value;
    assert HoldsAt(docs, k, defaultNs, owner, v, "secrets") || HoldsAt(docs, k, defaultNs, owner, v, n);
    GroupsOpen(docs, k, defaultNs, owner, who);
    var s :| s in b.subjects && Names(s, who);
  }

  lemma RecordsAreAuthority(docs: seq<Doc>, defaultNs: string, owner: set<string>, who: Account, v: string, n: string)
    requires v in READ_VERBS && n in owner
    requires forall k :: 0 <= k < |docs| ==> !OpensAt(docs, k, defaultNs, owner)
    ensures Records(docs, defaultNs, owner, who, v, n) <==>
        || DocsAuthorize(docs, defaultNs, who, SecretRequest(v, Some(n)))
        || ("secrets" in owner && DocsAuthorize(docs, defaultNs, who, SecretRequest(v, Some("secrets"))))
  {
    if Records(docs, defaultNs, owner, who, v, n) {
      var k :| 0 <= k < |docs| &&
        (RecordsAt(docs, k, defaultNs, owner, who, v, "secrets") || RecordsAt(docs, k, defaultNs, owner, who, v, n));
      RecordedIsAuthorized(docs, k, defaultNs, owner, who, v, n);
    }
    if DocsAuthorize(docs, defaultNs, who, SecretRequest(v, Some(n))) {
      var k :| 0 <= k < |docs| && DocAllows(docs, k, defaultNs, who, SecretRequest(v, Some(n)));
      AuthorizedIsRecorded(docs, k, defaultNs, owner, who, v, n);
    }
    if "secrets" in owner && DocsAuthorize(docs, defaultNs, who, SecretRequest(v, Some("secrets"))) {
      var k :| 0 <= k < |docs| && DocAllows(docs, k, defaultNs, who, SecretRequest(v, Some("secrets")));
      AuthorizedIsRecorded(docs, k, defaultNs, owner, who, v, "secrets");
    }
  }

  // ---------------------------------------------------------- the name clash

  /** A ClusterRole that names one Secret for "get", bound to one account in every namespace. */
  function OneName(rule: Rule, who: Account): seq<Doc> {
    [ClusterRole("reader", map[], [rule], []),
     ClusterRoleBinding("reader", RoleRef("ClusterRole", "reader"), [SubjectRef("ServiceAccount", Some(who.ns), who.name)])]
  }

  lemma OneNameBinds(rule: Rule, who: Account, defaultNs: string)
    requires who.ns != ""
    ensures var docs := OneName(rule, who);
            && BindingAt(docs, 0, defaultNs) == None && InReach(docs[1], defaultNs)
            && BindingAt(docs, 1, defaultNs) == Some(Binding(None, [ServiceAccount(who)], [rule]))
  {
    var docs := OneName(rule, who);
    var key := RoleKey("ClusterRole", "", "reader");
    assert !Defines(docs[1], key, defaultNs) && Defines(docs[0], key, defaultNs);
    assert Lookup(docs, 1, key, defaultNs) == Some(RulesOfDoc(docs, 0)) == Some([rule]);
    assert Lookup(docs, 2, key, defaultNs) == Some([rule]);
    assert SubjectsOf(docs[1], defaultNs) == [ServiceAccount(who)];
  }

  /** The extra case is real: a rule that names only the Secret "secrets" is recorded as a read of every owner Secret. */
  lemma NameClash(owner: set<string>, n: string, who: Account, defaultNs: string)
    requires "secrets" in owner && n in owner && n != "secrets" && who.ns != ""
    ensures var docs := OneName(Rule([""], ["secrets"], ["get"], ["secrets"]), who);
            && Records(docs, defaultNs, owner, who, "get", n)
            && !DocsAuthorize(docs, defaultNs, who, SecretRequest("get", Some(n)))
  {
    var rule := Rule([""], ["secrets"], ["get"], ["secrets"]);
    var docs := OneName(rule, who);
    OneNameBinds(rule, who, defaultNs);
    RuleAllowsIsMatch(rule, "get", Some("secrets"));
    assert RuleMatches(rule, SecretRequest("get", Some("secrets")));
    assert RulesAllow([rule], SecretRequest("get", Some("secrets")));
    assert RulesHold([rule], owner, "get", "secrets");
    assert RecordsAt(docs, 1, defaultNs, owner, who, "get", "secrets");
  }

  /** No binding opens a read to a group that holds every account. */
  ghost predicate NoneOpens(docs: seq<Doc>, defaultNs: string, owner: set<string>) {
    forall k :: 0 <= k < |docs| ==> !OpensAt(docs, k, defaultNs, owner)
  }

  /** Over all documents, what is recorded is what is authorized. */
  ghost predicate ExactReads(owner: set<string>, defaultNs: string) {
    forall docs, who, v, n :: v in READ_VERBS && n in owner && NoneOpens(docs, defaultNs, owner) ==>
      (Records(docs, defaultNs, owner, who, v, n) <==> DocsAuthorize(docs, defaultNs, who, SecretRequest(v, Some(n))))
  }

  lemma OneNameOpensNothing(rule: Rule, who: Account, defaultNs: string, owner: set<string>)
    requires who.ns != ""
    ensures NoneOpens(OneName(rule, who), defaultNs, owner)
  {
    OneNameBinds(rule, who, defaultNs);
  }

  /** Exact if and only if no Secret called `secrets` stands among others that hold owner credentials. */
  lemma ExactReadsIff(owner: set<string>, defaultNs: string)
    ensures ExactReads(owner, defaultNs) <==> !("secrets" in owner && exists n :: n in owner && n != "secrets")
  {
    hide RecordsAt, OpensAt, DocsAuthorize, OneName;
    if n :| "secrets" in owner && n in owner && n != "secrets" {
      var who := Account("ns", "app");
      var docs := OneName(Rule([""], ["secrets"], ["get"], ["secrets"]), who);
      NameClash(owner, n, who, defaultNs);
      OneNameOpensNothing(Rule([""], ["secrets"], ["get"], ["secrets"]), who, defaultNs, owner);
      assert READ_VERBS[0] == "get";
      assert !ExactReads(owner, defaultNs);
    } else {
      forall docs, who, v, n | v in READ_VERBS && n in owner && NoneOpens(docs, defaultNs, owner)
        ensures Records(docs, defaultNs, owner, who, v, n) <==> DocsAuthorize(docs, defaultNs, who, SecretRequest(v, Some(n)))
      {
        RecordsAreAuthority(docs, defaultNs, owner, who, v, n);
      }
    }
  }

  /** A group is flagged exactly when it holds some ServiceAccount, and so every one of its namespace. */
  lemma HoldsEveryAccountIff(group: string)
    ensures HoldsEveryAccount(group) <==> exists who :: HoldsAccount(group, who)
    ensures forall ns, a, b :: HoldsAccount(group, Account(ns, a)) <==> HoldsAccount(group, Account(ns, b))
  {
    var prefix := "system:serviceaccounts:";
    if prefix <= group {
      PrefixAndRest(group, prefix);
      assert HoldsAccount(group, Account(group[|prefix|..], ""));
    } else if HoldsEveryAccount(group) {
      assert HoldsAccount(group, Account("", ""));
    }
  }

  lemma PrefixAndRest(s: string, prefix: string)
    requires prefix <= s
    ensures s == prefix + s[|prefix|..]
  {
  }

  /** In full: each read of an owner Secret, by any of the three verbs, is recorded exactly when it is authorized. */
  lemma EveryReadIsJudged(docs: seq<Doc>, defaultNs: string, owner: set<string>, who: Account, v: string, n: string)
    requires v == "get" || v == "list" || v == "watch"
    requires n in owner && NoneOpens(docs, defaultNs, owner) && !("secrets" in owner && n != "secrets")
    ensures Records(docs, defaultNs, owner, who, v, n) <==>
        DocsAuthorize(docs, defaultNs, who, Request(v, "", "secrets", Some("gibson"), Some(n)))
  {
    hide RecordsAt, OpensAt, DocsAuthorize;
    assert READ_VERBS[0] == "get" && READ_VERBS[1] == "list" && READ_VERBS[2] == "watch";
    RecordsAreAuthority(docs, defaultNs, owner, who, v, n);
    assert Request(v, "", "secrets", Some("gibson"), Some(n)) == SecretRequest(v, Some(n));
  }
}
