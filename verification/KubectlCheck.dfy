/** scripts/check-kubectl-rbac.py, bound_rules, allowed and check. */
module KubectlCheck {
  import opened Prelude
  import opened Rbac
  import opened KubectlArgv
  import opened KubectlRequests
  import opened KubectlLog
  import OperatorRbac

  /** A rule with the namespace its binding grants it in (None: everywhere). */
  type ScopedRule = (Option<string>, Rule)

  function ResourceOf(rq: ApiRequest): string {
    if rq.sub != "" then rq.kind.1 + "/" + rq.sub else rq.kind.1
  }

  /** The request as the authorizer sees it. */
  function Asked(rq: ApiRequest): Request {
    Request(rq.verb, rq.kind.0, ResourceOf(rq), rq.ns, rq.name)
  }

  /** A request on a collection names no object: resourceNames never grant it. */
  predicate OnCollection(rq: ApiRequest) {
    rq.verb in ["list", "watch", "deletecollection"] || (rq.verb == "create" && rq.sub == "")
  }

  /** A request on a collection carries no name. */
  predicate NamesNoCollection(rq: ApiRequest) {
    OnCollection(rq) ==> rq.name.None?
  }

  predicate RuleGrants(rq: ApiRequest, s: ScopedRule) {
    if s.0.Some? && rq.ns != s.0 then false
    else if !Lists(s.1.apiGroups, rq.kind.0) then false
    else if !Lists(s.1.resources, ResourceOf(rq)) then false
    else if !Lists(s.1.verbs, rq.verb) then false
    else if s.1.resourceNames != [] then
      !(rq.name.None? || OnCollection(rq)) && rq.name.value in s.1.resourceNames
    else true
  }

  predicate Allowed(rq: ApiRequest, rules: seq<ScopedRule>) {
    exists s | s in rules :: RuleGrants(rq, s)
  }

  /** More rules allow no less. */
  lemma AllowedGrows(rq: ApiRequest, few: seq<ScopedRule>, many: seq<ScopedRule>)
    requires (forall s :: s in few ==> s in many) && Allowed(rq, few)
    ensures Allowed(rq, many)
  {
  }

  ghost predicate ScopedAllow(rules: seq<ScopedRule>, req: Request) {
    exists s :: s in rules && Covers(s.0, req.ns) && RuleMatches(s.1, req)
  }

  /** What the guard allows, the authorizer allows. */
  lemma AllowedIsAuthorized(rq: ApiRequest, rules: seq<ScopedRule>)
    requires Allowed(rq, rules)
    ensures ScopedAllow(rules, Asked(rq))
  {
    var s :| s in rules && RuleGrants(rq, s);
    var res := if "*" in s.1.resources then "*" else ResourceOf(rq);
    assert res in s.1.resources && Reaches(res, ResourceOf(rq));
  }

  /** And nothing is lost on rules without half-subresource patterns, for requests that name no collection's object. */
  lemma AuthorizedIsAllowed(rq: ApiRequest, rules: seq<ScopedRule>)
    requires ScopedAllow(rules, Asked(rq))
    requires forall s, res :: s in rules && res in s.1.resources ==> !OperatorRbac.HalfForm(res)
    requires NamesNoCollection(rq)
    ensures Allowed(rq, rules)
  {
    var s :| s in rules && Covers(s.0, rq.ns) && RuleMatches(s.1, Asked(rq));
    var res :| res in s.1.resources && Reaches(res, ResourceOf(rq));
    OperatorRbac.ReachesWhole(res, ResourceOf(rq));
    assert RuleGrants(rq, s);
  }

  lemma GetsName(ts: seq<Target>, selector: bool, ns: Option<string>, rq: ApiRequest)
    ensures rq in Gets(ts, selector, ns) || rq in Watches(ts, ns) || rq in Deletes(ts, ns) ==> NamesNoCollection(rq)
  {
  }

  lemma {:induction false} ReadsThenNames(ts: seq<Target>, verb: string, named: bool, ns: Option<string>, rq: ApiRequest)
    requires verb == "patch" || (verb == "watch" && !named)
    ensures rq in ReadsThen(ts, verb, named, ns) ==> NamesNoCollection(rq)
  {
    if ts != [] && rq in ReadsThen(ts[1..], verb, named, ns) {
      ReadsThenNames(ts[1..], verb, named, ns, rq);
    }
  }

  lemma OthersName(o: Object, ns: Option<string>, rq: ApiRequest)
    ensures rq in ApplyRequests(o, ns) ==> NamesNoCollection(rq)
    ensures rq.verb == "get" || (rq.verb == "create" && (rq.sub == "exec" || rq.name == None)) ==> NamesNoCollection(rq)
  {
  }

  /** Every derived request has the shape the completeness above asks for. */
  lemma StepsNameNoCollection(t: Tables, c: Call, pending: Option<Object>, rq: ApiRequest)
    requires Step(t, c, pending).Ok? && rq in Step(t, c, pending).value.reqs
    ensures NamesNoCollection(rq)
  {
    hide NamesNoCollection, Targets, Gets, Watches, Deletes, ReadsThen, ApplyRequests, KindOf, FlagOf, NsOf, AfterSlash, CreatedName;
    var ns, args, sub := NsOf(c), Args(c), Sub(c).value;
    var o := if pending.Some? then pending.value else Object(("", ""), None, None);
    OthersName(o, ns, rq);
    var named := if sub == "rollout" then args[1..] else args;
    if Targets(t, named).Ok? {
      var ts := Targets(t, named).value;
      GetsName(ts, true, ns, rq);
      GetsName(ts, false, ns, rq);
      ReadsThenNames(ts, "patch", true, ns, rq);
      ReadsThenNames(ts, "watch", false, ns, rq);
    }
  }

  // ------------------------------------------------------------ bound rules

  /** The rules of the last role defined under exactly this key among the first `n` documents. */
  function OwnRole(docs: seq<Doc>, n: nat, ref: RoleRef, ns: Option<string>): seq<Rule>
    requires n <= |docs|
  {
    if n == 0 then [] else
      var d := docs[n - 1];
      if d.Role? && ref == RoleRef("Role", d.name) && ns == d.ns then d.rules
      else if d.ClusterRole? && ref == RoleRef("ClusterRole", d.name) then d.rules
      else OwnRole(docs, n - 1, ref, ns)
  }

  function DocNs(d: Doc): Option<string>
    requires IsBinding(d)
  {
    if d.RoleBinding? then d.ns else None
  }

  predicate NamesSubject(d: Doc, sa: Account)
    requires IsBinding(d)
  {
    exists s | s in d.subjects ::
      s.kind == "ServiceAccount" && s.name == sa.name && (if s.ns.Some? then s.ns else DocNs(d)) == Some(sa.ns)
  }

  /** The rules document `k` binds to the account, as bound_rules reads them. */
  function RulesAt(docs: seq<Doc>, k: nat, sa: Account): seq<Rule>
    requires k < |docs|
  {
    var d := docs[k];
    if IsBinding(d) && NamesSubject(d, sa) then OwnRole(docs, |docs|, d.ref, DocNs(d)) else []
  }

  ghost predicate BoundTo(docs: seq<Doc>, sa: Account, s: ScopedRule) {
    exists k :: 0 <= k < |docs| && s.1 in RulesAt(docs, k, sa) && s.0 == DocNs(docs[k])
  }

  method BoundRules(docs: seq<Doc>, sa: Account) returns (out: seq<ScopedRule>)
    ensures forall s :: s in out <==> BoundTo(docs, sa, s)
  {
    out := [];
    for i := 0 to |docs|
      invariant forall s :: s in out <==>
          exists k :: 0 <= k < i && s.1 in RulesAt(docs, k, sa) && s.0 == DocNs(docs[k])
    {
      var rules := RulesAt(docs, i, sa);
      ghost var before := out;
      for j := 0 to |rules|
        invariant forall s :: s in out <==> s in before || (s.1 in rules[..j] && s.0 == DocNs(docs[i]))
      {
        assert rules[..j + 1] == rules[..j] + [rules[j]];
        out := out + [(DocNs(docs[i]), rules[j])];
      }
      assert rules[..|rules|] == rules;
    }
  }

  // ------------------------------------------------------------------ check

  datatype Finding = NoBoundRule | EmptyLog | Denied(call: Argv, rq: ApiRequest) | Failed(error: CallError) | NoRequest

  ghost predicate AllAllowed(lists: seq<seq<ApiRequest>>, rules: seq<ScopedRule>) {
    forall reqs, rq :: reqs in lists && rq in reqs ==> Allowed(rq, rules)
  }

  function JoinLists(done: seq<seq<ApiRequest>>, r: Result<seq<seq<ApiRequest>>, CallError>)
    : Result<seq<seq<ApiRequest>>, CallError>
  {
    match r
    case Ok(lists) => Ok(done + lists)
    case Err(e) => Err(e)
  }

  lemma JoinListsStep(done: seq<seq<ApiRequest>>, reqs: seq<ApiRequest>, r: Result<seq<seq<ApiRequest>>, CallError>)
    ensures JoinLists(done, ConsList(reqs, r)) == JoinLists(done + [reqs], r)
  {
    if r.Ok? {
      assert done + ([reqs] + r.value) == done + [reqs] + r.value;
    }
  }

  /** The finding for a request of the call that no rule allows. */
  predicate IsDenial(call: Argv, reqs: seq<ApiRequest>, rules: seq<ScopedRule>, f: Finding) {
    f.Denied? && f.call == call && f.rq in reqs && !Allowed(f.rq, rules)
  }

  method CheckCall(call: Argv, reqs: seq<ApiRequest>, rules: seq<ScopedRule>) returns (findings: set<Finding>)
    ensures findings == {} <==> forall rq :: rq in reqs ==> Allowed(rq, rules)
    ensures forall f :: f in findings <==> IsDenial(call, reqs, rules, f)
  {
    findings := {};
    for i := 0 to |reqs|
      invariant forall f :: f in findings <==> IsDenial(call, reqs[..i], rules, f)
      invariant findings == {} <==> forall rq :: rq in reqs[..i] ==> Allowed(rq, rules)
    {
      assert reqs[..i + 1] == reqs[..i] + [reqs[i]];
      if !Allowed(reqs[i], rules) {
        findings := findings + {Denied(call, reqs[i])};
      }
    }
    assert reqs[..|reqs|] == reqs;
  }

  method StepCall(t: Tables, argv: Argv, pending: Option<Object>) returns (r: Result<Outcome, CallError>)
    ensures r == StepArgv(t, argv, pending)
  {
    var c := Parse(t.flags, argv);
    r := if c.Err? then Err(c.error) else Step(t, c.value, pending);
  }

  /** The run of a log, with its first `done` calls taken out and their object pending. */
  ghost predicate Underway(t: Tables, calls: seq<Argv>, i: nat, done: seq<seq<ApiRequest>>, pending: Option<Object>)
    requires i <= |calls|
  {
    Run(t, calls, None) == JoinLists(done, Run(t, calls[i..], pending))
  }

  lemma UnderwayStart(t: Tables, calls: seq<Argv>)
    ensures Underway(t, calls, 0, [], None)
  {
    assert calls[0..] == calls;
    assert Run(t, calls, None).Ok? ==> [] + Run(t, calls, None).value == Run(t, calls, None).value;
  }

  lemma {:induction false} UnderwayStep(t: Tables, calls: seq<Argv>, i: nat, done: seq<seq<ApiRequest>>, pending: Option<Object>)
    requires i < |calls| && Underway(t, calls, i, done, pending)
    ensures StepArgv(t, calls[i], pending).Err? ==> Run(t, calls, None).Err?
    ensures StepArgv(t, calls[i], pending).Ok? ==>
        var out := StepArgv(t, calls[i], pending).value; Underway(t, calls, i + 1, done + [out.reqs], out.pending)
  {
    assert calls[i..][1..] == calls[i + 1..];
    if StepArgv(t, calls[i], pending).Ok? {
      var out := StepArgv(t, calls[i], pending).value;
      JoinListsStep(done, out.reqs, Run(t, calls[i + 1..], out.pending));
    }
  }

  lemma UnderwayEnd(t: Tables, calls: seq<Argv>, done: seq<seq<ApiRequest>>, pending: Option<Object>)
    requires Underway(t, calls, |calls|, done, pending)
    ensures Run(t, calls, None) == Ok(done)
  {
    assert calls[|calls|..] == [] && done + [] == done;
  }

  /** The run reaches the `k`-th call, which asks for the request, and no rule allows it. */
  ghost predicate DeniedAt(t: Tables, calls: seq<Argv>, rules: seq<ScopedRule>, k: nat, call: Argv, rq: ApiRequest) {
    && k < |calls| && calls[k] == call
    && Run(t, calls[..k + 1], None).Ok? && k < |Run(t, calls[..k + 1], None).value|
    && rq in Run(t, calls[..k + 1], None).value[k] && !Allowed(rq, rules)
  }

  ghost predicate DeniedWithin(t: Tables, calls: seq<Argv>, rules: seq<ScopedRule>, n: nat, call: Argv, rq: ApiRequest) {
    exists k: nat :: k < n && DeniedAt(t, calls, rules, k, call, rq)
  }

  /** What is to be said about the calls: what is denied up to the first error, and that error. */
  ghost predicate IsCallFinding(t: Tables, calls: seq<Argv>, rules: seq<ScopedRule>, f: Finding) {
    match f
    case Denied(call, rq) => DeniedWithin(t, calls, rules, |calls|, call, rq)
    case Failed(e) => Run(t, calls, None) == Err(e)
    case _ => false
  }

  lemma DeniedUpTo(t: Tables, calls: seq<Argv>, rules: seq<ScopedRule>, i: nat, call: Argv, rq: ApiRequest)
    requires i <= |calls|
    ensures DeniedWithin(t, calls[..i], rules, i, call, rq) <==> DeniedWithin(t, calls, rules, i, call, rq)
  {
    hide Run, Allowed;
    forall k: nat | k < i
      ensures DeniedAt(t, calls[..i], rules, k, call, rq) <==> DeniedAt(t, calls, rules, k, call, rq)
    {
      assert calls[..i][..k + 1] == calls[..k + 1];
    }
  }

  lemma DeniedHere(t: Tables, calls: seq<Argv>, rules: seq<ScopedRule>, i: nat, lists: seq<seq<ApiRequest>>, call: Argv, rq: ApiRequest)
    requires i < |calls| && Run(t, calls[..i + 1], None) == Ok(lists) && |lists| == i + 1
    ensures DeniedWithin(t, calls, rules, i + 1, call, rq) <==>
        DeniedWithin(t, calls, rules, i, call, rq) || (calls[i] == call && rq in lists[i] && !Allowed(rq, rules))
  {
    hide Run, Allowed;
    assert DeniedAt(t, calls, rules, i, call, rq) <==> calls[i] == call && rq in lists[i] && !Allowed(rq, rules);
  }

  /** One call further: what it is denied joins the findings, or its error ends them. */
  lemma FindingsStep(t: Tables, calls: seq<Argv>, rules: seq<ScopedRule>, i: nat, done: seq<seq<ApiRequest>>, f: Finding)
    requires i < |calls| && Run(t, calls[..i], None) == Ok(done) && |done| == i
    ensures match StepArgv(t, calls[i], After(t, calls[..i], None))
            case Ok(out) =>
              && Run(t, calls[..i + 1], None) == Ok(done + [out.reqs]) && After(t, calls[..i + 1], None) == out.pending
              && (IsCallFinding(t, calls[..i + 1], rules, f) <==>
                    IsCallFinding(t, calls[..i], rules, f)
                    || IsDenial(calls[i], out.reqs, rules, f))
            case Err(e) =>
              IsCallFinding(t, calls, rules, f) <==> IsCallFinding(t, calls[..i], rules, f) || f == Failed(e)
  {
    hide Run, StepArgv, Allowed, After, DeniedWithin;
    assert calls[..i + 1] == calls[..i] + [calls[i]];
    RunOneMore(t, calls[..i], calls[i], None);
    match StepArgv(t, calls[i], After(t, calls[..i], None)) {
      case Ok(out) =>
        if f.Denied? {
          DeniedHere(t, calls, rules, i, done + [out.reqs], f.call, f.rq);
          DeniedUpTo(t, calls, rules, i, f.call, f.rq);
          DeniedUpTo(t, calls, rules, i + 1, f.call, f.rq);
        }
      case Err(e) =>
        assert calls == calls[..i + 1] + calls[i + 1..];
        RunFails(t, calls[..i + 1], calls[i + 1..], None);
        if f.Denied? {
          NoneBehindError(t, calls, rules, i, f.call, f.rq);
          DeniedUpTo(t, calls, rules, i, f.call, f.rq);
        }
    }
  }

  lemma NoneBehindError(t: Tables, calls: seq<Argv>, rules: seq<ScopedRule>, i: nat, call: Argv, rq: ApiRequest)
    requires i < |calls| && Run(t, calls[..i + 1], None).Err?
    ensures DeniedWithin(t, calls, rules, |calls|, call, rq) <==> DeniedWithin(t, calls, rules, i, call, rq)
  {
    hide Run, Allowed;
    forall k: nat | DeniedAt(t, calls, rules, k, call, rq)
      ensures k < i
    {
      if k >= i {
        assert calls[..k + 1] == calls[..i + 1] + calls[i + 1..k + 1];
        RunFails(t, calls[..i + 1], calls[i + 1..k + 1], None);
      }
    }
  }

  /** The loop of `check` over the calls in pipe order: findings so far, and how many requests it judged. */
  method CheckCalls(t: Tables, calls: seq<Argv>, rules: seq<ScopedRule>)
    returns (findings: set<Finding>, checked: nat, ghost done: seq<seq<ApiRequest>>)
    ensures findings == {} ==> Run(t, calls, None) == Ok(done)
    ensures findings == {} <==> Run(t, calls, None).Ok? && AllAllowed(done, rules)
    ensures Run(t, calls, None).Ok? ==> Run(t, calls, None) == Ok(done)
    ensures checked > 0 <==> exists reqs :: reqs in done && reqs != []
    ensures forall f :: f in findings <==> IsCallFinding(t, calls, rules, f)
  {
    hide Run, Underway, StepArgv, After, IsCallFinding, Allowed;
    findings, checked, done := {}, 0, [];
    var pending: Option<Object> := None;
    UnderwayStart(t, calls);
    NoCalls(t, calls, rules);
    var i := 0;
    while i < |calls|
      invariant 0 <= i <= |calls|
      invariant Underway(t, calls, i, done, pending)
      invariant findings == {} <==> AllAllowed(done, rules)
      invariant checked > 0 <==> exists reqs :: reqs in done && reqs != []
      invariant Run(t, calls[..i], None) == Ok(done) && |done| == i && After(t, calls[..i], None) == pending
      invariant forall f :: f in findings <==> IsCallFinding(t, calls[..i], rules, f)
    {
      CallFindings(t, calls, rules, i, done);
      UnderwayStep(t, calls, i, done, pending);
      var out := StepCall(t, calls[i], pending);
      if out.Err? {
        findings := findings + {Failed(out.error)};
        return;
      }
      var here := CheckCall(calls[i], out.value.reqs, rules);
      ghost var before := done;
      done := before + [out.value.reqs];
      assert forall x :: x in done <==> x in before || x == out.value.reqs;
      assert out.value.reqs in done;
      assert (exists x :: x in done && x != []) <==> (exists x :: x in before && x != []) || out.value.reqs != [];
      findings, checked, pending := findings + here, checked + |out.value.reqs|, out.value.pending;
      i := i + 1;
    }
    UnderwayEnd(t, calls, done, pending);
    assert calls[..|calls|] == calls;
  }

  lemma NoCalls(t: Tables, calls: seq<Argv>, rules: seq<ScopedRule>)
    ensures Run(t, calls[..0], None) == Ok([]) && After(t, calls[..0], None) == None
    ensures forall f :: !IsCallFinding(t, calls[..0], rules, f)
  {
  }

  lemma CallFindings(t: Tables, calls: seq<Argv>, rules: seq<ScopedRule>, i: nat, done: seq<seq<ApiRequest>>)
    requires i < |calls| && Run(t, calls[..i], None) == Ok(done) && |done| == i
    ensures match StepArgv(t, calls[i], After(t, calls[..i], None))
            case Ok(out) =>
              && Run(t, calls[..i + 1], None) == Ok(done + [out.reqs]) && After(t, calls[..i + 1], None) == out.pending
              && forall f :: IsCallFinding(t, calls[..i + 1], rules, f) <==>
                   IsCallFinding(t, calls[..i], rules, f)
                   || IsDenial(calls[i], out.reqs, rules, f)
            case Err(e) =>
              forall f :: IsCallFinding(t, calls, rules, f) <==> IsCallFinding(t, calls[..i], rules, f) || f == Failed(e)
  {
    hide Run, StepArgv, Allowed, After, IsCallFinding;
    RunOneMore(t, calls[..i], calls[i], None);
    assert calls[..i + 1] == calls[..i] + [calls[i]];
    match StepArgv(t, calls[i], After(t, calls[..i], None)) {
      case Ok(out) =>
        forall f
          ensures IsCallFinding(t, calls[..i + 1], rules, f) <==>
              IsCallFinding(t, calls[..i], rules, f)
              || IsDenial(calls[i], out.reqs, rules, f)
        {
          FindingsStep(t, calls, rules, i, done, f);
        }
      case Err(e) =>
        forall f
          ensures IsCallFinding(t, calls, rules, f) <==> IsCallFinding(t, calls[..i], rules, f) || f == Failed(e)
        {
          FindingsStep(t, calls, rules, i, done, f);
        }
    }
  }

  /** Some rule bound to the account grants the request. */
  ghost predicate Permitted(docs: seq<Doc>, sa: Account, rq: ApiRequest) {
    exists s :: BoundTo(docs, sa, s) && RuleGrants(rq, s)
  }

  /** The run of the ordered log reaches its `k`-th call, which asks for the request, and it is not permitted. */
  ghost predicate DeniedIn(docs: seq<Doc>, sa: Account, t: Tables, calls: seq<Argv>, k: nat, call: Argv, rq: ApiRequest) {
    && k < |calls| && calls[k] == call
    && Run(t, calls[..k + 1], None).Ok? && k < |Run(t, calls[..k + 1], None).value|
    && rq in Run(t, calls[..k + 1], None).value[k] && !Permitted(docs, sa, rq)
  }

  /** Everything the guard has to say, and when. */
  ghost predicate IsFinding(docs: seq<Doc>, sa: Account, t: Tables, log: seq<Argv>, f: Finding) {
    match f
    case NoBoundRule => !exists s :: BoundTo(docs, sa, s)
    case EmptyLog => (exists s :: BoundTo(docs, sa, s)) && log == []
    case Failed(e) => (exists s :: BoundTo(docs, sa, s)) && log != [] && Requests(t, log) == Err(e)
    case Denied(call, rq) =>
      && Ordered(t, log).Ok?
      && (exists s :: BoundTo(docs, sa, s))
      && exists k: nat :: DeniedIn(docs, sa, t, Ordered(t, log).value, k, call, rq)
    case NoRequest =>
      && (exists s :: BoundTo(docs, sa, s)) && log != [] && Requests(t, log).Ok?
      && forall reqs :: reqs in Requests(t, log).value ==> reqs == []
  }

  /** No finding means: a bound rule, a non-empty log, every call modelled, some request derived, each one granted. */
  method Check(docs: seq<Doc>, sa: Account, log: seq<Argv>) returns (findings: set<Finding>)
    ensures findings == {} <==>
        && (exists s :: BoundTo(docs, sa, s)) && log != [] && Requests(KUBECTL_TABLES, log).Ok?
        && (exists reqs :: reqs in Requests(KUBECTL_TABLES, log).value && reqs != [])
        && forall reqs, rq :: reqs in Requests(KUBECTL_TABLES, log).value && rq in reqs ==> Permitted(docs, sa, rq)
    ensures forall f :: f in findings <==> IsFinding(docs, sa, KUBECTL_TABLES, log, f)
  {
    hide BoundTo, Requests, Ordered, Run, Permitted, IsFinding, IsCallFinding, Allowed;
    var rules := BoundRules(docs, sa);
    EarlyFindings(docs, sa, KUBECTL_TABLES, log);
    if rules == [] {
      return {NoBoundRule};
    }
    assert rules[0] in rules;
    if log == [] {
      return {EmptyLog};
    }
    var calls := PipeOrder(KUBECTL_TABLES, log);
    if calls.Err? {
      return {Failed(calls.error)};
    }
    AllowedIsPermitted(docs, sa, rules);
    var checked;
    ghost var done;
    findings, checked, done := CheckCalls(KUBECTL_TABLES, calls.value, rules);
    LateFindings(docs, sa, KUBECTL_TABLES, log, rules, calls.value);
    assert IsFinding(docs, sa, KUBECTL_TABLES, log, NoRequest) <==> checked == 0 && findings == {};
    if checked == 0 && findings == {} {
      findings := {NoRequest};
    }
  }

  lemma AllowedIsPermitted(docs: seq<Doc>, sa: Account, rules: seq<ScopedRule>)
    requires forall s :: s in rules <==> BoundTo(docs, sa, s)
    ensures forall rq :: Allowed(rq, rules) <==> Permitted(docs, sa, rq)
  {
    hide BoundTo, RuleGrants;
  }

  /** What there is to say when the guard ends before it reads a request. */
  lemma EarlyFindings(docs: seq<Doc>, sa: Account, t: Tables, log: seq<Argv>)
    ensures !(exists s :: BoundTo(docs, sa, s)) ==> forall f :: IsFinding(docs, sa, t, log, f) <==> f == NoBoundRule
    ensures (exists s :: BoundTo(docs, sa, s)) && log == [] ==> forall f :: IsFinding(docs, sa, t, log, f) <==> f == EmptyLog
    ensures Ordered(t, log).Err? ==> Requests(t, log) == Err(Ordered(t, log).error)
    ensures (exists s :: BoundTo(docs, sa, s)) && log != [] && Ordered(t, log).Err? ==>
        forall f :: IsFinding(docs, sa, t, log, f) <==> f == Failed(Ordered(t, log).error)
  {
    hide BoundTo, Permitted;
  }

  /** What there is to say about the calls once they stand in order. */
  lemma LateFindings(docs: seq<Doc>, sa: Account, t: Tables, log: seq<Argv>, rules: seq<ScopedRule>, calls: seq<Argv>)
    requires rules != [] && log != [] && Ordered(t, log) == Ok(calls)
    requires forall s :: s in rules <==> BoundTo(docs, sa, s)
    ensures Requests(t, log) == Run(t, calls, None)
    ensures !IsCallFinding(t, calls, rules, NoRequest)
    ensures forall f :: f != NoRequest ==> (IsFinding(docs, sa, t, log, f) <==> IsCallFinding(t, calls, rules, f))
    ensures IsFinding(docs, sa, t, log, NoRequest) <==>
        Requests(t, log).Ok? && forall reqs :: reqs in Requests(t, log).value ==> reqs == []
  {
    hide BoundTo, Permitted, Allowed, Run, Ordered;
    assert rules[0] in rules;
    AllowedIsPermitted(docs, sa, rules);
    forall call, rq, k: nat
      ensures DeniedIn(docs, sa, t, calls, k, call, rq) <==> DeniedAt(t, calls, rules, k, call, rq)
    {
    }
    hide DeniedIn, DeniedAt;
    forall call, rq
      ensures IsFinding(docs, sa, t, log, Denied(call, rq)) <==> IsCallFinding(t, calls, rules, Denied(call, rq))
    {
      DeniedInCalls(t, calls, rules, call, rq);
    }
  }

  lemma DeniedInCalls(t: Tables, calls: seq<Argv>, rules: seq<ScopedRule>, call: Argv, rq: ApiRequest)
    ensures DeniedWithin(t, calls, rules, |calls|, call, rq) <==> exists k: nat :: DeniedAt(t, calls, rules, k, call, rq)
  {
    hide Run, Allowed;
  }

  // -------------------------------------------------- against the authorizer

  /** Document `k` binds the account a rule that grants the request, as the guard reads it. */
  ghost predicate BindingPermits(docs: seq<Doc>, k: nat, sa: Account, rq: ApiRequest)
    requires k < |docs|
  {
    exists r :: r in RulesAt(docs, k, sa) && RuleGrants(rq, (DocNs(docs[k]), r))
  }

  lemma PermittedByBinding(docs: seq<Doc>, sa: Account, rq: ApiRequest)
    ensures Permitted(docs, sa, rq) <==> exists k :: 0 <= k < |docs| && BindingPermits(docs, k, sa, rq)
  {
    if Permitted(docs, sa, rq) {
      var s :| BoundTo(docs, sa, s) && RuleGrants(rq, s);
      var k :| 0 <= k < |docs| && s.1 in RulesAt(docs, k, sa) && s.0 == DocNs(docs[k]);
      assert BindingPermits(docs, k, sa, rq);
    }
    if k :| 0 <= k < |docs| && BindingPermits(docs, k, sa, rq) {
      var r :| r in RulesAt(docs, k, sa) && RuleGrants(rq, (DocNs(docs[k]), r));
      assert BoundTo(docs, sa, (DocNs(docs[k]), r));
    }
  }

  /** A resource and its subresource, both named. */
  predicate NamesSubresource(res: string) {
    res == "*" || exists i | 0 <= i < |res| - 1 :: res[i] == '/'
  }

  /** The rule grants some request at all. A rule with resourceNames grants a verb on an object it names, and a create
      on a subresource only. */
  predicate GrantsSomething(r: Rule) {
    && r.apiGroups != [] && r.resources != [] && r.verbs != []
    && (r.resourceNames == [] || exists v | v in r.verbs ::
          && v !in ["list", "watch", "deletecollection"]
          && (v == "create" ==> exists res | res in r.resources :: NamesSubresource(res)))
  }

  lemma GrantsMeansSomething(rq: ApiRequest, s: ScopedRule)
    requires RuleGrants(rq, s)
    ensures GrantsSomething(s.1)
  {
    var r := s.1;
    if r.resourceNames != [] && rq.verb == "create" && "*" !in r.verbs {
      var res := if "*" in r.resources then "*" else ResourceOf(rq);
      if res != "*" {
        assert res[|rq.kind.1|] == '/';
      }
      assert res in r.resources && NamesSubresource(res);
    }
    if "*" in r.verbs {
      assert "*" !in ["list", "watch", "deletecollection"];
    }
  }

  /** A request in this namespace that a granting rule grants. */
  lemma SomethingGranted(r: Rule, scope: Option<string>, ns: Option<string>) returns (rq: ApiRequest)
    requires GrantsSomething(r) && (scope.None? || scope == ns)
    ensures RuleGrants(rq, (scope, r)) && rq.ns == ns
  {
    var group := r.apiGroups[0];
    if r.resourceNames == [] {
      rq := ApiRequest(r.verbs[0], (group, r.resources[0]), "", ns, None);
    } else {
      var name := Some(r.resourceNames[0]);
      var v :| v in r.verbs && v !in ["list", "watch", "deletecollection"]
               && (v == "create" ==> exists res | res in r.resources :: NamesSubresource(res));
      if v == "create" {
        var res :| res in r.resources && NamesSubresource(res);
        if res == "*" {
          rq := ApiRequest(v, (group, "pods"), "exec", ns, name);
        } else {
          var i :| 0 <= i < |res| - 1 && res[i] == '/';
          rq := ApiRequest(v, (group, res[..i]), res[i + 1..], ns, name);
          assert res[..i] + "/" + res[i + 1..] == res;
        }
      } else {
        rq := ApiRequest(v, (group, r.resources[0]), "", ns, name);
      }
    }
  }

  /** A RoleBinding whose own namespace is not the one it is installed in: it names none, or the empty one. */
  predicate Misplaced(d: Doc, defaultNs: string) {
    d.RoleBinding? && (d.ns.None? || (d.ns.value == "" && defaultNs != ""))
  }

  predicate BindsSomething(docs: seq<Doc>, k: nat, sa: Account)
    requires k < |docs|
  {
    exists r | r in RulesAt(docs, k, sa) :: GrantsSomething(r)
  }

  /** Exact, for each binding: the guard keeps its grants within the scope the binding has when installed, unless it is
      misplaced and binds a rule that grants anything. */
  lemma GrantsStayInScope(docs: seq<Doc>, k: nat, defaultNs: string, sa: Account)
    requires k < |docs| && IsBinding(docs[k])
    ensures (forall rq :: BindingPermits(docs, k, sa, rq) ==> Covers(ScopeOf(docs[k], defaultNs), rq.ns)) <==>
              !(Misplaced(docs[k], defaultNs) && BindsSomething(docs, k, sa))
  {
    var d := docs[k];
    if Misplaced(d, defaultNs) && BindsSomething(docs, k, sa) {
      var r :| r in RulesAt(docs, k, sa) && GrantsSomething(r);
      var rq := SomethingGranted(r, DocNs(d), d.ns);
      assert BindingPermits(docs, k, sa, rq);
    } else {
      forall rq | BindingPermits(docs, k, sa, rq)
        ensures Covers(ScopeOf(d, defaultNs), rq.ns)
      {
        var r :| r in RulesAt(docs, k, sa) && RuleGrants(rq, (DocNs(d), r));
        GrantsMeansSomething(rq, (DocNs(d), r));
      }
    }
  }

  /** No two Roles of one name are installed in one namespace under two ways of writing it. */
  ghost predicate NoRoleClash(docs: seq<Doc>, defaultNs: string) {
    forall d, e :: d in docs && e in docs && d.Role? && e.Role? ==>
      d.name == e.name && OrElse(d.ns, defaultNs) == OrElse(e.ns, defaultNs) ==> d.ns == e.ns
  }

  /** The guard credits the account with more than this binding gives: it is misplaced, or binds a Role cluster-wide. */
  predicate Leaks(docs: seq<Doc>, k: nat, sa: Account, defaultNs: string)
    requires k < |docs| && IsBinding(docs[k])
  {
    (Misplaced(docs[k], defaultNs) || (docs[k].ClusterRoleBinding? && docs[k].ref.kind == "Role"))
    && BindsSomething(docs, k, sa)
  }

  lemma {:induction false} OwnRoleIsDefined(docs: seq<Doc>, n: nat, ref: RoleRef, ns: Option<string>, r: Rule) returns (d: Doc)
    requires n <= |docs| && r in OwnRole(docs, n, ref, ns)
    ensures d in docs
    ensures (d.Role? && ref == RoleRef("Role", d.name) && ns == d.ns) || (d.ClusterRole? && ref == RoleRef("ClusterRole", d.name))
  {
    d := docs[n - 1];
    if !(d.Role? && ref == RoleRef("Role", d.name) && ns == d.ns) && !(d.ClusterRole? && ref == RoleRef("ClusterRole", d.name)) {
      d := OwnRoleIsDefined(docs, n - 1, ref, ns, r);
    }
  }

  /** The key under which the authorizer looks up what this reference names from this scope. */
  function KeyFor(ref: RoleRef, ns: string): RoleKey {
    if ref.kind == "Role" then RoleKey("Role", ns, ref.name) else RoleKey("ClusterRole", "", ref.name)
  }

  lemma {:induction false} OwnRoleIsLookedUp(docs: seq<Doc>, n: nat, ref: RoleRef, ns: Option<string>, defaultNs: string, r: Rule)
    requires n <= |docs| && NoRoleClash(docs, defaultNs) && r in OwnRole(docs, n, ref, ns)
    ensures ref.kind == "Role" || ref.kind == "ClusterRole"
    ensures var found := Lookup(docs, n, KeyFor(ref, OrElse(ns, defaultNs)), defaultNs); found.Some? && r in found.value
  {
    var d := docs[n - 1];
    assert d in docs;
    if d.ClusterRole? && ref == RoleRef("ClusterRole", d.name) {
      AggregatedKeepsOwn(docs, n - 1, |d.selectors|);
    } else if !(d.Role? && ref == RoleRef("Role", d.name) && ns == d.ns) {
      OwnRoleIsLookedUp(docs, n - 1, ref, ns, defaultNs, r);
      var e := OwnRoleIsDefined(docs, n - 1, ref, ns, r);
    }
  }

  lemma NamedSubjectHolds(d: Doc, sa: Account, defaultNs: string)
    requires IsBinding(d) && NamesSubject(d, sa) && sa.ns != ""
    ensures exists s :: s in SubjectsOf(d, defaultNs) && Names(s, sa)
  {
    var s :| s in d.subjects && s.kind == "ServiceAccount" && s.name == sa.name
             && (if s.ns.Some? then s.ns else DocNs(d)) == Some(sa.ns);
    var at :| 0 <= at < |d.subjects| && d.subjects[at] == s;
    assert Names(SubjectsOf(d, defaultNs)[at], sa);
  }

  lemma PermittingBindingAllows(docs: seq<Doc>, k: nat, defaultNs: string, sa: Account, rq: ApiRequest)
    requires k < |docs| && IsBinding(docs[k]) && NoRoleClash(docs, defaultNs) && sa.ns != ""
    requires !Leaks(docs, k, sa, defaultNs) && BindingPermits(docs, k, sa, rq)
    ensures DocAllows(docs, k, defaultNs, sa, Asked(rq))
  {
    hide RuleMatches, NamesSubject, GrantsSomething;
    var d := docs[k];
    var r :| r in RulesAt(docs, k, sa) && RuleGrants(rq, (DocNs(d), r));
    GrantsMeansSomething(rq, (DocNs(d), r));
    GrantsStayInScope(docs, k, defaultNs, sa);
    OwnRoleIsLookedUp(docs, |docs|, d.ref, DocNs(d), defaultNs, r);
    AllowedIsAuthorized(rq, [(DocNs(d), r)]);
    NamedSubjectHolds(d, sa, defaultNs);
    var b := BindingAt(docs, k, defaultNs).value;
    assert r in b.rules && RuleMatches(r, Asked(rq));
  }

  /** Exact, for each binding: whatever the guard grants by it the API server grants by it, unless it leaks. */
  lemma BindingIsHonestIff(docs: seq<Doc>, k: nat, defaultNs: string, sa: Account)
    requires k < |docs| && IsBinding(docs[k]) && NoRoleClash(docs, defaultNs) && sa.ns != ""
    ensures (forall rq :: BindingPermits(docs, k, sa, rq) ==> DocAllows(docs, k, defaultNs, sa, Asked(rq))) <==>
              !Leaks(docs, k, sa, defaultNs)
  {
    var d := docs[k];
    if Leaks(docs, k, sa, defaultNs) {
      var r :| r in RulesAt(docs, k, sa) && GrantsSomething(r);
      var rq := SomethingGranted(r, DocNs(d), DocNs(d));
      assert BindingPermits(docs, k, sa, rq) && !DocAllows(docs, k, defaultNs, sa, Asked(rq));
    } else {
      forall rq | BindingPermits(docs, k, sa, rq)
        ensures DocAllows(docs, k, defaultNs, sa, Asked(rq))
      {
        PermittingBindingAllows(docs, k, defaultNs, sa, rq);
      }
    }
  }

  /** So a granted request is authorized wherever no binding leaks. */
  lemma PermittedIsAuthorized(docs: seq<Doc>, defaultNs: string, sa: Account, rq: ApiRequest)
    requires NoRoleClash(docs, defaultNs) && sa.ns != "" && Permitted(docs, sa, rq)
    requires forall k :: 0 <= k < |docs| && IsBinding(docs[k]) ==> !Leaks(docs, k, sa, defaultNs)
    ensures DocsAuthorize(docs, defaultNs, sa, Asked(rq))
  {
    PermittedByBinding(docs, sa, rq);
    var k :| 0 <= k < |docs| && BindingPermits(docs, k, sa, rq);
    PermittingBindingAllows(docs, k, defaultNs, sa, rq);
  }

  /** And where the account has this one binding, every granted request is authorized exactly when it does not leak. */
  lemma OnlyBindingIsHonestIff(docs: seq<Doc>, k: nat, defaultNs: string, sa: Account)
    requires k < |docs| && IsBinding(docs[k]) && NoRoleClash(docs, defaultNs) && sa.ns != ""
    requires forall i :: 0 <= i < |docs| && i != k ==> !IsBinding(docs[i])
    ensures (forall rq :: Permitted(docs, sa, rq) ==> DocsAuthorize(docs, defaultNs, sa, Asked(rq))) <==>
              !Leaks(docs, k, sa, defaultNs)
  {
    BindingIsHonestIff(docs, k, defaultNs, sa);
    forall rq
      ensures Permitted(docs, sa, rq) <==> BindingPermits(docs, k, sa, rq)
      ensures DocsAuthorize(docs, defaultNs, sa, Asked(rq)) <==> DocAllows(docs, k, defaultNs, sa, Asked(rq))
    {
      PermittedByBinding(docs, sa, rq);
    }
  }

  // ------------------------------------------------------------ completeness

  /** What bound_rules reads in full: every namespace is written out, every subject is a ServiceAccount, and every
      ClusterRole bound is in the documents and aggregates nothing. */
  ghost predicate ReadInFull(docs: seq<Doc>) {
    && (forall d :: d in docs && (d.Role? || d.RoleBinding?) ==> d.ns.Some? && d.ns.value != "")
    && (forall d :: d in docs && d.ClusterRole? ==> d.selectors == [])
    && (forall d, s :: d in docs && IsBinding(d) && s in d.subjects ==>
          s.kind == "ServiceAccount" && s.ns.Some? && s.ns.value != "")
    && (forall d :: d in docs && IsBinding(d) && d.ref.kind == "ClusterRole" ==>
          exists c :: c in docs && c.ClusterRole? && c.name == d.ref.name)
  }

  lemma {:induction false} LookedUpIsOwnRole(docs: seq<Doc>, n: nat, ref: RoleRef, ns: Option<string>, defaultNs: string)
    requires n <= |docs| && ReadInFull(docs) && ref.kind in ["Role", "ClusterRole"]
    requires ref.kind == "Role" ==> ns.Some? && ns.value != ""
    ensures var found := Lookup(docs, n, KeyFor(ref, OrElse(ns, defaultNs)), defaultNs);
            if found.Some? then OwnRole(docs, n, ref, ns) == found.value
            else forall i :: 0 <= i < n ==> !Defines(docs[i], KeyFor(ref, OrElse(ns, defaultNs)), defaultNs)
  {
    if n > 0 {
      assert docs[n - 1] in docs;
      LookedUpIsOwnRole(docs, n - 1, ref, ns, defaultNs);
    }
  }

  /** Nothing is lost on such documents: what the API server authorizes, the guard grants. */
  lemma AuthorizedIsPermitted(docs: seq<Doc>, defaultNs: string, sa: Account, rq: ApiRequest)
    requires ReadInFull(docs) && DocsAuthorize(docs, defaultNs, sa, Asked(rq))
    requires forall d, r, res :: d in docs && (d.Role? || d.ClusterRole?) && r in d.rules && res in r.resources ==>
               !OperatorRbac.HalfForm(res)
    requires NamesNoCollection(rq)
    ensures Permitted(docs, sa, rq)
  {
    hide RuleMatches, NamesNoCollection, OperatorRbac.HalfForm;
    var k :| 0 <= k < |docs| && DocAllows(docs, k, defaultNs, sa, Asked(rq));
    var d := docs[k];
    assert d in docs;
    var b := BindingAt(docs, k, defaultNs).value;
    LookedUpIsOwnRole(docs, |docs|, d.ref, DocNs(d), defaultNs);
    var r :| r in b.rules && RuleMatches(r, Asked(rq));
    assert r in OwnRole(docs, |docs|, d.ref, DocNs(d));
    OwnRoleIsIn(docs, |docs|, d.ref, DocNs(d), r);
    SubjectIsNamed(docs, d, sa, defaultNs);
    assert ScopedAllow([(DocNs(d), r)], Asked(rq));
    AuthorizedIsAllowed(rq, [(DocNs(d), r)]);
    assert BindingPermits(docs, k, sa, rq);
    PermittedByBinding(docs, sa, rq);
  }

  lemma {:induction false} OwnRoleIsIn(docs: seq<Doc>, n: nat, ref: RoleRef, ns: Option<string>, r: Rule)
    requires n <= |docs| && r in OwnRole(docs, n, ref, ns)
    ensures exists d :: d in docs && (d.Role? || d.ClusterRole?) && r in d.rules
  {
    var d := docs[n - 1];
    assert d in docs;
    if !((d.Role? || d.ClusterRole?) && r in d.rules) {
      OwnRoleIsIn(docs, n - 1, ref, ns, r);
    }
  }

  lemma SubjectIsNamed(docs: seq<Doc>, d: Doc, sa: Account, defaultNs: string)
    requires ReadInFull(docs) && d in docs && IsBinding(d) && exists s :: s in SubjectsOf(d, defaultNs) && Names(s, sa)
    ensures NamesSubject(d, sa)
  {
    var s :| s in SubjectsOf(d, defaultNs) && Names(s, sa);
    var at :| 0 <= at < |SubjectsOf(d, defaultNs)| && SubjectsOf(d, defaultNs)[at] == s;
    assert d.subjects[at] in d.subjects;
  }
}
