/** scripts/check-kubectl-rbac.py, targets and requests: the API requests of one recorded kubectl call. */
module KubectlRequests {
  import opened Prelude
  import opened KubectlArgv

  /** (API group, plural resource). */
  type Kind = (string, string)

  const KINDS: map<string, Kind> := map[
    "pod" := ("", "pods"), "pods" := ("", "pods"), "po" := ("", "pods"),
    "secret" := ("", "secrets"), "secrets" := ("", "secrets"),
    "configmap" := ("", "configmaps"), "configmaps" := ("", "configmaps"), "cm" := ("", "configmaps"),
    "serviceaccount" := ("", "serviceaccounts"), "serviceaccounts" := ("", "serviceaccounts"),
    "sa" := ("", "serviceaccounts"),
    "service" := ("", "services"), "services" := ("", "services"), "svc" := ("", "services"),
    "statefulset" := ("apps", "statefulsets"), "statefulsets" := ("apps", "statefulsets"),
    "sts" := ("apps", "statefulsets"),
    "deployment" := ("apps", "deployments"), "deployments" := ("apps", "deployments"),
    "deploy" := ("apps", "deployments"),
    "daemonset" := ("apps", "daemonsets"), "daemonsets" := ("apps", "daemonsets"), "ds" := ("apps", "daemonsets"),
    "job" := ("batch", "jobs"), "jobs" := ("batch", "jobs"),
    "externalsecret" := ("external-secrets.io", "externalsecrets"),
    "externalsecrets" := ("external-secrets.io", "externalsecrets"),
    "es" := ("external-secrets.io", "externalsecrets")
  ]

  /** The tables the guard carries; the laws below hold for any of them. */
  datatype Tables = Tables(flags: FlagTable, kinds: map<string, Kind>)

  /** Those of the guard. */
  const KUBECTL_TABLES := Tables(KUBECTL, KINDS)

  /** One API request. `sub` is the subresource, or "". */
  datatype ApiRequest = ApiRequest(verb: string, kind: Kind, sub: string, ns: Option<string>, name: Option<string>)

  /** The object of a dry-run create, with the namespace its call names. */
  datatype Object = Object(kind: Kind, name: Option<string>, ns: Option<string>)

  type Target = (Kind, Option<string>)

  /** The last value of the first of these flags that the call gives. */
  function FlagOf(c: Call, names: seq<string>): Option<string> {
    if names == [] then None
    else if names[0] in c.flags && c.flags[names[0]] != [] then Some(c.flags[names[0]][|c.flags[names[0]]| - 1])
    else FlagOf(c, names[1..])
  }

  function KindOf(t: Tables, word: string): Result<Kind, CallError> {
    if Lower(word) in t.kinds then Ok(t.kinds[Lower(word)]) else Err(UnknownKind(word))
  }

  function SlashTargets(t: Tables, args: seq<string>): Result<seq<Target>, CallError> {
    if args == [] then Ok([]) else
      var (k, n) := SplitAt(args[0], '/');
      match KindOf(t, k)
      case Err(e) => Err(e)
      case Ok(kind) =>
        match SlashTargets(t, args[1..])
        case Err(e) => Err(e)
        case Ok(more) => Ok([(kind, Some(n))] + more)
  }

  /** What one `kind/name` argument names. */
  predicate SlashNames(t: Tables, arg: string, target: Target) {
    KindOf(t, SplitAt(arg, '/').0) == Ok(target.0) && target.1 == Some(SplitAt(arg, '/').1)
  }

  lemma {:induction false} SlashTargetsMean(t: Tables, args: seq<string>)
    ensures SlashTargets(t, args).Ok? <==> forall k :: 0 <= k < |args| ==> KindOf(t, SplitAt(args[k], '/').0).Ok?
    ensures SlashTargets(t, args).Ok? ==>
        var ts := SlashTargets(t, args).value;
        |ts| == |args| && forall k :: 0 <= k < |ts| ==> SlashNames(t, args[k], ts[k])
  {
    hide KindOf;
    if args != [] {
      SlashTargetsMean(t, args[1..]);
      assert forall k :: 0 < k < |args| ==> args[k] == args[1..][k - 1];
    }
  }

  /** kubectl's resource arguments: `kind/name ...`, or a kind and the names under it. */
  function Targets(t: Tables, args: seq<string>): (r: Result<seq<Target>, CallError>)
    ensures r.Ok? ==> r.value != []
  {
    if args == [] then Err(NoResource)
    else if '/' in args[0] then SlashTargets(t, args)
    else match KindOf(t, args[0])
      case Err(e) => Err(e)
      case Ok(kind) =>
        if |args| == 1 then Ok([(kind, None)])
        else Ok(seq(|args| - 1, i requires 0 <= i < |args| - 1 => (kind, Some(args[i + 1]))))
  }

  /** The same objects, each under its kind. */
  function Slashed(word: string, names: seq<string>): seq<string> {
    seq(|names|, k requires 0 <= k < |names| => word + "/" + names[k])
  }

  function Under(kind: Kind, names: seq<string>): seq<Target> {
    seq(|names|, k requires 0 <= k < |names| => (kind, Some(names[k])))
  }

  /** Both spellings name the same targets in the same order, and fail alike: on a kind the guard does not know. */
  lemma SpellingsAgree(t: Tables, word: string, names: seq<string>)
    requires '/' !in word && names != []
    ensures Targets(t, [word] + names).Ok? <==> Targets(t, Slashed(word, names)).Ok?
    ensures Targets(t, [word] + names).Ok? ==> Targets(t, [word] + names) == Targets(t, Slashed(word, names))
    ensures Targets(t, [word] + names).Ok? ==> Targets(t, [word] + names).value == Under(KindOf(t, word).value, names)
  {
    hide *;
    PlainTargets(t, word, names);
    SlashedTargets(t, word, names);
  }

  lemma PlainTargets(t: Tables, word: string, names: seq<string>)
    requires '/' !in word && names != []
    ensures var r := Targets(t, [word] + names);
            && (r.Ok? <==> KindOf(t, word).Ok?)
            && (r.Ok? ==> r == Ok(Under(KindOf(t, word).value, names)))
  {
    hide KindOf;
    var plain := [word] + names;
    assert forall k :: 0 <= k < |names| ==> plain[k + 1] == names[k];
    if KindOf(t, word).Ok? {
      assert Targets(t, plain).value == Under(KindOf(t, word).value, names);
    }
  }

  lemma SlashedTargets(t: Tables, word: string, names: seq<string>)
    requires '/' !in word && names != []
    ensures var r := Targets(t, Slashed(word, names));
            && (r.Ok? <==> KindOf(t, word).Ok?)
            && (r.Ok? ==> r == Ok(Under(KindOf(t, word).value, names)))
  {
    hide KindOf, SplitAt, SlashTargets;
    var args := Slashed(word, names);
    SlashTargetsMean(t, args);
    forall k | 0 <= k < |names|
      ensures SplitAt(args[k], '/') == (word, names[k]) && '/' in args[k]
    {
      SplitAtJoined(word, '/', names[k]);
    }
    assert '/' in args[0] && KindOf(t, SplitAt(args[0], '/').0) == KindOf(t, word);
    if KindOf(t, word).Ok? {
      var ts := SlashTargets(t, args).value;
      assert forall k :: 0 <= k < |ts| ==> SlashNames(t, args[k], ts[k]);
      assert ts == Under(KindOf(t, word).value, names);
    }
  }

  // ------------------------------------------------------- one call's requests

  function Watches(ts: seq<Target>, ns: Option<string>): seq<ApiRequest> {
    seq(|ts|, i requires 0 <= i < |ts| => ApiRequest("watch", ts[i].0, "", ns, None))
  }

  function Gets(ts: seq<Target>, selector: bool, ns: Option<string>): seq<ApiRequest> {
    seq(|ts|, i requires 0 <= i < |ts| =>
      if ts[i].1.None? || selector then ApiRequest("list", ts[i].0, "", ns, None)
      else ApiRequest("get", ts[i].0, "", ns, ts[i].1))
  }

  function Deletes(ts: seq<Target>, ns: Option<string>): seq<ApiRequest> {
    seq(|ts|, i requires 0 <= i < |ts| =>
      if ts[i].1.None? then ApiRequest("deletecollection", ts[i].0, "", ns, None)
      else ApiRequest("delete", ts[i].0, "", ns, ts[i].1))
  }

  /** A read of each target, then a second request on it. */
  function ReadsThen(ts: seq<Target>, verb: string, named: bool, ns: Option<string>): seq<ApiRequest> {
    if ts == [] then [] else
      [ApiRequest("get", ts[0].0, "", ns, ts[0].1), ApiRequest(verb, ts[0].0, "", ns, if named then ts[0].1 else None)]
      + ReadsThen(ts[1..], verb, named, ns)
  }

  const CREATE_SHORTCUTS := ["secret", "configmap", "serviceaccount"]

  datatype Outcome = Outcome(reqs: seq<ApiRequest>, pending: Option<Object>)

  function WordsOf(pos: seq<Positional>): seq<string> {
    if pos == [] then [] else (if pos[0].Word? then [pos[0].text] else []) + WordsOf(pos[1..])
  }

  function Sub(c: Call): Option<string> {
    if c.pos == [] then Some("") else if c.pos[0].Word? then Some(c.pos[0].text) else None
  }

  function Args(c: Call): seq<string> {
    if c.pos == [] then [] else WordsOf(c.pos[1..])
  }

  function NsOf(c: Call): Option<string> {
    FlagOf(c, ["-n", "--namespace"])
  }

  predicate IsDryRun(c: Call) {
    FlagOf(c, ["--dry-run"]) == Some("client")
  }

  predicate ReadsStdin(c: Call) {
    FlagOf(c, ["-f", "--filename"]) == Some("-")
  }

  /** The object a create shortcut names: `create secret <type> <name>`, `create <kind> <name>`. */
  function CreatedName(args: seq<string>): Option<string>
    requires args != []
  {
    if args[0] == "secret" && |args| > 2 then Some(args[2])
    else if |args| > 1 then Some(args[1])
    else None
  }

  /** An apply may end in any of three requests on the recorded object, so it is judged on all three. */
  function ApplyRequests(o: Object, ns: Option<string>): seq<ApiRequest> {
    var at := if ns.Some? then ns else o.ns;
    [ApiRequest("get", o.kind, "", at, o.name), ApiRequest("create", o.kind, "", at, None),
     ApiRequest("patch", o.kind, "", at, o.name)]
  }

  function OnTargets(t: Tables, args: seq<string>, reqs: seq<Target> -> seq<ApiRequest>, pending: Option<Object>)
    : Result<Outcome, CallError>
  {
    match Targets(t, args)
    case Err(e) => Err(e)
    case Ok(ts) => Ok(Outcome(reqs(ts), pending))
  }

  function AfterSlash(pod: string): string {
    if '/' in pod then SplitAt(pod, '/').1 else pod
  }

  /** The requests of one call, and the object that a later `apply -f -` would read. */
  function Step(t: Tables, c: Call, pending: Option<Object>): Result<Outcome, CallError> {
    var ns, args := NsOf(c), Args(c);
    match Sub(c)
    case None => Err(UnknownCommand)
    case Some(sub) =>
      if sub == "get" then
        var selector := FlagOf(c, ["-l", "--selector"]).Some?;
        var watch := "--watch" in c.flags || "-w" in c.flags || "--watch-only" in c.flags;
        OnTargets(t, args, ts => Gets(ts, selector, ns) + (if watch then Watches(ts, ns) else []), pending)
      else if sub == "delete" then
        var waits := FlagOf(c, ["--wait"]) != Some("false");
        OnTargets(t, args, ts => Deletes(ts, ns) + (if waits then Watches(ts, ns) else []), pending)
      else if sub == "exec" then
        if args == [] then Err(NoPod) else
          var pod := AfterSlash(args[0]);
          Ok(Outcome([ApiRequest("get", ("", "pods"), "", ns, Some(pod)),
                      ApiRequest("create", ("", "pods"), "exec", ns, Some(pod))], pending))
      else if sub == "create" then
        if args == [] || args[0] !in CREATE_SHORTCUTS then Err(ManifestCreate) else
          match KindOf(t, args[0])
          case Err(e) => Err(e)
          case Ok(kind) =>
            if IsDryRun(c) then Ok(Outcome([], Some(Object(kind, CreatedName(args), ns))))
            else Ok(Outcome([ApiRequest("create", kind, "", ns, None)], pending))
      else if sub == "apply" then
        if !ReadsStdin(c) || pending.None? then Err(UnknownApply)
        else Ok(Outcome(ApplyRequests(pending.value, ns), None))
      else if sub == "annotate" || sub == "label" || sub == "patch" then
        OnTargets(t, args, ts => ReadsThen(ts, "patch", true, ns), pending)
      else if sub == "rollout" then
        var action := if args == [] then "" else args[0];
        var named := if args == [] then [] else args[1..];
        if action == "restart" then OnTargets(t, named, ts => ReadsThen(ts, "patch", true, ns), pending)
        else if action == "status" then OnTargets(t, named, ts => ReadsThen(ts, "watch", false, ns), pending)
        else match Targets(t, named)
          case Err(e) => Err(e)
          case Ok(_) => Err(UnknownRollout(action))
      else if sub == "version" || sub == "config" || sub == "auth" then Ok(Outcome([], pending))
      else Err(UnknownCommand)
  }

  // --------------------------------------------------------- creates and applies

  /** What a call is to the pairing of `create --dry-run=client -o yaml | apply -f -`. */
  datatype Role = DryCreate | StdinApply | Neither

  function RoleOf(c: Call): Role {
    if Sub(c) == Some("create") && c.pos != [] && IsDryRun(c) then DryCreate
    else if Sub(c) == Some("apply") && c.pos != [] && ReadsStdin(c) then StdinApply
    else Neither
  }

  /** A create records its object, an apply takes the recorded one, and no other call touches it. */
  lemma StepByRole(t: Tables, c: Call, pending: Option<Object>)
    requires Step(t, c, pending).Ok?
    ensures match RoleOf(c)
            case DryCreate => Step(t, c, pending).value.pending.Some? && Step(t, c, pending).value.reqs == []
            case StdinApply =>
              && pending.Some?
              && Step(t, c, pending).value == Outcome(ApplyRequests(pending.value, NsOf(c)), None)
            case Neither => Step(t, c, pending).value.pending == pending
  {
    hide Targets, Gets, Watches, Deletes, ReadsThen, KindOf, FlagOf, NsOf, AfterSlash, CreatedName, ApplyRequests;
  }

  lemma OnTargetsIgnores(t: Tables, p: Option<Object>, q: Option<Object>)
    ensures forall args, reqs :: OnTargets(t, args, reqs, p).Ok? <==> OnTargets(t, args, reqs, q).Ok?
    ensures forall args, reqs ::
        OnTargets(t, args, reqs, p).Ok? ==> OnTargets(t, args, reqs, p).value.reqs == OnTargets(t, args, reqs, q).value.reqs
  {
    hide Targets;
  }

  /** What a call other than a stdin apply does, it does whatever is pending. */
  lemma StepIgnoresPending(t: Tables, c: Call, p: Option<Object>, q: Option<Object>)
    requires RoleOf(c) != StdinApply
    ensures Step(t, c, p).Ok? <==> Step(t, c, q).Ok?
    ensures Step(t, c, p).Ok? ==> Step(t, c, p).value.reqs == Step(t, c, q).value.reqs
    ensures Step(t, c, p).Ok? && RoleOf(c) == DryCreate ==> Step(t, c, p) == Step(t, c, q)
  {
    OnTargetsIgnores(t, p, q);
    hide OnTargets, Args, IsDryRun, ReadsStdin, Targets, Gets, Watches, Deletes, ReadsThen, KindOf, FlagOf, NsOf, AfterSlash, CreatedName, ApplyRequests;
  }
}
