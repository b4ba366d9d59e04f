/** scripts/check-kubectl-rbac.py: which requests a kubectl call asks for, told by its targets and flags. */
module KubectlMeanings {
  import opened Prelude
  import opened KubectlArgv
  import opened KubectlRequests
  import opened KubectlCheck

  // ------------------------------------------------------------------ flags

  /** A flag given several times has its last value. */
  lemma {:induction false} LastValueWins(c: Call, names: seq<string>, k: nat)
    requires k < |names| && names[k] in c.flags && c.flags[names[k]] != []
    requires forall j :: 0 <= j < k ==> names[j] !in c.flags || c.flags[names[j]] == []
    ensures FlagOf(c, names) == Some(c.flags[names[k]][|c.flags[names[k]]| - 1])
  {
    if k > 0 {
      LastValueWins(c, names[1..], k - 1);
    }
  }

  /** Under any of its names, and none of them given means no value. */
  lemma {:induction false} NoValueIff(c: Call, names: seq<string>)
    ensures FlagOf(c, names) == None <==> forall j :: 0 <= j < |names| ==> names[j] !in c.flags || c.flags[names[j]] == []
  {
    if names != [] {
      NoValueIff(c, names[1..]);
      assert forall j :: 0 < j < |names| ==> names[j] == names[1..][j - 1];
    }
  }

  /** The namespace of a call is the last one given with `-n`, and without it the last one given with `--namespace`. */
  lemma NamespaceIs(c: Call)
    ensures "-n" in c.flags && c.flags["-n"] != [] ==> NsOf(c) == Some(c.flags["-n"][|c.flags["-n"]| - 1])
    ensures "-n" !in c.flags && "--namespace" in c.flags && c.flags["--namespace"] != [] ==>
        NsOf(c) == Some(c.flags["--namespace"][|c.flags["--namespace"]| - 1])
    ensures "-n" !in c.flags && "--namespace" !in c.flags ==> NsOf(c) == None
  {
    var names := ["-n", "--namespace"];
    NoValueIff(c, names);
    if "-n" in c.flags && c.flags["-n"] != [] {
      LastValueWins(c, names, 0);
    } else if "-n" !in c.flags && "--namespace" in c.flags && c.flags["--namespace"] != [] {
      LastValueWins(c, names, 1);
    }
  }

  /** Every flag a call is judged by is one the argv parser knows. */
  lemma FlagsReadAreKnown(flag: string)
    requires flag in ["-n", "--namespace", "-l", "--selector", "-f", "--filename"]
          || flag in ["--dry-run", "--wait", "--watch", "-w", "--watch-only"]
    ensures Known(KUBECTL, flag)
  {
  }

  /** Each word for a kind has a small spelling, stands for the plural it comes with, and that plural stands for itself. */
  lemma KindsStandForPlurals(word: string)
    requires word in KINDS
    ensures Lower(KINDS[word].1) in KINDS && KINDS[Lower(KINDS[word].1)] == KINDS[word]
  {
    hide *;
    KindIsListed(word, KINDS[word]);
    ListedStands(KINDS[word]);
    ListedIsSmall(KINDS[word]);
    PluralIsSmall(KINDS[word].1);
  }

  /** The kinds the table is about. */
  predicate Listed(kind: Kind) {
    || kind == ("", "pods") || kind == ("", "secrets") || kind == ("", "configmaps") || kind == ("", "serviceaccounts")
    || kind == ("", "services") || kind == ("apps", "statefulsets") || kind == ("apps", "deployments")
    || kind == ("apps", "daemonsets") || kind == ("batch", "jobs") || kind == ("external-secrets.io", "externalsecrets")
  }

  lemma KindIsListed(word: string, kind: Kind)
    requires word in KINDS && KINDS[word] == kind
    ensures Listed(kind)
  {
  }

  lemma ListedStands(kind: Kind)
    requires Listed(kind)
    ensures kind.1 in KINDS && KINDS[kind.1] == kind
  {
  }

  lemma ListedIsSmall(kind: Kind)
    requires Listed(kind)
    ensures AllSmall(kind.1)
  {
    hide AllSmall;
    if kind.0 == "" {
      CoreIsSmall(kind.1);
    } else {
      OthersAreSmall(kind.1);
    }
  }

  lemma CoreIsSmall(plural: string)
    requires plural in ["pods", "secrets", "configmaps", "serviceaccounts", "services"]
    ensures AllSmall(plural)
  {
  }

  lemma OthersAreSmall(plural: string)
    requires plural in ["statefulsets", "deployments", "daemonsets", "jobs", "externalsecrets"]
    ensures AllSmall(plural)
  {
  }

  predicate AllSmall(word: string) {
    forall k :: 0 <= k < |word| ==> 'a' <= word[k] <= 'z'
  }

  lemma PluralIsSmall(plural: string)
    requires AllSmall(plural)
    ensures Lower(plural) == plural
  {
    assert forall k :: 0 <= k < |plural| ==> Lower(plural)[k] == plural[k];
  }

  /** `word` is `small` in capitals here and there. */
  ghost predicate Spells(word: string, small: string) {
    && |word| == |small|
    && forall i :: 0 <= i < |word| ==> SameLetter(word[i], small[i])
  }

  ghost predicate SameLetter(c: char, small: char) {
    || (c == small && c !in CAPITALS)
    || exists k :: 0 <= k < 26 && c == CAPITALS[k] && small == SMALLS[k]
  }

  /** A kind is known under every spelling of a word of the table, and under no other word. */
  lemma KindIsCaseless(t: Tables, word: string, small: string)
    requires Spells(word, small)
    ensures KindOf(t, word).Ok? <==> small in t.kinds
    ensures small in t.kinds ==> KindOf(t, word) == Ok(t.kinds[small])
  {
    hide *;
    SpelledLower(word, small);
    KindByLower(t, word);
  }

  lemma SpelledLower(word: string, small: string)
    requires Spells(word, small)
    ensures Lower(word) == small
  {
    assert |Lower(word)| == |word|;
    hide Lower;
    forall i | 0 <= i < |word| ensures Lower(word)[i] == small[i] {
      LowerIs(word, i);
    }
  }

  lemma KindByLower(t: Tables, word: string)
    ensures KindOf(t, word).Ok? <==> Lower(word) in t.kinds
    ensures Lower(word) in t.kinds ==> KindOf(t, word) == Ok(t.kinds[Lower(word)])
  {
    hide Lower;
  }

  // ------------------------------------------------------------ positionals

  /** Reading items is reading them one by one: a word is a positional, and each use of a flag is one value of it. */
  lemma {:induction false} ItemsInTurn(a: seq<Item>, b: seq<Item>, flag: string)
    ensures Positionals(a + b) == Positionals(a) + Positionals(b)
    ensures Values(a + b, flag) == Values(a, flag) + Values(b, flag)
  {
    if b == [] {
      assert a + b == a;
    } else {
      var last := |b| - 1;
      assert (a + b)[..|a + b| - 1] == a + b[..last];
      ItemsInTurn(a, b[..last], flag);
    }
  }

  lemma OneItem(text: string, flag: string, value: string)
    ensures Positionals([Plain(text)]) == [Word(text)] && Values([Plain(text)], flag) == []
    ensures Positionals([Spaced(flag, value)]) == Positionals([Joined(flag, value)]) == Positionals([Switch(flag)]) == []
    ensures Values([Spaced(flag, value)], flag) == Values([Joined(flag, value)], flag) == [value]
    ensures Values([Switch(flag)], flag) == [""]
    ensures forall other :: other != flag ==>
        Values([Spaced(flag, value)], other) == Values([Joined(flag, value)], other) == Values([Switch(flag)], other) == []
  {
    assert [Plain(text)][..0] == [] && [Spaced(flag, value)][..0] == [];
    assert [Joined(flag, value)][..0] == [] && [Switch(flag)][..0] == [];
  }

  lemma {:induction false} WordsInTurn(a: seq<Positional>, b: seq<Positional>)
    ensures WordsOf(a + b) == WordsOf(a) + WordsOf(b)
  {
    if a == [] {
      assert a + b == b;
    } else {
      assert (a + b)[1..] == a[1..] + b;
      WordsInTurn(a[1..], b);
    }
  }

  /** A call that starts with a word is the command of that name; the other words are its arguments, and what stands behind
      `--` is none of them. */
  lemma CommandIsFirst(sub: string, front: seq<Item>, items: seq<Item>, rest: Option<seq<string>>)
    requires forall it :: it in front ==> !it.Plain?
    ensures var c := CallOf(Line(front + [Plain(sub)] + items, rest));
            Sub(c) == Some(sub) && Args(c) == WordsOf(Positionals(items))
  {
    hide Positionals, FlagMap, Sub, Args;
    var behind: seq<Positional> := if rest.Some? then [Rest(rest.value)] else [];
    FlagsAreNoWords(front);
    ItemsInTurn(front + [Plain(sub)], items, "");
    ItemsInTurn(front, [Plain(sub)], "");
    OneItem(sub, "", "");
    RestIsNoWord(rest);
    FirstOfPositionals(CallOf(Line(front + [Plain(sub)] + items, rest)), sub, Positionals(items), behind);
  }

  lemma FirstOfPositionals(c: Call, sub: string, words: seq<Positional>, behind: seq<Positional>)
    requires c.pos == [] + [Word(sub)] + words + behind && WordsOf(behind) == []
    ensures Sub(c) == Some(sub) && Args(c) == WordsOf(words)
  {
    assert c.pos[1..] == words + behind;
    WordsInTurn(words, behind);
  }

  lemma RestIsNoWord(rest: Option<seq<string>>)
    ensures WordsOf(if rest.Some? then [Rest(rest.value)] else []) == []
  {
    assert rest.Some? ==> [Rest(rest.value)][1..] == [];
  }

  lemma {:induction false} FlagsAreNoWords(items: seq<Item>)
    requires forall it :: it in items ==> !it.Plain?
    ensures Positionals(items) == []
  {
    if items != [] {
      FlagsAreNoWords(items[..|items| - 1]);
    }
  }

  // ---------------------------------------------------------------- targets

  /** The `k`-th target of these arguments: each `kind/name`, or each name behind the kind they start with. */
  predicate IsTarget(t: Tables, args: seq<string>, k: nat, tg: Target)
    requires args != []
  {
    if '/' in args[0] then
      k < |args| && KindOf(t, SplitAt(args[k], '/').0) == Ok(tg.0) && tg.1 == Some(SplitAt(args[k], '/').1)
    else
      KindOf(t, args[0]) == Ok(tg.0)
      && if |args| == 1 then k == 0 && tg.1 == None else k + 1 < |args| && tg.1 == Some(args[k + 1])
  }

  lemma TargetsAre(t: Tables, args: seq<string>)
    ensures Targets(t, args).Ok? <==>
        args != [] && if '/' in args[0] then forall k :: 0 <= k < |args| ==> KindOf(t, SplitAt(args[k], '/').0).Ok?
                      else KindOf(t, args[0]).Ok?
    ensures Targets(t, args).Ok? ==> forall tg :: tg in Targets(t, args).value <==> exists k: nat :: IsTarget(t, args, k, tg)
  {
    hide KindOf, SplitAt, SlashTargets;
    if args != [] && '/' in args[0] {
      SlashTargetsMean(t, args);
      if SlashTargets(t, args).Ok? {
        var ts := SlashTargets(t, args).value;
        forall k | 0 <= k < |args|
          ensures IsTarget(t, args, k, ts[k])
        {
          assert SlashNames(t, args[k], ts[k]);
        }
        forall tg, k: nat | IsTarget(t, args, k, tg)
          ensures tg == ts[k]
        {
          assert SlashNames(t, args[k], ts[k]);
        }
      }
    } else if Targets(t, args).Ok? {
      var ts := Targets(t, args).value;
      assert forall k :: 0 <= k < |ts| ==> IsTarget(t, args, k, ts[k]);
      assert forall tg, k: nat :: IsTarget(t, args, k, tg) ==> k < |ts| && tg == ts[k];
    }
  }

  // ---------------------------------------------------------------- requests

  predicate Selects(c: Call) {
    FlagOf(c, ["-l", "--selector"]).Some?
  }

  predicate KeepsWatching(c: Call) {
    "--watch" in c.flags || "-w" in c.flags || "--watch-only" in c.flags
  }

  /** A delete waits unless its last `--wait` says `false`. */
  predicate Waits(c: Call) {
    FlagOf(c, ["--wait"]) != Some("false")
  }

  predicate IsEdit(sub: string) {
    sub == "annotate" || sub == "label" || sub == "patch"
  }

  /** The resource arguments: those of a rollout come behind its action. */
  function Resources(c: Call): seq<string> {
    if Sub(c) == Some("rollout") && Args(c) != [] then Args(c)[1..] else Args(c)
  }

  /** What a call asks for about one of its targets, and under which name. */
  predicate AsksAbout(c: Call, tg: Target, verb: string, name: Option<string>)
    requires Sub(c).Some?
  {
    var sub := Sub(c).value;
    if sub == "get" then
      || (verb == "get" && tg.1.Some? && !Selects(c) && name == tg.1)
      || (verb == "list" && (tg.1.None? || Selects(c)) && name == None)
      || (verb == "watch" && KeepsWatching(c) && name == None)
    else if sub == "delete" then
      || (verb == "delete" && tg.1.Some? && name == tg.1)
      || (verb == "deletecollection" && tg.1.None? && name == None)
      || (verb == "watch" && Waits(c) && name == None)
    else if IsEdit(sub) then
      (verb == "get" || verb == "patch") && name == tg.1
    else
      sub == "rollout"
      && (|| (verb == "get" && name == tg.1)
          || (verb == "patch" && Args(c) != [] && Args(c)[0] == "restart" && name == tg.1)
          || (verb == "watch" && Args(c) != [] && Args(c)[0] == "status" && name == None))
  }

  predicate IsAbout(c: Call, tg: Target, rq: ApiRequest)
    requires Sub(c).Some?
  {
    rq == ApiRequest(rq.verb, tg.0, "", NsOf(c), rq.name) && AsksAbout(c, tg, rq.verb, rq.name)
  }

  /** `reqs` is what the call asks for about these targets, and nothing else. */
  ghost predicate AsksExactly(c: Call, ts: seq<Target>, reqs: seq<ApiRequest>)
    requires Sub(c).Some?
  {
    forall rq :: rq in reqs <==> exists tg :: tg in ts && IsAbout(c, tg, rq)
  }

  lemma WatchesHold(ts: seq<Target>, ns: Option<string>, rq: ApiRequest)
    ensures rq in Watches(ts, ns) <==> exists tg :: tg in ts && rq == ApiRequest("watch", tg.0, "", ns, None)
  {
    var reqs := Watches(ts, ns);
    assert forall i :: 0 <= i < |ts| ==> reqs[i] == ApiRequest("watch", ts[i].0, "", ns, None);
  }

  lemma GetsHold(ts: seq<Target>, selector: bool, ns: Option<string>, rq: ApiRequest)
    ensures rq in Gets(ts, selector, ns) <==> exists tg :: tg in ts && IsGet(tg, selector, ns, rq)
  {
    var reqs := Gets(ts, selector, ns);
    assert forall i :: 0 <= i < |ts| ==> reqs[i] in reqs && IsGet(ts[i], selector, ns, reqs[i]);
    assert forall tg :: tg in ts && IsGet(tg, selector, ns, rq) ==> exists i :: 0 <= i < |ts| && ts[i] == tg && reqs[i] == rq;
  }

  predicate IsGet(tg: Target, selector: bool, ns: Option<string>, rq: ApiRequest) {
    if tg.1.None? || selector then rq == ApiRequest("list", tg.0, "", ns, None)
    else rq == ApiRequest("get", tg.0, "", ns, tg.1)
  }

  predicate IsDelete(tg: Target, ns: Option<string>, rq: ApiRequest) {
    if tg.1.None? then rq == ApiRequest("deletecollection", tg.0, "", ns, None)
    else rq == ApiRequest("delete", tg.0, "", ns, tg.1)
  }

  lemma DeletesHold(ts: seq<Target>, ns: Option<string>, rq: ApiRequest)
    ensures rq in Deletes(ts, ns) <==> exists tg :: tg in ts && IsDelete(tg, ns, rq)
  {
    var reqs := Deletes(ts, ns);
    assert forall i :: 0 <= i < |ts| ==> reqs[i] in reqs && IsDelete(ts[i], ns, reqs[i]);
    assert forall tg :: tg in ts && IsDelete(tg, ns, rq) ==> exists i :: 0 <= i < |ts| && ts[i] == tg && reqs[i] == rq;
  }

  lemma GetAsks(t: Tables, c: Call, pending: Option<Object>)
    requires Sub(c) == Some("get")
    ensures Step(t, c, pending).Ok? <==> Targets(t, Args(c)).Ok?
    ensures Step(t, c, pending).Ok? ==>
        && Step(t, c, pending).value.pending == pending
        && AsksExactly(c, Targets(t, Args(c)).value, Step(t, c, pending).value.reqs)
  {
    hide Targets, FlagOf, Args, NsOf, Gets, Watches;
    if Targets(t, Args(c)).Ok? {
      var ts, reqs := Targets(t, Args(c)).value, Step(t, c, pending).value.reqs;
      assert reqs == Gets(ts, Selects(c), NsOf(c)) + (if KeepsWatching(c) then Watches(ts, NsOf(c)) else []);
      forall rq
        ensures rq in reqs <==> exists tg :: tg in ts && IsAbout(c, tg, rq)
      {
        GetsHold(ts, Selects(c), NsOf(c), rq);
        WatchesHold(ts, NsOf(c), rq);
      }
    }
  }

  lemma DeleteAsks(t: Tables, c: Call, pending: Option<Object>)
    requires Sub(c) == Some("delete")
    ensures Step(t, c, pending).Ok? <==> Targets(t, Args(c)).Ok?
    ensures Step(t, c, pending).Ok? ==>
        && Step(t, c, pending).value.pending == pending
        && AsksExactly(c, Targets(t, Args(c)).value, Step(t, c, pending).value.reqs)
  {
    hide Targets, FlagOf, Args, NsOf, Deletes, Watches;
    if Targets(t, Args(c)).Ok? {
      var ts, reqs := Targets(t, Args(c)).value, Step(t, c, pending).value.reqs;
      assert reqs == Deletes(ts, NsOf(c)) + (if Waits(c) then Watches(ts, NsOf(c)) else []);
      forall rq
        ensures rq in reqs <==> exists tg :: tg in ts && IsAbout(c, tg, rq)
      {
        DeletesHold(ts, NsOf(c), rq);
        WatchesHold(ts, NsOf(c), rq);
      }
    }
  }

  lemma {:induction false} ReadsThenHold(ts: seq<Target>, verb: string, named: bool, ns: Option<string>, rq: ApiRequest)
    ensures rq in ReadsThen(ts, verb, named, ns) <==>
        exists tg :: tg in ts && (|| rq == ApiRequest("get", tg.0, "", ns, tg.1)
                                  || rq == ApiRequest(verb, tg.0, "", ns, if named then tg.1 else None))
  {
    if ts != [] {
      ReadsThenHold(ts[1..], verb, named, ns, rq);
      assert forall tg :: tg in ts <==> tg == ts[0] || tg in ts[1..];
    }
  }

  lemma EditAsks(t: Tables, c: Call, pending: Option<Object>)
    requires Sub(c).Some? && IsEdit(Sub(c).value)
    ensures Step(t, c, pending).Ok? <==> Targets(t, Args(c)).Ok?
    ensures Step(t, c, pending).Ok? ==>
        && Step(t, c, pending).value.pending == pending
        && AsksExactly(c, Targets(t, Args(c)).value, Step(t, c, pending).value.reqs)
  {
    hide Targets, FlagOf, Args, NsOf, ReadsThen;
    if Targets(t, Args(c)).Ok? {
      var ts := Targets(t, Args(c)).value;
      assert Step(t, c, pending).value.reqs == ReadsThen(ts, "patch", true, NsOf(c));
      forall rq
        ensures rq in Step(t, c, pending).value.reqs <==> exists tg :: tg in ts && IsAbout(c, tg, rq)
      {
        ReadsThenHold(ts, "patch", true, NsOf(c), rq);
      }
    }
  }

  lemma RolloutAsks(t: Tables, c: Call, pending: Option<Object>)
    requires Sub(c) == Some("rollout")
    ensures Step(t, c, pending).Ok? <==>
        Args(c) != [] && Args(c)[0] in ["restart", "status"] && Targets(t, Args(c)[1..]).Ok?
    ensures Step(t, c, pending).Ok? ==>
        && Step(t, c, pending).value.pending == pending
        && AsksExactly(c, Targets(t, Args(c)[1..]).value, Step(t, c, pending).value.reqs)
  {
    hide Targets, FlagOf, Args, NsOf, ReadsThen;
    NoTargets(t);
    if Step(t, c, pending).Ok? {
      var ts := Targets(t, Args(c)[1..]).value;
      var verb, named := if Args(c)[0] == "restart" then "patch" else "watch", Args(c)[0] == "restart";
      assert Step(t, c, pending).value.reqs == ReadsThen(ts, verb, named, NsOf(c));
      forall rq
        ensures rq in Step(t, c, pending).value.reqs <==> exists tg :: tg in ts && IsAbout(c, tg, rq)
      {
        ReadsThenHold(ts, verb, named, NsOf(c), rq);
      }
    }
  }

  lemma NoTargets(t: Tables)
    ensures Targets(t, []) == Err(NoResource)
  {
  }

  /** An exec reads the pod and then opens the stream to it; what stands in front of the pod's first slash is dropped. */
  lemma ExecAsks(t: Tables, c: Call, pending: Option<Object>, pod: string)
    requires Sub(c) == Some("exec")
    ensures Step(t, c, pending).Ok? <==> Args(c) != []
    ensures Args(c) != [] && ((Args(c)[0] == pod && '/' !in pod) || SlashedAs(Args(c)[0], pod)) ==>
        && Step(t, c, pending).value.pending == pending
        && forall rq :: rq in Step(t, c, pending).value.reqs <==>
             || rq == ApiRequest("get", ("", "pods"), "", NsOf(c), Some(pod))
             || rq == ApiRequest("create", ("", "pods"), "exec", NsOf(c), Some(pod))
  {
    hide Args, NsOf;
    if Args(c) != [] && SlashedAs(Args(c)[0], pod) {
      var kind :| '/' !in kind && Args(c)[0] == kind + "/" + pod;
      assert kind + "/" + pod == kind + ['/'] + pod;
      SplitAtJoined(kind, '/', pod);
    }
  }

  ghost predicate SlashedAs(arg: string, pod: string) {
    exists kind :: '/' !in kind && arg == kind + "/" + pod
  }

  /** The kinds a create is understood for. */
  predicate HasShortcut(word: string) {
    word == "secret" || word == "configmap" || word == "serviceaccount"
  }

  /** A create asks to create one object of its kind, without naming it; a dry run asks for nothing and leaves the object for
      the apply behind it: of a secret the word behind its type, of the others the first word. */
  lemma CreateAsks(t: Tables, c: Call, pending: Option<Object>)
    requires Sub(c) == Some("create")
    ensures var args := Args(c);
            && (Step(t, c, pending).Ok? <==> args != [] && HasShortcut(args[0]) && KindOf(t, args[0]).Ok?)
            && (Step(t, c, pending).Ok? ==>
                  var out, kind := Step(t, c, pending).value, KindOf(t, args[0]).value;
                  if FlagOf(c, ["--dry-run"]) == Some("client") then
                    && out.reqs == [] && out.pending.Some?
                    && out.pending.value.kind == kind && out.pending.value.ns == NsOf(c)
                    && (|args| == 1 ==> out.pending.value.name == None)
                    && (|args| == 2 ==> out.pending.value.name == Some(args[1]))
                    && (|args| > 2 ==> out.pending.value.name == Some(args[if args[0] == "secret" then 2 else 1]))
                  else
                    out == Outcome([ApiRequest("create", kind, "", NsOf(c), None)], pending))
  {
    hide KindOf, FlagOf, Args, NsOf;
    assert forall word :: word in CREATE_SHORTCUTS <==> HasShortcut(word);
  }

  /** An apply takes the pending object: it reads it, and creates or patches it, where the call says or where its create did. */
  lemma ApplyAsks(t: Tables, c: Call, pending: Option<Object>)
    requires Sub(c) == Some("apply")
    ensures Step(t, c, pending).Ok? <==> FlagOf(c, ["-f", "--filename"]) == Some("-") && pending.Some?
    ensures Step(t, c, pending).Ok? ==>
        var out, o := Step(t, c, pending).value, pending.value;
        && out.pending == None
        && forall rq :: rq in out.reqs <==>
             && rq.kind == o.kind && rq.sub == "" && rq.ns == (if NsOf(c).Some? then NsOf(c) else o.ns)
             && (((rq.verb == "get" || rq.verb == "patch") && rq.name == o.name) || (rq.verb == "create" && rq.name == None))
  {
    hide KindOf, FlagOf, Args, NsOf;
    if Step(t, c, pending).Ok? {
      var reqs, o := Step(t, c, pending).value.reqs, pending.value;
      var at := if NsOf(c).Some? then NsOf(c) else o.ns;
      assert |reqs| == 3 && reqs[0] == ApiRequest("get", o.kind, "", at, o.name)
        && reqs[1] == ApiRequest("create", o.kind, "", at, None) && reqs[2] == ApiRequest("patch", o.kind, "", at, o.name);
    }
  }

  predicate IsModelled(sub: string) {
    || sub == "get" || sub == "delete" || sub == "exec" || sub == "create" || sub == "apply" || IsEdit(sub)
    || sub == "rollout" || AsksNothing(sub)
  }

  predicate AsksNothing(sub: string) {
    sub == "version" || sub == "config" || sub == "auth"
  }

  /** Three commands ask for nothing, and one that is not modelled is an error. */
  lemma OthersAsk(t: Tables, c: Call, pending: Option<Object>)
    ensures Sub(c).Some? && AsksNothing(Sub(c).value) ==> Step(t, c, pending) == Ok(Outcome([], pending))
    ensures Sub(c).None? || !IsModelled(Sub(c).value) ==> Step(t, c, pending) == Err(UnknownCommand)
  {
    hide KindOf, FlagOf, Args, NsOf, Targets;
  }

  /** A resource with a subresource is asked for as both, told apart by the slash. */
  lemma ResourceSplits(rq: ApiRequest)
    requires '/' !in rq.kind.1
    ensures rq.sub == "" ==> ResourceOf(rq) == rq.kind.1
    ensures rq.sub != "" ==> '/' in ResourceOf(rq) && SplitAt(ResourceOf(rq), '/') == (rq.kind.1, rq.sub)
  {
    if rq.sub != "" {
      SplitAtJoined(rq.kind.1, '/', rq.sub);
      assert ResourceOf(rq) == rq.kind.1 + ['/'] + rq.sub;
    }
  }
}
