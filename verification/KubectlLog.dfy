/** scripts/check-kubectl-rbac.py, pipe_order and the pending apply: a whole log of recorded calls. */
module KubectlLog {
  import opened Prelude
  import opened KubectlArgv
  import opened KubectlRequests

  type Argv = seq<string>

  function RoleOfArgv(t: Tables, argv: Argv): Result<Role, CallError> {
    match Parsed(t.flags, argv)
    case Err(e) => Err(e)
    case Ok(c) => Ok(RoleOf(c))
  }

  predicate HasRole(t: Tables, argv: Argv, r: Role) {
    RoleOfArgv(t, argv) == Ok(r)
  }

  // ------------------------------------------------------------- pipe order

  function Cons(argv: Argv, r: Result<seq<Argv>, CallError>): Result<seq<Argv>, CallError> {
    match r
    case Ok(cs) => Ok([argv] + cs)
    case Err(e) => Err(e)
  }

  /** One forward pass: an apply with a dry-run create right behind it lets that create pass, again and again. */
  function Ordered(t: Tables, calls: seq<Argv>): Result<seq<Argv>, CallError>
    decreases |calls|
  {
    if |calls| < 2 then Ok(calls) else
      match RoleOfArgv(t, calls[0])
      case Err(e) => Err(e)
      case Ok(first) =>
        if first != StdinApply then Cons(calls[0], Ordered(t, calls[1..])) else
          match RoleOfArgv(t, calls[1])
          case Err(e) => Err(e)
          case Ok(second) =>
            if second == DryCreate then Cons(calls[1], Ordered(t, [calls[0]] + calls[2..]))
            else Cons(calls[0], Ordered(t, calls[1..]))
  }

  /** The pass over a log, with its first `i` places settled. */
  ghost predicate Passing(t: Tables, log: seq<Argv>, calls: seq<Argv>, i: nat)
    requires i <= |calls|
  {
    Ordered(t, log) == Join(calls[..i], Ordered(t, calls[i..]))
  }

  lemma PassingStarts(t: Tables, log: seq<Argv>)
    ensures Passing(t, log, log, 0)
  {
    assert log[0..] == log;
    JoinNothing(Ordered(t, log));
  }

  /** Whichever call comes to stand at `i`, the pass goes on behind it. */
  lemma PassingStep(t: Tables, log: seq<Argv>, calls: seq<Argv>, i: nat, next: seq<Argv>)
    requires i + 1 < |calls| == |next| && Passing(t, log, calls, i) && next[..i] == calls[..i]
    requires Ordered(t, calls[i..]) == Cons(next[i], Ordered(t, next[i + 1..]))
    ensures Passing(t, log, next, i + 1)
  {
    hide Ordered;
    JoinCons(next[..i], next[i], Ordered(t, next[i + 1..]));
    assert next[..i + 1] == next[..i] + [next[i]];
  }

  lemma OrderedAt(t: Tables, calls: seq<Argv>, i: nat)
    requires i + 1 < |calls|
    ensures match RoleOfArgv(t, calls[i])
            case Err(e) => Ordered(t, calls[i..]) == Err(e)
            case Ok(StdinApply) =>
              (match RoleOfArgv(t, calls[i + 1])
               case Err(e) => Ordered(t, calls[i..]) == Err(e)
               case Ok(DryCreate) =>
                 Ordered(t, calls[i..]) == Cons(calls[i + 1], Ordered(t, [calls[i]] + calls[i + 2..]))
               case Ok(_) => Ordered(t, calls[i..]) == Cons(calls[i], Ordered(t, calls[i + 1..])))
            case Ok(_) => Ordered(t, calls[i..]) == Cons(calls[i], Ordered(t, calls[i + 1..]))
  {
    hide RoleOfArgv;
    var rest := calls[i..];
    assert rest[0] == calls[i] && rest[1] == calls[i + 1] && rest[1..] == calls[i + 1..] && rest[2..] == calls[i + 2..];
  }

  lemma PassingIs(t: Tables, log: seq<Argv>, calls: seq<Argv>, i: nat)
    requires i <= |calls| && Passing(t, log, calls, i)
    ensures Ordered(t, calls[i..]).Err? ==> Ordered(t, log) == Ordered(t, calls[i..])
  {
    hide Ordered;
  }

  lemma PassingEnds(t: Tables, log: seq<Argv>, calls: seq<Argv>, i: nat)
    requires i <= |calls| <= i + 1 && Passing(t, log, calls, i)
    ensures Ordered(t, log) == Ok(calls)
  {
    assert calls[..i] + calls[i..] == calls;
  }

  method PipeOrder(t: Tables, log: seq<Argv>) returns (r: Result<seq<Argv>, CallError>)
    ensures r == Ordered(t, log)
  {
    hide Ordered, Passing;
    var calls := log;
    var i := 0;
    PassingStarts(t, log);
    while i < |calls| - 1
      invariant |calls| == |log| && 0 <= i <= |calls| && (i == |calls| ==> i == 0)
      invariant Passing(t, log, calls, i)
    {
      ghost var before := calls;
      OrderedAt(t, calls, i);
      PassingIs(t, log, calls, i);
      var apply := IsApplyStdin(t, calls[i]);
      if apply.Err? {
        return Err(apply.error);
      }
      if apply.value {
        var create := IsDryCreate(t, calls[i + 1]);
        if create.Err? {
          return Err(create.error);
        }
        if create.value {
          calls := calls[i := calls[i + 1]][i + 1 := calls[i]];
          assert calls[i + 1..] == [before[i]] + before[i + 2..];
        }
      }
      PassingStep(t, log, before, i, calls);
      i := i + 1;
    }
    PassingEnds(t, log, calls, i);
    r := Ok(calls);
  }

  function Join(done: seq<Argv>, r: Result<seq<Argv>, CallError>): Result<seq<Argv>, CallError> {
    match r
    case Ok(cs) => Ok(done + cs)
    case Err(e) => Err(e)
  }

  lemma JoinNothing(r: Result<seq<Argv>, CallError>)
    ensures Join([], r) == r
  {
    if r.Ok? {
      assert [] + r.value == r.value;
    }
  }

  lemma JoinCons(done: seq<Argv>, argv: Argv, r: Result<seq<Argv>, CallError>)
    ensures Join(done, Cons(argv, r)) == Join(done + [argv], r)
  {
    if r.Ok? {
      assert done + ([argv] + r.value) == done + [argv] + r.value;
    }
  }

  method IsApplyStdin(t: Tables, argv: Argv) returns (r: Result<bool, CallError>)
    ensures match RoleOfArgv(t, argv)
            case Ok(role) => r == Ok(role == StdinApply)
            case Err(e) => r == Err(e)
  {
    var c := Parse(t.flags, argv);
    r := if c.Err? then Err(c.error) else Ok(RoleOf(c.value) == StdinApply);
  }

  method IsDryCreate(t: Tables, argv: Argv) returns (r: Result<bool, CallError>)
    ensures match RoleOfArgv(t, argv)
            case Ok(role) => r == Ok(role == DryCreate)
            case Err(e) => r == Err(e)
  {
    var c := Parse(t.flags, argv);
    r := if c.Err? then Err(c.error) else Ok(RoleOf(c.value) == DryCreate);
  }

  lemma ConsCounts(x: Argv, s: seq<Argv>)
    ensures multiset([x] + s) == multiset{x} + multiset(s)
  {
  }

  lemma HeadCounts(calls: seq<Argv>)
    requires calls != []
    ensures multiset(calls) == multiset{calls[0]} + multiset(calls[1..])
  {
    assert calls == [calls[0]] + calls[1..];
  }

  lemma SecondCounts(calls: seq<Argv>)
    requires |calls| >= 2
    ensures multiset(calls) == multiset{calls[1]} + multiset([calls[0]] + calls[2..])
  {
    HeadCounts(calls);
    HeadCounts(calls[1..]);
    ConsCounts(calls[0], calls[2..]);
    assert calls[1..][1..] == calls[2..];
  }

  lemma OrderedStep(t: Tables, calls: seq<Argv>)
    requires |calls| >= 2 && Ordered(t, calls).Ok?
    ensures if HasRole(t, calls[0], StdinApply) && HasRole(t, calls[1], DryCreate)
            then Ordered(t, calls) == Cons(calls[1], Ordered(t, [calls[0]] + calls[2..]))
            else Ordered(t, calls) == Cons(calls[0], Ordered(t, calls[1..]))
  {
    hide RoleOfArgv;
  }

  /** Whatever the log, the pass permutes it. */
  lemma {:induction false} OrderedPermutes(t: Tables, calls: seq<Argv>)
    requires Ordered(t, calls).Ok?
    ensures multiset(Ordered(t, calls).value) == multiset(calls)
    decreases |calls|
  {
    if |calls| >= 2 {
      hide Ordered, HasRole;
      OrderedStep(t, calls);
      if HasRole(t, calls[0], StdinApply) && HasRole(t, calls[1], DryCreate) {
        var rest := [calls[0]] + calls[2..];
        OrderedPermutes(t, rest);
        ConsCounts(calls[1], Ordered(t, rest).value);
        SecondCounts(calls);
      } else {
        OrderedPermutes(t, calls[1..]);
        ConsCounts(calls[0], Ordered(t, calls[1..]).value);
        HeadCounts(calls);
      }
    }
  }

  lemma OrderedKeepsLast(t: Tables, calls: seq<Argv>)
    requires |calls| < 2
    ensures Ordered(t, calls) == Ok(calls)
  {
  }

  /** And a call that is neither create nor apply keeps its place. */
  lemma {:induction false} OrderedKeepsOthers(t: Tables, calls: seq<Argv>, i: nat)
    requires Ordered(t, calls).Ok? && i < |calls| && HasRole(t, calls[i], Neither)
    ensures i < |Ordered(t, calls).value| && Ordered(t, calls).value[i] == calls[i]
    decreases |calls|
  {
    hide Ordered, RoleOfArgv;
    if |calls| < 2 {
      OrderedKeepsLast(t, calls);
    } else {
      OrderedStep(t, calls);
      if HasRole(t, calls[0], StdinApply) && HasRole(t, calls[1], DryCreate) {
        OrderedKeepsOthers(t, [calls[0]] + calls[2..], i - 1);
      } else if i > 0 {
        OrderedKeepsOthers(t, calls[1..], i - 1);
      }
    }
  }

  // ------------------------------------------------------------ logs of pairs

  /** A unit of a script: any other call, or the two processes of one pipe, logged in either order. */
  datatype Unit = Single(call: Argv) | Pair(create: Argv, apply: Argv, applyFirst: bool)

  ghost predicate UnitOk(t: Tables, u: Unit) {
    match u
    case Single(call) => HasRole(t, call, Neither)
    case Pair(create, apply, _) => HasRole(t, create, DryCreate) && HasRole(t, apply, StdinApply)
  }

  ghost predicate UnitsOk(t: Tables, us: seq<Unit>) {
    forall u :: u in us ==> UnitOk(t, u)
  }

  /** The log as it was written. */
  function Logged(us: seq<Unit>): seq<Argv> {
    if us == [] then [] else
      (match us[0]
       case Single(call) => [call]
       case Pair(create, apply, applyFirst) => if applyFirst then [apply, create] else [create, apply])
      + Logged(us[1..])
  }

  /** The log with each create in front of its own apply. */
  function Paired(us: seq<Unit>): seq<Argv> {
    if us == [] then [] else
      (match us[0]
       case Single(call) => [call]
       case Pair(create, apply, _) => [create, apply])
      + Paired(us[1..])
  }

  predicate StartsInOrder(us: seq<Unit>) {
    us != [] && us[0].Pair? && !us[0].applyFirst
  }

  /** No pipe is logged right before another pipe whose create came first. */
  predicate NoClash(us: seq<Unit>) {
    us == [] || (!(us[0].Pair? && StartsInOrder(us[1..])) && NoClash(us[1..]))
  }

  lemma SingleAhead(t: Tables, call: Argv, tail: seq<Argv>)
    requires HasRole(t, call, Neither)
    ensures Ordered(t, [call] + tail) == Cons(call, Ordered(t, tail))
  {
    hide RoleOfArgv;
    assert ([call] + tail)[1..] == tail;
  }

  lemma PairAhead(t: Tables, create: Argv, apply: Argv, applyFirst: bool, tail: seq<Argv>)
    requires HasRole(t, create, DryCreate) && HasRole(t, apply, StdinApply)
    ensures Ordered(t, (if applyFirst then [apply, create] else [create, apply]) + tail)
         == Cons(create, Ordered(t, [apply] + tail))
  {
    hide RoleOfArgv;
    var log := (if applyFirst then [apply, create] else [create, apply]) + tail;
    assert log[2..] == tail;
    assert !applyFirst ==> log[1..] == [apply] + tail;
  }

  lemma {:induction false} OrderedHead(t: Tables, us: seq<Unit>)
    requires UnitsOk(t, us) && us != []
    ensures us[0].Single? ==> Ordered(t, Logged(us)) == Cons(us[0].call, Ordered(t, Logged(us[1..])))
    ensures us[0].Pair? && !StartsInOrder(us[1..]) ==>
        Ordered(t, Logged(us)) == Cons(us[0].create, Cons(us[0].apply, Ordered(t, Logged(us[1..]))))
    ensures us[0].Pair? && StartsInOrder(us[1..]) ==>
        Ordered(t, Logged(us)) ==
          Cons(us[0].create, Cons(us[1].create, Ordered(t, [us[0].apply, us[1].apply] + Logged(us[2..]))))
  {
    hide Ordered, HasRole;
    var tail := Logged(us[1..]);
    assert us[0] in us && UnitOk(t, us[0]);
    match us[0] {
      case Single(call) =>
        SingleAhead(t, call, tail);
      case Pair(create, apply, applyFirst) =>
        PairAhead(t, create, apply, applyFirst, tail);
        ApplyAhead(t, us[1..], apply);
    }
  }

  /** An apply in front of the rest of a log. */
  lemma {:induction false} ApplyAhead(t: Tables, us: seq<Unit>, apply: Argv)
    requires UnitsOk(t, us) && HasRole(t, apply, StdinApply)
    ensures !StartsInOrder(us) ==> Ordered(t, [apply] + Logged(us)) == Cons(apply, Ordered(t, Logged(us)))
    ensures StartsInOrder(us) ==>
        Ordered(t, [apply] + Logged(us)) ==
          Cons(us[0].create, Ordered(t, [apply, us[0].apply] + Logged(us[1..])))
  {
    hide RoleOfArgv;
    var log := [apply] + Logged(us);
    assert log[1..] == Logged(us);
    if us != [] {
      assert us[0] in us;
      if StartsInOrder(us) {
        assert log[2..] == [us[0].apply] + Logged(us[1..]);
        assert [apply] + log[2..] == [apply, us[0].apply] + Logged(us[1..]);
      }
    }
  }

  /** The pass puts every create right before its own apply exactly when no pipe is followed at once by a pipe whose
      create was logged first. */
  lemma {:induction false} OrderedIsPaired(t: Tables, us: seq<Unit>)
    requires UnitsOk(t, us)
    ensures NoClash(us) <==> Ordered(t, Logged(us)) == Ok(Paired(us))
    decreases |us|
  {
    hide RoleOfArgv;
    if us != [] {
      OrderedHead(t, us);
      OrderedIsPaired(t, us[1..]);
      assert us[0] in us;
      var tail := Ordered(t, Logged(us[1..]));
      match us[0] {
        case Single(call) =>
          assert tail.Ok? ==> ([call] + tail.value)[1..] == tail.value;
          assert ([call] + Paired(us[1..]))[1..] == Paired(us[1..]);
        case Pair(create, apply, _) =>
          if StartsInOrder(us[1..]) {
            assert us[1] in us;
            assert us[1].create != apply;
            assert Paired(us)[1] == apply;
          } else {
            assert tail.Ok? ==> ([create] + ([apply] + tail.value))[2..] == tail.value;
            assert Paired(us) == [create] + ([apply] + Paired(us[1..]));
          }
      }
    }
  }

  // ----------------------------------------------------------------- running

  function StepArgv(t: Tables, argv: Argv, pending: Option<Object>): Result<Outcome, CallError> {
    match Parsed(t.flags, argv)
    case Err(e) => Err(e)
    case Ok(c) => Step(t, c, pending)
  }

  /** The requests of each call of a log, in the log's own order, or the first error. */
  function Run(t: Tables, calls: seq<Argv>, pending: Option<Object>): Result<seq<seq<ApiRequest>>, CallError> {
    if calls == [] then Ok([]) else
      match StepArgv(t, calls[0], pending)
      case Err(e) => Err(e)
      case Ok(out) => ConsList(out.reqs, Run(t, calls[1..], out.pending))
  }

  /** The object that is pending once these calls have run. */
  function After(t: Tables, calls: seq<Argv>, pending: Option<Object>): Option<Object> {
    if calls == [] then pending
    else match StepArgv(t, calls[0], pending)
      case Err(_) => None
      case Ok(out) => After(t, calls[1..], out.pending)
  }

  /** One more call at the end of a log. */
  lemma {:induction false} RunOneMore(t: Tables, calls: seq<Argv>, argv: Argv, pending: Option<Object>)
    requires Run(t, calls, pending).Ok?
    ensures match StepArgv(t, argv, After(t, calls, pending))
            case Err(e) => Run(t, calls + [argv], pending) == Err(e)
            case Ok(out) =>
              && Run(t, calls + [argv], pending) == Ok(Run(t, calls, pending).value + [out.reqs])
              && After(t, calls + [argv], pending) == out.pending
  {
    hide StepArgv;
    if calls == [] {
      assert calls + [argv] == [argv] && [argv][1..] == [];
      var next := StepArgv(t, argv, pending);
      assert next.Ok? ==> Run(t, [argv][1..], next.value.pending) == Ok([]);
      assert next.Ok? ==> [] + [next.value.reqs] == [next.value.reqs] + [];
    } else {
      assert (calls + [argv])[1..] == calls[1..] + [argv];
      var first := StepArgv(t, calls[0], pending).value;
      RunOneMore(t, calls[1..], argv, first.pending);
      var next := StepArgv(t, argv, After(t, calls, pending));
      if next.Ok? {
        var rest := Run(t, calls[1..], first.pending).value;
        assert [first.reqs] + (rest + [next.value.reqs]) == [first.reqs] + rest + [next.value.reqs];
      }
    }
  }

  /** An error ends the log, whatever stands behind it. */
  lemma {:induction false} RunFails(t: Tables, calls: seq<Argv>, more: seq<Argv>, pending: Option<Object>)
    requires Run(t, calls, pending).Err?
    ensures Run(t, calls + more, pending) == Run(t, calls, pending)
  {
    hide StepArgv;
    assert (calls + more)[1..] == calls[1..] + more;
    if StepArgv(t, calls[0], pending).Ok? {
      RunFails(t, calls[1..], more, StepArgv(t, calls[0], pending).value.pending);
    }
  }

  function ConsList(reqs: seq<ApiRequest>, r: Result<seq<seq<ApiRequest>>, CallError>)
    : Result<seq<seq<ApiRequest>>, CallError>
  {
    match r
    case Err(e) => Err(e)
    case Ok(more) => Ok([reqs] + more)
  }

  /** `requests`: the calls in pipe order, then one call at a time. */
  function Requests(t: Tables, log: seq<Argv>): Result<seq<seq<ApiRequest>>, CallError> {
    match Ordered(t, log)
    case Err(e) => Err(e)
    case Ok(calls) => Run(t, calls, None)
  }

  /** The object a dry-run create records. */
  function RecordedBy(t: Tables, argv: Argv): Option<Object> {
    match StepArgv(t, argv, None)
    case Err(_) => None
    case Ok(out) => out.pending
  }

  function ArgvNs(t: Tables, argv: Argv): Option<string> {
    match Parsed(t.flags, argv)
    case Err(_) => None
    case Ok(c) => NsOf(c)
  }

  /** The requests of an apply that takes the object of its own create. */
  function OwnRequests(t: Tables, create: Argv, apply: Argv): seq<ApiRequest>
    requires RecordedBy(t, create).Some?
  {
    ApplyRequests(RecordedBy(t, create).value, ArgvNs(t, apply))
  }

  /** Looking back from position `k`: the object of the latest create that no apply took since, else `before`. */
  function Outstanding(t: Tables, calls: seq<Argv>, before: Option<Object>, k: nat): Option<Object>
    requires k <= |calls|
  {
    if k == 0 then before
    else if HasRole(t, calls[k - 1], DryCreate) then RecordedBy(t, calls[k - 1])
    else if HasRole(t, calls[k - 1], StdinApply) then None
    else Outstanding(t, calls, before, k - 1)
  }

  lemma {:induction false} OutstandingShift(t: Tables, calls: seq<Argv>, before: Option<Object>, k: nat)
    requires 0 < k <= |calls|
    ensures Outstanding(t, calls, before, k) ==
      Outstanding(t, calls[1..], Outstanding(t, calls, before, 1), k - 1)
  {
    if k > 1 {
      OutstandingShift(t, calls, before, k - 1);
      assert calls[1..][k - 2] == calls[k - 1];
    }
  }

  lemma StepLeavesOutstanding(t: Tables, calls: seq<Argv>, pending: Option<Object>)
    requires calls != [] && Run(t, calls, pending).Ok?
    ensures var c := Parsed(t.flags, calls[0]).value;
            Step(t, c, pending).Ok? && Step(t, c, pending).value.pending == Outstanding(t, calls, pending, 1)
  {
    var c := Parsed(t.flags, calls[0]).value;
    StepByRole(t, c, pending);
    if RoleOf(c) == DryCreate {
      StepIgnoresPending(t, c, pending, None);
    }
  }

  /** In any log that runs, each apply takes the object of the latest create that no other apply took. */
  lemma {:induction false} ApplyTakesLatestCreate(t: Tables, calls: seq<Argv>, pending: Option<Object>, k: nat)
    requires Run(t, calls, pending).Ok? && k < |calls| && HasRole(t, calls[k], StdinApply)
    ensures |Run(t, calls, pending).value| == |calls|
    ensures Outstanding(t, calls, pending, k).Some?
    ensures Run(t, calls, pending).value[k] ==
      ApplyRequests(Outstanding(t, calls, pending, k).value, ArgvNs(t, calls[k]))
    decreases |calls|
  {
    hide Step, ApplyRequests, RoleOf, NsOf;
    RunLength(t, calls, pending);
    var c := Parsed(t.flags, calls[0]).value;
    if k == 0 {
      StepByRole(t, c, pending);
    } else {
      StepLeavesOutstanding(t, calls, pending);
      OutstandingShift(t, calls, pending, k);
      ApplyTakesLatestCreate(t, calls[1..], Step(t, c, pending).value.pending, k - 1);
    }
  }

  lemma {:induction false} RunLength(t: Tables, calls: seq<Argv>, pending: Option<Object>)
    requires Run(t, calls, pending).Ok?
    ensures |Run(t, calls, pending).value| == |calls|
  {
    if calls != [] {
      RunLength(t, calls[1..], Step(t, Parsed(t.flags, calls[0]).value, pending).value.pending);
    }
  }

  // ---------------------------------------------------- running a log of pairs

  /** The unit's own calls are modelled: a single call steps, a create records an object. */
  ghost predicate UnitRuns(t: Tables, u: Unit) {
    match u
    case Single(call) => StepArgv(t, call, None).Ok?
    case Pair(create, _, _) => RecordedBy(t, create).Some?
  }

  /** What a unit asks for by itself, one list a call, in paired order. */
  ghost function OwnList(t: Tables, u: Unit): seq<seq<ApiRequest>>
    requires UnitRuns(t, u)
  {
    match u
    case Single(call) => [StepArgv(t, call, None).value.reqs]
    case Pair(create, apply, _) => [[], OwnRequests(t, create, apply)]
  }

  ghost function OwnLists(t: Tables, us: seq<Unit>): seq<seq<ApiRequest>>
    requires forall u :: u in us ==> UnitRuns(t, u)
  {
    if us == [] then [] else
      assert us[0] in us;
      OwnList(t, us[0]) + OwnLists(t, us[1..])
  }

  lemma {:induction false} PairedRuns(t: Tables, us: seq<Unit>)
    requires UnitsOk(t, us) && forall u :: u in us ==> UnitRuns(t, u)
    ensures Run(t, Paired(us), None) == Ok(OwnLists(t, us))
    decreases |us|
  {
    hide Step;
    if us != [] {
      assert us[0] in us;
      PairedRuns(t, us[1..]);
      var calls := Paired(us);
      match us[0] {
        case Single(call) =>
          assert calls[1..] == Paired(us[1..]);
          StepByRole(t, Parsed(t.flags, call).value, None);
        case Pair(create, apply, _) =>
          assert calls[1..] == [apply] + Paired(us[1..]) && calls[1..][1..] == Paired(us[1..]);
          PairRuns(t, create, apply, Paired(us[1..]));
      }
    }
  }

  lemma RunCons(t: Tables, argv: Argv, rest: seq<Argv>, pending: Option<Object>, out: Outcome)
    requires StepArgv(t, argv, pending) == Ok(out)
    ensures Run(t, [argv] + rest, pending) == ConsList(out.reqs, Run(t, rest, out.pending))
  {
    assert ([argv] + rest)[1..] == rest;
  }

  lemma CreateSteps(t: Tables, create: Argv)
    requires HasRole(t, create, DryCreate) && RecordedBy(t, create).Some?
    ensures StepArgv(t, create, None) == Ok(Outcome([], RecordedBy(t, create)))
  {
    hide Step, RoleOf;
    StepByRole(t, Parsed(t.flags, create).value, None);
  }

  lemma ApplySteps(t: Tables, apply: Argv, o: Option<Object>)
    requires HasRole(t, apply, StdinApply) && o.Some?
    ensures StepArgv(t, apply, o) == Ok(Outcome(ApplyRequests(o.value, ArgvNs(t, apply)), None))
  {
  }

  lemma PairRuns(t: Tables, create: Argv, apply: Argv, rest: seq<Argv>)
    requires HasRole(t, create, DryCreate) && HasRole(t, apply, StdinApply) && RecordedBy(t, create).Some?
    requires Run(t, rest, None).Ok?
    ensures Run(t, [create] + ([apply] + rest), None) ==
      Ok([[], OwnRequests(t, create, apply)] + Run(t, rest, None).value)
  {
    hide Step, Parsed, RoleOf;
    var o := RecordedBy(t, create);
    CreateSteps(t, create);
    ApplySteps(t, apply, o);
    RunCons(t, create, [apply] + rest, None, Outcome([], o));
    RunCons(t, apply, rest, o, Outcome(OwnRequests(t, create, apply), None));
    var more := Run(t, rest, None).value;
    assert [[]] + ([OwnRequests(t, create, apply)] + more) == [[], OwnRequests(t, create, apply)] + more;
  }

  function Count(t: Tables, calls: seq<Argv>, r: Role): nat {
    if calls == [] then 0 else (if HasRole(t, calls[0], r) then 1 else 0) + Count(t, calls[1..], r)
  }

  /** The creates that overwrite an object no apply took. */
  function Wasted(t: Tables, calls: seq<Argv>, full: bool): nat {
    if calls == [] then 0
    else if HasRole(t, calls[0], DryCreate) then (if full then 1 else 0) + Wasted(t, calls[1..], true)
    else Wasted(t, calls[1..], full && !HasRole(t, calls[0], StdinApply))
  }

  lemma {:induction false} RunBalances(t: Tables, calls: seq<Argv>, pending: Option<Object>)
    requires Run(t, calls, pending).Ok?
    ensures Count(t, calls, StdinApply) + Wasted(t, calls, pending.Some?)
      <= Count(t, calls, DryCreate) + if pending.Some? then 1 else 0
    decreases |calls|
  {
    if calls != [] {
      var c := Parsed(t.flags, calls[0]).value;
      StepByRole(t, c, pending);
      RunBalances(t, calls[1..], Step(t, c, pending).value.pending);
    }
  }

  lemma {:induction false} OrderedKeepsCounts(t: Tables, calls: seq<Argv>, r: Role)
    requires Ordered(t, calls).Ok?
    ensures Count(t, Ordered(t, calls).value, r) == Count(t, calls, r)
    decreases |calls|
  {
    if |calls| >= 2 {
      if HasRole(t, calls[0], StdinApply) && HasRole(t, calls[1], DryCreate) {
        var rest := [calls[0]] + calls[2..];
        OrderedKeepsCounts(t, rest, r);
        assert rest[1..] == calls[2..] && calls[1..][1..] == calls[2..];
        CountCons(t, calls[1], Ordered(t, rest).value, r);
      } else {
        OrderedKeepsCounts(t, calls[1..], r);
        CountCons(t, calls[0], Ordered(t, calls[1..]).value, r);
      }
    }
  }

  lemma CountCons(t: Tables, argv: Argv, calls: seq<Argv>, r: Role)
    ensures Count(t, [argv] + calls, r) == (if HasRole(t, argv, r) then 1 else 0) + Count(t, calls, r)
    ensures Wasted(t, [argv] + calls, true) >= Wasted(t, [argv] + calls, false) >=
      Wasted(t, calls, HasRole(t, argv, DryCreate))
  {
    assert ([argv] + calls)[1..] == calls;
    WastedGrows(t, calls);
    WastedGrows(t, [argv] + calls);
  }

  lemma {:induction false} WastedGrows(t: Tables, calls: seq<Argv>)
    ensures Wasted(t, calls, true) >= Wasted(t, calls, false)
  {
    if calls != [] {
      WastedGrows(t, calls[1..]);
    }
  }

  lemma {:induction false} LoggedIsBalanced(t: Tables, us: seq<Unit>)
    requires UnitsOk(t, us)
    ensures Count(t, Logged(us), DryCreate) == Count(t, Logged(us), StdinApply)
  {
    if us != [] {
      assert us[0] in us;
      LoggedIsBalanced(t, us[1..]);
      var tail := Logged(us[1..]);
      match us[0] {
        case Single(call) =>
          CountCons(t, call, tail, DryCreate);
          CountCons(t, call, tail, StdinApply);
        case Pair(create, apply, _) =>
          CountPair(t, create, apply, tail, DryCreate);
          CountPair(t, create, apply, tail, StdinApply);
      }
    }
  }

  lemma CountPair(t: Tables, a: Argv, b: Argv, tail: seq<Argv>, r: Role)
    ensures Count(t, [a, b] + tail, r) == Count(t, [b, a] + tail, r) ==
      (if HasRole(t, a, r) then 1 else 0) + (if HasRole(t, b, r) then 1 else 0) + Count(t, tail, r)
  {
    CountCons(t, a, tail, r);
    CountCons(t, b, tail, r);
    CountCons(t, b, [a] + tail, r);
    CountCons(t, a, [b] + tail, r);
    assert [a, b] + tail == [a] + ([b] + tail);
    assert [b, a] + tail == [b] + ([a] + tail);
  }

  /** A clash leaves two creates in a row, and the first one's object is lost. */
  lemma {:induction false} ClashWastes(t: Tables, us: seq<Unit>)
    requires UnitsOk(t, us) && !NoClash(us) && Ordered(t, Logged(us)).Ok?
    ensures Wasted(t, Ordered(t, Logged(us)).value, false) >= 1
    decreases |us|
  {
    OrderedHead(t, us);
    assert us[0] in us;
    match us[0] {
      case Single(call) =>
        ClashWastes(t, us[1..]);
        CountCons(t, call, Ordered(t, Logged(us[1..])).value, Neither);
      case Pair(create, apply, _) =>
        if StartsInOrder(us[1..]) {
          assert us[1] in us;
          var rest := Ordered(t, [us[0].apply, us[1].apply] + Logged(us[2..])).value;
          assert ([create] + ([us[1].create] + rest))[1..] == [us[1].create] + rest;
        } else {
          ClashWastes(t, us[1..]);
          var rest := Ordered(t, Logged(us[1..])).value;
          CountCons(t, apply, rest, Neither);
          CountCons(t, create, [apply] + rest, Neither);
          assert ([apply] + rest)[1..] == rest;
        }
    }
  }

  /** For a log of modelled calls and pipes: the guard accepts it exactly when no pipe is followed at once by a pipe
      whose create came first, and then every apply is judged on its own create. It never pairs an apply with the
      wrong create and accepts. */
  lemma {:induction false} PairedLogsRun(t: Tables, us: seq<Unit>)
    requires UnitsOk(t, us) && forall u :: u in us ==> UnitRuns(t, u)
    ensures Requests(t, Logged(us)).Ok? <==> NoClash(us)
    ensures NoClash(us) ==> Requests(t, Logged(us)) == Ok(OwnLists(t, us))
  {
    OrderedIsPaired(t, us);
    PairedRuns(t, us);
    if !NoClash(us) && Requests(t, Logged(us)).Ok? {
      var calls := Ordered(t, Logged(us)).value;
      ClashWastes(t, us);
      LoggedIsBalanced(t, us);
      OrderedKeepsCounts(t, Logged(us), DryCreate);
      OrderedKeepsCounts(t, Logged(us), StdinApply);
      RunBalances(t, calls, None);
    }
  }
}
