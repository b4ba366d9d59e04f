/** scripts/check-edge-zitadel-routes.py: the first-match router the guard plays requests against. */
module ZitadelRoutes {
  import opened Prelude

  /** Full-match of a regular expression, which this model leaves open: (pattern, text). */
  type Regex = (string, string) -> bool

  datatype StringMatch = Exact(text: string) | Prefix(text: string) | Suffix(text: string) | SafeRegex(text: string)
    | OtherString

  datatype HeaderTest = Present(wanted: bool) | StringTest(sm: StringMatch) | ExactValue(value: string) | OtherTest
  datatype HeaderMatch = HeaderMatch(name: string, test: HeaderTest, invert: bool)

  datatype PathTest = PathPrefix(text: string) | WholePath(text: string) | SeparatedPrefix(text: string)
    | PathRegex(text: string) | NoPath

  /** `extra`: the match has a field the guard does not model. */
  datatype RouteMatch = RouteMatch(path: PathTest, headers: seq<HeaderMatch>, extra: bool)

  datatype Action = Direct(status: int) | Redirect | Cluster(name: string)
  datatype Route = Route(on: RouteMatch, action: Action)

  /** A request, its header names in lower case and ":method" among them. */
  datatype Request = Request(path: string, headers: map<string, string>)

  /** A test's answer; None when the guard is blind to it. */
  type Answer = Option<bool>

  function StringMatches(re: Regex, sm: StringMatch, value: Option<string>): Answer {
    if value.None? then Some(false)
    else match sm
      case Exact(t) => Some(value.value == t)
      case Prefix(t) => Some(t <= value.value)
      case Suffix(t) => Some(EndsWith(value.value, t))
      case SafeRegex(t) => Some(re(t, value.value))
      case OtherString => None
  }

  function HeaderMatches(re: Regex, h: HeaderMatch, headers: map<string, string>): Answer {
    var value := if Lower(h.name) in headers then Some(headers[Lower(h.name)]) else None;
    var got :=
      match h.test
      case Present(wanted) => Some(value.Some? == wanted)
      case StringTest(sm) => StringMatches(re, sm, value)
      case ExactValue(v) => Some(value == Some(v))
      case OtherTest => None;
    if got.None? then None else Some(got.value != h.invert)
  }

  /** All header tests hold; they are read in order, and the first that fails ends the reading. */
  function AllHeaders(re: Regex, hs: seq<HeaderMatch>, headers: map<string, string>): Answer {
    if hs == [] then Some(true) else
      var first := HeaderMatches(re, hs[0], headers);
      if first.Some? && first.value then AllHeaders(re, hs[1..], headers) else first
  }

  function PathMatches(re: Regex, p: PathTest, path: string): Answer {
    match p
    case PathPrefix(t) => Some(t <= path)
    case WholePath(t) => Some(path == t)
    case SeparatedPrefix(t) => Some(path == t || t + "/" <= path)
    case PathRegex(t) => Some(re(t, path))
    case NoPath => None
  }

  function RouteMatches(re: Regex, m: RouteMatch, rq: Request): Answer {
    if m.extra then None else
      var path := PathMatches(re, m.path, rq.path);
      if path.Some? && path.value then AllHeaders(re, m.headers, rq.headers) else path
  }

  // ---------------------------------------------------------- what is written

  /** The header's value, whatever the case of the letters in the test's name. */
  function Given(headers: map<string, string>, name: string): Option<string> {
    if Lower(name) in headers then Some(headers[Lower(name)]) else None
  }

  /** Before it is inverted: present or absent as wanted, or a value of this form. */
  ghost predicate Passes(re: Regex, test: HeaderTest, value: Option<string>) {
    match test
    case Present(wanted) => if wanted then value.Some? else value.None?
    case ExactValue(v) => value == Some(v)
    case StringTest(sm) =>
      value.Some?
      && (match sm
          case Exact(t) => value.value == t
          case Prefix(t) => exists tail :: value.value == t + tail
          case Suffix(t) => exists front :: value.value == front + t
          case SafeRegex(t) => re(t, value.value)
          case OtherString => false)
    case OtherTest => false
  }

  predicate IsKnown(test: HeaderTest) {
    !test.OtherTest? && !(test.StringTest? && test.sm.OtherString?)
  }

  /** A test gets an answer unless it is of an unknown form behind a present header; an inverted one answers the opposite. */
  lemma HeaderMatchesIs(re: Regex, h: HeaderMatch, headers: map<string, string>)
    ensures IsKnown(h.test) ==> HeaderMatches(re, h, headers).Some?
    ensures IsKnown(h.test) ==> (HeaderMatches(re, h, headers).value <==> (Passes(re, h.test, Given(headers, h.name)) <==> !h.invert))
    ensures h.test.OtherTest? ==> HeaderMatches(re, h, headers) == None
    ensures h.test == StringTest(OtherString) ==>
        HeaderMatches(re, h, headers) == if Given(headers, h.name).Some? then None else Some(h.invert)
  {
    var value := Given(headers, h.name);
    if value.Some? && h.test.StringTest? {
      match h.test.sm {
        case Prefix(t) =>
          assert t <= value.value ==> value.value == t + value.value[|t|..];
        case Suffix(t) =>
          assert EndsWith(value.value, t) ==> value.value == value.value[..|value.value| - |t|] + t;
        case _ =>
      }
    }
  }

  /** The path is taken by the prefix, the whole, the prefix up to a slash, or the expression. */
  ghost predicate PathTaken(re: Regex, p: PathTest, path: string) {
    match p
    case PathPrefix(t) => exists tail :: path == t + tail
    case WholePath(t) => path == t
    case SeparatedPrefix(t) => path == t || exists tail :: path == t + ("/" + tail)
    case PathRegex(t) => re(t, path)
    case NoPath => false
  }

  lemma PathMatchesIs(re: Regex, p: PathTest, path: string)
    ensures !p.NoPath? ==> PathMatches(re, p, path) == Some(PathTaken(re, p, path))
    ensures p.NoPath? ==> PathMatches(re, p, path) == None
  {
    match p {
      case PathPrefix(t) => assert t <= path ==> path == t + path[|t|..];
      case SeparatedPrefix(t) =>
        assert t + "/" <= path ==> path == t + ("/" + path[|t| + 1..]);
        if tail :| path == t + ("/" + tail) {
          assert path == t + "/" + tail;
        }
      case _ =>
    }
  }

  lemma {:induction false} AllHeadersIff(re: Regex, hs: seq<HeaderMatch>, headers: map<string, string>)
    ensures AllHeaders(re, hs, headers) == Some(true) <==> forall h :: h in hs ==> HeaderMatches(re, h, headers) == Some(true)
  {
    hide HeaderMatches;
    if hs != [] {
      AllHeadersIff(re, hs[1..], headers);
    }
  }

  /** A route of known parts takes a request exactly when its path is taken and every header test passes, or fails if
      inverted. */
  lemma TakesIff(re: Regex, r: Route, rq: Request)
    requires Modelled(r.on)
    ensures Takes(re, r, rq) <==>
        && PathTaken(re, r.on.path, rq.path)
        && forall h :: h in r.on.headers ==> (Passes(re, h.test, Given(rq.headers, h.name)) <==> !h.invert)
  {
    hide HeaderMatches, PathMatches, PathTaken, Passes, AllHeaders;
    PathMatchesIs(re, r.on.path, rq.path);
    AllHeadersIff(re, r.on.headers, rq.headers);
    forall h | h in r.on.headers
      ensures HeaderMatches(re, h, rq.headers) == Some(true) <==> (Passes(re, h.test, Given(rq.headers, h.name)) <==> !h.invert)
    {
      HeaderMatchesIs(re, h, rq.headers);
    }
  }

  datatype Outcome = Decided(action: Action) | NoMatch | Blind

  /** What Envoy does with the request: the first route that matches decides. */
  method Play(re: Regex, routes: seq<Route>, rq: Request) returns (o: Outcome)
    ensures o == Outcomes(re, routes, rq)
  {
    assert routes[0..] == routes;
    for i := 0 to |routes|
      invariant Outcomes(re, routes, rq) == Outcomes(re, routes[i..], rq)
    {
      assert routes[i..][1..] == routes[i + 1..];
      var m := RouteMatches(re, routes[i].on, rq);
      if m.None? {
        return Blind;
      }
      if m.value {
        return Decided(routes[i].action);
      }
    }
    o := NoMatch;
  }

  function Outcomes(re: Regex, routes: seq<Route>, rq: Request): Outcome {
    if routes == [] then NoMatch else
      var m := RouteMatches(re, routes[0].on, rq);
      if m.None? then Blind else if m.value then Decided(routes[0].action) else Outcomes(re, routes[1..], rq)
  }

  // ---------------------------------------------------------------- matching

  /** The guard models every field of the match. */
  predicate Modelled(m: RouteMatch) {
    && !m.extra && !m.path.NoPath?
    && forall h :: h in m.headers ==> !h.test.OtherTest? && !(h.test.StringTest? && h.test.sm.OtherString?)
  }

  predicate AllModelled(routes: seq<Route>) {
    forall r :: r in routes ==> Modelled(r.on)
  }

  lemma {:induction false} ModelledHeadersAnswer(re: Regex, hs: seq<HeaderMatch>, headers: map<string, string>)
    requires forall h :: h in hs ==> !h.test.OtherTest? && !(h.test.StringTest? && h.test.sm.OtherString?)
    ensures AllHeaders(re, hs, headers).Some?
  {
    if hs != [] {
      assert hs[0] in hs;
      ModelledHeadersAnswer(re, hs[1..], headers);
    }
  }

  /** The route takes the request. */
  predicate Takes(re: Regex, r: Route, rq: Request) {
    RouteMatches(re, r.on, rq).Some? && RouteMatches(re, r.on, rq).value
  }

  lemma ModelledAnswers(re: Regex, r: Route, rq: Request)
    requires Modelled(r.on)
    ensures RouteMatches(re, r.on, rq) == Some(Takes(re, r, rq))
  {
    ModelledHeadersAnswer(re, r.on.headers, rq.headers);
  }

  /** Route `i` is the first of the list to take the request. */
  predicate IsFirst(re: Regex, routes: seq<Route>, rq: Request, i: nat) {
    i < |routes| && Takes(re, routes[i], rq) && forall k :: 0 <= k < i ==> !Takes(re, routes[k], rq)
  }

  /** Headers are looked at in turn: the first that does not pass answers for all, be it no or not known. */
  lemma {:induction false} FirstHeaderAnswers(re: Regex, hs: seq<HeaderMatch>, k: nat, headers: map<string, string>)
    requires k <= |hs| && forall j :: 0 <= j < k ==> HeaderMatches(re, hs[j], headers) == Some(true)
    requires k < |hs| ==> HeaderMatches(re, hs[k], headers) != Some(true)
    ensures AllHeaders(re, hs, headers) == if k < |hs| then HeaderMatches(re, hs[k], headers) else Some(true)
  {
    if k > 0 {
      FirstHeaderAnswers(re, hs[1..], k - 1, headers);
    }
  }

  /** A match with a field unknown to the guard, or without a path test, is not judged; a path not taken is a plain no. */
  lemma PathComesFirst(re: Regex, m: RouteMatch, rq: Request)
    ensures m.extra || m.path.NoPath? ==> RouteMatches(re, m, rq) == None
    ensures !m.extra && !m.path.NoPath? && !PathTaken(re, m.path, rq.path) ==> RouteMatches(re, m, rq) == Some(false)
    ensures !m.extra && !m.path.NoPath? && PathTaken(re, m.path, rq.path) ==>
        RouteMatches(re, m, rq) == AllHeaders(re, m.headers, rq.headers)
  {
    PathMatchesIs(re, m.path, rq.path);
  }

  /** For any routes: the first that is not a plain no decides, with its action if it matches and blindly if that is unknown. */
  lemma {:induction false} FirstAnswerDecides(re: Regex, routes: seq<Route>, k: nat, rq: Request)
    requires k <= |routes| && forall j :: 0 <= j < k ==> RouteMatches(re, routes[j].on, rq) == Some(false)
    requires k < |routes| ==> RouteMatches(re, routes[k].on, rq) != Some(false)
    ensures Outcomes(re, routes, rq)
              == if k == |routes| then NoMatch
                 else if RouteMatches(re, routes[k].on, rq).None? then Blind else Decided(routes[k].action)
  {
    if k > 0 {
      FirstAnswerDecides(re, routes[1..], k - 1, rq);
    }
  }

  /** The outcome is the decision of the lowest route that takes the request, and no match exactly when none does. */
  lemma {:induction false} FirstDecides(re: Regex, routes: seq<Route>, rq: Request)
    requires AllModelled(routes)
    ensures forall i: nat :: IsFirst(re, routes, rq, i) ==> Outcomes(re, routes, rq) == Decided(routes[i].action)
    ensures (exists i: nat :: IsFirst(re, routes, rq, i)) || (Outcomes(re, routes, rq) == NoMatch
              && forall k :: 0 <= k < |routes| ==> !Takes(re, routes[k], rq))
  {
    if routes != [] {
      assert routes[0] in routes;
      ModelledAnswers(re, routes[0], rq);
      if Takes(re, routes[0], rq) {
        assert IsFirst(re, routes, rq, 0);
      } else {
        FirstDecides(re, routes[1..], rq);
        if i: nat :| IsFirst(re, routes[1..], rq, i) {
          assert forall k :: 0 < k <= i ==> routes[k] == routes[1..][k - 1];
          assert IsFirst(re, routes, rq, i + 1);
        }
        forall i: nat | IsFirst(re, routes, rq, i)
          ensures Outcomes(re, routes, rq) == Decided(routes[i].action)
        {
          assert forall k :: 0 <= k < i - 1 ==> routes[1..][k] == routes[k + 1];
          assert IsFirst(re, routes[1..], rq, i - 1);
        }
      }
    }
  }

  // --------------------------------------------------------------- reordering

  /** The two routes can take one request. */
  ghost predicate CanMeet(re: Regex, a: Route, b: Route) {
    exists rq :: Takes(re, a, rq) && Takes(re, b, rq)
  }

  /** `from[k]` is where the k-th route came from, and `to` undoes it. */
  predicate IsReordering(routes: seq<Route>, moved: seq<Route>, from: seq<nat>, to: seq<nat>) {
    && |routes| == |moved| == |from| == |to|
    && (forall k :: 0 <= k < |from| ==> from[k] < |routes| && to[from[k]] == k && moved[k] == routes[from[k]])
    && (forall i :: 0 <= i < |to| ==> to[i] < |moved| && from[to[i]] == i)
  }

  /** Routes that can meet keep their order. */
  ghost predicate KeepsMeetings(re: Regex, routes: seq<Route>, to: seq<nat>)
    requires |routes| == |to|
  {
    forall i, j :: 0 <= i < j < |routes| && CanMeet(re, routes[i], routes[j]) ==> to[i] < to[j]
  }

  lemma FirstMoves(re: Regex, routes: seq<Route>, moved: seq<Route>, from: seq<nat>, to: seq<nat>, rq: Request, i: nat)
    requires IsReordering(routes, moved, from, to) && KeepsMeetings(re, routes, to) && IsFirst(re, routes, rq, i)
    ensures IsFirst(re, moved, rq, to[i]) && moved[to[i]] == routes[i]
  {
    forall k | 0 <= k < to[i]
      ensures !Takes(re, moved[k], rq)
    {
      var was := from[k];
      if Takes(re, routes[was], rq) {
        assert CanMeet(re, routes[i], routes[was]);
      }
    }
  }

  /** Reordering a virtual host changes no outcome as long as routes that can meet keep their order. */
  lemma {:induction false} ReorderingKeepsOutcomes(re: Regex, routes: seq<Route>, moved: seq<Route>, from: seq<nat>, to: seq<nat>, rq: Request)
    requires IsReordering(routes, moved, from, to) && KeepsMeetings(re, routes, to) && AllModelled(routes)
    ensures Outcomes(re, moved, rq) == Outcomes(re, routes, rq)
  {
    assert AllModelled(moved) by {
      forall k | 0 <= k < |moved|
        ensures Modelled(moved[k].on)
      {
        assert moved[k] == routes[from[k]];
      }
    }
    FirstDecides(re, routes, rq);
    FirstDecides(re, moved, rq);
    if i: nat :| IsFirst(re, routes, rq, i) {
      FirstMoves(re, routes, moved, from, to, rq, i);
    } else {
      forall k | 0 <= k < |moved|
        ensures !Takes(re, moved[k], rq)
      {
        var was := from[k];
        assert !Takes(re, routes[was], rq);
      }
    }
  }

  /** The request has the same outcome with `a` before `b` and with `b` before `a`. */
  predicate SwapKeeps(re: Regex, before: seq<Route>, a: Route, b: Route, after: seq<Route>, rq: Request) {
    Outcomes(re, before + [a, b] + after, rq) == Outcomes(re, before + [b, a] + after, rq)
  }

  /** Swapping two neighbours keeps every outcome exactly when, on each request that reaches them and that both take,
      they decide the same. */
  lemma NeighboursSwapIff(re: Regex, before: seq<Route>, a: Route, b: Route, after: seq<Route>)
    requires AllModelled(before) && Modelled(a.on) && Modelled(b.on) && AllModelled(after)
    ensures (forall rq :: SwapKeeps(re, before, a, b, after, rq)) <==> forall rq :: SameOrApart(re, before, a, b, rq)
  {
    forall rq
      ensures SwapKeeps(re, before, a, b, after, rq) <==> SameOrApart(re, before, a, b, rq)
    {
      SwapOne(re, before, a, b, after, rq);
    }
  }

  lemma SwapOne(re: Regex, before: seq<Route>, a: Route, b: Route, after: seq<Route>, rq: Request)
    requires AllModelled(before) && Modelled(a.on) && Modelled(b.on)
    ensures SwapKeeps(re, before, a, b, after, rq) <==> SameOrApart(re, before, a, b, rq)
  {
    PastUntaken(re, before, [a, b] + after, rq);
    PastUntaken(re, before, [b, a] + after, rq);
    assert before + [a, b] + after == before + ([a, b] + after);
    assert before + [b, a] + after == before + ([b, a] + after);
    SwapHeads(re, a, b, after, rq);
  }

  /** The request is taken earlier, or not by both routes, or both decide the same. */
  predicate SameOrApart(re: Regex, before: seq<Route>, a: Route, b: Route, rq: Request) {
    (forall r :: r in before ==> !Takes(re, r, rq)) && Takes(re, a, rq) && Takes(re, b, rq) ==> a.action == b.action
  }

  lemma {:induction false} PastUntaken(re: Regex, before: seq<Route>, rest: seq<Route>, rq: Request)
    requires AllModelled(before)
    ensures Outcomes(re, before + rest, rq) ==
      if forall r :: r in before ==> !Takes(re, r, rq) then Outcomes(re, rest, rq) else Outcomes(re, before, rq)
  {
    if before == [] {
      assert before + rest == rest;
    } else {
      assert before[0] in before;
      ModelledAnswers(re, before[0], rq);
      assert (before + rest)[1..] == before[1..] + rest;
      PastUntaken(re, before[1..], rest, rq);
    }
  }

  lemma SwapHeads(re: Regex, a: Route, b: Route, after: seq<Route>, rq: Request)
    requires Modelled(a.on) && Modelled(b.on)
    ensures Outcomes(re, [a, b] + after, rq) == Outcomes(re, [b, a] + after, rq) <==>
        (Takes(re, a, rq) && Takes(re, b, rq) ==> a.action == b.action)
  {
    ModelledAnswers(re, a, rq);
    ModelledAnswers(re, b, rq);
    assert ([a, b] + after)[1..] == [b] + after && ([b, a] + after)[1..] == [a] + after;
    assert ([b] + after)[1..] == after && ([a] + after)[1..] == after;
  }
}
