/** scripts/check-edge-rate-limits.py, the third check: no quota at or above the fuse in front of it.

    Rates are exact reals; the original's floating point is not modelled. */
module RateLimits {
  import opened Prelude

  // -------------------------------------------------------------------- fuses

  /** A fill interval: a {seconds, nanos} message, or the number of a "<number>s" text (None for any other text). */
  datatype Interval = Message(seconds: int, nanos: int) | Text(number: Option<real>)

  function Seconds(i: Interval): real {
    match i
    case Message(s, n) => s as real + n as real / 1000000000.0
    case Text(number) => if number.Some? then number.value else 0.0
  }

  datatype Bucket = Bucket(tokensPerFill: Option<int>, maxTokens: Option<int>, fillInterval: Interval)

  /** tokens_per_fill where it is set, max_tokens otherwise. */
  function PerFill(b: Bucket): Option<int> {
    if b.tokensPerFill.Some? then b.tokensPerFill else b.maxTokens
  }

  /** The sustained rate of a bucket, 0 when it has no tokens or no interval. */
  function RatePerSecond(b: Bucket): real {
    if PerFill(b).Some? && PerFill(b).value != 0 && Seconds(b.fillInterval) != 0.0
    then PerFill(b).value as real / Seconds(b.fillInterval)
    else 0.0
  }

  // ------------------------------------------------------------------- quotas

  datatype Limit = Limit(requestsPerUnit: int, unit: string)

  /** One entry of the quota table; entries nest without bound. */
  datatype Descriptor = Descriptor(key: string, value: string, limit: Option<Limit>, inner: seq<Descriptor>)

  function UnitSeconds(unit: string): Option<int> {
    if unit == "second" then Some(1) else if unit == "minute" then Some(60)
    else if unit == "hour" then Some(3600) else if unit == "day" then Some(86400) else None
  }

  /** A leaf's quota per second, when it states one. */
  function LeafRate(d: Descriptor): Option<real> {
    if d.limit.Some? && d.limit.value.requestsPerUnit != 0 && UnitSeconds(Lower(d.limit.value.unit)).Some?
    then Some(d.limit.value.requestsPerUnit as real / UnitSeconds(Lower(d.limit.value.unit)).value as real)
    else None
  }

  /** `deepest`: the entries under `d`, itself included, that hold no further entries. */
  function Leaves(d: Descriptor): seq<Descriptor> {
    if d.inner == [] then [d] else LeavesOf(d.inner)
  }

  function LeavesOf(ds: seq<Descriptor>): seq<Descriptor> {
    if ds == [] then [] else Leaves(ds[0]) + LeavesOf(ds[1..])
  }

  /** `leaf` is an entry without entries, reached from `d` by stepping into inner entries. */
  ghost predicate IsLeafUnder(d: Descriptor, leaf: Descriptor) {
    (d.inner == [] && leaf == d) || exists i :: 0 <= i < |d.inner| && IsLeafUnder(d.inner[i], leaf)
  }

  lemma {:induction false} LeavesAreReached(d: Descriptor, leaf: Descriptor)
    ensures leaf in Leaves(d) <==> IsLeafUnder(d, leaf)
    decreases d, |d.inner| + 1
  {
    if d.inner != [] {
      LeavesOfAreReached(d, d.inner, leaf);
    }
  }

  lemma {:induction false} LeavesOfAreReached(d: Descriptor, ds: seq<Descriptor>, leaf: Descriptor)
    requires forall x :: x in ds ==> x in d.inner
    ensures leaf in LeavesOf(ds) <==> exists i :: 0 <= i < |ds| && IsLeafUnder(ds[i], leaf)
    decreases d, |ds|
  {
    if ds != [] {
      assert ds[0] in d.inner;
      LeavesAreReached(ds[0], leaf);
      LeavesOfAreReached(d, ds[1..], leaf);
      assert forall i :: 0 < i < |ds| ==> ds[i] == ds[1..][i - 1];
    }
  }

  /** The highest rate the leaves state, None when they state none. */
  ghost predicate IsHighest(leaves: seq<Descriptor>, highest: Option<real>) {
    match highest
    case None => forall d :: d in leaves ==> LeafRate(d).None?
    case Some(r) =>
      && (exists d :: d in leaves && LeafRate(d) == Some(r))
      && forall d :: d in leaves && LeafRate(d).Some? ==> LeafRate(d).value <= r
  }

  method HighestRate(top: Descriptor) returns (highest: Option<real>)
    ensures IsHighest(Leaves(top), highest)
  {
    var leaves := Leaves(top);
    highest := None;
    for i := 0 to |leaves|
      invariant IsHighest(leaves[..i], highest)
    {
      var d := leaves[i];
      assert leaves[..i + 1] == leaves[..i] + [d];
      var rate := LeafRate(d);
      if rate.Some? && (highest.None? || highest.value < rate.value) {
        highest := rate;
        assert d in leaves[..i + 1];
      }
    }
    assert leaves[..|leaves|] == leaves;
  }

  /** A top-level entry that gives this route value a quota. */
  predicate RatesRoute(top: Descriptor, value: string) {
    top.key == "route" && top.value == value && value != "" && exists d | d in Leaves(top) :: LeafRate(d).Some?
  }

  /** The entry that counts for a route value among the first `n`: the last one that rates it. */
  function EntryFor(quota: seq<Descriptor>, n: nat, value: string): Option<Descriptor>
    requires n <= |quota|
  {
    if n == 0 then None
    else if RatesRoute(quota[n - 1], value) then Some(quota[n - 1])
    else EntryFor(quota, n - 1, value)
  }

  lemma {:induction false} LastEntryCounts(quota: seq<Descriptor>, n: nat, k: nat, value: string)
    requires k <= n <= |quota| && forall j :: k <= j < n ==> !RatesRoute(quota[j], value)
    requires k > 0 ==> RatesRoute(quota[k - 1], value)
    ensures EntryFor(quota, n, value) == if k > 0 then Some(quota[k - 1]) else None
  {
    if k < n {
      LastEntryCounts(quota, n - 1, k, value);
    }
  }

  /** Each route value's quota: the highest rate any leaf of its entry states, and no quota for any other value. */
  ghost predicate IsQuota(quota: seq<Descriptor>, n: nat, rates: map<string, real>, value: string)
    requires n <= |quota|
  {
    var entry := EntryFor(quota, n, value);
    (value in rates <==> entry.Some?) && (value in rates ==> IsHighest(Leaves(entry.value), Some(rates[value])))
  }

  method QuotaRates(quota: seq<Descriptor>) returns (rates: map<string, real>)
    ensures forall value :: IsQuota(quota, |quota|, rates, value)
  {
    rates := map[];
    for i := 0 to |quota|
      invariant forall value :: IsQuota(quota, i, rates, value)
    {
      var top := quota[i];
      ghost var before := rates;
      if top.key == "route" && top.value != "" {
        var highest := HighestRate(top);
        if highest.Some? {
          rates := rates[top.value := highest.value];
        }
      }
      ghost var next := i + 1;
      forall value
        ensures IsQuota(quota, next, rates, value)
      {
        assert IsQuota(quota, i, before, value);
      }
    }
  }

  // -------------------------------------------------------------------- judge

  /** One action of a rate-limit group: its generic_key, as (descriptor key, descriptor value). */
  type Action = Option<(string, Option<string>)>

  /** A route that sends descriptors, and the bucket of the local limiter it overrides, if any. */
  datatype Route = Route(groups: seq<seq<Action>>, own: Option<Bucket>)

  function FirstRouteValue(actions: seq<Action>): Option<Option<string>> {
    if actions == [] then None
    else if actions[0].Some? && actions[0].value.0 == "route" then Some(actions[0].value.1)
    else FirstRouteValue(actions[1..])
  }

  /** The value of the first generic_key action whose key is "route". */
  function DescriptorValue(groups: seq<seq<Action>>): Option<string> {
    if groups == [] then None
    else if FirstRouteValue(groups[0]).Some? then FirstRouteValue(groups[0]).value
    else DescriptorValue(groups[1..])
  }

  /** The fuse in front of a route: its own bucket's rate, else the one its connection manager inherits. */
  function FuseOf(r: Route, inherited: Option<Bucket>): real {
    if r.own.Some? then RatePerSecond(r.own.value)
    else if inherited.Some? then RatePerSecond(inherited.value) else 0.0
  }

  /** The route is limited by a fuse, and some leaf of its quota entry states a rate at or above it. */
  ghost predicate QuotaNeverApplies(quota: seq<Descriptor>, r: Route, inherited: Option<Bucket>) {
    var value := DescriptorValue(r.groups);
    && FuseOf(r, inherited) != 0.0
    && value.Some?
    && var entry := EntryFor(quota, |quota|, value.value);
       entry.Some? && exists leaf :: IsLeafUnder(entry.value, leaf) && LeafRate(leaf).Some?
                                     && LeafRate(leaf).value >= FuseOf(r, inherited)
  }

  lemma HighestAgainstFuse(entry: Descriptor, highest: real, fuse: real)
    requires IsHighest(Leaves(entry), Some(highest))
    ensures highest >= fuse <==>
        exists leaf :: IsLeafUnder(entry, leaf) && LeafRate(leaf).Some? && LeafRate(leaf).value >= fuse
  {
    forall leaf {
      LeavesAreReached(entry, leaf);
    }
  }

  /** The routes of one connection manager whose quota is at or above the fuse in front of it. */
  method JudgeQuotas(quota: seq<Descriptor>, routes: seq<Route>, inherited: Option<Bucket>) returns (bad: set<nat>)
    ensures forall i :: i in bad <==> 0 <= i < |routes| && QuotaNeverApplies(quota, routes[i], inherited)
  {
    var rates := QuotaRates(quota);
    bad := {};
    for i := 0 to |routes|
      invariant forall k :: k in bad <==> 0 <= k < i && QuotaNeverApplies(quota, routes[k], inherited)
    {
      var value := DescriptorValue(routes[i].groups);
      if value.Some? && value.value in rates {
        var fuse := FuseOf(routes[i], inherited);
        assert IsQuota(quota, |quota|, rates, value.value);
        HighestAgainstFuse(EntryFor(quota, |quota|, value.value).value, rates[value.value], fuse);
        if fuse != 0.0 && rates[value.value] >= fuse {
          bad := bad + {i};
        }
      } else if value.Some? {
        assert IsQuota(quota, |quota|, rates, value.value);
      }
    }
  }

  /** The comparison as exact fractions: requests x interval against tokens x unit. */
  lemma AsFractions(leaf: Descriptor, b: Bucket)
    requires LeafRate(leaf).Some? && RatePerSecond(b) != 0.0 && Seconds(b.fillInterval) > 0.0
    ensures LeafRate(leaf).value >= RatePerSecond(b) <==>
        leaf.limit.value.requestsPerUnit as real * Seconds(b.fillInterval)
          >= PerFill(b).value as real * UnitSeconds(Lower(leaf.limit.value.unit)).value as real
  {
    CrossMultiply(leaf.limit.value.requestsPerUnit as real, UnitSeconds(Lower(leaf.limit.value.unit)).value as real,
                  PerFill(b).value as real, Seconds(b.fillInterval));
  }

  lemma CrossMultiply(a: real, b: real, c: real, d: real)
    requires b > 0.0 && d > 0.0
    ensures a / b >= c / d <==> a * d >= c * b
  {
    var p, q := a / b, c / d;
    assert a == p * b && c == q * d;
    assert a * d == p * (b * d) && c * b == q * (b * d);
    assert b * d > 0.0;
    if p >= q {
      assert p * (b * d) >= q * (b * d);
    } else {
      assert p * (b * d) < q * (b * d);
    }
  }

  // ------------------------------------------------------- what is written

  /** The tokens of a fill: those written for it, and the bucket's size only where none are. */
  predicate StatesTokens(b: Bucket, n: int) {
    b.tokensPerFill == Some(n) || (b.tokensPerFill == None && b.maxTokens == Some(n))
  }

  /** The bucket in front of a route: its own, and the inherited one only where it has none. */
  predicate IsFuse(r: Route, inherited: Option<Bucket>, b: Bucket) {
    r.own == Some(b) || (r.own == None && inherited == Some(b))
  }

  /** The fuse is the rate at which that bucket fills; a bucket that says nothing usable, or none, is no fuse. */
  lemma FuseIsRate(r: Route, inherited: Option<Bucket>)
    ensures forall b, n :: IsFuse(r, inherited, b) && StatesTokens(b, n) && Seconds(b.fillInterval) != 0.0 ==>
        FuseOf(r, inherited) * Seconds(b.fillInterval) == n as real
    ensures (forall b, n :: IsFuse(r, inherited, b) && StatesTokens(b, n) ==> Seconds(b.fillInterval) == 0.0) ==>
        FuseOf(r, inherited) == 0.0
  {
    if r.own.Some? {
      assert IsFuse(r, inherited, r.own.value);
      FillRate(r.own.value);
    } else if inherited.Some? {
      assert IsFuse(r, inherited, inherited.value);
      FillRate(inherited.value);
    }
  }

  lemma FillRate(b: Bucket)
    ensures forall n :: StatesTokens(b, n) && Seconds(b.fillInterval) != 0.0 ==> RatePerSecond(b) * Seconds(b.fillInterval) == n as real
    ensures (forall n :: StatesTokens(b, n) ==> Seconds(b.fillInterval) == 0.0) ==> RatePerSecond(b) == 0.0
  {
    if PerFill(b).Some? {
      assert StatesTokens(b, PerFill(b).value);
      if Seconds(b.fillInterval) != 0.0 && PerFill(b).value != 0 {
        Quotient(PerFill(b).value as real, Seconds(b.fillInterval));
      }
    }
  }

  lemma Quotient(a: real, b: real)
    requires b != 0.0
    ensures a / b * b == a
  {
  }

  /** A second, sixty of them, sixty of those, and twenty-four of those; nothing else is a unit. */
  lemma UnitsAreTimes(unit: string)
    ensures UnitSeconds("second") == Some(1)
    ensures UnitSeconds("minute") == Some(60 * UnitSeconds("second").value)
    ensures UnitSeconds("hour") == Some(60 * UnitSeconds("minute").value)
    ensures UnitSeconds("day") == Some(24 * UnitSeconds("hour").value)
    ensures UnitSeconds(unit).Some? <==> unit == "second" || unit == "minute" || unit == "hour" || unit == "day"
  {
  }

  /** A leaf states its requests over its unit, in any case of letters; without a usable unit, or with none, no rate. */
  lemma LeafRateIs(d: Descriptor)
    ensures LeafRate(d).Some? <==>
        d.limit.Some? && d.limit.value.requestsPerUnit != 0 && UnitSeconds(Lower(d.limit.value.unit)).Some?
    ensures LeafRate(d).Some? ==>
        LeafRate(d).value * UnitSeconds(Lower(d.limit.value.unit)).value as real == d.limit.value.requestsPerUnit as real
  {
    if LeafRate(d).Some? {
      Quotient(d.limit.value.requestsPerUnit as real, UnitSeconds(Lower(d.limit.value.unit)).value as real);
    }
  }

  predicate IsRouteKey(a: Action) {
    a.Some? && a.value.0 == "route"
  }

  /** The value sent is that of the first route key, through the groups and in each of them in order. */
  lemma {:induction false} FirstRouteKeyIsSent(groups: seq<seq<Action>>, g: nat, k: nat)
    requires g < |groups| && k < |groups[g]| && IsRouteKey(groups[g][k])
    requires forall j, i :: 0 <= j < g && 0 <= i < |groups[j]| ==> !IsRouteKey(groups[j][i])
    requires forall i :: 0 <= i < k ==> !IsRouteKey(groups[g][i])
    ensures DescriptorValue(groups) == groups[g][k].value.1
  {
    if g == 0 {
      FirstInGroup(groups[0], k);
    } else {
      NoneInGroup(groups[0]);
      var rest := groups[1..];
      assert forall j, i :: 0 <= j < g - 1 && 0 <= i < |rest[j]| ==> !IsRouteKey(rest[j][i]);
      FirstRouteKeyIsSent(groups[1..], g - 1, k);
    }
  }

  lemma {:induction false} FirstInGroup(actions: seq<Action>, k: nat)
    requires k < |actions| && IsRouteKey(actions[k]) && forall i :: 0 <= i < k ==> !IsRouteKey(actions[i])
    ensures FirstRouteValue(actions) == Some(actions[k].value.1)
  {
    if k > 0 {
      FirstInGroup(actions[1..], k - 1);
    }
  }

  lemma {:induction false} NoneInGroup(actions: seq<Action>)
    requires forall i :: 0 <= i < |actions| ==> !IsRouteKey(actions[i])
    ensures FirstRouteValue(actions) == None
  {
    if actions != [] {
      NoneInGroup(actions[1..]);
    }
  }

  /** Without one nothing is sent. */
  lemma {:induction false} NoRouteKeyIsSent(groups: seq<seq<Action>>)
    requires forall j, i :: 0 <= j < |groups| && 0 <= i < |groups[j]| ==> !IsRouteKey(groups[j][i])
    ensures DescriptorValue(groups) == None
  {
    if groups != [] {
      NoneInGroup(groups[0]);
      var rest := groups[1..];
      assert forall j, i :: 0 <= j < |rest| && 0 <= i < |rest[j]| ==> !IsRouteKey(rest[j][i]);
      NoRouteKeyIsSent(groups[1..]);
    }
  }

  // ----------------------------------------------------- loosest and tightest

  /** The lowest rate the leaves state. */
  ghost predicate IsLowest(leaves: seq<Descriptor>, lowest: real) {
    && (exists d :: d in leaves && LeafRate(d) == Some(lowest))
    && forall d :: d in leaves && LeafRate(d).Some? ==> lowest <= LeafRate(d).value
  }

  /** The rate kept for a route is its highest leaf's: it is the tightest one exactly when no two leaves differ. */
  lemma KeptIsTightestIff(leaves: seq<Descriptor>, kept: real)
    requires IsHighest(leaves, Some(kept))
    ensures IsLowest(leaves, kept) <==>
        forall c, d :: c in leaves && d in leaves && LeafRate(c).Some? && LeafRate(d).Some? ==> LeafRate(c) == LeafRate(d)
  {
    if IsLowest(leaves, kept) {
      assert forall d :: d in leaves && LeafRate(d).Some? ==> LeafRate(d).value == kept;
    }
  }

  /** Some leaf of the entry states a rate below the fuse, and so does apply. */
  ghost predicate SomeLeafApplies(entry: Descriptor, fuse: real) {
    exists leaf :: IsLeafUnder(entry, leaf) && LeafRate(leaf).Some? && LeafRate(leaf).value < fuse
  }

  lemma LowestAgainstFuse(entry: Descriptor, lowest: real, fuse: real)
    requires IsLowest(Leaves(entry), lowest)
    ensures lowest < fuse <==> SomeLeafApplies(entry, fuse)
  {
    forall leaf {
      LeavesAreReached(entry, leaf);
    }
  }

  /** A route is reported although a tighter leaf of its quota does apply exactly when the fuse lies between its
      lowest and its highest leaf. */
  lemma ReportedWhileApplyingIff(quota: seq<Descriptor>, r: Route, inherited: Option<Bucket>, entry: Descriptor,
                                 highest: real, lowest: real)
    requires DescriptorValue(r.groups).Some? && EntryFor(quota, |quota|, DescriptorValue(r.groups).value) == Some(entry)
    requires FuseOf(r, inherited) != 0.0
    requires IsHighest(Leaves(entry), Some(highest)) && IsLowest(Leaves(entry), lowest)
    ensures QuotaNeverApplies(quota, r, inherited) && SomeLeafApplies(entry, FuseOf(r, inherited)) <==>
              lowest < FuseOf(r, inherited) <= highest
  {
    HighestAgainstFuse(entry, highest, FuseOf(r, inherited));
    LowestAgainstFuse(entry, lowest, FuseOf(r, inherited));
  }

  /** That happens: one loose leaf beside a tight one. */
  lemma LoosestLeafCounts(fuse: Bucket)
    requires RatePerSecond(fuse) == 10.0
    ensures exists quota, r, leaf ::
        && QuotaNeverApplies(quota, r, Some(fuse)) && EntryFor(quota, |quota|, "x").Some?
        && IsLeafUnder(EntryFor(quota, |quota|, "x").value, leaf)
        && LeafRate(leaf).Some? && LeafRate(leaf).value < RatePerSecond(fuse)
  {
    var tight := Descriptor("masked_remote_address", "", Some(Limit(1, "second")), []);
    var loose := Descriptor("user", "", Some(Limit(20, "second")), []);
    var top := Descriptor("route", "x", None, [tight, loose]);
    var quota := [top];
    var r := Route([[Some(("route", Some("x")))]], None);
    assert Lower("second") == "second";
    assert IsLeafUnder(top.inner[0], tight) && IsLeafUnder(top.inner[1], loose);
    assert IsLeafUnder(top, tight) && IsLeafUnder(top, loose);
    LeavesAreReached(top, loose);
    assert RatesRoute(top, "x");
    assert EntryFor(quota, 1, "x") == Some(top);
    assert FirstRouteValue(r.groups[0]) == Some(Some("x"));
    assert QuotaNeverApplies(quota, r, Some(fuse));
  }
}
