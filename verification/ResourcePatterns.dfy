/** What a listed resource of a Kubernetes RBAC rule reaches, as a pattern: "*", a name, or one half of a subresource. */
module ResourcePatterns {
  import opened Prelude
  import opened Rbac

  /** The pattern leaves one half of a subresource open, or both. */
  predicate Half(listed: string) {
    '/' in listed && (SplitAt(listed, '/').0 == "*" || SplitAt(listed, '/').1 == "*")
  }

  /** A resource with a subresource is reached by "*", by its own name and by its two halves. */
  lemma ReachesSplit(listed: string, resource: string)
    ensures Reaches(listed, resource) <==>
        || listed == "*" || listed == resource
        || ('/' in resource
            && (listed == SplitAt(resource, '/').0 + "/*" || listed == "*/" + SplitAt(resource, '/').1))
  {
    forall k | 0 <= k < |resource| && resource[k] == '/' && '/' !in resource[..k]
      ensures k == IndexOf(resource, '/')
    {
      FirstSlash(resource, k);
    }
  }

  lemma FirstSlash(s: string, k: nat)
    requires k < |s| && s[k] == '/' && '/' !in s[..k]
    ensures k == IndexOf(s, '/')
  {
    var i := IndexOf(s, '/');
    assert forall j :: 0 <= j < k ==> s[..k][j] == s[j];
    assert forall j :: 0 <= j < i ==> s[..i][j] == s[j];
  }

  lemma SplitOf(a: string, b: string)
    requires '/' !in a
    ensures '/' in a + "/" + b && SplitAt(a + "/" + b, '/') == (a, b)
  {
    SplitAtJoined(a, '/', b);
    assert a + "/" + b == a + ['/'] + b;
  }

  /** One listed resource reaches all that another one does. */
  predicate Spans(listed: string, wanted: string) {
    listed == "*" || listed == wanted || (!Half(wanted) && Reaches(listed, wanted))
  }

  lemma HalvesAre(a: string, b: string)
    requires '/' !in a
    ensures Half(a + "/*") && Half("*/" + b)
  {
    SplitOf(a, "*");
    SplitOf("*", b);
    assert a + "/" + "*" == a + "/*" && "*" + "/" + b == "*/" + b;
  }

  lemma FirstHalf(s: string)
    ensures '/' !in SplitAt(s, '/').0
  {
    var i := IndexOf(s, '/');
    assert forall k :: 0 <= k < i ==> s[..i][k] == s[k];
  }

  lemma WholeReaches(wanted: string, resource: string)
    requires !Half(wanted)
    ensures Reaches(wanted, resource) <==> wanted == "*" || wanted == resource
  {
    hide *;
    ReachesSplit(wanted, resource);
    FirstHalf(resource);
    HalvesAre(SplitAt(resource, '/').0, SplitAt(resource, '/').1);
  }

  lemma SpansCarry(listed: string, wanted: string, resource: string)
    requires Spans(listed, wanted) && Reaches(wanted, resource)
    ensures Reaches(listed, resource)
  {
    if !Half(wanted) && listed != "*" && listed != wanted {
      WholeReaches(wanted, resource);
      ReachesSplit(listed, wanted);
    }
  }

  /** A resource the pattern reaches, its open half filled in. */
  function Instance(wanted: string, filling: string): string {
    if !Half(wanted) then wanted
    else if SplitAt(wanted, '/').0 == "*" then filling + "/" + SplitAt(wanted, '/').1
    else SplitAt(wanted, '/').0 + "/" + filling
  }

  /** A half pattern is its known half and a star. */
  lemma HalfWritten(wanted: string)
    requires Half(wanted)
    ensures var (a, b) := SplitAt(wanted, '/');
            '/' !in a && if a == "*" then wanted == "*/" + b else wanted == a + "/*"
  {
    FirstHalf(wanted);
    JoinedOfSplit(wanted, '/');
  }

  lemma Filled(a: string, b: string, filling: string)
    requires '/' !in filling && '/' !in a
    ensures Reaches("*/" + b, filling + "/" + b) && Reaches(a + "/*", a + "/" + filling)
  {
    hide *;
    SplitOf(filling, b);
    SplitOf(a, filling);
    ReachesSplit("*/" + b, filling + "/" + b);
    ReachesSplit(a + "/*", a + "/" + filling);
  }

  lemma InstanceReached(wanted: string, filling: string)
    requires '/' !in filling
    ensures Reaches(wanted, Instance(wanted, filling))
  {
    hide Reaches, Half, SplitAt;
    if Half(wanted) {
      var (a, b) := SplitAt(wanted, '/');
      HalfWritten(wanted);
      Filled(a, b, filling);
    } else {
      ReachesSplit(wanted, wanted);
    }
  }

  /** Longer than anything listed, so that no other pattern meets it. */
  predicate Unlisted(filling: string, listed: string) {
    '/' !in filling && |filling| > |listed| && |filling| > 1
  }

  lemma OnlySpansReach(listed: string, wanted: string, filling: string)
    requires Unlisted(filling, listed)
    ensures Reaches(listed, Instance(wanted, filling)) <==> Spans(listed, wanted)
    ensures listed == Instance(wanted, filling) ==> !Half(wanted)
  {
    var res := Instance(wanted, filling);
    ReachesSplit(listed, res);
    InstanceReached(wanted, filling);
    if Half(wanted) {
      var (a, b) := SplitAt(wanted, '/');
      JoinedOfSplit(wanted, '/');
      assert wanted == a + "/" + b;
      SplitOf(if a == "*" then filling else a, if a == "*" then b else filling);
      assert |res| > |filling|;
    }
  }

  function Longest(listed: seq<string>): (n: nat)
    ensures forall l :: l in listed ==> |l| <= n
  {
    if listed == [] then 0 else
      var rest := Longest(listed[1..]);
      assert forall l :: l in listed ==> l == listed[0] || l in listed[1..];
      if |listed[0]| > rest then |listed[0]| else rest
  }

  /** Longer than any resource the rules list. */
  function LongestOf(rules: seq<Rule>): (n: nat)
    ensures forall r, l :: r in rules && l in r.resources ==> |l| <= n
  {
    if rules == [] then 0 else
      var here, rest := Longest(rules[0].resources), LongestOf(rules[1..]);
      assert forall r :: r in rules ==> r == rules[0] || r in rules[1..];
      if here > rest then here else rest
  }

  /** A half that none of the rules lists. */
  function Filling(rules: seq<Rule>): (f: string)
    ensures forall r, l :: r in rules && l in r.resources ==> Unlisted(f, l)
    ensures '/' !in f && |f| > 1
  {
    seq(LongestOf(rules) + 2, i => 'x')
  }
}
