/** scripts/check-orphan-templates.py: a define body that renders nothing. */
module InertTemplates {
  import opened Prelude
  import opened TemplateText
  import opened TemplateComments

  function Nothing(comment: string): string {
    ""
  }

  /** Only comments and white space are left once every comment is taken out. */
  predicate IsInert(body: string) {
    Strip(Replaced(body, Nothing)) == ""
  }

  /** The tree holds nothing but comments and blank text. */
  predicate Idle(ns: seq<Node>) {
    forall k :: 0 <= k < |ns| ==> ns[k].Comment? || (ns[k].Text? && Blank(ns[k].text))
  }

  lemma BlankInTurn(a: string, b: string)
    ensures Blank(a + b) <==> Blank(a) && Blank(b)
  {
    var s := a + b;
    assert forall k :: 0 <= k < |a| ==> a[k] == s[k];
    assert forall k :: 0 <= k < |b| ==> b[k] == s[|a| + k];
  }

  lemma BracesShow(raw: string, rest: string)
    ensures !Blank(Braced(raw) + rest)
  {
    assert (Braced(raw) + rest)[0] == '{';
  }

  lemma BlankNode(n: Node)
    ensures Blank(PrintNode(SwapNode(n, Nothing))) <==> n.Comment? || (n.Text? && Blank(n.text))
  {
    match n {
      case Leaf(raw) =>
        BracesShow(raw, "");
        assert Braced(raw) + "" == Braced(raw);
      case Block(open, body, close) => BracesShow(open, Print(Swap(body, Nothing)) + Braced(close));
      case _ =>
    }
  }

  lemma {:induction false} BlankTree(ns: seq<Node>)
    ensures Blank(Print(Swap(ns, Nothing))) <==> Idle(ns)
  {
    if ns != [] {
      SwapInTurn(ns, Nothing);
      BlankInTurn(PrintNode(SwapNode(ns[0], Nothing)), Print(Swap(ns[1..], Nothing)));
      BlankNode(ns[0]);
      BlankTree(ns[1..]);
      assert ns == [ns[0]] + ns[1..];
    }
  }

  /** A body is inert exactly when its tree holds nothing but comments and blank text. */
  lemma InertIffIdle(ns: seq<Node>)
    requires Commented(ns)
    ensures IsInert(Print(ns)) <==> Idle(ns)
  {
    ReplaceOfPrint(ns, Nothing);
    StripEmptiesBlanks(Print(Swap(ns, Nothing)));
    BlankTree(ns);
  }
}
