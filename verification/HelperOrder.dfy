/** scripts/check-helper-docs.py: a tree's comments and actions in the order of the text, and what of it stands at the top. */
module HelperOrder {
  import opened Prelude
  import opened TemplateText
  import opened TemplateComments
  import opened HelperDocs
  import opened HelperEvents
  import O = OrphanTemplates

  // -------------------------------------------------------- the text's own order

  /** A tree's comments and actions in the order of the text. */
  function NodeEvents(n: Node, base: nat): seq<Event>
    decreases n
  {
    match n
    case Text(_) => []
    case Leaf(raw) => [Action(HitAt(raw, base))]
    case Comment(raw) => [Remark(Span(base, base + |Braced(raw)|))]
    case Block(open, body, close) =>
      var inside := base + |Braced(open)|;
      [Action(HitAt(open, base))] + (TreeEvents(body, inside) + [Action(HitAt(close, inside + |Print(body)|))])
  }

  function TreeEvents(ns: seq<Node>, base: nat): seq<Event>
    decreases ns
  {
    if ns == [] then [] else NodeEvents(ns[0], base) + TreeEvents(ns[1..], base + |PrintNode(ns[0])|)
  }

  function RemarksOf(es: seq<Event>): seq<Span> {
    if es == [] then [] else (if es[0].Remark? then [es[0].span] else []) + RemarksOf(es[1..])
  }

  lemma RemarksStep(e: Event, rest: seq<Event>)
    ensures RemarksOf([e] + rest) == (if e.Remark? then [e.span] else []) + RemarksOf(rest)
  {
    assert ([e] + rest)[1..] == rest;
  }

  lemma {:induction false} RemarksInTurn(a: seq<Event>, b: seq<Event>)
    ensures RemarksOf(a + b) == RemarksOf(a) + RemarksOf(b)
  {
    hide RemarksOf;
    if a == [] {
      NoRemarks();
      assert a + b == b;
    } else {
      RemarksInTurn(a[1..], b);
      RemarksStep(a[0], a[1..] + b);
      RemarksStep(a[0], a[1..]);
      assert a == [a[0]] + a[1..] && a + b == [a[0]] + (a[1..] + b);
    }
  }

  lemma NoRemarks()
    ensures RemarksOf([]) == []
  {
  }

  lemma NoActions()
    ensures ActionsOf([]) == []
  {
  }

  lemma {:induction false} ActionsInTurn(a: seq<Event>, b: seq<Event>)
    ensures ActionsOf(a + b) == ActionsOf(a) + ActionsOf(b)
  {
    hide ActionsOf;
    if a == [] {
      NoActions();
      assert a + b == b;
    } else {
      ActionsInTurn(a[1..], b);
      ActionsBehind(a[0], a[1..] + b);
      ActionsBehind(a[0], a[1..]);
      assert a == [a[0]] + a[1..] && a + b == [a[0]] + (a[1..] + b);
    }
  }

  lemma OneEvent(e: Event)
    ensures ActionsOf([e]) == (if e.Action? then [e.hit] else []) && RemarksOf([e]) == (if e.Remark? then [e.span] else [])
  {
    assert [e][1..] == [];
  }

  lemma FlatActions(n: Node, base: nat)
    requires !n.Block?
    ensures ActionsOf(NodeEvents(n, base)) == NodeHits(SwapNode(n, Blanked), base)
    ensures |PrintNode(SwapNode(n, Blanked))| == |PrintNode(n)|
  {
    match n {
      case Text(_) =>
      case Leaf(raw) => OneEvent(Action(HitAt(raw, base)));
      case Comment(raw) => OneEvent(Remark(Span(base, base + |Braced(raw)|)));
    }
  }

  lemma BlockActions(first: Event, within: seq<Event>, last: Event)
    requires first.Action? && last.Action?
    ensures ActionsOf([first] + (within + [last])) == [first.hit] + (ActionsOf(within) + [last.hit])
  {
    OneEvent(last);
    ActionsInTurn(within, [last]);
    ActionsBehind(first, within + [last]);
  }

  /** The masked tree has the tree's actions, where the tree has them. */
  lemma {:induction false} NodeActions(n: Node, base: nat)
    ensures ActionsOf(NodeEvents(n, base)) == NodeHits(SwapNode(n, Blanked), base)
    ensures |PrintNode(SwapNode(n, Blanked))| == |PrintNode(n)|
    decreases n
  {
    hide ActionsOf, TreeEvents, Hits, Swap, Print, Braced;
    if n.Block? {
      var inside := base + |Braced(n.open)|;
      TreeActions(n.body, inside);
      BlockActions(Action(HitAt(n.open, base)), TreeEvents(n.body, inside),
                   Action(HitAt(n.close, inside + |Print(n.body)|)));
    } else {
      FlatActions(n, base);
    }
  }

  lemma {:induction false} TreeActions(ns: seq<Node>, base: nat)
    ensures ActionsOf(TreeEvents(ns, base)) == Hits(Swap(ns, Blanked), base)
    ensures |Print(Swap(ns, Blanked))| == |Print(ns)|
    decreases ns
  {
    if ns != [] {
      var next := base + |PrintNode(ns[0])|;
      NodeActions(ns[0], base);
      TreeActions(ns[1..], next);
      ActionsInTurn(NodeEvents(ns[0], base), TreeEvents(ns[1..], next));
      assert Swap(ns, Blanked)[1..] == Swap(ns[1..], Blanked);
    }
  }

  /** Between `i` and `j` the comments found are `found`, whatever comes after. */
  ghost predicate SpansIn(src: string, i: nat, j: nat, found: seq<Span>) {
    i <= j <= |src| && Spans(src, i) == found + Spans(src, j)
  }

  lemma SpansInTurn(src: string, i: nat, j: nat, k: nat, first: seq<Span>, second: seq<Span>)
    requires SpansIn(src, i, j, first) && SpansIn(src, j, k, second)
    ensures SpansIn(src, i, k, first + second)
  {
    assert first + (second + Spans(src, k)) == first + second + Spans(src, k);
  }

  lemma {:induction false} SilentSpans(src: string, i: nat, j: nat)
    requires i <= j <= |src| && Silent(Comments(src), i, j)
    ensures SpansIn(src, i, j, [])
    decreases j - i
  {
    hide CommentEnd;
    if i < j {
      SilentSpans(src, i + 1, j);
      assert Comments(src)(i) == None;
    }
    assert [] + Spans(src, j) == Spans(src, j);
  }

  lemma {:induction false} NodeSpans(src: string, i: nat, n: Node)
    requires NodeEnds(Comments(src), i, n) && i + |PrintNode(n)| <= |src|
    ensures SpansIn(src, i, i + |PrintNode(n)|, RemarksOf(NodeEvents(n, i)))
    decreases n
  {
    hide CommentEnd, Spans;
    match n {
      case Text(_) => SilentSpans(src, i, i + |PrintNode(n)|);
      case Leaf(raw) =>
        OneEvent(Action(HitAt(raw, i)));
        SilentSpans(src, i, i + |PrintNode(n)|);
      case Comment(raw) =>
        OneEvent(Remark(Span(i, i + |Braced(raw)|)));
        OneSpan(src, i, i + |Braced(raw)|);
      case Block(open, body, close) => BlockSpans(src, i, n);
    }
  }

  lemma OneSpan(src: string, i: nat, e: nat)
    requires i < |src| && Comments(src)(i) == Some(e) && e <= |src|
    ensures SpansIn(src, i, e, [Span(i, e)])
  {
    hide CommentEnd;
  }

  lemma BlockRemarks(first: Event, within: seq<Event>, last: Event)
    requires first.Action? && last.Action?
    ensures RemarksOf([first] + (within + [last])) == RemarksOf(within)
  {
    OneEvent(last);
    RemarksInTurn(within, [last]);
    RemarksStep(first, within + [last]);
  }

  lemma {:induction false} BlockSpans(src: string, i: nat, n: Node)
    requires n.Block? && NodeEnds(Comments(src), i, n) && i + |PrintNode(n)| <= |src|
    ensures SpansIn(src, i, i + |PrintNode(n)|, RemarksOf(NodeEvents(n, i)))
    decreases n, 0
  {
    hide CommentEnd, Spans, RemarksOf, TreeEvents, Print, Braced;
    var inside := i + |Braced(n.open)|;
    var last := inside + |Print(n.body)|;
    var end := last + |Braced(n.close)|;
    var within := TreeEvents(n.body, inside);
    SilentSpans(src, i, inside);
    TreeSpans(src, inside, n.body);
    SilentSpans(src, last, end);
    SpansInTurn(src, inside, last, end, RemarksOf(within), []);
    SpansInTurn(src, i, inside, end, [], RemarksOf(within) + []);
    BlockRemarks(Action(HitAt(n.open, i)), within, Action(HitAt(n.close, last)));
    assert [] + (RemarksOf(within) + []) == RemarksOf(within);
  }

  lemma {:induction false} TreeSpans(src: string, i: nat, ns: seq<Node>)
    requires Ends(Comments(src), i, ns) && i + |Print(ns)| <= |src|
    ensures SpansIn(src, i, i + |Print(ns)|, RemarksOf(TreeEvents(ns, i)))
    decreases ns
  {
    hide CommentEnd, Spans;
    if ns == [] {
      SilentSpans(src, i, i);
    } else {
      var j := i + |PrintNode(ns[0])|;
      assert |Print(ns)| == |PrintNode(ns[0])| + |Print(ns[1..])|;
      NodeSpans(src, i, ns[0]);
      TreeSpans(src, j, ns[1..]);
      SpansInTurn(src, i, j, j + |Print(ns[1..])|, RemarksOf(NodeEvents(ns[0], i)), RemarksOf(TreeEvents(ns[1..], j)));
      RemarksInTurn(NodeEvents(ns[0], i), TreeEvents(ns[1..], j));
    }
  }

  lemma SpansOfPrint(ns: seq<Node>)
    requires Commented(ns)
    ensures Spans(Print(ns), 0) == RemarksOf(TreeEvents(ns, 0))
  {
    hide CommentEnd;
    var src := Print(ns);
    assert src[0..0 + |src|] == src;
    TreeComments(src, 0, ns);
    TreeSpans(src, 0, ns);
    assert RemarksOf(TreeEvents(ns, 0)) + [] == RemarksOf(TreeEvents(ns, 0));
  }

  // --------------------------------------------------------------- sorted by lines

  /** Comments sorted into what is sorted already. */
  function SortInto(spans: seq<Span>, es: seq<Event>, line: nat -> nat): seq<Event> {
    if spans == [] then es else Insert(Remark(spans[0]), SortInto(spans[1..], es, line), line)
  }

  lemma {:induction false} SortsInto(spans: seq<Span>, hits: seq<Hit>, line: nat -> nat)
    requires SortedByLine(hits, line)
    ensures StableSort(Remarks(spans) + Acts(hits), line) == SortInto(spans, Acts(hits), line)
  {
    hide Insert;
    if spans == [] {
      assert Remarks(spans) + Acts(hits) == Acts(hits);
      ActsStay(hits, line);
    } else {
      var rest := Remarks(spans[1..]) + Acts(hits);
      assert Remarks(spans) + Acts(hits) == [Remark(spans[0])] + rest;
      assert ([Remark(spans[0])] + rest)[1..] == rest;
      SortsInto(spans[1..], hits, line);
    }
  }

  // ------------------------------------------------------------- one behind the other

  /** The events stand one behind the other within `from..to`. */
  ghost predicate InPlace(es: seq<Event>, from: nat, to: nat) {
    if es == [] then from <= to
    else from <= Start(es[0]) < End(es[0]) <= to && InPlace(es[1..], End(es[0]), to)
  }

  lemma {:induction false} InPlaceInTurn(a: seq<Event>, b: seq<Event>, from: nat, mid: nat, to: nat)
    requires InPlace(a, from, mid) && InPlace(b, mid, to)
    ensures InPlace(a + b, from, to)
  {
    if a == [] {
      assert a + b == b;
      InPlaceFromEarlier(b, mid, from, to);
    } else {
      assert (a + b)[1..] == a[1..] + b;
      InPlaceInTurn(a[1..], b, End(a[0]), mid, to);
      InPlaceReaches(b, mid, to);
    }
  }

  lemma {:induction false} InPlaceReaches(es: seq<Event>, from: nat, to: nat)
    requires InPlace(es, from, to)
    ensures from <= to
  {
    if es != [] {
      InPlaceReaches(es[1..], End(es[0]), to);
    }
  }

  lemma InPlaceFromEarlier(es: seq<Event>, from: nat, earlier: nat, to: nat)
    requires InPlace(es, from, to) && earlier <= from
    ensures InPlace(es, earlier, to)
  {
  }

  lemma {:induction false} NodeInPlace(n: Node, base: nat)
    ensures InPlace(NodeEvents(n, base), base, base + |PrintNode(n)|)
    decreases n
  {
    hide InPlace, TreeEvents, Print, Braced;
    match n {
      case Block(open, body, close) =>
        var inside := base + |Braced(open)|;
        var last := inside + |Print(body)|;
        var first, final := Action(HitAt(open, base)), Action(HitAt(close, last));
        BracesTakeRoom(open);
        BracesTakeRoom(close);
        TreeInPlace(body, inside);
        OneInPlace(first);
        OneInPlace(final);
        InPlaceInTurn(TreeEvents(body, inside), [final], inside, last, last + |Braced(close)|);
        InPlaceInTurn([first], TreeEvents(body, inside) + [final], base, inside, last + |Braced(close)|);
      case Leaf(raw) =>
        BracesTakeRoom(raw);
        OneInPlace(Action(HitAt(raw, base)));
      case Comment(raw) =>
        BracesTakeRoom(raw);
        OneInPlace(Remark(Span(base, base + |Braced(raw)|)));
      case Text(_) => NothingInPlace(base, base + |PrintNode(n)|);
    }
  }

  lemma BracesTakeRoom(raw: string)
    ensures |Braced(raw)| == |raw| + 4
  {
  }

  lemma NothingInPlace(from: nat, to: nat)
    requires from <= to
    ensures InPlace([], from, to)
  {
  }

  lemma OneInPlace(e: Event)
    requires Start(e) < End(e)
    ensures InPlace([e], Start(e), End(e))
  {
    assert [e][1..] == [];
  }

  lemma {:induction false} TreeInPlace(ns: seq<Node>, base: nat)
    ensures InPlace(TreeEvents(ns, base), base, base + |Print(ns)|)
    decreases ns
  {
    if ns != [] {
      var next := base + |PrintNode(ns[0])|;
      NodeInPlace(ns[0], base);
      TreeInPlace(ns[1..], next);
      InPlaceInTurn(NodeEvents(ns[0], base), TreeEvents(ns[1..], next), base, next, next + |Print(ns[1..])|);
    }
  }

  lemma {:induction false} LaterStart(es: seq<Event>, from: nat, to: nat, k: nat)
    requires InPlace(es, from, to) && k < |es|
    ensures from <= Start(es[k]) < End(es[k]) <= to
  {
    if k > 0 {
      LaterStart(es[1..], End(es[0]), to, k - 1);
    } else {
      InPlaceReaches(es[1..], End(es[0]), to);
    }
  }

  // -------------------------------------------------------- what stands at the top

  function TopEntry(n: Node, base: nat, name: string -> Option<string>, line: nat -> nat): seq<Entry> {
    match n
    case Comment(raw) => [Doc(line(base), Span(base, base + |Braced(raw)|))]
    case Block(open, _, _) => if name(open).Some? then [Defined(Item(name(open).value, line(base)))] else []
    case _ => []
  }

  /** The comments and defines that no block holds, in the order of the text. */
  function TopEntries(ns: seq<Node>, base: nat, name: string -> Option<string>, line: nat -> nat): seq<Entry> {
    if ns == [] then [] else
      TopEntry(ns[0], base, name, line) + TopEntries(ns[1..], base + |PrintNode(ns[0])|, name, line)
  }

  ghost predicate EntriesFrom(es: seq<Entry>, least: nat) {
    es == [] || (least <= LineOfEntry(es[0]) && EntriesFrom(es[1..], LineOfEntry(es[0])))
  }

  lemma {:induction false} TopEntriesRise(ns: seq<Node>, base: nat, name: string -> Option<string>, line: nat -> nat)
    requires Grows(line)
    ensures EntriesFrom(TopEntries(ns, base, name, line), line(base))
  {
    if ns != [] {
      var next := base + |PrintNode(ns[0])|;
      var rest := TopEntries(ns[1..], next, name, line);
      TopEntriesRise(ns[1..], next, name, line);
      assert line(base) <= line(next);
      if TopEntry(ns[0], base, name, line) == [] {
        assert [] + rest == rest;
      } else {
        assert TopEntries(ns, base, name, line)[1..] == rest;
      }
    }
  }

  lemma ActionsOfMasked(ns: seq<Node>)
    requires AllOk(ns) && Commented(ns) && Shaped(ns, ByKeyword())
    ensures Actions(Masked(Print(ns))) == ActionsOf(TreeEvents(ns, 0))
  {
    hide KeywordKind, NameIn;
    ReplaceOfPrint(ns, Blanked);
    MaskKeepsShape(ns, ByKeyword());
    ActionsOfPrint(Swap(ns, Blanked));
    TreeActions(ns, 0);
  }
}
