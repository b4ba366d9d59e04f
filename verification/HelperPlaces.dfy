/** scripts/check-helper-docs.py: exactly which comments the parser records, and when that is what the template has. */
module HelperPlaces {
  import opened Prelude
  import opened TemplateText
  import opened TemplateComments
  import opened HelperDocs
  import opened HelperEvents
  import opened HelperOrder
  import opened EntryPlaces
  import opened HelperReach
  import O = OrphanTemplates

  // ------------------------------------------------------ where comments should be

  /** Where a comment of the line stands among the comments and defines that no block holds. */
  function TopPlacer(ns: seq<Node>, base: nat, seen: nat, sc: Scan): Span -> seq<Place> {
    (c: Span) => TopPlace(ns, base, seen, sc, c)
  }

  function TopPlace(ns: seq<Node>, base: nat, seen: nat, sc: Scan, c: Span): seq<Place> {
    if sc.line(c.start) == sc.on && !Enclosed(ns, base, Behind(c))
    then [Place(Doc(sc.on, c), seen + DoneIn(ns, base, Behind(c), sc))] else []
  }

  /** How many defines of the line the node itself is. */
  function OwnCount(n: Node, base: nat, sc: Scan): nat {
    if n.Block? && sc.reader.name(n.open).Some? && sc.line(base) == sc.on then 1 else 0
  }

  lemma LaterPlace(ns: seq<Node>, base: nat, seen: nat, sc: Scan, c: Span)
    requires ns != [] && base + |PrintNode(ns[0])| <= c.start
    ensures TopPlace(ns, base, seen, sc, c)
              == TopPlace(ns[1..], base + |PrintNode(ns[0])|, seen + OwnCount(ns[0], base, sc), sc, c)
  {
    if ns[0].Block? {
      O.BlockInTurn(ns[0], base, base + |Braced(ns[0].open)|, []);
    }
  }

  lemma NestedPlace(ns: seq<Node>, base: nat, seen: nat, sc: Scan, c: Span)
    requires ns != [] && ns[0].Block?
    requires var inside := base + |Braced(ns[0].open)|; inside <= c.start < c.end <= inside + |Print(ns[0].body)|
    ensures TopPlace(ns, base, seen, sc, c) == []
  {
  }

  lemma {:induction false} GatherNothing(spans: seq<Span>, f: Span -> seq<Place>)
    requires forall c :: c in spans ==> f(c) == []
    ensures Gather(spans, f) == []
  {
    if spans != [] {
      GatherNothing(spans[1..], f);
    }
  }

  lemma BlockPlaces(ns: seq<Node>, base: nat, seen: nat, sc: Scan)
    requires ns != [] && ns[0].Block?
    ensures Gather(RemarksOf(NodeEvents(ns[0], base)), TopPlacer(ns, base, seen, sc)) == []
  {
    hide TopPlace, InPlace, RemarksOf, TreeEvents, Print, Braced;
    var n := ns[0];
    var inside := base + |Braced(n.open)|;
    var within := TreeEvents(n.body, inside);
    BlockRemarks(Action(HitAt(n.open, base)), within, Action(HitAt(n.close, inside + |Print(n.body)|)));
    TreeInPlace(n.body, inside);
    forall c | c in RemarksOf(within)
      ensures TopPlacer(ns, base, seen, sc)(c) == []
    {
      RemarkWithin(within, inside, inside + |Print(n.body)|, c);
      NestedPlace(ns, base, seen, sc, c);
    }
    GatherNothing(RemarksOf(within), TopPlacer(ns, base, seen, sc));
  }

  lemma CommentPlaces(ns: seq<Node>, base: nat, seen: nat, sc: Scan)
    requires ns != [] && ns[0].Comment?
    ensures var c := Span(base, base + |Braced(ns[0].raw)|);
            Gather(RemarksOf(NodeEvents(ns[0], base)), TopPlacer(ns, base, seen, sc)) ==
              if sc.line(base) == sc.on then [Place(Doc(sc.on, c), seen)] else []
  {
    var c := Span(base, base + |Braced(ns[0].raw)|);
    OneEvent(Remark(c));
    BracesTakeRoom(ns[0].raw);
    NothingAfter(ns[1..], base + |PrintNode(ns[0])|, Behind(c), sc);
    assert [c][1..] == [];
    assert TopPlace(ns, base, seen, sc, c) + [] == TopPlace(ns, base, seen, sc, c);
  }

  lemma FlatPlaces(ns: seq<Node>, base: nat, seen: nat, sc: Scan)
    requires ns != [] && (ns[0].Text? || ns[0].Leaf?)
    ensures Gather(RemarksOf(NodeEvents(ns[0], base)), TopPlacer(ns, base, seen, sc)) == []
  {
    if ns[0].Leaf? {
      OneEvent(Action(HitAt(ns[0].raw, base)));
    }
  }

  lemma OwnPlaces(ns: seq<Node>, base: nat, seen: nat, rest: seq<Entry>, sc: Scan)
    requires ns != []
    ensures PlacesOn(TopEntry(ns[0], base, sc.reader.name, sc.line) + rest, sc.on, seen) ==
              Gather(RemarksOf(NodeEvents(ns[0], base)), TopPlacer(ns, base, seen, sc))
              + PlacesOn(rest, sc.on, seen + OwnCount(ns[0], base, sc))
  {
    hide Gather, PlacesOn, RemarksOf, NodeEvents, TopPlacer;
    var more := PlacesOn(rest, sc.on, seen);
    assert [] + rest == rest && [] + more == more;
    match ns[0] {
      case Comment(raw) =>
        CommentPlaces(ns, base, seen, sc);
        PlacesOnStep(Doc(sc.line(base), Span(base, base + |Braced(raw)|)), rest, sc.on, seen);
      case Block(open, _, _) =>
        BlockPlaces(ns, base, seen, sc);
        var counted := PlacesOn(rest, sc.on, seen + OwnCount(ns[0], base, sc));
        assert [] + counted == counted;
        if sc.reader.name(open).Some? {
          PlacesOnStep(Defined(Item(sc.reader.name(open).value, sc.line(base))), rest, sc.on, seen);
        }
      case _ => FlatPlaces(ns, base, seen, sc);
    }
  }

  /** The comments and defines that no block holds, comment by comment. */
  lemma {:induction false} TopPlaces(ns: seq<Node>, base: nat, seen: nat, sc: Scan)
    ensures PlacesOn(TopEntries(ns, base, sc.reader.name, sc.line), sc.on, seen)
              == Gather(RemarksOf(TreeEvents(ns, base)), TopPlacer(ns, base, seen, sc))
    decreases ns
  {
    hide PlacesOn, OwnCount, NodeEvents, TopEntry, RemarksOf, InPlace, TopPlace;
    if ns == [] {
      NoPlaces(sc.on, seen);
      NoRemarks();
    } else {
      hide Gather;
      var next, counted := base + |PrintNode(ns[0])|, seen + OwnCount(ns[0], base, sc);
      var own, more := RemarksOf(NodeEvents(ns[0], base)), RemarksOf(TreeEvents(ns[1..], next));
      RemarksInTurn(NodeEvents(ns[0], base), TreeEvents(ns[1..], next));
      GatherInTurn(own, more, TopPlacer(ns, base, seen, sc));
      OwnPlaces(ns, base, seen, TopEntries(ns[1..], next, sc.reader.name, sc.line), sc);
      TopPlaces(ns[1..], next, counted, sc);
      TreeInPlace(ns[1..], next);
      forall c | c in more
        ensures TopPlacer(ns, base, seen, sc)(c) == TopPlacer(ns[1..], next, counted, sc)(c)
      {
        RemarkWithin(TreeEvents(ns[1..], next), next, next + |Print(ns[1..])|, c);
        LaterPlace(ns, base, seen, sc, c);
      }
      GatherAlike(more, TopPlacer(ns, base, seen, sc), TopPlacer(ns[1..], next, counted, sc));
    }
  }

  lemma NoPlaces(l: nat, seen: nat)
    ensures PlacesOn([], l, seen) == []
  {
  }

  // --------------------------------------------------------------------- exactly

  lemma {:induction false} SpansPair(spans: seq<Span>, from: nat, to: nat, i: nat, j: nat)
    requires SpansApart(spans, from, to) && i <= j < |spans|
    ensures from <= spans[i].start < spans[i].end && spans[j].start < spans[j].end <= to
    ensures i < j ==> spans[i].end <= spans[j].start
  {
    if i > 0 {
      SpansPair(spans[1..], spans[0].end, to, i - 1, j - 1);
    } else if j > 0 {
      SpansPair(spans[1..], spans[0].end, to, 0, j - 1);
    }
  }

  lemma ApartRises(spans: seq<Span>, from: nat, to: nat, line: nat -> nat)
    requires SpansApart(spans, from, to) && Grows(line)
    ensures SpansRise(spans, line)
  {
    forall i, j | 0 <= i < j < |spans|
      ensures KeyLe(Remark(spans[i]), Remark(spans[j]), line)
    {
      SpansPair(spans, from, to, i, j);
      SpansPair(spans, from, to, j, j);
      var c, d := spans[i], spans[j];
      assert line(c.start) <= line(d.start) && line(c.end - 1) <= line(d.start) <= line(d.end - 1);
    }
  }

  /** At most one place for each comment, and it is that comment's. */
  ghost predicate OwnPlace(f: Span -> seq<Place>) {
    forall c :: f(c) == [] || (|f(c)| == 1 && f(c)[0].doc.Doc? && f(c)[0].doc.span == c)
  }

  lemma {:induction false} GatheredFrom(spans: seq<Span>, f: Span -> seq<Place>, p: Place)
    requires OwnPlace(f)
    ensures p in Gather(spans, f) <==> p.doc.Doc? && p.doc.span in spans && f(p.doc.span) == [p]
  {
    if spans != [] {
      GatheredFrom(spans[1..], f, p);
      assert f(spans[0]) == [] || f(spans[0])[0].doc.span == spans[0];
    }
  }

  lemma GatherDetermines(spans: seq<Span>, f: Span -> seq<Place>, g: Span -> seq<Place>)
    requires OwnPlace(f) && OwnPlace(g)
    ensures Gather(spans, f) == Gather(spans, g) <==> forall c :: c in spans ==> f(c) == g(c)
  {
    if Gather(spans, f) == Gather(spans, g) {
      forall c | c in spans
        ensures f(c) == g(c)
      {
        if f(c) != [] {
          GatheredFrom(spans, f, f(c)[0]);
          GatheredFrom(spans, g, f(c)[0]);
        } else if g(c) != [] {
          GatheredFrom(spans, f, g(c)[0]);
          GatheredFrom(spans, g, g(c)[0]);
        }
      }
    } else {
      if forall c :: c in spans ==> f(c) == g(c) {
        GatherAlike(spans, f, g);
      }
    }
  }

  function ScanOf(line: nat -> nat, l: nat): Scan {
    Scan(ByKeyword(), line, l)
  }

  /** Where the parser records a comment, read off the tree. */
  function ActualPlace(ns: seq<Node>, c: Span, line: nat -> nat, l: nat): seq<Place> {
    if line(c.start) == l && !Enclosed(ns, 0, CutFor(c, line))
    then [Place(Doc(l, c), DoneIn(ns, 0, CutFor(c, line), ScanOf(line, l)))] else []
  }

  function ActualPlacer(ns: seq<Node>, line: nat -> nat, l: nat): Span -> seq<Place> {
    (c: Span) => ActualPlace(ns, c, line, l)
  }

  /** The actions the parser keeps. */
  function KeptHits(ns: seq<Node>): seq<Hit> {
    Events(Actions(Masked(Print(ns))), HoldsText)
  }

  lemma RunReaches(ns: seq<Node>, c: Span, line: nat -> nat, l: nat)
    requires AllOk(ns) && Commented(ns) && Shaped(ns, ByKeyword()) && Grows(line) && c in Spans(Print(ns), 0)
    ensures Placer(KeptHits(ns), State(0, None, 0), ScanOf(line, l))(c) == ActualPlace(ns, c, line, l)
  {
    hide KeywordKind, NameIn, HoldsText, CommentEnd, Actions, Hits, Print, Masked, Reach, Spans, Sound, Shaped, AllOk, Commented, CutFor, StopsFor;
    var sc, start, stop := ScanOf(line, l), State(0, None, 0), CutFor(c, line);
    var hits, masked := Actions(Masked(Print(ns))), Swap(ns, Blanked);
    forall h | h in KeptHits(ns)
      ensures StopsFor(c, line)(h) == At(stop)(h)
    {
      EventsAreSome(hits, HoldsText, h);
      KeptStopsAlike(ns, c, h, line);
    }
    ReachAlike(KeptHits(ns), StopsFor(c, line), At(stop), start, sc);
    ActionsApart(Masked(Print(ns)));
    CutRises(c, line);
    ByKeywordIgnoresBlanks();
    KeptReach(hits, HoldsText, stop, start, sc, 0, |Masked(Print(ns))|);
    MaskedHits(ns);
    ByKeywordIsSound();
    MaskKeepsShape(ns, ByKeyword());
    TopReach(masked, 0, stop, 0, sc);
    MaskKeepsBlocks(ns, 0, stop, sc);
  }

  lemma ActionsApart(text: string)
    ensures Apart(Actions(text), 0, |text|)
  {
    ActionsStandApart(text, 0);
  }

  lemma KeptStopsAlike(ns: seq<Node>, c: Span, h: Hit, line: nat -> nat)
    requires AllOk(ns) && Commented(ns) && Shaped(ns, ByKeyword()) && Grows(line)
    requires c in Spans(Print(ns), 0) && h in Actions(Masked(Print(ns)))
    ensures StopsFor(c, line)(h) == CutFor(c, line)(h.start)
  {
    hide KeywordKind, NameIn, CommentEnd, Actions, Print, Masked, Spans, Shaped, AllOk, Commented, CutFor, StopsFor, InPlace;
    SpansOfPrint(ns);
    ActionsOfMasked(ns);
    TreeInPlace(ns, 0);
    StandClear(TreeEvents(ns, 0), 0, |Print(ns)|, c, h);
    StopIsCut(c, h, line);
  }

  lemma MaskedHits(ns: seq<Node>)
    requires AllOk(ns) && Commented(ns) && Shaped(ns, ByKeyword())
    ensures Actions(Masked(Print(ns))) == Hits(Swap(ns, Blanked), 0)
  {
    hide KeywordKind, NameIn;
    ReplaceOfPrint(ns, Blanked);
    MaskKeepsShape(ns, ByKeyword());
    ActionsOfPrint(Swap(ns, Blanked));
  }

  /** What the loop records, comment by comment. */
  lemma RunPlaces(ns: seq<Node>, line: nat -> nat, l: nat)
    requires AllOk(ns) && Commented(ns) && Shaped(ns, ByKeyword()) && Grows(line)
    ensures PlacesOn(Unsorted(Print(ns), ByKeyword(), HoldsText, line), l, 0)
              == Gather(Spans(Print(ns), 0), ActualPlacer(ns, line, l))
  {
    hide KeywordKind, NameIn, HoldsText, RunAll, StableSort, Actions, Spans, Print, Masked, PlacesOn, Reach, Events, Merge, Shaped, AllOk, Commented, ActualPlace, PlaceIn, CommentEnd;
    var src, spans, kept := Print(ns), Spans(Print(ns), 0), KeptHits(ns);
    var sc, start := ScanOf(line, l), State(0, None, 0);
    KeptAreSorted(Masked(src), HoldsText, line);
    SortsInto(spans, kept, line);
    SpansStandApart(src, 0);
    ApartRises(spans, 0, |src|, line);
    SortIntoMerges(spans, kept, line);
    MergeRecords(spans, kept, start, sc);
    forall c | c in spans
      ensures Placer(kept, start, sc)(c) == ActualPlacer(ns, line, l)(c)
    {
      RunReaches(ns, c, line, l);
    }
    GatherAlike(spans, Placer(kept, start, sc), ActualPlacer(ns, line, l));
  }

  lemma {:induction false} NoneStartsAndEndsAbove(ns: seq<Node>, base: nat, line: nat -> nat, l: nat)
    requires Grows(line)
    ensures DoneIn(ns, base, OnOrBelow(l, line), ScanOf(line, l)) == 0
  {
    hide KeywordKind, NameIn;
    if ns != [] {
      NoneStartsAndEndsAbove(ns[1..], base + |PrintNode(ns[0])|, line, l);
    }
  }

  /** The defines at the top that start on the comment's line and end in front of it. */
  function DefinesAhead(ns: seq<Node>, c: Span, line: nat -> nat): nat {
    DoneIn(ns, 0, Behind(c), ScanOf(line, line(c.start)))
  }

  /**
   * A comment on one line is in some block exactly when some block at the top starts above its line and ends on it or
   * below; and when it is in none, no define at the top starts on its line and ends in front of it.
   */
  predicate KeepsItsPlace(ns: seq<Node>, c: Span, line: nat -> nat) {
    OnOneLine(c, line) ==>
      && (Enclosed(ns, 0, Behind(c)) <==> Enclosed(ns, 0, OnOrBelow(line(c.start), line)))
      && (!Enclosed(ns, 0, Behind(c)) ==> DefinesAhead(ns, c, line) == 0)
  }

  lemma PlaceIsKeptIff(ns: seq<Node>, c: Span, line: nat -> nat, l: nat)
    requires Grows(line)
    ensures (l == line(c.start) ==> KeepsItsPlace(ns, c, line)) <==>
              ActualPlacer(ns, line, l)(c) == TopPlacer(ns, 0, 0, ScanOf(line, l))(c)
  {
    hide DoneIn, Enclosed, KeywordKind, NameIn;
    NoneStartsAndEndsAbove(ns, 0, line, line(c.start));
  }

  lemma TopDefine(n: Node, base: nat, name: string -> Option<string>, line: nat -> nat)
    ensures DefinedOf(TopEntry(n, base, name, line)) == TopItem(n, base, name, line)
  {
    if TopEntry(n, base, name, line) != [] {
      assert TopEntry(n, base, name, line)[1..] == [];
    }
  }

  lemma {:induction false} TopDefines(ns: seq<Node>, base: nat, name: string -> Option<string>, line: nat -> nat)
    ensures DefinedOf(TopEntries(ns, base, name, line)) == TopItems(ns, base, name, line)
  {
    hide DefinedOf, TopEntry, TopItem, PrintNode;
    if ns == [] {
      NoDefined();
    } else {
      var next := base + |PrintNode(ns[0])|;
      TopDefine(ns[0], base, name, line);
      TopDefines(ns[1..], next, name, line);
      DefinedInTurn(TopEntry(ns[0], base, name, line), TopEntries(ns[1..], next, name, line));
    }
  }

  lemma PlacersAreOwn(ns: seq<Node>, line: nat -> nat, l: nat)
    ensures OwnPlace(ActualPlacer(ns, line, l)) && OwnPlace(TopPlacer(ns, 0, 0, ScanOf(line, l)))
  {
  }

  /**
   * On every balanced template the parser records exactly the comments and defines that no block holds, in the order of
   * the text, if and only if every comment on one line keeps its place.
   */
  lemma EntriesOfPrintIff(ns: seq<Node>, line: nat -> nat)
    requires AllOk(ns) && Commented(ns) && Shaped(ns, ByKeyword()) && Grows(line)
    ensures Parsed(Print(ns), ByKeyword(), HoldsText, line) == TopEntries(ns, 0, NameIn, line) <==>
              forall c :: c in Spans(Print(ns), 0) ==> KeepsItsPlace(ns, c, line)
  {
    hide KeywordKind, NameIn, HoldsText, Unsorted, SortEntries, PlacesOn, Gather, ActualPlacer, TopPlacer, TopEntries, KeepsItsPlace, OwnPlace, Spans, Shaped, AllOk, Commented, Print, TreeEvents;
    var es, wanted := Unsorted(Print(ns), ByKeyword(), HoldsText, line), TopEntries(ns, 0, NameIn, line);
    DefinesOfRun(ns, line);
    TopDefines(ns, 0, NameIn, line);
    TopEntriesRise(ns, 0, NameIn, line);
    SortedIsIff(es, wanted, line(0));
    forall l: nat
      ensures PlacesOn(es, l, 0) == PlacesOn(wanted, l, 0) <==>
                forall c :: c in Spans(Print(ns), 0) ==> (l == line(c.start) ==> KeepsItsPlace(ns, c, line))
    {
      LineAgreesIff(ns, line, l);
    }
    if forall l: nat :: PlacesOn(es, l, 0) == PlacesOn(wanted, l, 0) {
      forall c | c in Spans(Print(ns), 0)
        ensures KeepsItsPlace(ns, c, line)
      {
        assert PlacesOn(es, line(c.start), 0) == PlacesOn(wanted, line(c.start), 0);
      }
    }
  }

  lemma LineAgreesIff(ns: seq<Node>, line: nat -> nat, l: nat)
    requires AllOk(ns) && Commented(ns) && Shaped(ns, ByKeyword()) && Grows(line)
    ensures (forall c :: c in Spans(Print(ns), 0) ==> (l == line(c.start) ==> KeepsItsPlace(ns, c, line))) <==>
              PlacesOn(Unsorted(Print(ns), ByKeyword(), HoldsText, line), l, 0) == PlacesOn(TopEntries(ns, 0, NameIn, line), l, 0)
  {
    hide KeywordKind, NameIn, HoldsText, Unsorted, PlacesOn, Gather, ActualPlacer, TopPlacer, TopEntries, KeepsItsPlace, OwnPlace, Spans, Shaped, AllOk, Commented, Print, TreeEvents, CommentEnd;
    var spans, f, g := Spans(Print(ns), 0), ActualPlacer(ns, line, l), TopPlacer(ns, 0, 0, ScanOf(line, l));
    RunPlaces(ns, line, l);
    SpansOfPrint(ns);
    TopPlaces(ns, 0, 0, ScanOf(line, l));
    PlacersAreOwn(ns, line, l);
    GatherDetermines(spans, f, g);
    forall c
      ensures f(c) == g(c) <==> (l == line(c.start) ==> KeepsItsPlace(ns, c, line))
    {
      PlaceIsKeptIff(ns, c, line, l);
    }
  }

  /** So it is with the parser's own line numbers. */
  lemma ParseOfPrintIff(ns: seq<Node>)
    requires AllOk(ns) && Commented(ns) && Shaped(ns, ByKeyword())
    ensures var line := LinesOf(Print(ns));
            Parsed(Print(ns), ByKeyword(), HoldsText, line) == TopEntries(ns, 0, NameIn, line) <==>
              forall c :: c in Spans(Print(ns), 0) ==> KeepsItsPlace(ns, c, line)
  {
    hide KeywordKind, NameIn, HoldsText, Parsed, TopEntries, KeepsItsPlace, Spans, Shaped, AllOk, Commented, Print;
    LineOfGrows(Print(ns));
    EntriesOfPrintIff(ns, LinesOf(Print(ns)));
  }

  // ------------------------------------------------------- which are recorded

  lemma {:induction false} SortHolds(es: seq<Entry>, e: Entry)
    ensures e in SortEntries(es) <==> e in es
  {
    if es != [] {
      SortHolds(es[1..], e);
      InsertHolds(es[0], SortEntries(es[1..]), e);
      assert es == [es[0]] + es[1..];
    }
  }

  lemma {:induction false} InsertHolds(x: Entry, es: seq<Entry>, e: Entry)
    ensures e in InsertEntry(x, es) <==> e == x || e in es
  {
    if es != [] && LineOfEntry(x) > LineOfEntry(es[0]) {
      InsertHolds(x, es[1..], e);
      assert es == [es[0]] + es[1..];
    }
  }

  lemma {:induction false} PlacedIff(es: seq<Entry>, e: Entry, seen: nat)
    requires e.Doc?
    ensures e in es <==> exists p :: p in Places(es, seen) && p.doc == e
  {
    if es != [] {
      assert es == [es[0]] + es[1..];
      if es[0].Doc? {
        PlacedIff(es[1..], e, seen);
        assert Places(es, seen)[0].doc == es[0];
      } else {
        PlacedIff(es[1..], e, seen + 1);
      }
    }
  }

  lemma {:induction false} OnLineHolds(es: seq<Entry>, e: Entry)
    ensures e in OnLine(es, LineOfEntry(e)) <==> e in es
  {
    if es != [] {
      OnLineHolds(es[1..], e);
      assert es == [es[0]] + es[1..];
    }
  }

  /** The parser records a comment exactly when no block at the top is open: where the comment stands, or, when it stands on
      one line, across the start of that line. */
  lemma CommentRecordedIff(ns: seq<Node>, c: Span, line: nat -> nat)
    requires AllOk(ns) && Commented(ns) && Shaped(ns, ByKeyword()) && Grows(line) && c in Spans(Print(ns), 0)
    ensures Doc(line(c.start), c) in Parsed(Print(ns), ByKeyword(), HoldsText, line) <==>
              !Enclosed(ns, 0, if OnOneLine(c, line) then OnOrBelow(line(c.start), line) else Behind(c))
  {
    hide KeywordKind, NameIn, HoldsText, Unsorted, SortEntries, Gather, OnLine, Places, Spans, Shaped, AllOk, Commented, Print, Enclosed;
    var es, l := Unsorted(Print(ns), ByKeyword(), HoldsText, line), line(c.start);
    var e, f := Doc(l, c), ActualPlacer(ns, line, l);
    SortHolds(es, e);
    OnLineHolds(es, e);
    PlacedIff(OnLine(es, l), e, 0);
    RunPlaces(ns, line, l);
    PlacersAreOwn(ns, line, l);
    forall p
      ensures p in PlacesOn(es, l, 0) <==> p.doc.Doc? && p.doc.span in Spans(Print(ns), 0) && f(p.doc.span) == [p]
    {
      GatheredFrom(Spans(Print(ns), 0), f, p);
    }
    if f(c) != [] {
      assert f(c)[0] in PlacesOn(es, l, 0);
    }
  }
}
