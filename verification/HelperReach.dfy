/** scripts/check-helper-docs.py: how far the parser's loop has come where it meets a comment. */
module HelperReach {
  import opened Prelude
  import opened TemplateText
  import opened TemplateComments
  import opened HelperDocs
  import opened HelperEvents
  import opened HelperOrder
  import opened EntryPlaces
  import O = OrphanTemplates

  // ------------------------------------------------------------- the run, by hits

  /** How the run reads: the reader, the line numbers, and the line whose defines are counted. */
  datatype Scan = Scan(reader: Reader, line: nat -> nat, on: nat)

  /** The depth, the define still open, and how many defines of the line are recorded. */
  datatype State = State(depth: int, pending: Option<Item>, seen: nat)

  function HeldOn(pending: Option<Item>, l: nat): nat {
    if pending.Some? && pending.value.line == l then 1 else 0
  }

  function Next(s: State, h: Hit, sc: Scan): State {
    var name := sc.reader.name(h.raw);
    if name.Some? && s.depth == 0 then State(1, Some(Item(name.value, sc.line(h.start))), s.seen)
    else
      match sc.reader.kind(h.raw)
      case Opens => State(s.depth + 1, s.pending, s.seen)
      case Plain => s
      case Closes =>
        if s.depth == 1 then State(0, None, s.seen + HeldOn(s.pending, sc.on)) else State(s.depth - 1, s.pending, s.seen)
  }

  /** The state in front of the first hit that stops the run. */
  function Reach(hits: seq<Hit>, stop: Hit -> bool, s: State, sc: Scan): State {
    if hits == [] || stop(hits[0]) then s else Reach(hits[1..], stop, Next(s, hits[0], sc), sc)
  }

  /** The comment stops the run in front of what it sorts in front of. */
  function StopsFor(c: Span, line: nat -> nat): Hit -> bool {
    (h: Hit) => KeyLe(Remark(c), Action(h), line)
  }

  function PlaceIn(c: Span, s: State, sc: Scan): seq<Place> {
    if sc.line(c.start) == sc.on && s.depth == 0 then [Place(Doc(sc.on, c), s.seen)] else []
  }

  /** Where a comment of the line is recorded, if it is. */
  function Placer(hits: seq<Hit>, s: State, sc: Scan): Span -> seq<Place> {
    (c: Span) => PlaceIn(c, Reach(hits, StopsFor(c, sc.line), s, sc), sc)
  }

  function Gather(spans: seq<Span>, f: Span -> seq<Place>): seq<Place> {
    if spans == [] then [] else f(spans[0]) + Gather(spans[1..], f)
  }

  lemma {:induction false} GatherAlike(spans: seq<Span>, f: Span -> seq<Place>, g: Span -> seq<Place>)
    requires forall c :: c in spans ==> f(c) == g(c)
    ensures Gather(spans, f) == Gather(spans, g)
  {
    if spans != [] {
      GatherAlike(spans[1..], f, g);
    }
  }

  lemma {:induction false} GatherInTurn(a: seq<Span>, b: seq<Span>, f: Span -> seq<Place>)
    ensures Gather(a + b, f) == Gather(a, f) + Gather(b, f)
  {
    if a == [] {
      assert a + b == b;
    } else {
      assert (a + b)[1..] == a[1..] + b;
      GatherInTurn(a[1..], b, f);
    }
  }

  function Recorded(es: seq<Event>, s: State, sc: Scan): seq<Place> {
    PlacesOn(RunAll(es, s.depth, s.pending, sc.reader, sc.line), sc.on, s.seen)
  }

  lemma HeldPlaces(pending: Option<Item>, rest: seq<Entry>, l: nat, seen: nat)
    ensures PlacesOn(HeldEntry(pending) + rest, l, seen) == PlacesOn(rest, l, seen + HeldOn(pending, l))
  {
    if pending.Some? {
      PlacesOnStep(Defined(pending.value), rest, l, seen);
    } else {
      assert [] + rest == rest;
    }
  }

  lemma ActionRecords(h: Hit, rest: seq<Event>, s: State, sc: Scan)
    ensures Recorded([Action(h)] + rest, s, sc) == Recorded(rest, Next(s, h, sc), sc)
  {
    hide PlacesOn;
    assert ([Action(h)] + rest)[1..] == rest;
    HeldPlaces(s.pending, RunAll(rest, 0, None, sc.reader, sc.line), sc.on, s.seen);
  }

  lemma RemarkRecords(c: Span, rest: seq<Event>, s: State, sc: Scan)
    ensures Recorded([Remark(c)] + rest, s, sc) == PlaceIn(c, s, sc) + Recorded(rest, s, sc)
  {
    hide PlacesOn;
    assert ([Remark(c)] + rest)[1..] == rest;
    var more := RunAll(rest, s.depth, s.pending, sc.reader, sc.line);
    PlacesOnStep(Doc(sc.line(c.start), c), more, sc.on, s.seen);
    assert [] + more == more && [] + PlacesOn(more, sc.on, s.seen) == PlacesOn(more, sc.on, s.seen);
  }

  lemma NothingRecords(s: State, sc: Scan)
    ensures Recorded([], s, sc) == []
  {
    HeldPlaces(s.pending, [], sc.on, s.seen);
    assert HeldEntry(s.pending) + [] == HeldEntry(s.pending);
  }

  /** The places that the run over the merged events records, comment by comment. */
  lemma {:induction false} MergeRecords(spans: seq<Span>, hits: seq<Hit>, s: State, sc: Scan)
    requires SpansRise(spans, sc.line)
    ensures Recorded(Merge(spans, hits, sc.line), s, sc) == Gather(spans, Placer(hits, s, sc))
    decreases |spans| + |hits|
  {
    hide Recorded, Merge, KeyLe, PlaceIn, Next;
    MergeHead(spans, hits, sc.line);
    if spans != [] && (hits == [] || KeyLe(Remark(spans[0]), Action(hits[0]), sc.line)) {
      RemarkRecords(spans[0], Merge(spans[1..], hits, sc.line), s, sc);
      assert SpansRise(spans[1..], sc.line);
      MergeRecords(spans[1..], hits, s, sc);
    } else if hits != [] {
      var after := Next(s, hits[0], sc);
      ActionRecords(hits[0], Merge(spans, hits[1..], sc.line), s, sc);
      MergeRecords(spans, hits[1..], after, sc);
      forall c | c in spans
        ensures Placer(hits, s, sc)(c) == Placer(hits[1..], after, sc)(c)
      {
        LaterDoesNotStop(spans, c, hits[0], sc.line);
      }
      GatherAlike(spans, Placer(hits, s, sc), Placer(hits[1..], after, sc));
    } else {
      NothingRecords(s, sc);
    }
  }

  lemma LaterDoesNotStop(spans: seq<Span>, c: Span, h: Hit, line: nat -> nat)
    requires SpansRise(spans, line) && c in spans && !KeyLe(Remark(spans[0]), Action(h), line)
    ensures !StopsFor(c, line)(h)
  {
    var k :| 0 <= k < |spans| && spans[k] == c;
    assert k > 0 ==> KeyLe(Remark(spans[0]), Remark(spans[k]), line);
  }

  // ------------------------------------------------------------- the run, by trees

  /** Once stopped, it stays stopped. */
  ghost predicate Rises(stop: nat -> bool) {
    forall a: nat, b: nat :: a <= b && stop(a) ==> stop(b)
  }

  function At(stop: nat -> bool): Hit -> bool {
    (h: Hit) => stop(h.start)
  }

  predicate Stopped(hits: seq<Hit>, stop: nat -> bool) {
    hits == [] || stop(hits[0].start)
  }

  lemma StoppedStays(hits: seq<Hit>, stop: nat -> bool, s: State, sc: Scan)
    requires Stopped(hits, stop)
    ensures Reach(hits, At(stop), s, sc) == s
  {
  }

  lemma ReachStep(hit: Hit, behind: seq<Hit>, stop: nat -> bool, s: State, sc: Scan)
    ensures Reach([hit] + behind, At(stop), s, sc) ==
              if stop(hit.start) then s else Reach(behind, At(stop), Next(s, hit, sc), sc)
  {
    O.Unread(hit, behind);
  }

  lemma {:induction false} HitsStopped(ns: seq<Node>, base: nat, behind: seq<Hit>, stop: nat -> bool)
    requires Rises(stop) && stop(base) && Stopped(behind, stop)
    ensures Stopped(Hits(ns, base) + behind, stop)
  {
    if ns == [] {
      assert [] + behind == behind;
    } else if ns[0].Text? {
      HitsStopped(ns[1..], base + |PrintNode(ns[0])|, behind, stop);
      assert [] + Hits(ns[1..], base + |PrintNode(ns[0])|) == Hits(ns[1..], base + |PrintNode(ns[0])|);
    } else {
      var first := NodeHits(ns[0], base);
      assert |first| > 0 && first[0].start == base;
      assert (Hits(ns, base) + behind)[0] == first[0];
    }
  }

  /** A nested piece is left as it was entered, or the run stops inside it, no shallower. */
  ghost predicate PassesOrStops(hits: seq<Hit>, behind: seq<Hit>, end: nat, stop: nat -> bool, s: State, sc: Scan) {
    var r := Reach(hits + behind, At(stop), s, sc);
    && (!stop(end) ==> r == Reach(behind, At(stop), s, sc))
    && (stop(end) && Stopped(behind, stop) ==> r.depth >= s.depth)
  }

  lemma FlatReach(n: Node, base: nat, behind: seq<Hit>, stop: nat -> bool, s: State, sc: Scan)
    requires Sound(sc.reader) && NodeShaped(n, sc.reader) && Rises(stop) && !n.Block?
    requires stop(base + |PrintNode(n)|) ==> Stopped(behind, stop)
    ensures Reach(NodeHits(n, base) + behind, At(stop), s, sc) == Reach(behind, At(stop), s, sc)
  {
    hide Reach;
    if n.Text? {
      assert [] + behind == behind;
    } else {
      assert sc.reader.kind(n.raw) == Plain && sc.reader.name(n.raw) == None;
      ReachStep(HitAt(n.raw, base), behind, stop, s, sc);
      if stop(base) {
        assert stop(base + |PrintNode(n)|);
        StoppedStays(behind, stop, s, sc);
      }
    }
  }

  lemma FlatPasses(n: Node, base: nat, behind: seq<Hit>, stop: nat -> bool, s: State, sc: Scan)
    requires Sound(sc.reader) && NodeShaped(n, sc.reader) && Rises(stop) && !n.Block?
    ensures PassesOrStops(NodeHits(n, base), behind, base + |PrintNode(n)|, stop, s, sc)
  {
    hide Reach;
    if stop(base + |PrintNode(n)|) ==> Stopped(behind, stop) {
      FlatReach(n, base, behind, stop, s, sc);
      if Stopped(behind, stop) {
        StoppedStays(behind, stop, s, sc);
      }
    }
  }

  lemma {:induction false} BlockPasses(n: Node, base: nat, behind: seq<Hit>, stop: nat -> bool, s: State, sc: Scan)
    requires Sound(sc.reader) && NodeShaped(n, sc.reader) && Rises(stop) && s.depth >= 1 && n.Block?
    ensures PassesOrStops(NodeHits(n, base), behind, base + |PrintNode(n)|, stop, s, sc)
    decreases n, 1
  {
    hide Reach, Print, Hits, Braced;
    var inside := base + |Braced(n.open)|;
    var last := inside + |Print(n.body)|;
    var start, end := HitAt(n.open, base), HitAt(n.close, last);
    var deeper := State(s.depth + 1, s.pending, s.seen);
    O.BlockInTurn(n, base, inside, behind);
    ReachStep(start, Hits(n.body, inside) + ([end] + behind), stop, s, sc);
    assert !stop(base) ==> Next(s, start, sc) == deeper;
    TreePasses(n.body, inside, [end] + behind, stop, deeper, sc);
    ReachStep(end, behind, stop, deeper, sc);
    assert Next(deeper, end, sc) == s;
    assert stop(last) ==> Stopped([end] + behind, stop);
    if Stopped(behind, stop) {
      StoppedStays(behind, stop, s, sc);
    }
  }

  lemma {:induction false} TreePasses(ns: seq<Node>, base: nat, behind: seq<Hit>, stop: nat -> bool, s: State, sc: Scan)
    requires Sound(sc.reader) && Shaped(ns, sc.reader) && Rises(stop) && s.depth >= 1
    ensures PassesOrStops(Hits(ns, base), behind, base + |Print(ns)|, stop, s, sc)
    decreases ns, 0
  {
    hide Reach, Sound, NodeShaped;
    if ns == [] {
      assert [] + behind == behind;
      if Stopped(behind, stop) {
        StoppedStays(behind, stop, s, sc);
      }
    } else {
      var next := base + |PrintNode(ns[0])|;
      var rest := Hits(ns[1..], next);
      assert Hits(ns, base) + behind == NodeHits(ns[0], base) + (rest + behind);
      assert base + |Print(ns)| == next + |Print(ns[1..])|;
      if ns[0].Block? {
        BlockPasses(ns[0], base, rest + behind, stop, s, sc);
      } else {
        FlatPasses(ns[0], base, rest + behind, stop, s, sc);
      }
      TreePasses(ns[1..], next, behind, stop, s, sc);
      if stop(next) && Stopped(behind, stop) {
        HitsStopped(ns[1..], next, behind, stop);
      }
    }
  }

  /** A block at the top opens before the run stops and ends behind. */
  predicate Across(n: Node, base: nat, stop: nat -> bool) {
    n.Block? && !stop(base) && stop(base + |Braced(n.open)| + |Print(n.body)|)
  }

  predicate Enclosed(ns: seq<Node>, base: nat, stop: nat -> bool) {
    ns != [] && (Across(ns[0], base, stop) || Enclosed(ns[1..], base + |PrintNode(ns[0])|, stop))
  }

  /** The defines at the top that start on the line and end before the run stops. */
  function Done(n: Node, base: nat, stop: nat -> bool, sc: Scan): nat {
    if n.Block? && sc.reader.name(n.open).Some? && sc.line(base) == sc.on
       && !stop(base + |Braced(n.open)| + |Print(n.body)|) then 1 else 0
  }

  function DoneIn(ns: seq<Node>, base: nat, stop: nat -> bool, sc: Scan): nat {
    if ns == [] then 0 else Done(ns[0], base, stop, sc) + DoneIn(ns[1..], base + |PrintNode(ns[0])|, stop, sc)
  }

  lemma {:induction false} NothingAfter(ns: seq<Node>, base: nat, stop: nat -> bool, sc: Scan)
    requires Rises(stop) && stop(base)
    ensures !Enclosed(ns, base, stop) && DoneIn(ns, base, stop, sc) == 0
  {
    if ns != [] {
      NothingAfter(ns[1..], base + |PrintNode(ns[0])|, stop, sc);
    }
  }

  /** What the run makes of one node at the top. */
  lemma TopBlockReach(n: Node, base: nat, behind: seq<Hit>, stop: nat -> bool, seen: nat, sc: Scan)
    requires Sound(sc.reader) && NodeShaped(n, sc.reader) && Rises(stop) && n.Block?
    requires stop(base + |PrintNode(n)|) ==> Stopped(behind, stop)
    ensures var r := Reach(NodeHits(n, base) + behind, At(stop), State(0, None, seen), sc);
            if Across(n, base, stop) then r.depth >= 1
            else r == Reach(behind, At(stop), State(0, None, seen + Done(n, base, stop, sc)), sc)
  {
    hide Reach, Print, Hits, Braced, Sound;
    var inside := base + |Braced(n.open)|;
    var last := inside + |Print(n.body)|;
    var start, end := HitAt(n.open, base), HitAt(n.close, last);
    var s := State(0, None, seen);
    O.BlockInTurn(n, base, inside, behind);
    ReachStep(start, Hits(n.body, inside) + ([end] + behind), stop, s, sc);
    if stop(base) {
      StoppedStays(behind, stop, s, sc);
    } else {
      var within := Next(s, start, sc);
      TreePasses(n.body, inside, [end] + behind, stop, within, sc);
      ReachStep(end, behind, stop, within, sc);
      assert stop(last) ==> Stopped([end] + behind, stop);
      CloserRecords(n, within, end, seen, base, stop, sc);
    }
  }

  lemma CloserRecords(n: Node, within: State, end: Hit, seen: nat, base: nat, stop: nat -> bool, sc: Scan)
    requires Sound(sc.reader) && NodeShaped(n, sc.reader) && n.Block? && end.raw == n.close
    requires within == Next(State(0, None, seen), HitAt(n.open, base), sc)
    ensures !stop(base + |Braced(n.open)| + |Print(n.body)|) ==>
              Next(within, end, sc) == State(0, None, seen + Done(n, base, stop, sc))
  {
  }

  lemma {:induction false} TopReach(ns: seq<Node>, base: nat, stop: nat -> bool, seen: nat, sc: Scan)
    requires Sound(sc.reader) && Shaped(ns, sc.reader) && Rises(stop)
    ensures var r := Reach(Hits(ns, base), At(stop), State(0, None, seen), sc);
            && (r.depth == 0 <==> !Enclosed(ns, base, stop))
            && (r.depth == 0 ==> r.seen == seen + DoneIn(ns, base, stop, sc))
  {
    hide Sound, NodeShaped, Done, Across;
    if ns == [] {
      StoppedStays([], stop, State(0, None, seen), sc);
    } else {
      hide Reach;
      var next := base + |PrintNode(ns[0])|;
      var rest := Hits(ns[1..], next);
      assert rest + [] == rest;
      if stop(next) {
        HitsStopped(ns[1..], next, [], stop);
      }
      if ns[0].Block? {
        TopBlockReach(ns[0], base, rest, stop, seen, sc);
        TopReach(ns[1..], next, stop, seen + Done(ns[0], base, stop, sc), sc);
        if Across(ns[0], base, stop) {
          assert Enclosed(ns, base, stop);
        }
      } else {
        FlatReach(ns[0], base, rest, stop, State(0, None, seen), sc);
        FlatIsNothing(ns[0], base, stop, sc);
        TopReach(ns[1..], next, stop, seen, sc);
      }
    }
  }

  lemma FlatIsNothing(n: Node, base: nat, stop: nat -> bool, sc: Scan)
    requires !n.Block?
    ensures !Across(n, base, stop) && Done(n, base, stop, sc) == 0
  {
  }

  lemma MaskKeepsBlock(n: Node, base: nat, stop: nat -> bool, sc: Scan)
    requires NodeOk(n) && NodeShaped(n, sc.reader)
    ensures Across(SwapNode(n, Blanked), base, stop) == Across(n, base, stop)
    ensures Done(SwapNode(n, Blanked), base, stop, sc) == Done(n, base, stop, sc)
  {
    hide Shaped, AllOk, RawOk, Braced, Print, Swap;
    if n.Block? {
      MaskKeepsShape(n.body, sc.reader);
    }
  }

  lemma {:induction false} MaskKeepsBlocks(ns: seq<Node>, base: nat, stop: nat -> bool, sc: Scan)
    requires AllOk(ns) && Shaped(ns, sc.reader)
    ensures Enclosed(Swap(ns, Blanked), base, stop) == Enclosed(ns, base, stop)
    ensures DoneIn(Swap(ns, Blanked), base, stop, sc) == DoneIn(ns, base, stop, sc)
    decreases ns
  {
    hide NodeOk, NodeShaped, Across, Done, SwapNode, PrintNode;
    if ns != [] {
      MaskKeepsNode(ns[0], sc.reader);
      MaskKeepsBlock(ns[0], base, stop, sc);
      MaskKeepsBlocks(ns[1..], base + |PrintNode(ns[0])|, stop, sc);
      assert Swap(ns, Blanked)[1..] == Swap(ns[1..], Blanked);
    }
  }

  // ---------------------------------------------------- what sorts before a comment

  lemma {:induction false} ReachAlike(hits: seq<Hit>, f: Hit -> bool, g: Hit -> bool, s: State, sc: Scan)
    requires forall h :: h in hits ==> f(h) == g(h)
    ensures Reach(hits, f, s, sc) == Reach(hits, g, s, sc)
  {
    hide Next;
    if hits != [] {
      ReachAlike(hits[1..], f, g, Next(s, hits[0], sc), sc);
    }
  }

  lemma ApartStops(hits: seq<Hit>, from: nat, to: nat, stop: nat -> bool)
    requires Apart(hits, from, to) && Rises(stop) && stop(from)
    ensures Stopped(hits, stop)
  {
  }

  /** Actions of white space alone change nothing. */
  lemma {:induction false} KeptReach(hits: seq<Hit>, keep: string -> bool, stop: nat -> bool, s: State, sc: Scan, from: nat, to: nat)
    requires Apart(hits, from, to) && Rises(stop) && KeepsAll(keep, sc.reader)
    ensures Reach(Events(hits, keep), At(stop), s, sc) == Reach(hits, At(stop), s, sc)
  {
    if hits != [] {
      hide Reach;
      var rest := Events(hits[1..], keep);
      assert hits == [hits[0]] + hits[1..];
      assert [] + rest == rest;
      ReachStep(hits[0], hits[1..], stop, s, sc);
      ReachStep(hits[0], rest, stop, s, sc);
      KeptReach(hits[1..], keep, stop, Next(s, hits[0], sc), sc, hits[0].end, to);
      if stop(hits[0].start) && !keep(hits[0].raw) {
        KeptStandApart(hits[1..], keep, hits[0].end, to);
        ApartStops(rest, hits[0].end, to, stop);
        StoppedStays(rest, stop, s, sc);
      }
    } else {
      StoppedStays([], stop, s, sc);
    }
  }

  predicate OnOneLine(c: Span, line: nat -> nat) {
    line(c.start) == line(Last(Remark(c)))
  }

  function Behind(c: Span): nat -> bool {
    (p: nat) => c.start <= p
  }

  function OnOrBelow(l: nat, line: nat -> nat): nat -> bool {
    (p: nat) => l <= line(p)
  }

  /** Where the run stops for a comment: a one-line comment goes in front of all that starts on its line, any other stays
      where it stands. */
  function CutFor(c: Span, line: nat -> nat): nat -> bool {
    if OnOneLine(c, line) then OnOrBelow(line(c.start), line) else Behind(c)
  }

  lemma CutRises(c: Span, line: nat -> nat)
    requires Grows(line)
    ensures Rises(CutFor(c, line)) && Rises(Behind(c))
  {
  }

  lemma StopIsCut(c: Span, h: Hit, line: nat -> nat)
    requires Grows(line) && c.start < c.end && h.start < h.end && (h.end <= c.start || c.end <= h.start)
    ensures StopsFor(c, line)(h) == CutFor(c, line)(h.start)
  {
    assert line(h.start) <= line(h.end - 1) && line(c.start) <= line(c.end - 1);
    if h.end <= c.start {
      assert line(h.end - 1) <= line(c.start);
    } else {
      assert line(c.end - 1) <= line(h.start);
    }
  }

  lemma {:induction false} RemarkAt(es: seq<Event>, c: Span) returns (i: nat)
    requires c in RemarksOf(es)
    ensures i < |es| && es[i] == Remark(c)
  {
    if es[0] == Remark(c) {
      i := 0;
    } else {
      var j := RemarkAt(es[1..], c);
      i := j + 1;
    }
  }

  lemma {:induction false} ActionAt(es: seq<Event>, h: Hit) returns (i: nat)
    requires h in ActionsOf(es)
    ensures i < |es| && es[i] == Action(h)
  {
    if es[0] == Action(h) {
      i := 0;
    } else {
      var j := ActionAt(es[1..], h);
      i := j + 1;
    }
  }

  lemma {:induction false} InPlacePair(es: seq<Event>, from: nat, to: nat, i: nat, j: nat)
    requires InPlace(es, from, to) && i < j < |es|
    ensures End(es[i]) <= Start(es[j])
  {
    if i == 0 {
      LaterStart(es[1..], End(es[0]), to, j - 1);
    } else {
      InPlacePair(es[1..], End(es[0]), to, i - 1, j - 1);
    }
  }

  lemma RemarkWithin(es: seq<Event>, from: nat, to: nat, c: Span)
    requires InPlace(es, from, to) && c in RemarksOf(es)
    ensures from <= c.start < c.end <= to
  {
    var i := RemarkAt(es, c);
    LaterStart(es, from, to, i);
  }

  /** A comment and an action do not overlap. */
  lemma StandClear(es: seq<Event>, from: nat, to: nat, c: Span, h: Hit)
    requires InPlace(es, from, to) && c in RemarksOf(es) && h in ActionsOf(es)
    ensures c.start < c.end && h.start < h.end && (h.end <= c.start || c.end <= h.start)
  {
    var i := RemarkAt(es, c);
    var j := ActionAt(es, h);
    LaterStart(es, from, to, i);
    LaterStart(es, from, to, j);
    if i < j {
      InPlacePair(es, from, to, i, j);
    } else {
      InPlacePair(es, from, to, j, i);
    }
  }

  lemma {:induction false} EventsAreSome(hits: seq<Hit>, keep: string -> bool, h: Hit)
    requires h in Events(hits, keep)
    ensures h in hits
  {
    if h in Events(hits[1..], keep) {
      EventsAreSome(hits[1..], keep, h);
    }
  }
}
