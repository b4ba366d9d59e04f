/** scripts/check-helper-docs.py: comments masked in place, and the defines that the actions of the masked text record. */
module HelperDocs {
  import opened Prelude
  import opened TemplateText
  import opened TemplateComments
  import O = OrphanTemplates

  // ------------------------------------------------------------------ masking

  /** A comment with every character but its newlines turned into a space. */
  function Blanked(comment: string): string {
    seq(|comment|, k requires 0 <= k < |comment| => if comment[k] == '\n' then '\n' else ' ')
  }

  function Masked(src: string): string {
    Replaced(src, Blanked)
  }

  datatype Span = Span(start: nat, end: nat)

  function Spans(src: string, i: nat): seq<Span>
    requires i <= |src|
    decreases |src| - i
  {
    if i == |src| then [] else
      match CommentEnd(src, i)
      case Some(e) => [Span(i, e)] + Spans(src, e)
      case None => Spans(src, i + 1)
  }

  method FindComments(src: string) returns (spans: seq<Span>)
    ensures spans == Spans(src, 0)
  {
    spans := [];
    var i := 0;
    while i < |src|
      invariant i <= |src| && Spans(src, 0) == spans + Spans(src, i)
    {
      var e := CommentEnd(src, i);
      if e.Some? {
        spans := spans + [Span(i, e.value)];
        i := e.value;
      } else {
        i := i + 1;
      }
    }
  }

  /** The comments stand one behind the other within `from..to`. */
  ghost predicate SpansApart(spans: seq<Span>, from: nat, to: nat) {
    spans == [] || (from <= spans[0].start < spans[0].end <= to && SpansApart(spans[1..], spans[0].end, to))
  }

  /** The comments found are exactly what matches where no earlier match reaches, front to back and apart. */
  lemma {:induction false} SpansStandApart(src: string, i: nat)
    requires i <= |src|
    ensures SpansApart(Spans(src, i), i, |src|)
    ensures forall s :: s in Spans(src, i) ==> s.start < |src| && CommentEnd(src, s.start) == Some(s.end)
    ensures forall k :: i <= k < |src| && CommentEnd(src, k).Some? ==>
              exists s :: s in Spans(src, i) && s.start <= k < s.end
    decreases |src| - i
  {
    hide CommentEnd;
    if i < |src| {
      match CommentEnd(src, i) {
        case Some(e) =>
          var rest := Spans(src, e);
          SpansStandApart(src, e);
          assert ([Span(i, e)] + rest)[1..] == rest;
          assert Span(i, e) in Spans(src, i);
        case None =>
          SpansStandApart(src, i + 1);
      }
    }
  }

  function MaskFrom(src: string, i: nat): string
    requires i <= |src|
  {
    ReplaceFrom(src, i, Comments(src), Blanked)
  }

  /** Up to the next comment the mask is the text itself. */
  lemma {:induction false} NextSpan(src: string, i: nat)
    requires i <= |src|
    ensures Spans(src, i) == [] ==> MaskFrom(src, i) == src[i..]
    ensures Spans(src, i) != [] ==>
              var s := Spans(src, i)[0];
              && i <= s.start < s.end <= |src| && Spans(src, s.end) == Spans(src, i)[1..]
              && MaskFrom(src, i) == src[i..s.start] + (Blanked(src[s.start..s.end]) + MaskFrom(src, s.end))
    decreases |src| - i
  {
    if i < |src| {
      if CommentEnd(src, i) == None {
        NextSpan(src, i + 1);
        if Spans(src, i + 1) == [] {
          assert src[i..] == [src[i]] + src[i + 1..];
        } else {
          var s := Spans(src, i + 1)[0];
          CharThen(src, i, s.start, Blanked(src[s.start..s.end]) + MaskFrom(src, s.end));
        }
      } else {
        var e := CommentEnd(src, i).value;
        NothingThen(src, i, Blanked(src[i..e]) + MaskFrom(src, e));
      }
    }
  }

  lemma CharThen(src: string, i: nat, j: nat, rest: string)
    requires i < j <= |src|
    ensures [src[i]] + (src[i + 1..j] + rest) == src[i..j] + rest
  {
    assert src[i..j] == [src[i]] + src[i + 1..j];
  }

  lemma NothingThen(src: string, i: nat, rest: string)
    requires i <= |src|
    ensures src[i..i] + rest == rest
  {
    assert src[i..i] == "";
  }

  lemma SpanMasked(was: string, now: string, span: Span)
    requires span.start <= span.end <= |was| == |now|
    requires forall k :: 0 <= k < |was| ==>
               now[k] == if span.start <= k < span.end && was[k] != '\n' then ' ' else was[k]
    ensures now == was[..span.start] + Blanked(was[span.start..span.end]) + was[span.end..]
  {
    var want := was[..span.start] + Blanked(was[span.start..span.end]) + was[span.end..];
    forall k | 0 <= k < |was|
      ensures now[k] == want[k]
    {
      if span.start <= k < span.end {
        assert want[k] == Blanked(was[span.start..span.end])[k - span.start];
      }
    }
  }

  method MaskSpan(masked: array<char>, span: Span)
    requires span.start <= span.end <= masked.Length
    modifies masked
    ensures masked[..] == old(masked[..span.start]) + Blanked(old(masked[span.start..span.end])) + old(masked[span.end..])
  {
    ghost var was := masked[..];
    for i := span.start to span.end
      invariant forall k :: 0 <= k < masked.Length ==>
                  masked[k] == if span.start <= k < i && was[k] != '\n' then ' ' else was[k]
    {
      if masked[i] != '\n' {
        masked[i] := ' ';
      }
    }
    SpanMasked(was, masked[..], span);
  }

  lemma MaskStarts(src: string)
    ensures Masked(src) == src[..0] + MaskFrom(src, 0)
  {
  }

  lemma BlankedLength(comment: string)
    ensures |Blanked(comment)| == |comment|
  {
  }

  method MaskComments(masked: array<char>, spans: seq<Span>)
    requires spans == Spans(masked[..], 0)
    modifies masked
    ensures masked[..] == Masked(old(masked[..]))
  {
    hide Spans, Masked, MaskFrom, Blanked;
    ghost var src := masked[..];
    ghost var p: nat := 0;
    MaskStarts(src);
    assert spans[0..] == spans;
    for n := 0 to |spans|
      invariant p <= masked.Length && Spans(src, p) == spans[n..] && masked[p..] == src[p..]
      invariant Masked(src) == masked[..p] + MaskFrom(src, p)
    {
      ghost var before := masked[..];
      NextSpan(src, p);
      assert spans[n..][0] == spans[n] && spans[n..][1..] == spans[n + 1..];
      var s, e := spans[n].start, spans[n].end;
      BlankedLength(src[s..e]);
      MaskedStep(src, before, p, s, e, Blanked(src[s..e]), MaskFrom(src, e));
      MaskSpan(masked, spans[n]);
      p := e;
    }
    NextSpan(src, p);
    assert masked[..] == masked[..p] + masked[p..];
  }

  lemma MaskedStep(src: string, before: string, p: nat, s: nat, e: nat, cover: string, rest: string)
    requires |before| == |src| && p <= s < e <= |src| && before[p..] == src[p..] && |cover| == e - s
    ensures before[s..e] == src[s..e]
    ensures var after := before[..s] + cover + before[e..];
            after[e..] == src[e..] && before[..p] + (src[p..s] + (cover + rest)) == after[..e] + rest
  {
    assert forall k :: p <= k < |src| ==> before[k] == before[p..][k - p] == src[k];
    assert before[..s] == before[..p] + src[p..s];
    var after := before[..s] + cover + before[e..];
    assert after[..e] == before[..s] + cover;
  }

  // --------------------------------------------------------------- the parser

  /** `s` begins with `word`, and the word ends there. */
  predicate StartsWord(s: string, word: string) {
    word <= s && (|s| == |word| || !IsWord(s[|word|]))
  }

  /** A keyword at a word boundary opens; "end" and nothing else closes. */
  function KeywordKind(raw: string): Kind {
    var inner := Inner(raw);
    if exists word :: word in OPENS && StartsWord(LStrip(inner), word) then Opens
    else if Strip(inner) == "end" then Closes
    else Plain
  }

  function ByKeyword(): Reader {
    Reader(KeywordKind, NameIn)
  }

  datatype Item = Item(name: string, line: nat)

  function Held(pending: Option<Item>): seq<Item> {
    match pending
    case Some(item) => [item]
    case None => []
  }

  /** The defines that the actions record from a depth and a define still open. */
  function Run(hits: seq<Hit>, depth: int, pending: Option<Item>, reader: Reader, line: nat -> nat): seq<Item> {
    if hits == [] then Held(pending) else
      var h := hits[0];
      if reader.name(h.raw).Some? && depth == 0 then
        Run(hits[1..], 1, Some(Item(reader.name(h.raw).value, line(h.start))), reader, line)
      else
        match reader.kind(h.raw)
        case Opens => Run(hits[1..], depth + 1, pending, reader, line)
        case Plain => Run(hits[1..], depth, pending, reader, line)
        case Closes =>
          if depth == 1 then Held(pending) + Run(hits[1..], 0, None, reader, line)
          else Run(hits[1..], depth - 1, pending, reader, line)
  }

  /** How many lines end before `i`. */
  function LineOf(src: string, i: nat): nat {
    if i == 0 then 0 else
      LineOf(src, i - 1) + (if i <= |src| && src[i - 1] == '\n' then 1 else 0)
  }

  function LinesOf(src: string): nat -> nat {
    (i: nat) => LineOf(src, i)
  }

  /** An action holds more than white space. */
  predicate HoldsText(raw: string) {
    Strip(Inner(raw)) != ""
  }

  function Events(hits: seq<Hit>, keep: string -> bool): seq<Hit> {
    if hits == [] then [] else (if keep(hits[0].raw) then [hits[0]] else []) + Events(hits[1..], keep)
  }

  lemma EventsFrom(hits: seq<Hit>, n: nat, keep: string -> bool)
    requires n < |hits|
    ensures Events(hits[n..], keep) == (if keep(hits[n].raw) then [hits[n]] else []) + Events(hits[n + 1..], keep)
  {
    assert hits[n..][0] == hits[n] && hits[n..][1..] == hits[n + 1..];
  }

  lemma EventsStep(hits: seq<Hit>, n: nat, keep: string -> bool, done: seq<Hit>)
    requires n < |hits|
    ensures done + Events(hits[n..], keep) == (if keep(hits[n].raw) then done + [hits[n]] else done) + Events(hits[n + 1..], keep)
  {
    EventsFrom(hits, n, keep);
    hide Events;
    var rest := Events(hits[n + 1..], keep);
    assert done + ([hits[n]] + rest) == done + [hits[n]] + rest && [] + rest == rest;
  }

  lemma NoEvents(keep: string -> bool)
    ensures Events([], keep) == []
  {
  }

  method KeepEvents(hits: seq<Hit>, keep: string -> bool) returns (events: seq<Hit>)
    ensures events == Events(hits, keep)
  {
    hide Events;
    events := [];
    assert hits[0..] == hits;
    for n := 0 to |hits|
      invariant Events(hits, keep) == events + Events(hits[n..], keep)
    {
      EventsStep(hits, n, keep, events);
      if keep(hits[n].raw) {
        events := events + [hits[n]];
      }
    }
    NoEvents(keep);
    assert hits[|hits|..] == [];
  }

  /** An action that is not kept opens, closes and names nothing. */
  ghost predicate KeepsAll(keep: string -> bool, reader: Reader) {
    forall raw :: !keep(raw) ==> reader.kind(raw) == Plain && reader.name(raw) == None
  }

  lemma {:induction false} ByKeywordIgnoresBlanks()
    ensures KeepsAll(HoldsText, ByKeyword())
  {
    forall raw | !HoldsText(raw)
      ensures KeywordKind(raw) == Plain && NameIn(raw) == None
    {
      StripEmptiesBlanks(Inner(raw));
      LStripEmptiesBlanks(Inner(raw));
    }
  }

  ghost predicate RunAlike(a: seq<Hit>, b: seq<Hit>, reader: Reader, line: nat -> nat) {
    forall depth: int, pending :: Run(a, depth, pending, reader, line) == Run(b, depth, pending, reader, line)
  }

  lemma AlikeBehind(hit: Hit, a: seq<Hit>, b: seq<Hit>, reader: Reader, line: nat -> nat)
    requires RunAlike(a, b, reader, line)
    ensures RunAlike([hit] + a, [hit] + b, reader, line)
  {
    O.Unread(hit, a);
    O.Unread(hit, b);
  }

  lemma PlainIsSkipped(hit: Hit, behind: seq<Hit>, reader: Reader, line: nat -> nat)
    requires reader.kind(hit.raw) == Plain && reader.name(hit.raw) == None
    ensures RunAlike(behind, [hit] + behind, reader, line)
  {
    O.Unread(hit, behind);
  }

  /** Leaving out actions that hold only white space changes nothing. */
  lemma {:induction false} EventsDecide(hits: seq<Hit>, reader: Reader, keep: string -> bool, line: nat -> nat)
    requires KeepsAll(keep, reader)
    ensures RunAlike(Events(hits, keep), hits, reader, line)
  {
    if hits != [] {
      EventsDecide(hits[1..], reader, keep, line);
      assert hits == [hits[0]] + hits[1..];
      if keep(hits[0].raw) {
        AlikeBehind(hits[0], Events(hits[1..], keep), hits[1..], reader, line);
      } else {
        assert [] + Events(hits[1..], keep) == Events(hits[1..], keep);
        PlainIsSkipped(hits[0], hits[1..], reader, line);
      }
    }
  }

  // ------------------------------------------------------------ balanced text

  lemma RunStep(hit: Hit, behind: seq<Hit>, depth: nat, pending: Option<Item>, reader: Reader, line: nat -> nat)
    requires depth >= 1
    ensures Run([hit] + behind, depth, pending, reader, line) ==
            match reader.kind(hit.raw)
              case Opens => Run(behind, depth + 1, pending, reader, line)
              case Plain => Run(behind, depth, pending, reader, line)
              case Closes =>
                if depth == 1 then Held(pending) + Run(behind, 0, None, reader, line)
                else Run(behind, depth - 1, pending, reader, line)
  {
    O.Unread(hit, behind);
  }

  /** What is nested neither ends nor starts a recorded define. */
  lemma {:induction false} RunPassesNode(n: Node, base: nat, behind: seq<Hit>, depth: nat, pending: Option<Item>,
                                         reader: Reader, line: nat -> nat)
    requires Sound(reader) && NodeShaped(n, reader) && depth >= 1
    ensures Run(NodeHits(n, base) + behind, depth, pending, reader, line) == Run(behind, depth, pending, reader, line)
    decreases n, 2
  {
    if n.Block? {
      RunPassesBlock(n, base, behind, depth, pending, reader, line);
    } else if n.Text? {
      assert [] + behind == behind;
    } else {
      RunStep(HitAt(n.raw, base), behind, depth, pending, reader, line);
    }
  }

  lemma {:induction false} RunPassesBlock(n: Node, base: nat, behind: seq<Hit>, depth: nat, pending: Option<Item>,
                                          reader: Reader, line: nat -> nat)
    requires Sound(reader) && NodeShaped(n, reader) && depth >= 1 && n.Block?
    ensures Run(NodeHits(n, base) + behind, depth, pending, reader, line) == Run(behind, depth, pending, reader, line)
    decreases n, 1
  {
    hide Run, Print, Hits, Braced;
    var inside := base + |Braced(n.open)|;
    var start, end := HitAt(n.open, base), HitAt(n.close, inside + |Print(n.body)|);
    O.BlockInTurn(n, base, inside, behind);
    RunStep(start, Hits(n.body, inside) + ([end] + behind), depth, pending, reader, line);
    RunPasses(n.body, inside, [end] + behind, depth + 1, pending, reader, line);
    RunStep(end, behind, depth + 1, pending, reader, line);
  }

  lemma {:induction false} RunPasses(ns: seq<Node>, base: nat, behind: seq<Hit>, depth: nat, pending: Option<Item>,
                                     reader: Reader, line: nat -> nat)
    requires Sound(reader) && Shaped(ns, reader) && depth >= 1
    ensures Run(Hits(ns, base) + behind, depth, pending, reader, line) == Run(behind, depth, pending, reader, line)
    decreases ns, 0
  {
    hide Run, Sound, NodeShaped;
    if ns == [] {
      assert [] + behind == behind;
    } else {
      var next := base + |PrintNode(ns[0])|;
      assert Hits(ns, base) + behind == NodeHits(ns[0], base) + (Hits(ns[1..], next) + behind);
      RunPassesNode(ns[0], base, Hits(ns[1..], next) + behind, depth, pending, reader, line);
      RunPasses(ns[1..], next, behind, depth, pending, reader, line);
    }
  }

  /** The defines that no block holds, each with the line it opens on. */
  function TopItems(ns: seq<Node>, base: nat, name: string -> Option<string>, line: nat -> nat): seq<Item> {
    if ns == [] then [] else
      TopItem(ns[0], base, name, line) + TopItems(ns[1..], base + |PrintNode(ns[0])|, name, line)
  }

  function TopItem(n: Node, base: nat, name: string -> Option<string>, line: nat -> nat): seq<Item> {
    if n.Block? && name(n.open).Some? then [Item(name(n.open).value, line(base))] else []
  }

  lemma {:induction false} TopBlock(n: Node, base: nat, behind: seq<Hit>, reader: Reader, line: nat -> nat)
    requires Sound(reader) && NodeShaped(n, reader) && n.Block?
    ensures Run(NodeHits(n, base) + behind, 0, None, reader, line)
              == TopItem(n, base, reader.name, line) + Run(behind, 0, None, reader, line)
  {
    var inside := base + |Braced(n.open)|;
    var start, end := HitAt(n.open, base), HitAt(n.close, inside + |Print(n.body)|);
    var rest := Hits(n.body, inside) + ([end] + behind);
    var name := reader.name(n.open);
    var pending := if name.Some? then Some(Item(name.value, line(base))) else None;
    O.BlockInTurn(n, base, inside, behind);
    O.Unread(start, rest);
    assert Run([start] + rest, 0, None, reader, line) == Run(rest, 1, pending, reader, line);
    RunPasses(n.body, inside, [end] + behind, 1, pending, reader, line);
    RunStep(end, behind, 1, pending, reader, line);
  }

  lemma TopLeaf(n: Node, base: nat, behind: seq<Hit>, reader: Reader, line: nat -> nat)
    requires Sound(reader) && NodeShaped(n, reader) && (n.Leaf? || n.Comment?)
    ensures Run(NodeHits(n, base) + behind, 0, None, reader, line) == Run(behind, 0, None, reader, line)
  {
    O.Unread(HitAt(n.raw, base), behind);
  }

  lemma TopNode(n: Node, base: nat, behind: seq<Hit>, reader: Reader, line: nat -> nat)
    requires Sound(reader) && NodeShaped(n, reader)
    ensures Run(NodeHits(n, base) + behind, 0, None, reader, line)
              == TopItem(n, base, reader.name, line) + Run(behind, 0, None, reader, line)
  {
    hide Run, Sound, NodeShaped;
    if n.Block? {
      TopBlock(n, base, behind, reader, line);
    } else {
      assert [] + behind == behind;
      assert [] + Run(behind, 0, None, reader, line) == Run(behind, 0, None, reader, line);
      if !n.Text? {
        TopLeaf(n, base, behind, reader, line);
      }
    }
  }

  lemma Regrouped(a: seq<Item>, b: seq<Item>, c: seq<Item>)
    ensures a + (b + c) == a + b + c
  {
  }

  lemma {:induction false} TopTree(ns: seq<Node>, base: nat, behind: seq<Hit>, reader: Reader, line: nat -> nat)
    requires Sound(reader) && Shaped(ns, reader)
    ensures Run(Hits(ns, base) + behind, 0, None, reader, line)
              == TopItems(ns, base, reader.name, line) + Run(behind, 0, None, reader, line)
  {
    hide Run, TopItem, Sound, NodeShaped;
    if ns == [] {
      assert [] + behind == behind;
    } else {
      var next := base + |PrintNode(ns[0])|;
      assert Hits(ns, base) + behind == NodeHits(ns[0], base) + (Hits(ns[1..], next) + behind);
      TopNode(ns[0], base, Hits(ns[1..], next) + behind, reader, line);
      TopTree(ns[1..], next, behind, reader, line);
      Regrouped(TopItem(ns[0], base, reader.name, line), TopItems(ns[1..], next, reader.name, line),
                Run(behind, 0, None, reader, line));
    }
  }

  lemma {:induction false} ByKeywordIsSound()
    ensures Sound(ByKeyword())
  {
    forall raw | NameIn(raw).Some?
      ensures KeywordKind(raw) == Opens
    {
      assert "define" in OPENS by {
        assert OPENS[3] == "define";
      }
      var s := LStrip(Inner(raw));
      assert "define" <= s && IsSpace(s[|"define"|..][0]);
      assert StartsWord(s, "define");
    }
    forall raw | CommentStarts(raw)
      ensures KeywordKind(raw) == Plain
    {
      O.SlashStaysFirst(raw[Dash(raw)..]);
      assert LStrip(Inner(raw))[0] == '/';
    }
  }

  // --------------------------------------------------------- masked templates

  lemma BlankedIsText(s: string)
    ensures TextOk(Blanked(s))
  {
  }

  lemma {:induction false} MaskKeepsNode(n: Node, reader: Reader)
    requires NodeOk(n) && NodeShaped(n, reader)
    ensures NodeOk(SwapNode(n, Blanked)) && NodeShaped(SwapNode(n, Blanked), reader)
    ensures |PrintNode(SwapNode(n, Blanked))| == |PrintNode(n)|
    decreases n
  {
    match n {
      case Comment(raw) => BlankedIsText(Braced(raw));
      case Block(open, body, close) => MaskKeepsShape(body, reader);
      case _ =>
    }
  }

  /** With its comments masked a tree scans as itself, reads as before and is as long. */
  lemma {:induction false} MaskKeepsShape(ns: seq<Node>, reader: Reader)
    requires AllOk(ns) && Shaped(ns, reader)
    ensures AllOk(Swap(ns, Blanked)) && Shaped(Swap(ns, Blanked), reader)
    ensures |Print(Swap(ns, Blanked))| == |Print(ns)|
    decreases ns
  {
    if ns != [] {
      MaskKeepsNode(ns[0], reader);
      MaskKeepsShape(ns[1..], reader);
      assert Swap(ns, Blanked)[1..] == Swap(ns[1..], Blanked);
    }
  }

  lemma {:induction false} MaskKeepsItems(ns: seq<Node>, base: nat, reader: Reader, line: nat -> nat)
    requires AllOk(ns) && Shaped(ns, reader)
    ensures TopItems(Swap(ns, Blanked), base, reader.name, line) == TopItems(ns, base, reader.name, line)
    decreases ns
  {
    if ns != [] {
      MaskKeepsNode(ns[0], reader);
      MaskKeepsItems(ns[1..], base + |PrintNode(ns[0])|, reader, line);
      assert Swap(ns, Blanked)[1..] == Swap(ns[1..], Blanked);
    }
  }

  /** On every balanced template the parser records exactly the defines at nesting depth 0, in order, on their own lines. */
  lemma {:induction false} ItemsOfPrint(ns: seq<Node>, line: nat -> nat)
    requires AllOk(ns) && Commented(ns) && Shaped(ns, ByKeyword())
    ensures Run(Actions(Masked(Print(ns))), 0, None, ByKeyword(), line) == TopItems(ns, 0, NameIn, line)
  {
    var masked := Swap(ns, Blanked);
    ReplaceOfPrint(ns, Blanked);
    ByKeywordIsSound();
    MaskKeepsShape(ns, ByKeyword());
    MaskKeepsItems(ns, 0, ByKeyword(), line);
    ActionsOfPrint(masked);
    TopTree(masked, 0, [], ByKeyword(), line);
    assert Hits(masked, 0) + [] == Hits(masked, 0);
  }

  // ------------------------------------------------------------- both parsers

  function NamesOf(items: seq<Item>): seq<string> {
    seq(|items|, k requires 0 <= k < |items| => items[k].name)
  }

  /** The names of the defines at nesting depth 0. */
  function AtTop(defines: seq<Define>): seq<string> {
    if defines == [] then [] else
      (if defines[0].depth == 0 then [defines[0].name] else []) + AtTop(defines[1..])
  }

  lemma {:induction false} AtTopInTurn(a: seq<Define>, b: seq<Define>)
    ensures AtTop(a + b) == AtTop(a) + AtTop(b)
  {
    if a == [] {
      assert a + b == b;
    } else {
      assert (a + b)[1..] == a[1..] + b;
      AtTopInTurn(a[1..], b);
    }
  }

  lemma {:induction false} NestedIsDeeper(ns: seq<Node>, depth: nat, name: string -> Option<string>)
    requires depth >= 1
    ensures AtTop(Defines(ns, depth, name)) == []
    decreases ns
  {
    if ns != [] {
      AtTopInTurn(DefinesOfNode(ns[0], depth, name), Defines(ns[1..], depth, name));
      if ns[0].Block? {
        AtTopInTurn(OwnDefine(ns[0].open, ns[0].body, depth, name), Defines(ns[0].body, depth + 1, name));
        NestedIsDeeper(ns[0].body, depth + 1, name);
      }
      NestedIsDeeper(ns[1..], depth, name);
    }
  }

  lemma TopItemIsAtTop(n: Node, base: nat, name: string -> Option<string>, line: nat -> nat)
    ensures NamesOf(TopItem(n, base, name, line)) == AtTop(DefinesOfNode(n, 0, name))
  {
    hide PrintNode, Print, Defines;
    if n.Block? {
      AtTopInTurn(OwnDefine(n.open, n.body, 0, name), Defines(n.body, 1, name));
      NestedIsDeeper(n.body, 1, name);
    }
  }

  lemma {:induction false} TopItemsAreAtTop(ns: seq<Node>, base: nat, name: string -> Option<string>, line: nat -> nat)
    ensures NamesOf(TopItems(ns, base, name, line)) == AtTop(Defines(ns, 0, name))
    decreases ns
  {
    hide PrintNode, TopItem, DefinesOfNode, AtTop;
    if ns == [] {
      NoneAtTop();
    } else {
      AtTopInTurn(DefinesOfNode(ns[0], 0, name), Defines(ns[1..], 0, name));
      TopItemIsAtTop(ns[0], base, name, line);
      TopItemsAreAtTop(ns[1..], base + |PrintNode(ns[0])|, name, line);
    }
  }

  lemma NoneAtTop()
    ensures AtTop([]) == []
  {
  }

  // -------------------------------------------------------------- line order

  lemma {:induction false} LinesGrow(src: string, a: nat, b: nat)
    requires a <= b
    ensures LineOf(src, a) <= LineOf(src, b)
    decreases b
  {
    if a < b {
      LinesGrow(src, a, b - 1);
    }
  }

  ghost predicate Grows(line: nat -> nat) {
    forall a: nat, b: nat :: a <= b ==> line(a) <= line(b)
  }

  /** The hits stand one behind the other within `from..to`. */
  ghost predicate Apart(hits: seq<Hit>, from: nat, to: nat) {
    hits == [] || (from <= hits[0].start < hits[0].end <= to && Apart(hits[1..], hits[0].end, to))
  }

  lemma {:induction false} ApartFromEarlier(hits: seq<Hit>, from: nat, earlier: nat, to: nat)
    requires Apart(hits, from, to) && earlier <= from
    ensures Apart(hits, earlier, to)
  {
  }

  lemma {:induction false} ActionsStandApart(text: string, i: nat)
    requires i <= |text|
    ensures Apart(ActionsFrom(text, i), i, |text|)
    decreases |text| - i
  {
    if i < |text| {
      if PairAt(text, i, '{') {
        var e := CloseOf(text, i);
        if e < |text| {
          ActionsStandApart(text, e + 2);
          O.Unread(Hit(i, e + 2, text[i + 2..e]), ActionsFrom(text, e + 2));
        }
      } else {
        ActionsStandApart(text, i + 1);
        ApartFromEarlier(ActionsFrom(text, i + 1), i + 1, i, |text|);
      }
    }
  }

  /** `early` sorts before `late`, or level with it, by the lines they start and end on. */
  ghost predicate InLineOrder(early: Hit, late: Hit, line: nat -> nat) {
    && early.end > 0 && late.end > 0
    && (line(early.start) < line(late.start)
        || (line(early.start) == line(late.start) && line(early.end - 1) <= line(late.end - 1)))
  }

  ghost predicate SortedByLine(hits: seq<Hit>, line: nat -> nat) {
    |hits| > 1 ==> InLineOrder(hits[0], hits[1], line) && SortedByLine(hits[1..], line)
  }

  lemma {:induction false} ApartIsSorted(hits: seq<Hit>, from: nat, to: nat, line: nat -> nat)
    requires Apart(hits, from, to) && Grows(line)
    ensures SortedByLine(hits, line)
  {
    if |hits| > 1 {
      var early, late := hits[0], hits[1];
      assert hits[1..][0] == late;
      assert line(early.start) <= line(late.start) && line(early.end - 1) <= line(late.end - 1);
      ApartIsSorted(hits[1..], early.end, to, line);
    }
  }

  /** The actions are found in the order that a stable sort by their lines keeps. */
  lemma ActionsAreInLineOrder(text: string, line: nat -> nat)
    requires Grows(line)
    ensures SortedByLine(Actions(text), line)
  {
    ActionsStandApart(text, 0);
    ApartIsSorted(Actions(text), 0, |text|, line);
  }

  ghost predicate LinesFrom(items: seq<Item>, least: nat) {
    items == [] || (least <= items[0].line && LinesFrom(items[1..], items[0].line))
  }

  /** The recorded defines are in line order already. */
  lemma {:induction false} TopItemsAreInLineOrder(ns: seq<Node>, base: nat, name: string -> Option<string>, line: nat -> nat)
    requires Grows(line)
    ensures LinesFrom(TopItems(ns, base, name, line), line(base))
  {
    if ns != [] {
      var next := base + |PrintNode(ns[0])|;
      var rest := TopItems(ns[1..], next, name, line);
      TopItemsAreInLineOrder(ns[1..], next, name, line);
      assert line(base) <= line(next);
      if TopItem(ns[0], base, name, line) == [] {
        assert [] + rest == rest;
      } else {
        assert TopItems(ns, base, name, line)[1..] == rest;
      }
    }
  }

  /** The line numbers of a text grow, as the laws about them ask. */
  lemma LineOfGrows(src: string)
    ensures Grows(LinesOf(src))
  {
    forall a: nat, b: nat | a <= b
      ensures LineOf(src, a) <= LineOf(src, b)
    {
      LinesGrow(src, a, b);
    }
  }

  // -------------------------------------------------- where the parsers differ

  /** A text without white space or dashes at its ends is its own first word. */
  lemma WordIsWhole(w: string)
    requires w != "" && w[0] != '-' && w[|w| - 1] != '-' && forall k :: 0 <= k < |w| ==> !IsSpace(w[k])
    ensures Inner(w) == w && LStrip(w) == w && Strip(w) == w && Head(w) == w
  {
    WordEnds(w, "");
    assert w + "" == w;
  }

  lemma UnspacedIf()
    ensures O.HeadKind("if(x)") == Plain && KeywordKind("if(x)") == Opens && NameIn("if(x)") == None
  {
    WordIsWhole("if(x)");
    assert forall k :: 0 <= k < |OPENS| ==> OPENS[k][0] != 'i' || |OPENS[k]| == 2;
    assert OPENS[0] == "if" && StartsWord("if(x)", "if");
    assert !("define" <= "if(x)");
  }

  lemma PlainEnd()
    ensures O.HeadKind("end") == Closes && KeywordKind("end") == Closes && NameIn("end") == None
  {
    WordIsWhole("end");
    assert forall k :: 0 <= k < |OPENS| ==> OPENS[k][0] != 'e';
    assert !("define" <= "end");
  }

  lemma DefineOfA()
    ensures NameIn("define \"a\"") == Some("a")
  {
    var raw, quoted := "define \"a\"", "\"a\"";
    assert Inner(raw) == raw && LStrip(raw) == raw;
    var rest := raw[|"define"|..];
    assert rest == " " + quoted && rest[1..] == quoted;
    assert LStrip(rest) == LStrip(rest[1..]) == quoted;
    var name := quoted[1..];
    assert name[0] == 'a' && name[1..] == "\"";
    assert IndexOf(name[1..], '"') == 0;
    assert name[..1] == "a";
  }

  lemma KeywordsOpen(raw: string)
    requires NameIn(raw).Some?
    ensures KeywordKind(raw) == Opens
  {
    ByKeywordIsSound();
    assert ByKeyword().name(raw).Some?;
    assert ByKeyword().kind(raw) == Opens;
  }

  lemma AllRawOk()
    ensures RawOk("define \"a\"") && RawOk("if(x)") && RawOk("end")
  {
  }

  lemma ReadersDiffer(open: string, inner: string, close: string, name: string, words: Reader, keys: Reader)
    requires RawOk(open) && RawOk(inner) && RawOk(close) && words.name == keys.name
    requires keys.kind(open) == Opens && keys.kind(inner) == Opens && keys.kind(close) == Closes
    requires words.kind(inner) == Plain && words.kind(close) == Closes
    requires words.name(open) == Some(name) && words.name(inner) == None && words.name(close) == None
    ensures var ns := O.Nested(open, inner, close);
            && Shaped(ns, keys) && Defines(ns, 0, keys.name) == [Define(name, Braced(inner) + Braced(close), 0)]
            && O.Bodies(Print(ns), Actions(Print(ns)), words) == [O.Body(name, Braced(inner))]
  {
    O.NestedParts(open, inner, close, name, keys);
    O.UnreadOpenerCutsBody(open, inner, close, name, words);
  }

  /**
   * `{{define "a"}}{{if(x)}}{{end}}{{end}}`: to a parser that reads first words the `if` opens nothing, so it takes
   * the first `end` for the define's own; a parser that reads keywords does not.
   */
  lemma UnspacedIfCutsBody(open: string, inner: string, close: string)
    requires open == "define \"a\"" && inner == "if(x)" && close == "end"
    ensures var ns := O.Nested(open, inner, close);
            && Shaped(ns, ByKeyword()) && Defines(ns, 0, NameIn) == [Define("a", Braced(inner) + Braced(close), 0)]
            && O.Bodies(Print(ns), Actions(Print(ns)), O.ByHead()) == [O.Body("a", Braced(inner))]
  {
    UnspacedIf();
    PlainEnd();
    DefineOfA();
    KeywordsOpen("define \"a\"");
    AllRawOk();
    ReadersDiffer(open, inner, close, "a", O.ByHead(), ByKeyword());
  }

  // -------------------------------------------------------- lines and masks

  /** A place stands on the line after as many newlines as there are in front of it. */
  lemma {:induction false} LineOfCounts(src: string, i: nat)
    requires i <= |src|
    ensures LineOf(src, i) == multiset(src[..i])['\n']
  {
    if i > 0 {
      LineOfCounts(src, i - 1);
      assert src[..i] == src[..i - 1] + [src[i - 1]];
    }
  }

  predicate InSpan(spans: seq<Span>, k: nat) {
    exists n | 0 <= n < |spans| :: spans[n].start <= k < spans[n].end
  }

  lemma InTail(span: Span, spans: seq<Span>, k: nat)
    ensures InSpan([span] + spans, k) <==> span.start <= k < span.end || InSpan(spans, k)
  {
    var all := [span] + spans;
    assert all[0] == span;
    if n :| 0 <= n < |spans| && spans[n].start <= k < spans[n].end {
      assert all[n + 1] == spans[n];
    }
    if n :| 0 <= n < |all| && all[n].start <= k < all[n].end {
      assert n > 0 ==> spans[n - 1] == all[n];
    }
  }

  lemma {:induction false} SpansBehind(src: string, i: nat, k: nat)
    requires i <= |src| && InSpan(Spans(src, i), k)
    ensures i <= k < |src|
    decreases |src| - i
  {
    if i < |src| {
      match CommentEnd(src, i) {
        case Some(e) =>
          InTail(Span(i, e), Spans(src, e), k);
          if !(i <= k < e) {
            SpansBehind(src, e, k);
          }
        case None => SpansBehind(src, i + 1, k);
      }
    }
  }

  /** What the mask shows at a place: a space inside a comment, unless a newline is there, and the text itself elsewhere. */
  function Shown(src: string, i: nat, k: nat): char
    requires i <= |src| && k < |src|
  {
    if InSpan(Spans(src, i), k) && src[k] != '\n' then ' ' else src[k]
  }

  lemma {:induction false} MaskFromIs(src: string, i: nat)
    requires i <= |src|
    ensures |MaskFrom(src, i)| == |src| - i && forall k :: i <= k < |src| ==> MaskFrom(src, i)[k - i] == Shown(src, i, k)
    decreases |src| - i
  {
    hide CommentEnd, Shown, Blanked;
    if i < |src| {
      match CommentEnd(src, i) {
        case Some(e) =>
          MaskFromIs(src, e);
          BlankedLength(src[i..e]);
          forall k | i <= k < |src|
            ensures MaskFrom(src, i)[k - i] == Shown(src, i, k)
          {
            MaskedAt(src, i, e, k);
          }
        case None =>
          MaskFromIs(src, i + 1);
          forall k | i <= k < |src|
            ensures MaskFrom(src, i)[k - i] == Shown(src, i, k)
          {
            UnmaskedAt(src, i, k);
          }
      }
    }
  }

  lemma MaskedAt(src: string, i: nat, e: nat, k: nat)
    requires i < |src| && CommentEnd(src, i) == Some(e) && i <= k < |src|
    ensures k < e ==> Shown(src, i, k) == Blanked(src[i..e])[k - i]
    ensures k >= e ==> Shown(src, i, k) == Shown(src, e, k)
  {
    hide CommentEnd;
    InTail(Span(i, e), Spans(src, e), k);
    if k < e {
      assert src[i..e][k - i] == src[k];
    }
  }

  lemma UnmaskedAt(src: string, i: nat, k: nat)
    requires i < |src| && CommentEnd(src, i) == None && i <= k < |src|
    ensures if k == i then Shown(src, i, k) == src[k] else Shown(src, i, k) == Shown(src, i + 1, k)
  {
    hide CommentEnd;
    if k == i && InSpan(Spans(src, i + 1), k) {
      SpansBehind(src, i + 1, k);
    }
  }

  /** The mask keeps the text's length and its newlines, and shows nothing of the comments. */
  lemma MaskShows(src: string)
    ensures |Masked(src)| == |src|
    ensures forall k :: 0 <= k < |src| ==>
        Masked(src)[k] == if InSpan(Spans(src, 0), k) && src[k] != '\n' then ' ' else src[k]
  {
    hide CommentEnd, InSpan;
    MaskFromIs(src, 0);
    forall k | 0 <= k < |src|
      ensures Masked(src)[k] == Shown(src, 0, k)
    {
      assert MaskFrom(src, 0)[k - 0] == Shown(src, 0, k);
    }
  }
}
