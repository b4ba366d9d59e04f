/** scripts/check-helper-docs.py: two texts on which the parser records other comments than the template has at the top. */
module HelperTexts {
  import opened Prelude
  import opened TemplateText
  import opened TemplateComments
  import opened HelperDocs
  import opened HelperEvents
  import opened HelperOrder
  import opened HelperReach
  import opened HelperPlaces

  // ------------------------------------------------------------- texts of two lines

  predicate Unfolded(s: string) {
    '\n' !in s
  }

  lemma {:induction false} LineStays(src: string, a: nat, b: nat)
    requires a <= b <= |src| && Unfolded(src[a..b])
    ensures LineOf(src, b) == LineOf(src, a)
    decreases b
  {
    if a < b {
      assert src[a..b] == src[a..b - 1] + [src[b - 1]];
      LineStays(src, a, b - 1);
    }
  }

  /** A text of two lines. */
  function TwoLines(a: string, b: string): string {
    a + ("\n" + b)
  }

  lemma LinesOfTwo(a: string, b: string, k: nat)
    requires Unfolded(a) && Unfolded(b) && k <= |TwoLines(a, b)|
    ensures LineOf(TwoLines(a, b), k) == if k <= |a| then 0 else 1
  {
    var src := TwoLines(a, b);
    assert src[0..|a|] == a && src[|a|] == '\n';
    LineStays(src, 0, |a|);
    if k <= |a| {
      assert src[0..k] == a[..k];
      LineStays(src, 0, k);
    } else {
      assert src[|a| + 1..k] == b[..k - |a| - 1];
      LineStays(src, |a| + 1, k);
    }
  }

  // -------------------------------------------------- a comment behind another's end

  /** `{{define "a"}}`, a newline, `{{end}}` and a comment right behind. */
  function EndThenComment(open: string, close: string, raw: string): seq<Node> {
    [Block(open, [Text("\n")], close), Comment(raw)]
  }

  /** Where its comment stands. */
  function SpanBehindEnd(open: string, close: string, raw: string): Span {
    var at := |Braced(open)| + 1 + |Braced(close)|;
    Span(at, at + |Braced(raw)|)
  }

  lemma EndThenCommentPrints(open: string, close: string, raw: string)
    ensures Print(EndThenComment(open, close, raw)) == TwoLines(Braced(open), Braced(close) + Braced(raw))
    ensures |PrintNode(EndThenComment(open, close, raw)[0])| == SpanBehindEnd(open, close, raw).start
    ensures Print(EndThenComment(open, close, raw)[0].body) == "\n"
  {
    hide Braced;
    var ns := EndThenComment(open, close, raw);
    assert Print([Text("\n")]) == "\n" + "" == "\n";
    assert ns[1..] == [Comment(raw)] && [Comment(raw)][1..] == [];
    assert PrintNode(ns[0]) == Braced(open) + ("\n" + Braced(close));
    assert Print([Comment(raw)]) == Braced(raw) + "" == Braced(raw);
    assert Print(ns) == PrintNode(ns[0]) + Braced(raw);
  }

  lemma EndThenCommentSpans(open: string, close: string, raw: string)
    ensures SpanBehindEnd(open, close, raw) in RemarksOf(TreeEvents(EndThenComment(open, close, raw), 0))
  {
    hide Braced, NodeEvents;
    var ns := EndThenComment(open, close, raw);
    var c := SpanBehindEnd(open, close, raw);
    EndThenCommentPrints(open, close, raw);
    assert ns[1..] == [Comment(raw)];
    OneRemark(raw, c.start);
    RemarksInTurn(NodeEvents(ns[0], 0), TreeEvents([Comment(raw)], c.start));
    assert RemarksOf(TreeEvents([Comment(raw)], c.start))[0] == c;
  }

  lemma OneRemark(raw: string, at: nat)
    ensures RemarksOf(TreeEvents([Comment(raw)], at)) == [Span(at, at + |Braced(raw)|)]
  {
    var c := Span(at, at + |Braced(raw)|);
    OneEvent(Remark(c));
    assert [Comment(raw)][1..] == [];
    assert NodeEvents(Comment(raw), at) + [] == [Remark(c)];
  }

  /** The template has the comment at the top. The parser puts it in front of the `end`, into the define, and drops it. */
  lemma CommentBehindEndIsLost(open: string, close: string, raw: string)
    requires var ns := EndThenComment(open, close, raw); AllOk(ns) && Commented(ns) && Shaped(ns, ByKeyword())
    requires Unfolded(Braced(open)) && Unfolded(Braced(close) + Braced(raw))
    ensures var ns, c := EndThenComment(open, close, raw), SpanBehindEnd(open, close, raw);
            var line := LinesOf(Print(ns));
            && Doc(1, c) in TopEntries(ns, 0, NameIn, line)
            && Doc(1, c) !in Parsed(Print(ns), ByKeyword(), HoldsText, line)
  {
    hide KeywordKind, NameIn, HoldsText, Parsed, AllOk, Commented, Shaped, LineOf, TreeEvents, RemarksOf, Spans;
    var ns, c := EndThenComment(open, close, raw), SpanBehindEnd(open, close, raw);
    var src := Print(ns);
    var line := LinesOf(src);
    EndThenCommentPrints(open, close, raw);
    forall k: nat | k <= |src|
      ensures line(k) == if k <= |Braced(open)| then 0 else 1
    {
      LinesOfTwo(Braced(open), Braced(close) + Braced(raw), k);
    }
    assert |src| == c.end;
    assert ns[1..] == [Comment(raw)];
    assert Doc(1, c) in TopEntries([Comment(raw)], c.start, NameIn, line);
    SpansOfPrint(ns);
    EndThenCommentSpans(open, close, raw);
    LineOfGrows(src);
    assert OnOneLine(c, line);
    assert Across(ns[0], 0, OnOrBelow(1, line));
    CommentRecordedIff(ns, c, line);
  }

  // ------------------------------------------------- a comment behind its own opener

  /** `{{define "a"}}` and a comment right behind, a newline, `{{end}}`. */
  function OpenerThenComment(open: string, close: string, raw: string): seq<Node> {
    [Block(open, [Comment(raw), Text("\n")], close)]
  }

  function SpanBehindOpener(open: string, raw: string): Span {
    Span(|Braced(open)|, |Braced(open)| + |Braced(raw)|)
  }

  lemma OpenerThenCommentPrints(open: string, close: string, raw: string)
    ensures Print(OpenerThenComment(open, close, raw)) == TwoLines(Braced(open) + Braced(raw), Braced(close))
  {
    hide Braced;
    var ns := OpenerThenComment(open, close, raw);
    var body := ns[0].body;
    assert body[1..] == [Text("\n")] && [Text("\n")][1..] == [] && ns[1..] == [];
    assert Print([Text("\n")]) == "\n" + "" == "\n";
    assert Print(body) == Braced(raw) + "\n";
    assert Print(ns) == Braced(open) + (Print(body) + Braced(close)) + "";
  }

  lemma OpenerThenCommentSpans(open: string, close: string, raw: string)
    ensures SpanBehindOpener(open, raw) in RemarksOf(TreeEvents(OpenerThenComment(open, close, raw), 0))
  {
    hide Braced, RemarksOf, InPlace;
    var ns := OpenerThenComment(open, close, raw);
    var n, at := ns[0], |Braced(open)|;
    var c := SpanBehindOpener(open, raw);
    var within := TreeEvents(n.body, at);
    assert n.body[0] == Comment(raw) && PrintNode(n.body[0]) == Braced(raw);
    assert NodeEvents(n.body[0], at) == [Remark(c)];
    assert within == NodeEvents(n.body[0], at) + TreeEvents(n.body[1..], at + |PrintNode(n.body[0])|);
    OneEvent(Remark(c));
    RemarksInTurn([Remark(c)], TreeEvents(n.body[1..], at + |Braced(raw)|));
    BlockRemarks(Action(HitAt(open, 0)), within, Action(HitAt(close, at + |Print(n.body)|)));
    RemarksInTurn(NodeEvents(n, 0), []);
    assert ns[1..] == [];
    assert NodeEvents(n, 0) + [] == TreeEvents(ns, 0);
    assert RemarksOf(within)[0] == c;
  }

  /** The template has the comment inside the define. The parser puts it in front of the define and records it at the top. */
  lemma CommentBehindOpenerIsRecorded(open: string, close: string, raw: string)
    requires var ns := OpenerThenComment(open, close, raw); AllOk(ns) && Commented(ns) && Shaped(ns, ByKeyword())
    requires Unfolded(Braced(open) + Braced(raw)) && Unfolded(Braced(close))
    ensures var ns, c := OpenerThenComment(open, close, raw), SpanBehindOpener(open, raw);
            var line := LinesOf(Print(ns));
            && (forall e :: e in TopEntries(ns, 0, NameIn, line) ==> e.Defined?)
            && Doc(0, c) in Parsed(Print(ns), ByKeyword(), HoldsText, line)
  {
    hide KeywordKind, NameIn, HoldsText, Parsed, AllOk, Commented, Shaped, LineOf, TreeEvents, RemarksOf, Spans;
    var ns, c := OpenerThenComment(open, close, raw), SpanBehindOpener(open, raw);
    var src := Print(ns);
    var line := LinesOf(src);
    OpenerThenCommentPrints(open, close, raw);
    forall k: nat | k <= c.end
      ensures line(k) == 0
    {
      LinesOfTwo(Braced(open) + Braced(raw), Braced(close), k);
    }
    assert ns[1..] == [];
    SpansOfPrint(ns);
    OpenerThenCommentSpans(open, close, raw);
    LineOfGrows(src);
    assert OnOneLine(c, line);
    assert !Across(ns[0], 0, OnOrBelow(0, line));
    assert !Enclosed([], |PrintNode(ns[0])|, OnOrBelow(0, line));
    CommentRecordedIff(ns, c, line);
  }

  // -------------------------------------------------------------------- the texts

  lemma CommentPieces(raw: string)
    requires raw == "/* c */"
    ensures RawOk(raw) && IsComment(raw) && CommentStarts(raw) && Unfolded(Braced(raw))
  {
    var b := Braced(raw);
    assert b == "{{/* c */}}";
    assert SkipSpace(b, AfterDash(b, 2)) == 2;
    assert CloseAt(b, 7) == Some(11);
    assert CloseFrom(b, 6) == Some(11);
    assert CloseFrom(b, 5) == Some(11);
    assert CloseFrom(b, 4) == Some(11);
  }

  lemma NoBraceInside(raw: string)
    requires '{' !in raw && !CommentStarts(raw)
    ensures NoComment(raw)
  {
    var s := "{{" + raw;
    assert s[2..] == raw;
    assert forall k :: 2 <= k < |s| ==> s[k] == raw[k - 2];
  }

  lemma ActionPieces(open: string, close: string)
    requires open == "define \"a\"" && close == "end"
    ensures NoComment(open) && NoComment(close) && Unfolded(Braced(open)) && Unfolded(Braced(close))
  {
    hide NoComment;
    assert LStrip(open) == open && LStrip(close) == close;
    NoBraceInside(open);
    NoBraceInside(close);
  }

  lemma UnfoldedTwo(a: string, b: string)
    requires Unfolded(a) && Unfolded(b)
    ensures Unfolded(a + b)
  {
  }

  /** `{{define "a"}}\n{{end}}{{/* c */}}` and `{{define "a"}}{{/* c */}}\n{{end}}`: the parser drops the first text's comment,
      which is at the top, and records the second's, which is not. */
  lemma BothTextsGoWrong(open: string, close: string, raw: string)
    requires open == "define \"a\"" && close == "end" && raw == "/* c */"
    ensures var ns := EndThenComment(open, close, raw);
            var line := LinesOf(Print(ns));
            Parsed(Print(ns), ByKeyword(), HoldsText, line) != TopEntries(ns, 0, NameIn, line)
    ensures var ns := OpenerThenComment(open, close, raw);
            var line := LinesOf(Print(ns));
            Parsed(Print(ns), ByKeyword(), HoldsText, line) != TopEntries(ns, 0, NameIn, line)
  {
    PiecesFit(open, close, raw);
    hide KeywordKind, NameIn, HoldsText, Parsed, AllOk, Commented, Shaped, TopEntries, Print, Braced;
    UnfoldedTwo(Braced(close), Braced(raw));
    UnfoldedTwo(Braced(open), Braced(raw));
    CommentBehindEndIsLost(open, close, raw);
    CommentBehindOpenerIsRecorded(open, close, raw);
  }

  lemma PiecesFit(open: string, close: string, raw: string)
    requires open == "define \"a\"" && close == "end" && raw == "/* c */"
    ensures var ns := EndThenComment(open, close, raw); AllOk(ns) && Commented(ns) && Shaped(ns, ByKeyword())
    ensures var ns := OpenerThenComment(open, close, raw); AllOk(ns) && Commented(ns) && Shaped(ns, ByKeyword())
    ensures Unfolded(Braced(open)) && Unfolded(Braced(close)) && Unfolded(Braced(raw))
  {
    DefineOfA();
    KeywordsOpen(open);
    PlainEnd();
    AllRawOk();
    CommentPieces(raw);
    ActionPieces(open, close);
    TreesFit(open, close, raw, ByKeyword());
  }

  predicate Fits(ns: seq<Node>, reader: Reader) {
    AllOk(ns) && Commented(ns) && Shaped(ns, reader)
  }

  lemma FitsBehind(n: Node, rest: seq<Node>, reader: Reader)
    requires NodeOk(n) && NodeCommented(n) && NodeShaped(n, reader) && Fits(rest, reader)
    ensures Fits([n] + rest, reader)
  {
    hide NodeOk, NodeCommented, NodeShaped;
    assert ([n] + rest)[1..] == rest;
  }

  lemma TreesFit(open: string, close: string, raw: string, reader: Reader)
    requires RawOk(open) && RawOk(close) && RawOk(raw) && NoComment(open) && NoComment(close) && IsComment(raw)
    requires reader.kind(open) == Opens && reader.kind(close) == Closes && CommentStarts(raw)
    ensures var ns := EndThenComment(open, close, raw); AllOk(ns) && Commented(ns) && Shaped(ns, reader)
    ensures var ns := OpenerThenComment(open, close, raw); AllOk(ns) && Commented(ns) && Shaped(ns, reader)
  {
    hide RawOk, NoComment, IsComment, CommentStarts;
    var newline, remark := [Text("\n")], [Comment(raw)];
    assert TextOk("\n");
    assert newline == newline + [] && remark == remark + [];
    FitsBehind(Text("\n"), [], reader);
    FitsBehind(Comment(raw), [], reader);
    FitsBehind(Comment(raw), newline, reader);
    FitsBehind(Block(open, newline, close), remark, reader);
    FitsBehind(Block(open, remark + newline, close), [], reader);
    assert [Block(open, newline, close)] + remark == EndThenComment(open, close, raw);
    assert remark + newline == [Comment(raw), Text("\n")];
    assert [Block(open, remark + newline, close)] + [] == OpenerThenComment(open, close, raw);
  }
}
