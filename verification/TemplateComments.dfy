/** The comment pattern that scripts/check-helper-docs.py and scripts/check-orphan-templates.py share, and what replacing every match does. */
module TemplateComments {
  import opened Prelude
  import opened TemplateText

  predicate TwoAt(s: string, i: nat, a: char, b: char) {
    i + 1 < |s| && s[i] == a && s[i + 1] == b
  }

  function AfterDash(s: string, i: nat): (r: nat)
    requires i <= |s|
    ensures i <= r <= |s|
  {
    if i < |s| && s[i] == '-' then i + 1 else i
  }

  /** Where a comment whose star and slash stand at `k` ends. */
  function CloseAt(s: string, k: nat): (e: Option<nat>)
    ensures e.Some? ==> k < e.value <= |s|
  {
    if !TwoAt(s, k, '*', '/') then None else
      var m := AfterDash(s, SkipSpace(s, k + 2));
      if TwoAt(s, m, '}', '}') then Some(m + 2) else None
  }

  function CloseFrom(s: string, k: nat): (e: Option<nat>)
    requires k <= |s|
    ensures e.Some? ==> k < e.value <= |s|
    decreases |s| - k
  {
    if k == |s| then None else if CloseAt(s, k).Some? then CloseAt(s, k) else CloseFrom(s, k + 1)
  }

  /** Where the comment that starts at `i` ends, if one does. */
  function CommentEnd(s: string, i: nat): (e: Option<nat>)
    ensures e.Some? ==> i < e.value <= |s|
  {
    if !TwoAt(s, i, '{', '{') then None else
      var j := SkipSpace(s, AfterDash(s, i + 2));
      if TwoAt(s, j, '/', '*') then CloseFrom(s, j + 2) else None
  }

  function Comments(s: string): nat -> Option<nat> {
    (i: nat) => CommentEnd(s, i)
  }

  /** The text from `i` on with `fill` applied to every match of `end`, from left to right. */
  function ReplaceFrom(s: string, i: nat, end: nat -> Option<nat>, fill: string -> string): string
    requires i <= |s|
    decreases |s| - i
  {
    if i == |s| then "" else
      match end(i)
      case Some(e) => if i < e <= |s| then fill(s[i..e]) + ReplaceFrom(s, e, end, fill) else ""
      case None => [s[i]] + ReplaceFrom(s, i + 1, end, fill)
  }

  /** The text with `fill` applied to every comment. */
  function Replaced(s: string, fill: string -> string): string {
    ReplaceFrom(s, 0, Comments(s), fill)
  }

  // ------------------------------------------------------------------- trees

  /** No "{{" of the action, its own included, starts a comment. */
  predicate NoComment(raw: string) {
    var s := "{{" + raw;
    forall k: nat :: k < |s| && TwoAt(s, k, '{', '{') ==> !CommentStarts(s[k + 2..])
  }

  /** The action is one comment from end to end. */
  predicate IsComment(raw: string) {
    CommentEnd(Braced(raw), 0) == Some(|Braced(raw)|)
  }

  predicate NodeCommented(n: Node) {
    match n
    case Text(t) => TextOk(t)
    case Leaf(raw) => NoComment(raw)
    case Comment(raw) => IsComment(raw)
    case Block(open, body, close) => NoComment(open) && Commented(body) && NoComment(close)
  }

  /** The tree's comments are the text's comments. */
  predicate Commented(ns: seq<Node>) {
    ns == [] || (NodeCommented(ns[0]) && Commented(ns[1..]))
  }

  function SwapNode(n: Node, fill: string -> string): Node {
    match n
    case Comment(raw) => Text(fill(Braced(raw)))
    case Block(open, body, close) => Block(open, Swap(body, fill), close)
    case _ => n
  }

  /** The tree with every comment turned into text. */
  function Swap(ns: seq<Node>, fill: string -> string): seq<Node> {
    if ns == [] then [] else [SwapNode(ns[0], fill)] + Swap(ns[1..], fill)
  }

  // --------------------------------------------------------- replaced as text

  /** Between `i` and `j` the replaced text is `out`, whatever comes after. */
  ghost predicate Becomes(s: string, i: nat, j: nat, end: nat -> Option<nat>, fill: string -> string, out: string) {
    i <= j <= |s| && ReplaceFrom(s, i, end, fill) == out + ReplaceFrom(s, j, end, fill)
  }

  lemma BecomesInTurn(s: string, i: nat, j: nat, k: nat, end: nat -> Option<nat>, fill: string -> string,
                      first: string, second: string)
    requires Becomes(s, i, j, end, fill, first) && Becomes(s, j, k, end, fill, second)
    ensures Becomes(s, i, k, end, fill, first + second)
  {
    var rest := ReplaceFrom(s, k, end, fill);
    assert first + (second + rest) == first + second + rest;
  }

  lemma BecomesThree(s: string, i: nat, j: nat, k: nat, l: nat, end: nat -> Option<nat>, fill: string -> string,
                     a: string, b: string, c: string)
    requires Becomes(s, i, j, end, fill, a) && Becomes(s, j, k, end, fill, b) && Becomes(s, k, l, end, fill, c)
    ensures Becomes(s, i, l, end, fill, a + (b + c))
  {
    BecomesInTurn(s, j, k, l, end, fill, b, c);
    BecomesInTurn(s, i, j, l, end, fill, a, b + c);
  }

  /** Nothing matches from `i` up to `j`. */
  ghost predicate Silent(end: nat -> Option<nat>, i: nat, j: nat) {
    forall k: nat :: i <= k < j ==> end(k) == None
  }

  lemma {:induction false} KeptAsIs(s: string, i: nat, j: nat, end: nat -> Option<nat>, fill: string -> string)
    requires i <= j <= |s| && Silent(end, i, j)
    ensures Becomes(s, i, j, end, fill, s[i..j])
    decreases j - i
  {
    if i < j {
      KeptAsIs(s, i + 1, j, end, fill);
      assert [s[i]] + s[i + 1..j] == s[i..j];
      assert end(i) == None;
      BecomesInTurn(s, i, i + 1, j, end, fill, [s[i]], s[i + 1..j]);
    }
  }

  // ------------------------------------------------------ where comments stand

  /** The matches within a node at `i` are its comments, each one whole. */
  ghost predicate NodeEnds(end: nat -> Option<nat>, i: nat, n: Node)
    decreases n
  {
    match n
    case Comment(_) => end(i) == Some(i + |PrintNode(n)|)
    case Block(open, body, close) =>
      var inside := i + |Braced(open)|;
      var last := inside + |Print(body)|;
      Silent(end, i, inside) && Ends(end, inside, body) && Silent(end, last, last + |Braced(close)|)
    case _ => Silent(end, i, i + |PrintNode(n)|)
  }

  ghost predicate Ends(end: nat -> Option<nat>, i: nat, ns: seq<Node>)
    decreases ns
  {
    ns == [] || (NodeEnds(end, i, ns[0]) && Ends(end, i + |PrintNode(ns[0])|, ns[1..]))
  }

  lemma TextIsSilent(s: string, i: nat, t: string)
    requires StandsAt(s, i, t) && TextOk(t)
    ensures Silent(Comments(s), i, i + |t|)
  {
    CharsAt(s, i, t);
    forall k: nat | i <= k < i + |t|
      ensures Comments(s)(k) == None
    {
      var m := k - i;
      assert t[m] == s[i + m];
      if m + 1 < |t| {
        assert t[m + 1] == s[i + (m + 1)];
      }
    }
  }

  /** Where a comment seems to start within an action, the action itself starts one there. */
  lemma {:induction false} SlashIsLocal(s: string, q: nat, r: string)
    requires StandsAt(s, q, r + "}}") && TwoAt(s, SkipSpace(s, q), '/', '*')
    ensures "/*" <= LStrip(r)
    decreases |r|
  {
    var t := r + "}}";
    CharsAt(s, q, t);
    assert t[0] == s[q + 0] && t[1] == s[q + 1];
    if r != "" && IsSpace(r[0]) {
      assert t == [r[0]] + (r[1..] + "}}");
      SplitAtPiece(s, q, [r[0]], r[1..] + "}}");
      SlashIsLocal(s, q + 1, r[1..]);
    }
  }

  lemma StartIsLocal(s: string, p: nat, raw: string)
    requires StandsAt(s, p, raw + "}}") && TwoAt(s, SkipSpace(s, AfterDash(s, p)), '/', '*')
    ensures CommentStarts(raw)
  {
    var t := raw + "}}";
    CharsAt(s, p, t);
    assert t[0] == s[p + 0];
    assert t == raw[..Dash(raw)] + (raw[Dash(raw)..] + "}}");
    SplitAtPiece(s, p, raw[..Dash(raw)], raw[Dash(raw)..] + "}}");
    SlashIsLocal(s, p + Dash(raw), raw[Dash(raw)..]);
  }

  lemma ActionIsSilent(s: string, i: nat, raw: string)
    requires StandsAt(s, i, Braced(raw)) && NoComment(raw)
    ensures Silent(Comments(s), i, i + |Braced(raw)|)
  {
    forall k: nat | i <= k < i + |Braced(raw)|
      ensures Comments(s)(k) == None
    {
      NothingStarts(s, i, raw, k);
    }
  }

  /** Behind `m` characters of an action's text stands the rest of it, closed. */
  lemma RestStands(s: string, i: nat, t: string, m: nat)
    requires StandsAt(s, i, t + "}}") && m <= |t|
    ensures StandsAt(s, i + m, t[m..] + "}}")
  {
    assert t + "}}" == t[..m] + (t[m..] + "}}");
    SplitAtPiece(s, i, t[..m], t[m..] + "}}");
  }

  lemma NothingStarts(s: string, i: nat, raw: string, k: nat)
    requires StandsAt(s, i, Braced(raw)) && NoComment(raw) && i <= k < i + |Braced(raw)|
    ensures CommentEnd(s, k) == None
  {
    BracedChars(s, i, raw);
    if TwoAt(s, k, '{', '{') {
      OpensInside(s, i, "{{" + raw, k - i);
    }
  }

  lemma OpensInside(s: string, i: nat, t: string, m: nat)
    requires StandsAt(s, i, t + "}}") && m + 2 <= |t| && TwoAt(s, i + m, '{', '{')
    requires TwoAt(t, m, '{', '{') ==> !CommentStarts(t[m + 2..])
    ensures CommentEnd(s, i + m) == None
  {
    TwoIsLocal(s, i, t + "}}", m, '{', '{');
    RestStands(s, i, t, m + 2);
    if TwoAt(s, SkipSpace(s, AfterDash(s, i + m + 2)), '/', '*') {
      StartIsLocal(s, i + m + 2, t[m + 2..]);
    }
  }

  // ---------------------------------------------------------- comments, whole

  lemma {:induction false} SkipIsLocal(s: string, i: nat, b: string, p: nat)
    requires StandsAt(s, i, b) && p <= |b| && SkipSpace(b, p) < |b|
    ensures SkipSpace(s, i + p) == i + SkipSpace(b, p)
    decreases |b| - p
  {
    CharsAt(s, i, b);
    assert b[p] == s[i + p];
    if IsSpace(b[p]) {
      SkipIsLocal(s, i, b, p + 1);
    }
  }

  lemma TwoIsLocal(s: string, i: nat, b: string, p: nat, c: char, d: char)
    requires StandsAt(s, i, b) && p + 1 < |b|
    ensures TwoAt(s, i + p, c, d) == TwoAt(b, p, c, d)
  {
    CharsAt(s, i, b);
    assert b[p] == s[i + p] && b[p + 1] == s[i + (p + 1)];
  }

  predicate EndsBraced(b: string) {
    |b| >= 2 && b[|b| - 2] == '}' && b[|b| - 1] == '}'
  }

  lemma {:induction false} StopsBefore(b: string, p: nat)
    requires EndsBraced(b) && p <= |b| - 2
    ensures AfterDash(b, SkipSpace(b, p)) <= |b| - 2 && SkipSpace(b, p) < |b| - 1
    decreases |b| - p
  {
    if IsSpace(b[p]) {
      StopsBefore(b, p + 1);
    }
  }

  /** Behind `p` a run of white space and a dash end at the same place in the piece and in the text. */
  lemma RunIsLocal(s: string, i: nat, b: string, p: nat)
    requires StandsAt(s, i, b) && EndsBraced(b) && p <= |b| - 2
    ensures AfterDash(s, SkipSpace(s, i + p)) == i + AfterDash(b, SkipSpace(b, p))
  {
    StopsBefore(b, p);
    SkipIsLocal(s, i, b, p);
    CharsAt(s, i, b);
    var m := SkipSpace(b, p);
    assert b[m] == s[i + m];
  }

  lemma CloseIsLocal(s: string, i: nat, b: string, k: nat)
    requires StandsAt(s, i, b) && EndsBraced(b) && k <= |b| - 2
    ensures CloseAt(s, i + k) == (match CloseAt(b, k) case Some(e) => Some(i + e) case None => None)
  {
    TwoIsLocal(s, i, b, k, '*', '/');
    if TwoAt(b, k, '*', '/') {
      assert k + 2 <= |b| - 2;
      RunIsLocal(s, i, b, k + 2);
      StopsBefore(b, k + 2);
      TwoIsLocal(s, i, b, AfterDash(b, SkipSpace(b, k + 2)), '}', '}');
    }
  }

  lemma {:induction false} CloseFromIsLocal(s: string, i: nat, b: string, k: nat)
    requires StandsAt(s, i, b) && EndsBraced(b) && k <= |b| && CloseFrom(b, k).Some?
    ensures CloseFrom(s, i + k) == Some(i + CloseFrom(b, k).value)
    decreases |b| - k
  {
    hide CloseAt, EndsBraced;
    if k + 1 == |b| {
      NothingClosesAtTheEnd(b, k);
    } else if k < |b| - 1 {
      CloseIsLocal(s, i, b, k);
      if CloseAt(b, k) == None {
        CloseFromIsLocal(s, i, b, k + 1);
      }
    }
  }

  lemma NothingClosesAtTheEnd(b: string, k: nat)
    requires k + 1 == |b|
    ensures CloseFrom(b, k) == None
  {
  }

  lemma CommentIsWhole(s: string, i: nat, raw: string)
    requires StandsAt(s, i, Braced(raw)) && IsComment(raw)
    ensures CommentEnd(s, i) == Some(i + |Braced(raw)|)
  {
    var b := Braced(raw);
    assert EndsBraced(b);
    TwoIsLocal(s, i, b, 0, '{', '{');
    CharsAt(s, i, b);
    assert b[2] == s[i + 2];
    var p := AfterDash(b, 2);
    assert AfterDash(s, i + 2) == i + p;
    StopsBefore(b, p);
    SkipIsLocal(s, i, b, p);
    var j := SkipSpace(b, p);
    TwoIsLocal(s, i, b, j, '/', '*');
    CloseFromIsLocal(s, i, b, j + 2);
  }

  lemma {:induction false} BlockOfComments(s: string, i: nat, n: Node)
    requires NodeCommented(n) && n.Block? && StandsAt(s, i, PrintNode(n))
    requires Ends(Comments(s), i + |Braced(n.open)|, n.body)
    ensures NodeEnds(Comments(s), i, n)
  {
    PiecesStand(s, i, n);
    ActionIsSilent(s, i, n.open);
    ActionIsSilent(s, i + |Braced(n.open)| + |Print(n.body)|, n.close);
  }

  lemma FlatComments(s: string, i: nat, n: Node)
    requires NodeCommented(n) && !n.Block? && StandsAt(s, i, PrintNode(n))
    ensures NodeEnds(Comments(s), i, n)
  {
    match n {
      case Text(t) => TextIsSilent(s, i, t);
      case Leaf(raw) => ActionIsSilent(s, i, raw);
      case Comment(raw) => CommentIsWhole(s, i, raw);
    }
  }

  lemma {:induction false} NodeComments(s: string, i: nat, n: Node)
    requires NodeCommented(n) && StandsAt(s, i, PrintNode(n))
    ensures NodeEnds(Comments(s), i, n)
    decreases n, 1
  {
    if n.Block? {
      PiecesStand(s, i, n);
      TreeComments(s, i + |Braced(n.open)|, n.body);
      BlockOfComments(s, i, n);
    } else {
      FlatComments(s, i, n);
    }
  }

  /** The comments found in a printed tree are the tree's, where the tree has them. */
  lemma {:induction false} TreeComments(s: string, i: nat, ns: seq<Node>)
    requires Commented(ns) && StandsAt(s, i, Print(ns))
    ensures Ends(Comments(s), i, ns)
    decreases ns, 0
  {
    if ns != [] {
      SplitAtPiece(s, i, PrintNode(ns[0]), Print(ns[1..]));
      NodeComments(s, i, ns[0]);
      TreeComments(s, i + |PrintNode(ns[0])|, ns[1..]);
    }
  }

  // ------------------------------------------------------------- whole trees

  lemma FlatReplaced(s: string, i: nat, n: Node, end: nat -> Option<nat>, fill: string -> string)
    requires NodeEnds(end, i, n) && StandsAt(s, i, PrintNode(n)) && !n.Block?
    ensures Becomes(s, i, i + |PrintNode(n)|, end, fill, PrintNode(SwapNode(n, fill)))
  {
    if !n.Comment? {
      KeptAsIs(s, i, i + |PrintNode(n)|, end, fill);
    }
  }

  lemma PieceKept(s: string, i: nat, piece: string, end: nat -> Option<nat>, fill: string -> string)
    requires StandsAt(s, i, piece) && Silent(end, i, i + |piece|)
    ensures Becomes(s, i, i + |piece|, end, fill, piece)
  {
    KeptAsIs(s, i, i + |piece|, end, fill);
  }

  lemma AroundReplaced(s: string, i: nat, open: string, inside: nat, last: nat, out: string, close: string,
                       end: nat -> Option<nat>, fill: string -> string)
    requires StandsAt(s, i, open) && Silent(end, i, i + |open|) && inside == i + |open|
    requires Becomes(s, inside, last, end, fill, out)
    requires StandsAt(s, last, close) && Silent(end, last, last + |close|)
    ensures Becomes(s, i, last + |close|, end, fill, open + (out + close))
  {
    PieceKept(s, i, open, end, fill);
    PieceKept(s, last, close, end, fill);
    BecomesThree(s, i, inside, last, last + |close|, end, fill, open, out, close);
  }

  lemma {:induction false} BlockReplaced(s: string, i: nat, n: Node, end: nat -> Option<nat>, fill: string -> string)
    requires NodeEnds(end, i, n) && StandsAt(s, i, PrintNode(n)) && n.Block?
    ensures Becomes(s, i, i + |PrintNode(n)|, end, fill, PrintNode(SwapNode(n, fill)))
    decreases n, 1
  {
    var inside := i + |Braced(n.open)|;
    PiecesStand(s, i, n);
    TreeReplaced(s, inside, n.body, end, fill);
    AroundReplaced(s, i, Braced(n.open), inside, inside + |Print(n.body)|, Print(Swap(n.body, fill)), Braced(n.close), end, fill);
  }

  lemma {:induction false} NodeReplaced(s: string, i: nat, n: Node, end: nat -> Option<nat>, fill: string -> string)
    requires NodeEnds(end, i, n) && StandsAt(s, i, PrintNode(n))
    ensures Becomes(s, i, i + |PrintNode(n)|, end, fill, PrintNode(SwapNode(n, fill)))
    decreases n, 2
  {
    if n.Block? {
      BlockReplaced(s, i, n, end, fill);
    } else {
      FlatReplaced(s, i, n, end, fill);
    }
  }

  lemma SwapInTurn(ns: seq<Node>, fill: string -> string)
    requires ns != []
    ensures Print(Swap(ns, fill)) == PrintNode(SwapNode(ns[0], fill)) + Print(Swap(ns[1..], fill))
  {
    assert Swap(ns, fill)[1..] == Swap(ns[1..], fill);
  }

  lemma {:induction false} TreeReplaced(s: string, i: nat, ns: seq<Node>, end: nat -> Option<nat>, fill: string -> string)
    requires Ends(end, i, ns) && StandsAt(s, i, Print(ns))
    ensures Becomes(s, i, i + |Print(ns)|, end, fill, Print(Swap(ns, fill)))
    decreases ns, 0
  {
    if ns != [] {
      var j := i + |PrintNode(ns[0])|;
      SplitAtPiece(s, i, PrintNode(ns[0]), Print(ns[1..]));
      NodeReplaced(s, i, ns[0], end, fill);
      TreeReplaced(s, j, ns[1..], end, fill);
      BecomesInTurn(s, i, j, j + |Print(ns[1..])|, end, fill, PrintNode(SwapNode(ns[0], fill)), Print(Swap(ns[1..], fill)));
      SwapInTurn(ns, fill);
    }
  }

  /** Replacing the comments of a printed tree prints the tree with its comments turned into text. */
  lemma ReplaceOfPrint(ns: seq<Node>, fill: string -> string)
    requires Commented(ns)
    ensures Replaced(Print(ns), fill) == Print(Swap(ns, fill))
  {
    var text := Print(ns);
    assert text[0..0 + |text|] == text;
    TreeComments(text, 0, ns);
    TreeReplaced(text, 0, ns, Comments(text), fill);
    assert Print(Swap(ns, fill)) + "" == Print(Swap(ns, fill));
  }
}
