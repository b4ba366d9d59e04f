/** Go-template text as the guards scan it, and as a tree of nodes that prints to it. */
module TemplateText {
  import opened Prelude

  // ------------------------------------------------------------------ actions

  /** Two `c` stand at `k` and `k + 1`. */
  predicate PairAt(s: string, k: int, c: char) {
    0 <= k < |s| - 1 && s[k] == c && s[k + 1] == c
  }

  /** The first position from `i` on where two `c` stand in a row, or the length. */
  function NextPair(s: string, i: nat, c: char): (e: nat)
    requires i <= |s|
    ensures i <= e <= |s| && (e < |s| ==> PairAt(s, e, c)) && forall k :: i <= k < e ==> !PairAt(s, k, c)
    decreases |s| - i
  {
    if i == |s| then i else if PairAt(s, i, c) then i else NextPair(s, i + 1, c)
  }

  function Dash(s: string): nat {
    if s != "" && s[0] == '-' then 1 else 0
  }

  function DropLastDash(s: string): string {
    if s != "" && s[|s| - 1] == '-' then s[..|s| - 1] else s
  }

  /** What stands between the braces and their trim dashes. */
  function Inner(raw: string): string {
    DropLastDash(raw[Dash(raw)..])
  }

  /** One action: where it starts and ends in the text, and what it holds between its braces. */
  datatype Hit = Hit(start: nat, end: nat, raw: string)

  /** Where the "}}" of an action that starts at `i` stands, or the length. */
  function CloseOf(text: string, i: nat): (e: nat)
    requires i + 2 <= |text|
    ensures i + 2 <= e <= |text|
  {
    NextPair(text, if i + 2 < |text| && text[i + 2] == '-' then i + 3 else i + 2, '}')
  }

  /** Every action from `i` on: each runs from "{{" to the next "}}". An unclosed "{{" leaves none behind it. */
  function ActionsFrom(text: string, i: nat): seq<Hit>
    requires i <= |text|
    decreases |text| - i
  {
    if i == |text| then []
    else if PairAt(text, i, '{') then
      var e := CloseOf(text, i);
      if e == |text| then [] else [Hit(i, e + 2, text[i + 2..e])] + ActionsFrom(text, e + 2)
    else ActionsFrom(text, i + 1)
  }

  function Actions(text: string): seq<Hit> {
    ActionsFrom(text, 0)
  }

  method ReadActions(text: string) returns (out: seq<Hit>)
    ensures out == Actions(text)
  {
    out := [];
    var i := 0;
    while i < |text|
      invariant 0 <= i <= |text|
      invariant Actions(text) == out + ActionsFrom(text, i)
    {
      if PairAt(text, i, '{') {
        var e := CloseOf(text, i);
        if e == |text| {
          return;
        }
        out := out + [Hit(i, e + 2, text[i + 2..e])];
        i := e + 2;
      } else {
        i := i + 1;
      }
    }
  }

  /** The first word of an action. */
  function Head(inner: string): string {
    FirstWord(LStrip(inner))
  }

  function FirstWord(s: string): string {
    if s == "" || IsSpace(s[0]) then "" else [s[0]] + FirstWord(s[1..])
  }

  const OPENS := ["if", "range", "with", "define", "block"]

  /** What a parser takes an action for. */
  datatype Kind = Opens | Closes | Plain

  /** How a parser reads an action: what it takes it for, and the name when it opens a define. */
  datatype Reader = Reader(kind: string -> Kind, name: string -> Option<string>)

  /** Only an opener has a name, and a comment opens and closes nothing. */
  ghost predicate Sound(reader: Reader) {
    && (forall raw :: reader.name(raw).Some? ==> reader.kind(raw) == Opens)
    && (forall raw :: CommentStarts(raw) ==> reader.kind(raw) == Plain)
  }

  /** The word a text begins with ends at its first white space. */
  lemma {:induction false} WordEnds(word: string, rest: string)
    requires (forall k :: 0 <= k < |word| ==> !IsSpace(word[k])) && (rest == "" || IsSpace(rest[0]))
    ensures FirstWord(word + rest) == word
  {
    if word == "" {
      assert "" + rest == rest;
    } else {
      assert (word + rest)[1..] == word[1..] + rest;
      WordEnds(word[1..], rest);
    }
  }

  /** The name of `define "<name>"`. */
  function DefineName(inner: string): Option<string> {
    var s := LStrip(inner);
    if !("define" <= s) then None else
      var rest := s[|"define"|..];
      var quoted := LStrip(rest);
      if quoted == rest || quoted == "" || quoted[0] != '"' then None else
        var name := quoted[1..];
        var i := IndexOf(name, '"');
        if 0 < i < |name| then Some(name[..i]) else None
  }

  lemma DefineIsFirst(inner: string)
    requires DefineName(inner).Some?
    ensures Head(inner) == "define"
  {
    var s := LStrip(inner);
    var rest := s[|"define"|..];
    assert s == "define" + rest;
    assert IsSpace(rest[0]);
    WordEnds("define", rest);
  }

  /** The name an action defines, if it opens a define. */
  function NameIn(raw: string): Option<string> {
    DefineName(Inner(raw))
  }

  // -------------------------------------------------------------------- nodes

  /** A template: text, an action that opens and closes nothing, a comment, or a block with its own end. */
  datatype Node =
    | Text(text: string)
    | Leaf(raw: string)
    | Comment(raw: string)
    | Block(open: string, body: seq<Node>, close: string)

  function Braced(raw: string): string {
    "{{" + raw + "}}"
  }

  function PrintNode(n: Node): string {
    match n
    case Text(text) => text
    case Leaf(raw) => Braced(raw)
    case Comment(raw) => Braced(raw)
    case Block(open, body, close) => Braced(open) + (Print(body) + Braced(close))
  }

  function Print(ns: seq<Node>): string {
    if ns == [] then "" else PrintNode(ns[0]) + Print(ns[1..])
  }

  /** From `from` on, `s` holds no two `c` in a row and does not end in `c`. */
  predicate NoPair(s: string, from: nat, c: char) {
    forall k :: from <= k < |s| && s[k] == c ==> k + 1 < |s| && s[k + 1] != c
  }

  /** The text holds no "{{", not even with an action right behind it. */
  predicate TextOk(t: string) {
    NoPair(t, 0, '{')
  }

  /** The action's own "}}" is the first one after its "{{". */
  predicate RawOk(raw: string) {
    NoPair(raw, Dash(raw), '}')
  }

  /** Every piece scans as itself. */
  predicate NodeOk(n: Node) {
    match n
    case Text(t) => TextOk(t)
    case Leaf(raw) => RawOk(raw)
    case Comment(raw) => RawOk(raw)
    case Block(open, body, close) => RawOk(open) && AllOk(body) && RawOk(close)
  }

  predicate AllOk(ns: seq<Node>) {
    ns == [] || (NodeOk(ns[0]) && AllOk(ns[1..]))
  }

  /** What the tree calls a block, the parser calls one too. */
  predicate NodeShaped(n: Node, reader: Reader) {
    match n
    case Text(_) => true
    case Leaf(raw) => reader.kind(raw) == Plain
    case Comment(raw) => CommentStarts(raw)
    case Block(open, body, close) => reader.kind(open) == Opens && reader.kind(close) == Closes && Shaped(body, reader)
  }

  predicate Shaped(ns: seq<Node>, reader: Reader) {
    ns == [] || (NodeShaped(ns[0], reader) && Shaped(ns[1..], reader))
  }

  /** Behind its trim dash and white space an action starts with a slash and a star. */
  predicate CommentStarts(raw: string) {
    "/*" <= LStrip(raw[Dash(raw)..])
  }

  // --------------------------------------------------------- scanning a print

  lemma {:induction false} StepsOver(text: string, i: nat, j: nat)
    requires i <= j <= |text| && forall k :: i <= k < j ==> !PairAt(text, k, '{')
    ensures ActionsFrom(text, i) == ActionsFrom(text, j)
    decreases j - i
  {
    if i < j {
      StepsOver(text, i + 1, j);
    }
  }

  /** A piece of text is passed over. */
  lemma TextSkipped(text: string, i: nat, t: string)
    requires StandsAt(text, i, t) && TextOk(t)
    ensures ActionsFrom(text, i) == ActionsFrom(text, i + |t|)
  {
    CharsAt(text, i, t);
    forall k | i <= k < i + |t|
      ensures !PairAt(text, k, '{')
    {
      var m := k - i;
      assert t[m] == text[i + m];
      if m + 1 < |t| {
        assert t[m + 1] == text[i + (m + 1)];
      }
      assert t[m] == '{' ==> m + 1 < |t| && t[m + 1] != '{';
    }
    StepsOver(text, i, i + |t|);
  }

  lemma FirstPairIs(s: string, i: nat, e: nat, c: char)
    requires i <= e < |s| && PairAt(s, e, c) && forall k :: i <= k < e ==> !PairAt(s, k, c)
    ensures NextPair(s, i, c) == e
  {
    var first := NextPair(s, i, c);
    assert first < e ==> PairAt(s, first, c);
  }

  lemma BracedChars(text: string, i: nat, raw: string)
    requires StandsAt(text, i, Braced(raw))
    ensures i + |raw| + 4 <= |text| && PairAt(text, i, '{') && PairAt(text, i + 2 + |raw|, '}')
    ensures text[i + 2..i + 2 + |raw|] == raw
  {
    var s := Braced(raw);
    CharsAt(text, i, s);
    assert s[0] == '{' && s[1] == '{' && s[2 + |raw|] == '}' && s[3 + |raw|] == '}';
    assert s[2..2 + |raw|] == raw;
    assert text[i + 2..i + 2 + |raw|] == text[i..i + |s|][2..2 + |raw|];
  }

  lemma FirstClose(text: string, at: nat, raw: string)
    requires at + |raw| + 2 <= |text| && text[at..at + |raw|] == raw && RawOk(raw) && PairAt(text, at + |raw|, '}')
    ensures NextPair(text, at + Dash(raw), '}') == at + |raw|
  {
    var e := at + |raw|;
    forall k | at + Dash(raw) <= k < e
      ensures !PairAt(text, k, '}')
    {
      assert raw[k - at] == text[k];
      if k + 1 < e {
        assert raw[k + 1 - at] == text[k + 1];
      }
    }
    FirstPairIs(text, at + Dash(raw), e, '}');
  }

  /** An action is read whole. */
  lemma BracedRead(text: string, i: nat, raw: string)
    requires StandsAt(text, i, Braced(raw)) && RawOk(raw)
    ensures ActionsFrom(text, i) == [Hit(i, i + |raw| + 4, raw)] + ActionsFrom(text, i + |raw| + 4)
  {
    hide NextPair, PairAt, RawOk, StandsAt;
    BracedChars(text, i, raw);
    FirstClose(text, i + 2, raw);
    assert raw != "" ==> text[i + 2] == text[i + 2..i + 2 + |raw|][0];
  }

  /** The actions of a printed tree, read off the tree. */
  function NodeHits(n: Node, base: nat): seq<Hit> {
    match n
    case Text(_) => []
    case Leaf(raw) => [HitAt(raw, base)]
    case Comment(raw) => [HitAt(raw, base)]
    case Block(open, body, close) =>
      var inside := base + |Braced(open)|;
      [HitAt(open, base)] + (Hits(body, inside) + [HitAt(close, inside + |Print(body)|)])
  }

  function HitAt(raw: string, base: nat): Hit {
    Hit(base, base + |Braced(raw)|, raw)
  }

  function Hits(ns: seq<Node>, base: nat): seq<Hit> {
    if ns == [] then [] else NodeHits(ns[0], base) + Hits(ns[1..], base + |PrintNode(ns[0])|)
  }

  /** Between `i` and `j` the scanner finds `hits`, whatever comes after. */
  ghost predicate Finds(text: string, i: nat, j: nat, hits: seq<Hit>) {
    i <= j <= |text| && ActionsFrom(text, i) == hits + ActionsFrom(text, j)
  }

  lemma FindsInTurn(text: string, i: nat, j: nat, k: nat, first: seq<Hit>, second: seq<Hit>)
    requires Finds(text, i, j, first) && Finds(text, j, k, second)
    ensures Finds(text, i, k, first + second)
  {
    var rest := ActionsFrom(text, k);
    assert first + (second + rest) == first + second + rest;
  }

  lemma FindsThree(text: string, i: nat, j: nat, k: nat, l: nat, first: seq<Hit>, second: seq<Hit>, third: seq<Hit>)
    requires Finds(text, i, j, first) && Finds(text, j, k, second) && Finds(text, k, l, third)
    ensures Finds(text, i, l, first + (second + third))
  {
    FindsInTurn(text, j, k, l, second, third);
    FindsInTurn(text, i, j, l, first, second + third);
  }

  lemma SplitAtThree(text: string, i: nat, a: string, b: string, c: string)
    requires StandsAt(text, i, a + (b + c))
    ensures StandsAt(text, i, a) && StandsAt(text, i + |a|, b) && StandsAt(text, i + |a| + |b|, c)
  {
    SplitAtPiece(text, i, a, b + c);
    SplitAtPiece(text, i + |a|, b, c);
  }

  /** The pieces of a block stand one behind the other. */
  lemma PiecesStand(text: string, i: nat, n: Node)
    requires n.Block? && StandsAt(text, i, PrintNode(n))
    ensures var inside := i + |Braced(n.open)|;
            var last := inside + |Print(n.body)|;
            StandsAt(text, i, Braced(n.open)) && StandsAt(text, inside, Print(n.body)) && StandsAt(text, last, Braced(n.close))
    ensures |PrintNode(n)| == |Braced(n.open)| + |Print(n.body)| + |Braced(n.close)|
  {
    SplitAtThree(text, i, Braced(n.open), Print(n.body), Braced(n.close));
  }

  lemma FindsBraced(text: string, i: nat, raw: string)
    requires StandsAt(text, i, Braced(raw)) && RawOk(raw)
    ensures Finds(text, i, i + |Braced(raw)|, [HitAt(raw, i)])
  {
    BracedRead(text, i, raw);
  }

  lemma FindsText(text: string, i: nat, t: string)
    requires StandsAt(text, i, t) && TextOk(t)
    ensures Finds(text, i, i + |t|, [])
  {
    TextSkipped(text, i, t);
  }

  lemma {:induction false} NodeRead(text: string, i: nat, n: Node)
    requires NodeOk(n) && StandsAt(text, i, PrintNode(n))
    ensures Finds(text, i, i + |PrintNode(n)|, NodeHits(n, i))
    decreases n, 1
  {
    hide ActionsFrom, Finds, StandsAt, Braced, HitAt, TextOk, RawOk;
    match n {
      case Text(t) => FindsText(text, i, t);
      case Leaf(raw) => FindsBraced(text, i, raw);
      case Comment(raw) => FindsBraced(text, i, raw);
      case Block(open, body, close) =>
        PiecesStand(text, i, n);
        var inside := i + |Braced(open)|;
        BlockRead(text, i, inside, inside + |Print(body)|, open, body, close);
    }
  }

  lemma FindsAround(text: string, i: nat, open: string, inside: nat, last: nat, found: seq<Hit>, close: string)
    requires RawOk(open) && StandsAt(text, i, Braced(open)) && inside == i + |Braced(open)|
    requires Finds(text, inside, last, found)
    requires RawOk(close) && StandsAt(text, last, Braced(close))
    ensures Finds(text, i, last + |Braced(close)|, [HitAt(open, i)] + (found + [HitAt(close, last)]))
  {
    FindsBraced(text, i, open);
    FindsBraced(text, last, close);
    FindsThree(text, i, inside, last, last + |Braced(close)|, [HitAt(open, i)], found, [HitAt(close, last)]);
  }

  lemma {:induction false} BlockRead(text: string, i: nat, inside: nat, last: nat,
                                     open: string, body: seq<Node>, close: string)
    requires RawOk(open) && AllOk(body) && RawOk(close)
    requires inside == i + |Braced(open)| && last == inside + |Print(body)|
    requires StandsAt(text, i, Braced(open)) && StandsAt(text, inside, Print(body)) && StandsAt(text, last, Braced(close))
    ensures Finds(text, i, last + |Braced(close)|, [HitAt(open, i)] + (Hits(body, inside) + [HitAt(close, last)]))
    decreases body, 1
  {
    hide *;
    TreeRead(text, inside, body);
    FindsAround(text, i, open, inside, last, Hits(body, inside), close);
  }

  lemma {:induction false} FirstStands(text: string, i: nat, ns: seq<Node>)
    requires ns != [] && StandsAt(text, i, Print(ns))
    ensures StandsAt(text, i, PrintNode(ns[0])) && StandsAt(text, i + |PrintNode(ns[0])|, Print(ns[1..]))
    ensures |Print(ns)| == |PrintNode(ns[0])| + |Print(ns[1..])|
  {
    SplitAtPiece(text, i, PrintNode(ns[0]), Print(ns[1..]));
  }

  lemma NothingRead(text: string, i: nat)
    requires StandsAt(text, i, "")
    ensures Finds(text, i, i, [])
  {
  }

  lemma {:induction false} TreeRead(text: string, i: nat, ns: seq<Node>)
    requires AllOk(ns) && StandsAt(text, i, Print(ns))
    ensures Finds(text, i, i + |Print(ns)|, Hits(ns, i))
    decreases ns, 0
  {
    hide ActionsFrom, Finds, StandsAt, NodeOk, NodeHits, PrintNode;
    if ns == [] {
      NothingRead(text, i);
    } else {
      var j := i + |PrintNode(ns[0])|;
      FirstStands(text, i, ns);
      NodeRead(text, i, ns[0]);
      TreeRead(text, j, ns[1..]);
      FindsInTurn(text, i, j, j + |Print(ns[1..])|, NodeHits(ns[0], i), Hits(ns[1..], j));
    }
  }

  /** The scanner finds exactly the actions of the tree, where the tree has them. */
  lemma ActionsOfPrint(ns: seq<Node>)
    requires AllOk(ns)
    ensures Actions(Print(ns)) == Hits(ns, 0)
  {
    var text := Print(ns);
    assert text[0..0 + |text|] == text;
    TreeRead(text, 0, ns);
  }

  // ------------------------------------------------------------------ defines

  datatype Define = Define(name: string, body: string, depth: nat)

  /** The defines of a tree in the order they open, each with the text up to its own end and how deep it is nested. */
  function DefinesOfNode(n: Node, depth: nat, name: string -> Option<string>): seq<Define> {
    match n
    case Block(open, body, _) => OwnDefine(open, body, depth, name) + Defines(body, depth + 1, name)
    case _ => []
  }

  function OwnDefine(open: string, body: seq<Node>, depth: nat, name: string -> Option<string>): seq<Define> {
    match name(open)
    case Some(n) => [Define(n, Print(body), depth)]
    case None => []
  }

  function Defines(ns: seq<Node>, depth: nat, name: string -> Option<string>): seq<Define> {
    if ns == [] then [] else DefinesOfNode(ns[0], depth, name) + Defines(ns[1..], depth, name)
  }

  /** A tree of one node is that node. */
  lemma OneNode(n: Node, base: nat, depth: nat, reader: Reader)
    ensures Print([n]) == PrintNode(n) && Hits([n], base) == NodeHits(n, base)
    ensures AllOk([n]) == NodeOk(n) && Shaped([n], reader) == NodeShaped(n, reader)
    ensures Defines([n], depth, reader.name) == DefinesOfNode(n, depth, reader.name)
  {
    assert [n][1..] == [];
    assert PrintNode(n) + "" == PrintNode(n);
    assert NodeHits(n, base) + [] == NodeHits(n, base);
    assert DefinesOfNode(n, depth, reader.name) + [] == DefinesOfNode(n, depth, reader.name);
  }
}
