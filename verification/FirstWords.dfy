/** scripts/check-orphan-templates.py: exactly when reading first words finds every define's own body. */
module FirstWords {
  import opened Prelude
  import opened TemplateText
  import opened HelperDocs
  import opened HelperEvents
  import opened TemplateComments
  import opened O = OrphanTemplates

  // ------------------------------------------------- first words and keywords

  /** The reader misses openers and takes other actions for an end, but never the other way round. */
  ghost predicate Lower(words: Reader, keys: Reader) {
    && Sound(words) && Sound(keys) && words.name == keys.name
    && (forall raw :: keys.kind(raw) == Opens ==> words.kind(raw) != Closes)
    && (forall raw :: keys.kind(raw) == Plain ==> words.kind(raw) != Opens)
    && (forall raw :: keys.kind(raw) == Closes ==> words.kind(raw) == Closes)
  }

  lemma {:induction false} FirstWordBegins(s: string)
    ensures FirstWord(s) <= s && (|FirstWord(s)| < |s| ==> IsSpace(s[|FirstWord(s)|]))
    ensures forall k :: 0 <= k < |FirstWord(s)| ==> !IsSpace(s[k])
  {
    if s != "" && !IsSpace(s[0]) {
      FirstWordBegins(s[1..]);
    }
  }

  lemma {:induction false} OnlySpaceIsStripped(s: string)
    ensures RStrip(s) <= s && forall k :: |RStrip(s)| <= k < |s| ==> IsSpace(s[k])
  {
    if s != "" && IsSpace(s[|s| - 1]) {
      OnlySpaceIsStripped(s[..|s| - 1]);
    }
  }

  lemma SpaceIsNoWord(c: char)
    requires IsSpace(c)
    ensures !IsWord(c)
  {
  }

  lemma KeywordIsNoEnd(s: string, word: string)
    requires word in OPENS && word <= s
    ensures FirstWord(s) != "end"
  {
    FirstWordBegins(s);
    assert s[0] == word[0] && word[0] != 'e';
  }

  lemma EndIsFirstWord(s: string)
    requires RStrip(s) == "end"
    ensures FirstWord(s) == "end"
  {
    OnlySpaceIsStripped(s);
    var rest := s[3..];
    assert s == "end" + rest;
    assert rest != "" ==> rest[0] == s[3];
    WordEnds("end", rest);
  }

  lemma OpenerIsNoEnd(raw: string)
    ensures KeywordKind(raw) == Opens ==> HeadKind(raw) != Closes
  {
    if KeywordKind(raw) == Opens {
      var s := LStrip(Inner(raw));
      var word :| word in OPENS && StartsWord(s, word);
      KeywordIsNoEnd(s, word);
    }
  }

  lemma FirstWordStarts(s: string)
    ensures StartsWord(s, FirstWord(s))
  {
    FirstWordBegins(s);
    if |FirstWord(s)| < |s| {
      SpaceIsNoWord(s[|FirstWord(s)|]);
    }
  }

  lemma PlainIsNoOpener(raw: string)
    ensures KeywordKind(raw) == Plain ==> HeadKind(raw) != Opens
  {
    FirstWordStarts(LStrip(Inner(raw)));
  }

  lemma EndIsEnd(raw: string)
    ensures KeywordKind(raw) == Closes ==> HeadKind(raw) == Closes
  {
    if KeywordKind(raw) == Closes {
      EndIsFirstWord(LStrip(Inner(raw)));
      assert forall k :: 0 <= k < |OPENS| ==> OPENS[k][0] != 'e';
    }
  }

  lemma HeadIsLower()
    ensures Lower(ByHead(), ByKeyword())
  {
    hide KeywordKind, HeadKind, NameIn;
    ByHeadIsSound();
    ByKeywordIsSound();
    forall raw
      ensures KeywordKind(raw) == Opens ==> HeadKind(raw) != Closes
      ensures KeywordKind(raw) == Plain ==> HeadKind(raw) != Opens
      ensures KeywordKind(raw) == Closes ==> HeadKind(raw) == Closes
    {
      OpenerIsNoEnd(raw);
      PlainIsNoOpener(raw);
      EndIsEnd(raw);
    }
  }

  // ---------------------------------------------------------- one body's end

  /** A scan enters a piece at a depth: it stops inside the piece, or leaves it at a depth. */
  datatype Passage = Stops(at: Hit) | Leaves(depth: nat)

  ghost predicate Passes(p: Passage, hits: seq<Hit>, behind: seq<Hit>, depth: nat, words: Reader) {
    EndIn(hits + behind, depth, words) == if p.Stops? then Some(p.at) else EndIn(behind, p.depth, words)
  }

  /** It never leaves deeper than it came, and as deep exactly when the piece is read as the blocks it is. */
  ghost predicate Judges(p: Passage, base: nat, to: nat, depth: nat, shaped: bool) {
    match p
    case Stops(at) => base <= at.start < to && !shaped
    case Leaves(left) => 1 <= left <= depth && (left == depth <==> shaped)
  }

  lemma {:induction false} NodePassage(n: Node, base: nat, behind: seq<Hit>, depth: nat, words: Reader, keys: Reader)
    returns (p: Passage)
    requires Lower(words, keys) && NodeShaped(n, keys) && depth >= 1
    ensures Passes(p, NodeHits(n, base), behind, depth, words)
    ensures Judges(p, base, base + |PrintNode(n)|, depth, NodeShaped(n, words))
    decreases n, 2
  {
    if n.Block? {
      p := BlockPassage(n, base, behind, depth, words, keys);
    } else {
      p := FlatPassage(n, base, behind, depth, words, keys);
    }
  }

  lemma FlatPassage(n: Node, base: nat, behind: seq<Hit>, depth: nat, words: Reader, keys: Reader) returns (p: Passage)
    requires Lower(words, keys) && NodeShaped(n, keys) && depth >= 1 && !n.Block?
    ensures Passes(p, NodeHits(n, base), behind, depth, words)
    ensures Judges(p, base, base + |PrintNode(n)|, depth, NodeShaped(n, words))
  {
    hide EndIn;
    if n.Text? {
      assert [] + behind == behind;
      p := Leaves(depth);
    } else {
      var hit := HitAt(n.raw, base);
      assert words.kind(n.raw) != Opens && (n.Comment? ==> words.kind(n.raw) == Plain);
      EndStep(hit, behind, depth, words);
      p := if words.kind(n.raw) != Closes then Leaves(depth) else if depth == 1 then Stops(hit) else Leaves(depth - 1);
    }
  }

  lemma {:induction false} BlockPassage(n: Node, base: nat, behind: seq<Hit>, depth: nat, words: Reader, keys: Reader)
    returns (p: Passage)
    requires Lower(words, keys) && NodeShaped(n, keys) && depth >= 1 && n.Block?
    ensures Passes(p, NodeHits(n, base), behind, depth, words)
    ensures Judges(p, base, base + |PrintNode(n)|, depth, NodeShaped(n, words))
    decreases n, 1
  {
    hide EndIn, Print, Hits;
    var inside := base + |Braced(n.open)|;
    var start, end := HitAt(n.open, base), HitAt(n.close, inside + |Print(n.body)|);
    var within := if words.kind(n.open) == Opens then depth + 1 else depth;
    BlockInTurn(n, base, inside, behind);
    EndStep(start, Hits(n.body, inside) + ([end] + behind), depth, words);
    p := TreePassage(n.body, inside, [end] + behind, within, words, keys);
    if p.Leaves? {
      EndStep(end, behind, p.depth, words);
      p := if p.depth == 1 then Stops(end) else Leaves(p.depth - 1);
    }
  }

  lemma {:induction false} TreePassage(ns: seq<Node>, base: nat, behind: seq<Hit>, depth: nat, words: Reader, keys: Reader)
    returns (p: Passage)
    requires Lower(words, keys) && Shaped(ns, keys) && depth >= 1
    ensures Passes(p, Hits(ns, base), behind, depth, words)
    ensures Judges(p, base, base + |Print(ns)|, depth, Shaped(ns, words))
    decreases ns, 0
  {
    hide EndIn, Lower, NodeShaped;
    if ns == [] {
      assert [] + behind == behind;
      p := Leaves(depth);
    } else {
      var next := base + |PrintNode(ns[0])|;
      assert Hits(ns, base) + behind == NodeHits(ns[0], base) + (Hits(ns[1..], next) + behind);
      p := NodePassage(ns[0], base, Hits(ns[1..], next) + behind, depth, words, keys);
      if p.Leaves? {
        p := TreePassage(ns[1..], next, behind, p.depth, words, keys);
      }
    }
  }

  // -------------------------------------------------------------- every body

  /** Each define of the tree, at any depth, is read as the blocks it holds. */
  predicate DefinesRead(ns: seq<Node>, words: Reader) {
    ns == [] || (NodeDefinesRead(ns[0], words) && DefinesRead(ns[1..], words))
  }

  predicate NodeDefinesRead(n: Node, words: Reader) {
    n.Block? ==> (words.name(n.open).Some? ==> Shaped(n.body, words)) && DefinesRead(n.body, words)
  }

  /** As many bodies as the tree has defines, under the same names, and the same bodies exactly when `read`. */
  ghost predicate Matches(found: seq<Body>, defines: seq<Define>, read: bool) {
    && |found| == |defines|
    && (forall k :: 0 <= k < |found| ==> found[k].name == defines[k].name)
    && (found == Named(defines) <==> read)
  }

  lemma {:induction false} NamedIs(defines: seq<Define>)
    ensures |Named(defines)| == |defines|
    ensures forall k :: 0 <= k < |defines| ==> Named(defines)[k] == Body(defines[k].name, defines[k].body)
  {
    if defines != [] {
      NamedIs(defines[1..]);
    }
  }

  lemma MatchesInTurn(f: seq<Body>, g: seq<Body>, a: seq<Define>, b: seq<Define>, first: bool, second: bool)
    requires Matches(f, a, first) && Matches(g, b, second)
    ensures Matches(f + g, a + b, first && second)
  {
    hide Named;
    NamedIs(a);
    NamedInTurn(a, b);
    assert (f + g)[..|f|] == f && (f + g)[|f|..] == g;
    assert (Named(a) + Named(b))[..|f|] == Named(a) && (Named(a) + Named(b))[|f|..] == Named(b);
  }

  lemma OneBody(name: string, text: string, define: Define)
    requires define.name == name
    ensures Matches([Body(name, text)], [define], text == define.body)
  {
    assert [define][1..] == [];
  }

  /** A define's own body is found, or a shorter one. */
  lemma OwnBodyOrShorter(text: string, n: Node, base: nat, behind: seq<Hit>, depth: nat, words: Reader, keys: Reader)
    returns (found: seq<Body>)
    requires Lower(words, keys) && n.Block? && NodeShaped(n, keys)
    requires StandsAt(text, base + |Braced(n.open)|, Print(n.body))
    ensures var inside := base + |Braced(n.open)|;
            var rest := Hits(n.body, inside) + ([HitAt(n.close, inside + |Print(n.body)|)] + behind);
            found == BodyAt(text, HitAt(n.open, base), rest, words)
    ensures Matches(found, OwnDefine(n.open, n.body, depth, words.name), words.name(n.open).Some? ==> Shaped(n.body, words))
  {
    hide EndIn, Print, Hits, Shaped;
    var inside := base + |Braced(n.open)|;
    var end := HitAt(n.close, inside + |Print(n.body)|);
    var rest := Hits(n.body, inside) + ([end] + behind);
    found := BodyAt(text, HitAt(n.open, base), rest, words);
    if words.name(n.open).Some? {
      var p := BodyPassage(n, inside, end, behind, words, keys);
      EndStep(end, behind, 1, words);
      var own := if p.Stops? then Slice(text, inside, p.at.start) else Slice(text, inside, end.start);
      OneBody(words.name(n.open).value, own, Define(words.name(n.open).value, Print(n.body), depth));
    }
  }

  lemma BodyPassage(n: Node, inside: nat, end: Hit, behind: seq<Hit>, words: Reader, keys: Reader)
    returns (p: Passage)
    requires Lower(words, keys) && n.Block? && NodeShaped(n, keys)
    ensures Passes(p, Hits(n.body, inside), [end] + behind, 1, words)
    ensures Judges(p, inside, inside + |Print(n.body)|, 1, Shaped(n.body, words))
  {
    p := TreePassage(n.body, inside, [end] + behind, 1, words, keys);
  }

  /** What the scan finds of a piece, and that it goes on behind it. */
  ghost predicate FindsBodies(text: string, found: seq<Body>, hits: seq<Hit>, behind: seq<Hit>, words: Reader) {
    Bodies(text, hits + behind, words) == found + Bodies(text, behind, words)
  }

  lemma {:induction false} NodeBodiesOrShorter(text: string, n: Node, base: nat, behind: seq<Hit>, depth: nat,
                                               words: Reader, keys: Reader)
    returns (found: seq<Body>)
    requires Lower(words, keys) && NodeShaped(n, keys)
    requires n.Block? ==> StandsAt(text, base + |Braced(n.open)|, Print(n.body))
    ensures FindsBodies(text, found, NodeHits(n, base), behind, words)
    ensures Matches(found, DefinesOfNode(n, depth, words.name), NodeDefinesRead(n, words))
    decreases n, 2
  {
    if n.Block? {
      found := BlockBodiesOrShorter(text, n, base, behind, depth, words, keys);
    } else {
      found := [];
      if n.Text? {
        assert [] + behind == behind;
      } else {
        assert words.name(n.raw) == None;
        BodiesFrom(text, HitAt(n.raw, base), behind, words);
      }
      assert [] + Bodies(text, behind, words) == Bodies(text, behind, words);
    }
  }

  lemma {:induction false} BlockBodiesOrShorter(text: string, n: Node, base: nat, behind: seq<Hit>, depth: nat,
                                                words: Reader, keys: Reader)
    returns (found: seq<Body>)
    requires Lower(words, keys) && NodeShaped(n, keys) && n.Block?
    requires StandsAt(text, base + |Braced(n.open)|, Print(n.body))
    ensures FindsBodies(text, found, NodeHits(n, base), behind, words)
    ensures Matches(found, DefinesOfNode(n, depth, words.name), NodeDefinesRead(n, words))
    decreases n, 1
  {
    hide Bodies, BodyAt, Hits, Print, Matches, Shaped, Defines;
    var inside := base + |Braced(n.open)|;
    var start, end := HitAt(n.open, base), HitAt(n.close, inside + |Print(n.body)|);
    BlockInTurn(n, base, inside, behind);
    BodiesFrom(text, start, Hits(n.body, inside) + ([end] + behind), words);
    var own := OwnBodyOrShorter(text, n, base, behind, depth, words, keys);
    BodyIsShaped(n, keys);
    var more := TreeBodiesOrShorter(text, n.body, inside, [end] + behind, depth + 1, words, keys);
    CloserHasNoBody(text, n, end, behind, words, keys);
    MatchesInTurn(own, more, OwnDefine(n.open, n.body, depth, words.name), Defines(n.body, depth + 1, words.name),
                  words.name(n.open).Some? ==> Shaped(n.body, words), DefinesRead(n.body, words));
    found := own + more;
    assert own + (more + Bodies(text, behind, words)) == own + more + Bodies(text, behind, words);
  }

  lemma BodyIsShaped(n: Node, keys: Reader)
    requires n.Block? && NodeShaped(n, keys)
    ensures Shaped(n.body, keys)
  {
  }

  lemma CloserHasNoBody(text: string, n: Node, end: Hit, behind: seq<Hit>, words: Reader, keys: Reader)
    requires Lower(words, keys) && n.Block? && NodeShaped(n, keys) && end.raw == n.close
    ensures Bodies(text, [end] + behind, words) == Bodies(text, behind, words)
  {
    NamelessBodies(text, end, behind, words);
  }

  lemma BodiesInTurn(text: string, first: seq<Body>, more: seq<Body>, a: seq<Hit>, b: seq<Hit>, behind: seq<Hit>, words: Reader)
    requires FindsBodies(text, first, a, b + behind, words) && FindsBodies(text, more, b, behind, words)
    ensures FindsBodies(text, first + more, a + b, behind, words)
  {
    hide Bodies;
    assert a + b + behind == a + (b + behind);
    assert first + (more + Bodies(text, behind, words)) == first + more + Bodies(text, behind, words);
  }

  lemma NothingFound(text: string, behind: seq<Hit>, words: Reader)
    ensures FindsBodies(text, [], [], behind, words)
  {
    hide Bodies;
    assert [] + behind == behind && [] + Bodies(text, behind, words) == Bodies(text, behind, words);
  }

  lemma {:induction false} TreeBodiesOrShorter(text: string, ns: seq<Node>, base: nat, behind: seq<Hit>, depth: nat,
                                               words: Reader, keys: Reader)
    returns (found: seq<Body>)
    requires Lower(words, keys) && Shaped(ns, keys) && StandsAt(text, base, Print(ns))
    ensures FindsBodies(text, found, Hits(ns, base), behind, words)
    ensures Matches(found, Defines(ns, depth, words.name), DefinesRead(ns, words))
    decreases ns, 0
  {
    hide Bodies, FindsBodies, Lower, NodeShaped, DefinesOfNode, NodeDefinesRead;
    if ns == [] {
      found := [];
      NothingFound(text, behind, words);
    } else {
      hide Matches;
      var next := base + |PrintNode(ns[0])|;
      SplitAtPiece(text, base, PrintNode(ns[0]), Print(ns[1..]));
      if ns[0].Block? {
        PiecesStand(text, base, ns[0]);
      }
      var first := NodeBodiesOrShorter(text, ns[0], base, Hits(ns[1..], next) + behind, depth, words, keys);
      var more := TreeBodiesOrShorter(text, ns[1..], next, behind, depth, words, keys);
      MatchesInTurn(first, more, DefinesOfNode(ns[0], depth, words.name), Defines(ns[1..], depth, words.name),
                    NodeDefinesRead(ns[0], words), DefinesRead(ns[1..], words));
      BodiesInTurn(text, first, more, NodeHits(ns[0], base), Hits(ns[1..], next), behind, words);
      found := first + more;
    }
  }

  // ---------------------------------------------------------------- exactly

  /** Strictly inside a define each opener's first word is a keyword, and no plain action's first word is `end`. */
  predicate WordsSuffice(ns: seq<Node>, inside: bool) {
    ns == [] || (NodeWordsSuffice(ns[0], inside) && WordsSuffice(ns[1..], inside))
  }

  predicate NodeWordsSuffice(n: Node, inside: bool) {
    match n
    case Leaf(raw) => inside ==> Head(Inner(raw)) != "end"
    case Block(open, body, _) =>
      (inside ==> Head(Inner(open)) in OPENS) && WordsSuffice(body, inside || NameIn(open).Some?)
    case _ => true
  }

  lemma {:induction false} InsideIsShaped(ns: seq<Node>)
    requires Shaped(ns, ByKeyword())
    ensures WordsSuffice(ns, true) <==> Shaped(ns, ByHead())
    decreases ns
  {
    hide KeywordKind, NameIn, HeadKind;
    if ns != [] {
      NodeInside(ns[0]);
      InsideIsShaped(ns[1..]);
    }
  }

  lemma {:induction false} NodeInside(n: Node)
    requires NodeShaped(n, ByKeyword())
    ensures NodeWordsSuffice(n, true) <==> NodeShaped(n, ByHead())
    decreases n
  {
    hide KeywordKind, NameIn;
    HeadIsLower();
    match n {
      case Block(open, body, close) =>
        InsideIsShaped(body);
        assert ByKeyword().kind(close) == Closes;
        assert ByHead().kind(close) == Closes;
      case Leaf(raw) =>
        assert ByKeyword().kind(raw) == Plain;
        assert ByHead().kind(raw) != Opens;
      case _ =>
    }
  }

  lemma {:induction false} ShapedIsRead(ns: seq<Node>, words: Reader)
    requires Shaped(ns, words)
    ensures DefinesRead(ns, words)
    decreases ns
  {
    if ns != [] {
      if ns[0].Block? {
        ShapedIsRead(ns[0].body, words);
      }
      ShapedIsRead(ns[1..], words);
    }
  }

  lemma {:induction false} OutsideIsRead(ns: seq<Node>)
    requires Shaped(ns, ByKeyword())
    ensures WordsSuffice(ns, false) <==> DefinesRead(ns, ByHead())
    decreases ns
  {
    hide KeywordKind, NameIn, HeadKind;
    if ns != [] {
      if ns[0].Block? {
        var body := ns[0].body;
        assert Shaped(body, ByKeyword());
        InsideIsShaped(body);
        OutsideIsRead(body);
        if Shaped(body, ByHead()) {
          ShapedIsRead(body, ByHead());
        }
      }
      OutsideIsRead(ns[1..]);
    }
  }

  /**
   * On every balanced template the parser that reads first words finds each define once, under its name, and it finds
   * every body in full exactly when first words suffice: a block inside a define whose opener it misses, or a plain action
   * there whose first word is `end`, cuts that define's body short.
   */
  lemma BodiesOfPrintIff(ns: seq<Node>)
    requires AllOk(ns) && Shaped(ns, ByKeyword())
    ensures var found := Bodies(Print(ns), Actions(Print(ns)), ByHead());
            var defines := Defines(ns, 0, NameIn);
            && |found| == |defines| && (forall k :: 0 <= k < |found| ==> found[k].name == defines[k].name)
            && (found == Named(defines) <==> WordsSuffice(ns, false))
  {
    hide KeywordKind, NameIn, HeadKind, Bodies, ActionsFrom, Hits, Defines, Named, WordsSuffice;
    var text := Print(ns);
    assert text[0..0 + |text|] == text;
    ActionsOfPrint(ns);
    HeadIsLower();
    var found := TreeBodiesOrShorter(text, ns, 0, [], 0, ByHead(), ByKeyword());
    assert Hits(ns, 0) + [] == Hits(ns, 0);
    NoHitsNoBodies(text, ByHead());
    assert found + [] == found;
    OutsideIsRead(ns);
  }

  lemma NoHitsNoBodies(text: string, words: Reader)
    ensures Bodies(text, [], words) == []
  {
  }

  /**
   * The two independent parsers: one is to return every define with its body, the other records exactly those of them at
   * depth 0, in the same order. The names always agree, the bodies exactly when first words suffice.
   */
  lemma ParsersAgreeIff(ns: seq<Node>, line: nat -> nat)
    requires AllOk(ns) && Commented(ns) && Shaped(ns, ByKeyword()) && Grows(line)
    ensures var text, defines := Print(ns), Defines(ns, 0, NameIn);
            && NamesOf(DefinedOf(Parsed(text, ByKeyword(), HoldsText, line))) == AtTop(defines)
            && (Bodies(text, Actions(text), ByHead()) == Named(defines) <==> WordsSuffice(ns, false))
  {
    hide KeywordKind, NameIn, HoldsText, Parsed, Actions, Print, Defines, Bodies, WordsSuffice, HeadKind;
    BodiesOfPrintIff(ns);
    DefinesOfPrint(ns, line);
    TopItemsAreAtTop(ns, 0, NameIn, line);
  }
}
