/** scripts/check-orphan-templates.py: the body of every define, up to its own `end`. */
module OrphanTemplates {
  import opened Prelude
  import opened TemplateText

  /** An action is what its first word says. */
  function HeadKind(raw: string): Kind {
    var head := Head(Inner(raw));
    if head in OPENS then Opens else if head == "end" then Closes else Plain
  }

  function ByHead(): Reader {
    Reader(HeadKind, NameIn)
  }

  /** The action that brings `depth` open blocks down to none. */
  function EndIn(hits: seq<Hit>, depth: nat, reader: Reader): Option<Hit> {
    if hits == [] then None else
      match reader.kind(hits[0].raw)
      case Opens => EndIn(hits[1..], depth + 1, reader)
      case Plain => EndIn(hits[1..], depth, reader)
      case Closes => if depth <= 1 then Some(hits[0]) else EndIn(hits[1..], depth - 1, reader)
  }

  datatype Body = Body(name: string, text: string)

  function BodyAt(text: string, hit: Hit, behind: seq<Hit>, reader: Reader): seq<Body> {
    match (reader.name(hit.raw), EndIn(behind, 1, reader))
    case (Some(name), Some(end)) => [Body(name, Slice(text, hit.end, end.start))]
    case _ => []
  }

  function Bodies(text: string, hits: seq<Hit>, reader: Reader): seq<Body> {
    if hits == [] then [] else BodyAt(text, hits[0], hits[1..], reader) + Bodies(text, hits[1..], reader)
  }

  method FindEnd(hits: seq<Hit>, from: nat, reader: Reader) returns (end: Option<Hit>)
    requires from <= |hits|
    ensures end == EndIn(hits[from..], 1, reader)
  {
    var depth := 1;
    for j := from to |hits|
      invariant depth >= 1 && EndIn(hits[from..], 1, reader) == EndIn(hits[j..], depth, reader)
    {
      assert hits[j..][0] == hits[j] && hits[j..][1..] == hits[j + 1..];
      var kind := reader.kind(hits[j].raw);
      if kind == Opens {
        depth := depth + 1;
      } else if kind == Closes {
        depth := depth - 1;
        if depth == 0 {
          return Some(hits[j]);
        }
      }
    }
    return None;
  }

  method ReadBody(text: string, actions: seq<Hit>, i: nat, reader: Reader) returns (out: seq<Body>)
    requires i < |actions|
    ensures out == BodyAt(text, actions[i], actions[i + 1..], reader)
  {
    out := [];
    var name := reader.name(actions[i].raw);
    if name.Some? {
      var end := FindEnd(actions, i + 1, reader);
      if end.Some? {
        out := [Body(name.value, Slice(text, actions[i].end, end.value.start))];
      }
    }
  }

  method CollectBodies(text: string, actions: seq<Hit>, reader: Reader) returns (out: seq<Body>)
    ensures out == Bodies(text, actions, reader)
  {
    out := [];
    assert actions == actions[0..];
    for i := 0 to |actions|
      invariant Bodies(text, actions, reader) == out + Bodies(text, actions[i..], reader)
    {
      assert actions[i..] == [actions[i]] + actions[i + 1..];
      BodiesFrom(text, actions[i], actions[i + 1..], reader);
      var found := ReadBody(text, actions, i, reader);
      out := out + found;
    }
  }

  method DefineBodies(text: string) returns (out: seq<Body>)
    ensures out == Bodies(text, Actions(text), ByHead())
  {
    var actions := ReadActions(text);
    out := CollectBodies(text, actions, ByHead());
  }

  // ------------------------------------------------------------ balanced text

  lemma Unread(hit: Hit, behind: seq<Hit>)
    ensures ([hit] + behind)[0] == hit && ([hit] + behind)[1..] == behind
  {
  }

  /** The actions of a block and of what stands behind it, in the order they are read. */
  lemma BlockInTurn(n: Node, base: nat, inside: nat, behind: seq<Hit>)
    requires n.Block? && inside == base + |Braced(n.open)|
    ensures var end := HitAt(n.close, inside + |Print(n.body)|);
            NodeHits(n, base) + behind == [HitAt(n.open, base)] + (Hits(n.body, inside) + ([end] + behind))
    ensures |PrintNode(n)| == |Braced(n.open)| + |Print(n.body)| + |Braced(n.close)|
  {
  }

  /** A balanced piece leaves the depth as it found it. */
  lemma {:induction false} EndPassesNode(n: Node, base: nat, behind: seq<Hit>, depth: nat, reader: Reader)
    requires Sound(reader) && NodeShaped(n, reader) && depth >= 1
    ensures EndIn(NodeHits(n, base) + behind, depth, reader) == EndIn(behind, depth, reader)
    decreases n, 2
  {
    if n.Block? {
      EndPassesBlock(n, base, behind, depth, reader);
    } else if n.Text? {
      assert [] + behind == behind;
    } else {
      Unread(HitAt(n.raw, base), behind);
    }
  }

  lemma EndStep(hit: Hit, behind: seq<Hit>, depth: nat, reader: Reader)
    requires depth >= 1
    ensures EndIn([hit] + behind, depth, reader) ==
            match reader.kind(hit.raw)
              case Opens => EndIn(behind, depth + 1, reader)
              case Plain => EndIn(behind, depth, reader)
              case Closes => if depth == 1 then Some(hit) else EndIn(behind, depth - 1, reader)
  {
    Unread(hit, behind);
  }

  lemma {:induction false} EndPassesBlock(n: Node, base: nat, behind: seq<Hit>, depth: nat, reader: Reader)
    requires Sound(reader) && NodeShaped(n, reader) && depth >= 1 && n.Block?
    ensures EndIn(NodeHits(n, base) + behind, depth, reader) == EndIn(behind, depth, reader)
    decreases n, 1
  {
    hide EndIn, Print, Hits, Braced;
    var inside := base + |Braced(n.open)|;
    var start, end := HitAt(n.open, base), HitAt(n.close, inside + |Print(n.body)|);
    BlockInTurn(n, base, inside, behind);
    EndStep(start, Hits(n.body, inside) + ([end] + behind), depth, reader);
    EndPasses(n.body, inside, [end] + behind, depth + 1, reader);
    EndStep(end, behind, depth + 1, reader);
  }

  lemma {:induction false} EndPasses(ns: seq<Node>, base: nat, behind: seq<Hit>, depth: nat, reader: Reader)
    requires Sound(reader) && Shaped(ns, reader) && depth >= 1
    ensures EndIn(Hits(ns, base) + behind, depth, reader) == EndIn(behind, depth, reader)
    decreases ns, 0
  {
    hide EndIn, Sound, NodeShaped;
    if ns == [] {
      assert [] + behind == behind;
    } else {
      var next := base + |PrintNode(ns[0])|;
      assert Hits(ns, base) + behind == NodeHits(ns[0], base) + (Hits(ns[1..], next) + behind);
      EndPassesNode(ns[0], base, Hits(ns[1..], next) + behind, depth, reader);
      EndPasses(ns[1..], next, behind, depth, reader);
    }
  }

  /** The names and bodies of a tree's defines, in the order they open. */
  function Named(defines: seq<Define>): seq<Body> {
    if defines == [] then [] else [Body(defines[0].name, defines[0].body)] + Named(defines[1..])
  }

  lemma {:induction false} NamedInTurn(a: seq<Define>, b: seq<Define>)
    ensures Named(a + b) == Named(a) + Named(b)
  {
    if a == [] {
      assert a + b == b;
    } else {
      assert (a + b)[1..] == a[1..] + b;
      NamedInTurn(a[1..], b);
    }
  }

  lemma NamedTwo(a: seq<Define>, b: seq<Define>, rest: seq<Body>)
    ensures Named(a) + (Named(b) + rest) == Named(a + b) + rest
  {
    NamedInTurn(a, b);
  }

  /** What the scan from a block's opener on finds of the block itself. */
  lemma OwnBody(text: string, base: nat, inside: nat, open: string, body: seq<Node>, close: string, behind: seq<Hit>,
                depth: nat, reader: Reader)
    requires Sound(reader) && Shaped(body, reader) && reader.kind(close) == Closes
    requires inside == base + |Braced(open)| && StandsAt(text, inside, Print(body))
    ensures BodyAt(text, HitAt(open, base), Hits(body, inside) + ([HitAt(close, inside + |Print(body)|)] + behind), reader)
              == Named(OwnDefine(open, body, depth, reader.name))
  {
    var end := HitAt(close, inside + |Print(body)|);
    EndPasses(body, inside, [end] + behind, 1, reader);
    Unread(end, behind);
  }

  lemma BodiesFrom(text: string, hit: Hit, behind: seq<Hit>, reader: Reader)
    ensures Bodies(text, [hit] + behind, reader) == BodyAt(text, hit, behind, reader) + Bodies(text, behind, reader)
  {
    Unread(hit, behind);
  }

  lemma NamelessBodies(text: string, hit: Hit, behind: seq<Hit>, reader: Reader)
    requires Sound(reader) && reader.kind(hit.raw) != Opens
    ensures Bodies(text, [hit] + behind, reader) == Bodies(text, behind, reader)
  {
    BodiesFrom(text, hit, behind, reader);
  }

  lemma FlatBodies(text: string, n: Node, base: nat, behind: seq<Hit>, depth: nat, reader: Reader)
    requires Sound(reader) && NodeShaped(n, reader) && !n.Block?
    ensures Bodies(text, NodeHits(n, base) + behind, reader)
              == Named(DefinesOfNode(n, depth, reader.name)) + Bodies(text, behind, reader)
  {
    if n.Text? {
      assert [] + behind == behind;
    } else {
      NamelessBodies(text, HitAt(n.raw, base), behind, reader);
    }
  }

  lemma {:induction false} NodeBodies(text: string, n: Node, base: nat, behind: seq<Hit>, depth: nat, reader: Reader)
    requires Sound(reader) && NodeShaped(n, reader)
    requires n.Block? ==> StandsAt(text, base + |Braced(n.open)|, Print(n.body))
    ensures Bodies(text, NodeHits(n, base) + behind, reader)
              == Named(DefinesOfNode(n, depth, reader.name)) + Bodies(text, behind, reader)
    decreases n, 2
  {
    if n.Block? {
      BlockBodies(text, n, base, behind, depth, reader);
    } else {
      FlatBodies(text, n, base, behind, depth, reader);
    }
  }

  lemma {:induction false} BlockBodies(text: string, n: Node, base: nat, behind: seq<Hit>, depth: nat, reader: Reader)
    requires Sound(reader) && NodeShaped(n, reader) && n.Block?
    requires StandsAt(text, base + |Braced(n.open)|, Print(n.body))
    ensures Bodies(text, NodeHits(n, base) + behind, reader)
              == Named(DefinesOfNode(n, depth, reader.name)) + Bodies(text, behind, reader)
    decreases n, 1
  {
    hide Bodies, BodyAt, Sound, Hits, NodeHits, Named, Print, PrintNode, Braced, StandsAt, Shaped;
    var inside := base + |Braced(n.open)|;
    var start, end := HitAt(n.open, base), HitAt(n.close, inside + |Print(n.body)|);
    var rest := [end] + behind;
    BlockInTurn(n, base, inside, behind);
    BodiesFrom(text, start, Hits(n.body, inside) + rest, reader);
    OwnBody(text, base, inside, n.open, n.body, n.close, behind, depth, reader);
    TreeBodies(text, n.body, inside, rest, depth + 1, reader);
    NamelessBodies(text, end, behind, reader);
    NamedTwo(OwnDefine(n.open, n.body, depth, reader.name), Defines(n.body, depth + 1, reader.name), Bodies(text, behind, reader));
  }

  lemma {:induction false} TreeBodies(text: string, ns: seq<Node>, base: nat, behind: seq<Hit>, depth: nat, reader: Reader)
    requires Sound(reader) && Shaped(ns, reader) && StandsAt(text, base, Print(ns))
    ensures Bodies(text, Hits(ns, base) + behind, reader)
              == Named(Defines(ns, depth, reader.name)) + Bodies(text, behind, reader)
    decreases ns, 0
  {
    hide Bodies, Sound, NodeShaped, DefinesOfNode;
    if ns == [] {
      assert [] + behind == behind;
    } else {
      var next := base + |PrintNode(ns[0])|;
      SplitAtPiece(text, base, PrintNode(ns[0]), Print(ns[1..]));
      assert Hits(ns, base) + behind == NodeHits(ns[0], base) + (Hits(ns[1..], next) + behind);
      if ns[0].Block? {
        PiecesStand(text, base, ns[0]);
      }
      NodeBodies(text, ns[0], base, Hits(ns[1..], next) + behind, depth, reader);
      TreeBodies(text, ns[1..], next, behind, depth, reader);
      NamedTwo(DefinesOfNode(ns[0], depth, reader.name), Defines(ns[1..], depth, reader.name), Bodies(text, behind, reader));
    }
  }

  lemma {:induction false} SlashStaysFirst(s: string)
    requires "/*" <= LStrip(s)
    ensures "/*" <= LStrip(DropLastDash(s))
  {
    if IsSpace(s[0]) {
      assert DropLastDash(s)[1..] == DropLastDash(s[1..]);
      SlashStaysFirst(s[1..]);
    }
  }

  lemma ByHeadIsSound()
    ensures Sound(ByHead())
  {
    forall raw | NameIn(raw).Some?
      ensures HeadKind(raw) == Opens
    {
      DefineIsFirst(Inner(raw));
    }
    forall raw | CommentStarts(raw)
      ensures HeadKind(raw) == Plain
    {
      SlashStaysFirst(raw[Dash(raw)..]);
      assert Head(Inner(raw))[0] == '/';
    }
  }

  /** On every balanced template each define is found once, in the order the defines open, with the text up to its own end. */
  lemma BodiesOfPrint(ns: seq<Node>)
    requires AllOk(ns) && Shaped(ns, ByHead())
    ensures Bodies(Print(ns), Actions(Print(ns)), ByHead()) == Named(Defines(ns, 0, NameIn))
  {
    var text := Print(ns);
    assert text[0..0 + |text|] == text;
    ActionsOfPrint(ns);
    ByHeadIsSound();
    TreeBodies(text, ns, 0, [], 0, ByHead());
    assert Hits(ns, 0) + [] == Hits(ns, 0);
  }

  // ----------------------------------------------------- an opener not read

  function Nested(open: string, inner: string, close: string): seq<Node> {
    [Block(open, [Block(inner, [], close)], close)]
  }

  lemma NestedParts(open: string, inner: string, close: string, name: string, reader: Reader)
    ensures Print(Nested(open, inner, close)) == Braced(open) + (Braced(inner) + Braced(close) + Braced(close))
    ensures var a := |Braced(open)|;
            var b := a + |Braced(inner)|;
            Hits(Nested(open, inner, close), 0)
              == [HitAt(open, 0)] + ([HitAt(inner, a)] + ([HitAt(close, b)] + [HitAt(close, b + |Braced(close)|)]))
    ensures RawOk(open) && RawOk(inner) && RawOk(close) ==> AllOk(Nested(open, inner, close))
    ensures reader.kind(open) == Opens && reader.kind(inner) == Opens && reader.kind(close) == Closes ==>
              Shaped(Nested(open, inner, close), reader)
    ensures reader.name(open) == Some(name) && reader.name(inner) == None ==>
              Defines(Nested(open, inner, close), 0, reader.name) == [Define(name, Braced(inner) + Braced(close), 0)]
  {
    var a := |Braced(open)|;
    var block := Block(inner, [], close);
    OneNode(block, a, 1, reader);
    OneNode(Block(open, [block], close), 0, 0, reader);
    assert "" + Braced(close) == Braced(close);
    assert NodeHits(block, a) == [HitAt(inner, a)] + [HitAt(close, a + |Braced(inner)|)];
  }

  /** When the parser misses an opener inside a define, the inner `end` is taken for the define's own. */
  lemma UnreadOpenerCutsBody(open: string, inner: string, close: string, name: string, reader: Reader)
    requires RawOk(open) && RawOk(inner) && RawOk(close) && reader.name(open) == Some(name)
    requires reader.kind(inner) == Plain && reader.name(inner) == None
    requires reader.kind(close) == Closes && reader.name(close) == None
    ensures var text := Print(Nested(open, inner, close));
            Bodies(text, Actions(text), reader) == [Body(name, Braced(inner))]
  {
    hide Bodies, ActionsFrom, Hits, Defines, Shaped, AllOk;
    var ns := Nested(open, inner, close);
    var text := Print(ns);
    NestedParts(open, inner, close, name, reader);
    ActionsOfPrint(ns);
    var a := |Braced(open)|;
    assert text[a..a + |Braced(inner)|] == Braced(inner);
    var second := a + |Braced(inner)|;
    FourHits(text, HitAt(open, 0), HitAt(inner, a), HitAt(close, second), HitAt(close, second + |Braced(close)|), name, reader);
  }

  lemma FourHits(text: string, h0: Hit, h1: Hit, h2: Hit, h3: Hit, name: string, reader: Reader)
    requires reader.name(h0.raw) == Some(name)
    requires reader.kind(h1.raw) == Plain && reader.name(h1.raw) == None
    requires reader.kind(h2.raw) == Closes && reader.name(h2.raw) == None && reader.name(h3.raw) == None
    ensures Bodies(text, [h0] + ([h1] + ([h2] + [h3])), reader) == [Body(name, Slice(text, h0.end, h2.start))]
  {
    BodiesFrom(text, h0, [h1] + ([h2] + [h3]), reader);
    BodiesFrom(text, h1, [h2] + [h3], reader);
    BodiesFrom(text, h2, [h3], reader);
    BodiesFrom(text, h3, [], reader);
    assert [h3] + [] == [h3];
    EndStep(h1, [h2] + [h3], 1, reader);
    EndStep(h2, [h3], 1, reader);
  }
}
