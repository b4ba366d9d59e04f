/** scripts/check-helper-docs.py: comments and actions sorted by their lines and read in one loop. */
module HelperEvents {
  import opened Prelude
  import opened TemplateText
  import opened TemplateComments
  import opened HelperDocs
  import O = OrphanTemplates

  /** What the parser reads: a comment or an action. */
  datatype Event = Remark(span: Span) | Action(hit: Hit)

  /** What it records: a comment, by where it stands, or a define. */
  datatype Entry = Doc(line: nat, span: Span) | Defined(item: Item)

  function Start(e: Event): nat {
    match e
    case Remark(span) => span.start
    case Action(hit) => hit.start
  }

  function End(e: Event): nat {
    match e
    case Remark(span) => span.end
    case Action(hit) => hit.end
  }

  function Last(e: Event): nat {
    if End(e) == 0 then 0 else End(e) - 1
  }

  /** The order of the sort: by first line, then by last line. */
  predicate KeyLe(e: Event, f: Event, line: nat -> nat) {
    line(Start(e)) < line(Start(f)) || (line(Start(e)) == line(Start(f)) && line(Last(e)) <= line(Last(f)))
  }

  function Insert(e: Event, es: seq<Event>, line: nat -> nat): seq<Event> {
    if es == [] || KeyLe(e, es[0], line) then [e] + es else [es[0]] + Insert(e, es[1..], line)
  }

  /** A stable sort: what stands earlier stays in front of what has the same key. */
  function StableSort(es: seq<Event>, line: nat -> nat): seq<Event> {
    if es == [] then [] else Insert(es[0], StableSort(es[1..], line), line)
  }

  function Remarks(spans: seq<Span>): seq<Event> {
    seq(|spans|, k requires 0 <= k < |spans| => Remark(spans[k]))
  }

  function Acts(hits: seq<Hit>): seq<Event> {
    seq(|hits|, k requires 0 <= k < |hits| => Action(hits[k]))
  }

  function HeldEntry(pending: Option<Item>): seq<Entry> {
    match pending
    case Some(item) => [Defined(item)]
    case None => []
  }

  /** The entries recorded from a depth and a define still open. */
  function RunAll(es: seq<Event>, depth: int, pending: Option<Item>, reader: Reader, line: nat -> nat): seq<Entry> {
    if es == [] then HeldEntry(pending) else
      match es[0]
      case Remark(span) =>
        (if depth == 0 then [Doc(line(span.start), span)] else []) + RunAll(es[1..], depth, pending, reader, line)
      case Action(h) =>
        if reader.name(h.raw).Some? && depth == 0 then
          RunAll(es[1..], 1, Some(Item(reader.name(h.raw).value, line(h.start))), reader, line)
        else
          match reader.kind(h.raw)
          case Opens => RunAll(es[1..], depth + 1, pending, reader, line)
          case Plain => RunAll(es[1..], depth, pending, reader, line)
          case Closes =>
            if depth == 1 then HeldEntry(pending) + RunAll(es[1..], 0, None, reader, line)
            else RunAll(es[1..], depth - 1, pending, reader, line)
  }

  /** The run over all events, with the first `n` read into `out`, a depth and a define still open. */
  ghost predicate Running(es: seq<Event>, n: nat, out: seq<Entry>, depth: int, pending: Option<Item>, reader: Reader, line: nat -> nat)
    requires n <= |es|
  {
    RunAll(es, 0, None, reader, line) == out + RunAll(es[n..], depth, pending, reader, line)
  }

  lemma RunningStarts(es: seq<Event>, reader: Reader, line: nat -> nat)
    ensures Running(es, 0, [], 0, None, reader, line)
  {
    assert es[0..] == es;
    assert [] + RunAll(es, 0, None, reader, line) == RunAll(es, 0, None, reader, line);
  }

  lemma RunningRemark(es: seq<Event>, n: nat, out: seq<Entry>, depth: int, pending: Option<Item>, reader: Reader, line: nat -> nat)
    requires n < |es| && es[n].Remark? && Running(es, n, out, depth, pending, reader, line)
    ensures var more := if depth == 0 then [Doc(line(es[n].span.start), es[n].span)] else [];
            Running(es, n + 1, out + more, depth, pending, reader, line)
  {
    var more := if depth == 0 then [Doc(line(es[n].span.start), es[n].span)] else [];
    var rest := RunAll(es[n + 1..], depth, pending, reader, line);
    assert es[n..][0] == es[n] && es[n..][1..] == es[n + 1..];
    assert out + (more + rest) == out + more + rest;
  }

  lemma RunningAction(es: seq<Event>, n: nat, out: seq<Entry>, depth: int, pending: Option<Item>, reader: Reader, line: nat -> nat)
    requires n < |es| && es[n].Action? && Running(es, n, out, depth, pending, reader, line)
    ensures var h := es[n].hit;
            var name := reader.name(h.raw);
            if name.Some? && depth == 0 then Running(es, n + 1, out, 1, Some(Item(name.value, line(h.start))), reader, line)
            else match reader.kind(h.raw)
              case Opens => Running(es, n + 1, out, depth + 1, pending, reader, line)
              case Plain => Running(es, n + 1, out, depth, pending, reader, line)
              case Closes =>
                if depth == 1 then Running(es, n + 1, out + HeldEntry(pending), 0, None, reader, line)
                else Running(es, n + 1, out, depth - 1, pending, reader, line)
  {
    assert es[n..][0] == es[n] && es[n..][1..] == es[n + 1..];
    var rest := RunAll(es[n + 1..], 0, None, reader, line);
    assert out + (HeldEntry(pending) + rest) == out + HeldEntry(pending) + rest;
  }

  lemma RunningEnds(es: seq<Event>, out: seq<Entry>, depth: int, pending: Option<Item>, reader: Reader, line: nat -> nat)
    requires Running(es, |es|, out, depth, pending, reader, line)
    ensures RunAll(es, 0, None, reader, line) == out + HeldEntry(pending)
  {
    assert es[|es|..] == [];
  }

  method Collect(events: seq<Event>, reader: Reader, line: nat -> nat) returns (out: seq<Entry>)
    ensures out == RunAll(events, 0, None, reader, line)
  {
    hide RunAll, Running;
    out := [];
    var depth: int, pending: Option<Item> := 0, None;
    RunningStarts(events, reader, line);
    for n := 0 to |events|
      invariant Running(events, n, out, depth, pending, reader, line)
    {
      match events[n] {
        case Remark(span) =>
          RunningRemark(events, n, out, depth, pending, reader, line);
          if depth == 0 {
            out := out + [Doc(line(span.start), span)];
          } else {
            assert out + [] == out;
          }
        case Action(h) =>
          RunningAction(events, n, out, depth, pending, reader, line);
          var name := reader.name(h.raw);
          if name.Some? && depth == 0 {
            pending := Some(Item(name.value, line(h.start)));
            depth := 1;
          } else if reader.kind(h.raw) == Opens {
            depth := depth + 1;
          } else if reader.kind(h.raw) == Closes {
            depth := depth - 1;
            if depth == 0 {
              assert pending == None ==> out + [] == out;
              if pending.Some? {
                out := out + [Defined(pending.value)];
                pending := None;
              }
            }
          }
      }
    }
    RunningEnds(events, out, depth, pending, reader, line);
    assert out + [] == out;
    if pending.Some? {
      out := out + [Defined(pending.value)];
    }
  }

  function LineOfEntry(e: Entry): nat {
    match e
    case Doc(line, _) => line
    case Defined(item) => item.line
  }

  function InsertEntry(e: Entry, es: seq<Entry>): seq<Entry> {
    if es == [] || LineOfEntry(e) <= LineOfEntry(es[0]) then [e] + es else [es[0]] + InsertEntry(e, es[1..])
  }

  function SortEntries(es: seq<Entry>): seq<Entry> {
    if es == [] then [] else InsertEntry(es[0], SortEntries(es[1..]))
  }

  /** The entries as the loop over the sorted events records them. */
  function Unsorted(src: string, reader: Reader, keep: string -> bool, line: nat -> nat): seq<Entry> {
    var actions := Acts(Events(Actions(Masked(src)), keep));
    RunAll(StableSort(Remarks(Spans(src, 0)) + actions, line), 0, None, reader, line)
  }

  /** The entries of a source text, in the order of their lines. */
  function Parsed(src: string, reader: Reader, keep: string -> bool, line: nat -> nat): seq<Entry> {
    SortEntries(Unsorted(src, reader, keep, line))
  }

  method Parse(src: string) returns (items: seq<Entry>)
    ensures items == Parsed(src, ByKeyword(), HoldsText, LinesOf(src))
  {
    hide KeywordKind, NameIn, HoldsText, RunAll, StableSort, SortEntries, Events;
    var masked := new char[|src|](i requires 0 <= i < |src| => src[i]);
    assert masked[..] == src;
    var spans := FindComments(src);
    MaskComments(masked, spans);
    var actions := ReadActions(masked[..]);
    var kept := KeepEvents(actions, HoldsText);
    var line := LinesOf(src);
    var out := Collect(StableSort(Remarks(spans) + Acts(kept), line), ByKeyword(), line);
    items := SortEntries(out);
  }

  // ------------------------------------------- defines, whatever the comments

  function ActionsOf(es: seq<Event>): seq<Hit> {
    if es == [] then [] else (if es[0].Action? then [es[0].hit] else []) + ActionsOf(es[1..])
  }

  function DefinedOf(es: seq<Entry>): seq<Item> {
    if es == [] then [] else (if es[0].Defined? then [es[0].item] else []) + DefinedOf(es[1..])
  }

  lemma DefinedStep(e: Entry, rest: seq<Entry>)
    ensures DefinedOf([e] + rest) == (if e.Defined? then [e.item] else []) + DefinedOf(rest)
  {
    assert ([e] + rest)[1..] == rest;
  }

  lemma NoDefined()
    ensures DefinedOf([]) == []
  {
  }

  lemma {:induction false} DefinedInTurn(a: seq<Entry>, b: seq<Entry>)
    ensures DefinedOf(a + b) == DefinedOf(a) + DefinedOf(b)
  {
    hide DefinedOf;
    if a == [] {
      NoDefined();
      assert a + b == b;
    } else {
      DefinedInTurn(a[1..], b);
      DefinedStep(a[0], a[1..] + b);
      DefinedStep(a[0], a[1..]);
      assert a == [a[0]] + a[1..] && a + b == [a[0]] + (a[1..] + b);
    }
  }

  lemma DefinedHeld(pending: Option<Item>, rest: seq<Entry>)
    ensures DefinedOf(HeldEntry(pending)) == Held(pending)
    ensures DefinedOf(HeldEntry(pending) + rest) == Held(pending) + DefinedOf(rest)
  {
    DefinedInTurn(HeldEntry(pending), rest);
  }

  lemma ActionsBehind(e: Event, rest: seq<Event>)
    ensures ActionsOf([e] + rest) == if e.Action? then [e.hit] + ActionsOf(rest) else ActionsOf(rest)
  {
    assert ([e] + rest)[1..] == rest;
    assert [] + ActionsOf(rest) == ActionsOf(rest);
  }

  lemma RemarkDefines(span: Span, es: seq<Entry>, depth: int, line: nat -> nat)
    ensures DefinedOf((if depth == 0 then [Doc(line(span.start), span)] else []) + es) == DefinedOf(es)
  {
    hide DefinedOf;
    if depth == 0 {
      DefinedStep(Doc(line(span.start), span), es);
      assert [] + DefinedOf(es) == DefinedOf(es);
    } else {
      assert [] + es == es;
    }
  }

  /** Comments decide nothing about the defines. */
  lemma {:induction false} DefinesByActions(es: seq<Event>, depth: int, pending: Option<Item>, reader: Reader, line: nat -> nat)
    ensures DefinedOf(RunAll(es, depth, pending, reader, line)) == Run(ActionsOf(es), depth, pending, reader, line)
    decreases es
  {
    hide DefinedOf, ActionsOf;
    if es == [] {
      DefinedHeld(pending, []);
      NoActionsRun(depth, pending, reader, line);
    } else {
      var rest := es[1..];
      assert es == [es[0]] + rest;
      ActionsBehind(es[0], rest);
      match es[0] {
        case Remark(span) =>
          DefinesByActions(rest, depth, pending, reader, line);
          RemarkDefines(span, RunAll(rest, depth, pending, reader, line), depth, line);
        case Action(h) =>
          O.Unread(h, ActionsOf(rest));
          var name := reader.name(h.raw);
          if name.Some? && depth == 0 {
            DefinesByActions(rest, 1, Some(Item(name.value, line(h.start))), reader, line);
          } else {
            match reader.kind(h.raw) {
              case Opens => DefinesByActions(rest, depth + 1, pending, reader, line);
              case Plain => DefinesByActions(rest, depth, pending, reader, line);
              case Closes =>
                DefinesByActions(rest, 0, None, reader, line);
                DefinesByActions(rest, depth - 1, pending, reader, line);
                DefinedHeld(pending, RunAll(rest, 0, None, reader, line));
            }
          }
      }
    }
  }

  lemma NoActionsRun(depth: int, pending: Option<Item>, reader: Reader, line: nat -> nat)
    ensures Run(ActionsOf([]), depth, pending, reader, line) == Held(pending)
  {
  }

  lemma {:induction false} InsertedRemark(e: Event, es: seq<Event>, line: nat -> nat)
    requires e.Remark?
    ensures ActionsOf(Insert(e, es, line)) == ActionsOf(es)
    decreases es
  {
    hide KeyLe;
    if es == [] || KeyLe(e, es[0], line) {
      assert ([e] + es)[1..] == es;
      assert [] + ActionsOf(es) == ActionsOf(es);
    } else {
      InsertedRemark(e, es[1..], line);
      assert ([es[0]] + Insert(e, es[1..], line))[1..] == Insert(e, es[1..], line);
    }
  }

  /** Sorting the comments in does not move the actions. */
  lemma {:induction false} SortedActions(spans: seq<Span>, hits: seq<Hit>, line: nat -> nat)
    requires SortedByLine(hits, line)
    ensures ActionsOf(StableSort(Remarks(spans) + Acts(hits), line)) == hits
    decreases |spans|
  {
    hide Insert;
    if spans == [] {
      assert Remarks(spans) + Acts(hits) == Acts(hits);
      ActsStay(hits, line);
      ActionsOfActs(hits);
    } else {
      var rest := Remarks(spans[1..]) + Acts(hits);
      assert Remarks(spans) + Acts(hits) == [Remark(spans[0])] + rest;
      assert ([Remark(spans[0])] + rest)[1..] == rest;
      SortedActions(spans[1..], hits, line);
      InsertedRemark(Remark(spans[0]), StableSort(rest, line), line);
    }
  }

  lemma {:induction false} ActsStay(hits: seq<Hit>, line: nat -> nat)
    requires SortedByLine(hits, line)
    ensures StableSort(Acts(hits), line) == Acts(hits)
    decreases |hits|
  {
    if hits == [] {
      assert Acts(hits) == [];
    } else {
      assert Acts(hits) == [Action(hits[0])] + Acts(hits[1..]);
      assert Acts(hits)[1..] == Acts(hits[1..]);
      if |hits| > 1 {
        assert InLineOrder(hits[0], hits[1], line);
        assert KeyLe(Action(hits[0]), Action(hits[1]), line);
        assert hits[1..][0] == hits[1];
      }
      SortedTail(hits, line);
      ActsStay(hits[1..], line);
    }
  }

  lemma SortedTail(hits: seq<Hit>, line: nat -> nat)
    requires SortedByLine(hits, line) && hits != []
    ensures SortedByLine(hits[1..], line)
  {
  }

  lemma {:induction false} ActionsOfActs(hits: seq<Hit>)
    ensures ActionsOf(Acts(hits)) == hits
    decreases |hits|
  {
    if hits == [] {
      assert Acts(hits) == [];
    } else {
      assert Acts(hits)[1..] == Acts(hits[1..]);
      ActionsOfActs(hits[1..]);
      assert hits == [hits[0]] + hits[1..];
    }
  }

  lemma {:induction false} KeptStandApart(hits: seq<Hit>, keep: string -> bool, from: nat, to: nat)
    requires HelperDocs.Apart(hits, from, to)
    ensures HelperDocs.Apart(Events(hits, keep), from, to)
    decreases |hits|
  {
    if hits != [] {
      var rest := Events(hits[1..], keep);
      KeptStandApart(hits[1..], keep, hits[0].end, to);
      if keep(hits[0].raw) {
        assert ([hits[0]] + rest)[1..] == rest;
      } else {
        assert [] + rest == rest;
        ApartFromEarlier(rest, hits[0].end, from, to);
      }
    }
  }

  ghost predicate NoneBefore(es: seq<Entry>, line: nat) {
    forall k :: 0 <= k < |es| && es[k].Defined? ==> line <= es[k].item.line
  }

  lemma {:induction false} InsertKeepsDefined(e: Entry, es: seq<Entry>)
    requires e.Defined? ==> NoneBefore(es, e.item.line)
    ensures DefinedOf(InsertEntry(e, es)) == (if e.Defined? then [e.item] else []) + DefinedOf(es)
    decreases |es|
  {
    if es == [] || LineOfEntry(e) <= LineOfEntry(es[0]) {
      assert ([e] + es)[1..] == es;
    } else {
      var rest := InsertEntry(e, es[1..]);
      InsertKeepsDefined(e, es[1..]);
      assert ([es[0]] + rest)[1..] == rest;
      assert [] + DefinedOf(es[1..]) == DefinedOf(es[1..]);
    }
  }

  lemma {:induction false} InsertKeepsBound(e: Entry, es: seq<Entry>, line: nat)
    requires NoneBefore(es, line) && (e.Defined? ==> line <= e.item.line)
    ensures NoneBefore(InsertEntry(e, es), line)
    decreases |es|
  {
    if es != [] && LineOfEntry(e) > LineOfEntry(es[0]) {
      InsertKeepsBound(e, es[1..], line);
    }
  }

  /** The defines are in line order, from `least` on. */
  lemma {:induction false} SortKeepsDefined(es: seq<Entry>, least: nat)
    requires LinesFrom(DefinedOf(es), least)
    ensures DefinedOf(SortEntries(es)) == DefinedOf(es) && NoneBefore(SortEntries(es), least)
    decreases |es|
  {
    if es != [] {
      var sorted := SortEntries(es[1..]);
      if es[0].Defined? {
        assert ([es[0].item] + DefinedOf(es[1..]))[1..] == DefinedOf(es[1..]);
        SortKeepsDefined(es[1..], es[0].item.line);
      } else {
        assert [] + DefinedOf(es[1..]) == DefinedOf(es[1..]);
        SortKeepsDefined(es[1..], least);
      }
      InsertKeepsDefined(es[0], sorted);
      InsertKeepsBound(es[0], sorted, least);
    }
  }

  lemma {:induction false} DefinesOfRun(ns: seq<Node>, line: nat -> nat)
    requires AllOk(ns) && Commented(ns) && Shaped(ns, ByKeyword()) && Grows(line)
    ensures DefinedOf(Unsorted(Print(ns), ByKeyword(), HoldsText, line)) == TopItems(ns, 0, NameIn, line)
  {
    hide KeywordKind, NameIn, HoldsText, RunAll, StableSort, Events, Run, TopItems, Actions, Spans;
    var src := Print(ns);
    var hits := Actions(Masked(src));
    var kept := Events(hits, HoldsText);
    KeptAreSorted(Masked(src), HoldsText, line);
    SortedActions(Spans(src, 0), kept, line);
    var events := StableSort(Remarks(Spans(src, 0)) + Acts(kept), line);
    DefinesByActions(events, 0, None, ByKeyword(), line);
    ByKeywordIgnoresBlanks();
    EventsDecide(hits, ByKeyword(), HoldsText, line);
    ItemsOfPrint(ns, line);
  }

  /** Whatever comments stand where, the defines recorded for a balanced template are those at nesting depth 0, in order. */
  lemma {:induction false} DefinesOfPrint(ns: seq<Node>, line: nat -> nat)
    requires AllOk(ns) && Commented(ns) && Shaped(ns, ByKeyword()) && Grows(line)
    ensures DefinedOf(Parsed(Print(ns), ByKeyword(), HoldsText, line)) == TopItems(ns, 0, NameIn, line)
  {
    hide KeywordKind, NameIn, HoldsText, Unsorted, SortEntries, TopItems;
    DefinesOfRun(ns, line);
    TopItemsAreInLineOrder(ns, 0, NameIn, line);
    SortKeepsDefined(Unsorted(Print(ns), ByKeyword(), HoldsText, line), line(0));
  }

  lemma KeptAreSorted(text: string, keep: string -> bool, line: nat -> nat)
    requires Grows(line)
    ensures SortedByLine(Events(Actions(text), keep), line)
  {
    ActionsStandApart(text, 0);
    KeptStandApart(Actions(text), keep, 0, |text|);
    ApartIsSorted(Events(Actions(text), keep), 0, |text|, line);
  }
}
