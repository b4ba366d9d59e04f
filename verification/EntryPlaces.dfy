/** scripts/check-helper-docs.py: entries sorted by line, and comments merged into the actions. */
module EntryPlaces {
  import opened Prelude
  import opened TemplateText
  import opened HelperDocs
  import opened HelperEvents
  import opened HelperOrder

  // ------------------------------------------------------- entries, line by line

  function OnLine(es: seq<Entry>, l: nat): seq<Entry> {
    if es == [] then [] else (if LineOfEntry(es[0]) == l then [es[0]] else []) + OnLine(es[1..], l)
  }

  lemma OnLineStep(e: Entry, rest: seq<Entry>, l: nat)
    ensures OnLine([e] + rest, l) == (if LineOfEntry(e) == l then [e] else []) + OnLine(rest, l)
  {
    assert ([e] + rest)[1..] == rest;
  }

  lemma {:induction false} InsertOnLine(e: Entry, es: seq<Entry>, l: nat)
    ensures OnLine(InsertEntry(e, es), l) == OnLine([e] + es, l)
  {
    hide OnLine;
    if es != [] && LineOfEntry(e) > LineOfEntry(es[0]) {
      InsertOnLine(e, es[1..], l);
      assert es == [es[0]] + es[1..];
      OnLineStep(es[0], InsertEntry(e, es[1..]), l);
      OnLineStep(e, es, l);
      OnLineStep(es[0], es[1..], l);
      OnLineStep(e, es[1..], l);
    }
  }

  /** The sort keeps the order within each line. */
  lemma {:induction false} SortOnLine(es: seq<Entry>, l: nat)
    ensures OnLine(SortEntries(es), l) == OnLine(es, l)
  {
    hide OnLine;
    if es != [] {
      SortOnLine(es[1..], l);
      InsertOnLine(es[0], SortEntries(es[1..]), l);
      OnLineStep(es[0], SortEntries(es[1..]), l);
      OnLineStep(es[0], es[1..], l);
      assert es == [es[0]] + es[1..];
    }
  }

  lemma {:induction false} InsertRises(e: Entry, es: seq<Entry>, least: nat)
    requires EntriesFrom(es, least) && least <= LineOfEntry(e)
    ensures EntriesFrom(InsertEntry(e, es), least)
  {
    if es == [] || LineOfEntry(e) <= LineOfEntry(es[0]) {
      assert ([e] + es)[1..] == es;
    } else {
      InsertRises(e, es[1..], LineOfEntry(es[0]));
      assert ([es[0]] + InsertEntry(e, es[1..]))[1..] == InsertEntry(e, es[1..]);
    }
  }

  lemma {:induction false} SortRises(es: seq<Entry>)
    ensures EntriesFrom(SortEntries(es), 0)
  {
    if es != [] {
      SortRises(es[1..]);
      InsertRises(es[0], SortEntries(es[1..]), 0);
    }
  }

  ghost predicate SameLines(x: seq<Entry>, y: seq<Entry>) {
    forall l: nat :: OnLine(x, l) == OnLine(y, l)
  }

  lemma {:induction false} LowestLine(es: seq<Entry>, least: nat, l: nat)
    requires EntriesFrom(es, least) && OnLine(es, l) != []
    ensures es != [] && least <= LineOfEntry(es[0]) <= l
  {
    if LineOfEntry(es[0]) != l {
      assert [] + OnLine(es[1..], l) == OnLine(es[1..], l);
      LowestLine(es[1..], LineOfEntry(es[0]), l);
    }
  }

  lemma HeadAgrees(x: seq<Entry>, y: seq<Entry>, a: nat, b: nat)
    requires EntriesFrom(x, a) && EntriesFrom(y, b) && SameLines(x, y) && x != []
    ensures y != [] && LineOfEntry(y[0]) <= LineOfEntry(x[0])
  {
    var l := LineOfEntry(x[0]);
    assert OnLine(x, l) == OnLine(y, l);
    LowestLine(y, b, l);
  }

  /** What is in line order is determined by what it has on each line. */
  lemma {:induction false} LinesDetermine(x: seq<Entry>, y: seq<Entry>, a: nat, b: nat)
    requires EntriesFrom(x, a) && EntriesFrom(y, b) && SameLines(x, y)
    ensures x == y
  {
    if x != [] && y != [] {
      HeadAgrees(x, y, a, b);
      HeadAgrees(y, x, b, a);
      TailsAgree(x, y);
      LinesDetermine(x[1..], y[1..], LineOfEntry(x[0]), LineOfEntry(y[0]));
    } else if x != [] {
      HeadAgrees(x, y, a, b);
    } else if y != [] {
      HeadAgrees(y, x, b, a);
    }
  }

  lemma TailsAgree(x: seq<Entry>, y: seq<Entry>)
    requires x != [] && y != [] && SameLines(x, y) && LineOfEntry(x[0]) == LineOfEntry(y[0])
    ensures x[0] == y[0] && SameLines(x[1..], y[1..])
  {
    assert OnLine(x, LineOfEntry(x[0]))[0] == x[0];
    assert OnLine(y, LineOfEntry(x[0]))[0] == y[0];
    forall l: nat
      ensures OnLine(x[1..], l) == OnLine(y[1..], l)
    {
      assert OnLine(x, l) == OnLine(y, l);
      if LineOfEntry(x[0]) == l {
        assert OnLine(x, l)[1..] == OnLine(x[1..], l);
        assert OnLine(y, l)[1..] == OnLine(y[1..], l);
      } else {
        assert [] + OnLine(x[1..], l) == OnLine(x[1..], l);
        assert [] + OnLine(y[1..], l) == OnLine(y[1..], l);
      }
    }
  }

  // ---------------------------------------------------------- places of comments

  /** A recorded comment, and how many defines stand in front of it. */
  datatype Place = Place(doc: Entry, after: nat)

  function Places(es: seq<Entry>, seen: nat): seq<Place> {
    if es == [] then []
    else if es[0].Doc? then [Place(es[0], seen)] + Places(es[1..], seen)
    else Places(es[1..], seen + 1)
  }

  lemma {:induction false} PlacesFrom(es: seq<Entry>, seen: nat, k: nat)
    requires k < |Places(es, seen)|
    ensures seen <= Places(es, seen)[k].after
  {
    if es[0].Doc? {
      if k > 0 {
        PlacesFrom(es[1..], seen, k - 1);
      }
    } else {
      PlacesFrom(es[1..], seen + 1, k);
    }
  }

  /** The defines, and the places of the comments among them, determine the entries. */
  lemma {:induction false} PlacesDetermine(x: seq<Entry>, y: seq<Entry>, seen: nat)
    requires DefinedOf(x) == DefinedOf(y) && Places(x, seen) == Places(y, seen)
    ensures x == y
    decreases |x| + |y|
  {
    if x != [] && x[0].Doc? {
      DocHead(x, y, seen);
      PlacesDetermine(x[1..], y[1..], seen);
    } else if y != [] && y[0].Doc? {
      DocHead(y, x, seen);
    } else if x != [] && y != [] {
      assert DefinedOf(x)[1..] == DefinedOf(x[1..]) && DefinedOf(y)[1..] == DefinedOf(y[1..]);
      PlacesDetermine(x[1..], y[1..], seen + 1);
    }
  }

  lemma DocHead(x: seq<Entry>, y: seq<Entry>, seen: nat)
    requires DefinedOf(x) == DefinedOf(y) && Places(x, seen) == Places(y, seen) && x != [] && x[0].Doc?
    ensures y != [] && y[0] == x[0] && DefinedOf(x[1..]) == DefinedOf(y[1..]) && Places(x[1..], seen) == Places(y[1..], seen)
  {
    assert Places(x, seen)[0] == Place(x[0], seen) && Places(x, seen)[1..] == Places(x[1..], seen);
    assert y != [];
    if y[0].Defined? {
      PlacesFrom(y[1..], seen + 1, 0);
    } else {
      assert Places(y, seen)[1..] == Places(y[1..], seen);
      assert [] + DefinedOf(x[1..]) == DefinedOf(x[1..]) && [] + DefinedOf(y[1..]) == DefinedOf(y[1..]);
    }
  }

  /** The places on one line. */
  function PlacesOn(es: seq<Entry>, l: nat, seen: nat): seq<Place> {
    Places(OnLine(es, l), seen)
  }

  lemma PlacesOnStep(e: Entry, rest: seq<Entry>, l: nat, seen: nat)
    ensures PlacesOn([e] + rest, l, seen) ==
              if LineOfEntry(e) != l then PlacesOn(rest, l, seen)
              else if e.Doc? then [Place(e, seen)] + PlacesOn(rest, l, seen)
              else PlacesOn(rest, l, seen + 1)
  {
    OnLineStep(e, rest, l);
    hide OnLine;
    assert [] + OnLine(rest, l) == OnLine(rest, l);
    assert ([e] + OnLine(rest, l))[1..] == OnLine(rest, l);
  }

  function ItemsOn(items: seq<Item>, l: nat): seq<Item> {
    if items == [] then [] else (if items[0].line == l then [items[0]] else []) + ItemsOn(items[1..], l)
  }

  lemma {:induction false} DefinedOnLine(es: seq<Entry>, l: nat)
    ensures DefinedOf(OnLine(es, l)) == ItemsOn(DefinedOf(es), l)
  {
    if es != [] {
      var rest := OnLine(es[1..], l);
      DefinedOnLine(es[1..], l);
      assert [] + rest == rest && ([es[0]] + rest)[1..] == rest;
      assert [] + DefinedOf(rest) == DefinedOf(rest) && [] + DefinedOf(es[1..]) == DefinedOf(es[1..]);
      if es[0].Defined? {
        var items := DefinedOf(es[1..]);
        assert ([es[0].item] + items)[0] == es[0].item && ([es[0].item] + items)[1..] == items;
        assert [] + ItemsOn(items, l) == ItemsOn(items, l);
      }
    }
  }

  /** With the same defines, sorting gives `wanted` exactly when the comments have the same places on every line. */
  lemma SortedIsIff(es: seq<Entry>, wanted: seq<Entry>, least: nat)
    requires DefinedOf(es) == DefinedOf(wanted) && EntriesFrom(wanted, least)
    ensures SortEntries(es) == wanted <==> forall l: nat :: PlacesOn(es, l, 0) == PlacesOn(wanted, l, 0)
  {
    hide OnLine, Places, EntriesFrom, SortEntries, DefinedOf;
    forall l: nat
      ensures OnLine(SortEntries(es), l) == OnLine(es, l)
    {
      SortOnLine(es, l);
    }
    if forall l: nat :: PlacesOn(es, l, 0) == PlacesOn(wanted, l, 0) {
      forall l: nat
        ensures OnLine(es, l) == OnLine(wanted, l)
      {
        assert PlacesOn(es, l, 0) == PlacesOn(wanted, l, 0);
        DefinedOnLine(es, l);
        DefinedOnLine(wanted, l);
        PlacesDetermine(OnLine(es, l), OnLine(wanted, l), 0);
      }
      SortRises(es);
      LinesDetermine(SortEntries(es), wanted, 0, least);
    }
  }

  // -------------------------------------------------------- comments merged in

  /** Each comment goes in front of the first action that does not sort before it. */
  function Merge(spans: seq<Span>, hits: seq<Hit>, line: nat -> nat): seq<Event>
    decreases |spans| + |hits|
  {
    if spans == [] then Acts(hits)
    else if hits == [] || KeyLe(Remark(spans[0]), Action(hits[0]), line) then [Remark(spans[0])] + Merge(spans[1..], hits, line)
    else [Action(hits[0])] + Merge(spans, hits[1..], line)
  }

  ghost predicate SpansRise(spans: seq<Span>, line: nat -> nat) {
    forall i, j :: 0 <= i < j < |spans| ==> KeyLe(Remark(spans[i]), Remark(spans[j]), line)
  }

  lemma {:induction false} InsertMerges(c: Span, spans: seq<Span>, hits: seq<Hit>, line: nat -> nat)
    requires spans != [] ==> KeyLe(Remark(c), Remark(spans[0]), line)
    ensures Insert(Remark(c), Merge(spans, hits, line), line) == Merge([c] + spans, hits, line)
    decreases |hits|
  {
    assert ([c] + spans)[1..] == spans;
    if hits == [] || KeyLe(Remark(c), Action(hits[0]), line) {
      MergeHead(spans, hits, line);
    } else {
      MergeHead(spans, hits, line);
      InsertMerges(c, spans, hits[1..], line);
      var rest := Merge(spans, hits[1..], line);
      assert ([Action(hits[0])] + rest)[1..] == rest;
    }
  }

  lemma MergeHead(spans: seq<Span>, hits: seq<Hit>, line: nat -> nat)
    ensures hits != [] && (spans == [] || !KeyLe(Remark(spans[0]), Action(hits[0]), line)) ==>
              Merge(spans, hits, line) == [Action(hits[0])] + Merge(spans, hits[1..], line)
    ensures spans != [] && (hits == [] || KeyLe(Remark(spans[0]), Action(hits[0]), line)) ==>
              Merge(spans, hits, line) == [Remark(spans[0])] + Merge(spans[1..], hits, line)
    ensures hits == [] && spans == [] ==> Merge(spans, hits, line) == []
  {
    if hits != [] {
      assert Acts(hits) == [Action(hits[0])] + Acts(hits[1..]);
    }
  }

  lemma {:induction false} SortIntoMerges(spans: seq<Span>, hits: seq<Hit>, line: nat -> nat)
    requires SpansRise(spans, line)
    ensures SortInto(spans, Acts(hits), line) == Merge(spans, hits, line)
  {
    hide KeyLe, Insert, Merge;
    if spans == [] {
      NothingMerged(hits, line);
    } else {
      assert SpansRise(spans[1..], line);
      SortIntoMerges(spans[1..], hits, line);
      assert |spans| > 1 ==> KeyLe(Remark(spans[0]), Remark(spans[1]), line);
      InsertMerges(spans[0], spans[1..], hits, line);
      assert [spans[0]] + spans[1..] == spans;
    }
  }

  lemma NothingMerged(hits: seq<Hit>, line: nat -> nat)
    ensures Merge([], hits, line) == Acts(hits)
  {
  }
}
