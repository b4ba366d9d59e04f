/** scripts/check-kubectl-rbac.py, parse: a kubectl argv split into positionals and flags. */
module KubectlArgv {
  import opened Prelude

  /** Flags that take the next argument as their value. */
  const VALUE_FLAGS: set<string> := {
    "-n", "--namespace", "-c", "--container", "-l", "--selector", "-o", "--output", "-f", "--filename",
    "--field-selector", "--from-literal", "--from-file", "--type", "--timeout", "--request-timeout",
    "--grace-period", "--context", "--kubeconfig", "--cluster", "--user", "--server", "-s", "--token", "-p",
    "--patch", "--chunk-size", "--sort-by", "--template", "--pod-running-timeout"
  }

  /** Switches: they consume no further argument, though `--flag=value` is read for them too. */
  const BOOL_FLAGS: set<string> := {
    "-i", "--stdin", "-t", "--tty", "-it", "-ti", "-q", "--quiet", "--ignore-not-found", "--wait", "--dry-run",
    "--save-config", "--overwrite", "--all", "-A", "--all-namespaces", "-w", "--watch", "--watch-only",
    "--show-managed-fields", "--no-headers", "--show-labels", "--force", "--now", "--local", "--cascade"
  }

  /** The two tables as a parameter, so that the laws of the parser rest on the shape of a flag alone. */
  datatype FlagTable = FlagTable(value: set<string>, switch: set<string>)

  const KUBECTL := FlagTable(VALUE_FLAGS, BOOL_FLAGS)

  datatype CallError = UnknownFlag(flag: string) | UnknownKind(word: string) | NoResource | NoPod
    | ManifestCreate | UnknownApply | UnknownRollout(action: string) | UnknownCommand

  datatype Positional = Word(text: string) | Rest(args: seq<string>)

  datatype Call = Call(pos: seq<Positional>, flags: map<string, seq<string>>)

  /** A known flag starts with "-", is not the separator "--", and holds no "="; no flag is in both tables. */
  ghost predicate WellShaped(t: FlagTable) {
    && (forall f | f in t.value || f in t.switch :: "-" <= f && f != "--" && '=' !in f)
    && t.value !! t.switch
  }

  lemma ValueFlagsAreDashed(f: string)
    requires f in VALUE_FLAGS
    ensures "-" <= f && f != "--" && '=' !in f
  {
  }

  lemma BoolFlagsAreDashed(f: string)
    requires f in BOOL_FLAGS
    ensures "-" <= f && f != "--" && '=' !in f
  {
  }

  lemma FlagsAreDashed()
    ensures forall f | f in VALUE_FLAGS || f in BOOL_FLAGS :: "-" <= f && f != "--" && '=' !in f
  {
    forall f
      ensures f in VALUE_FLAGS || f in BOOL_FLAGS ==> "-" <= f && f != "--" && '=' !in f
    {
      if f in VALUE_FLAGS {
        ValueFlagsAreDashed(f);
      } else if f in BOOL_FLAGS {
        BoolFlagsAreDashed(f);
      }
    }
  }

  lemma NoFlagIsInBothTables(f: string)
    requires f in VALUE_FLAGS
    ensures f !in BOOL_FLAGS
  {
  }

  lemma {:induction false} KubectlFlagsAreWellShaped()
    ensures WellShaped(KUBECTL)
  {
    FlagsAreDashed();
    forall f | f in VALUE_FLAGS
      ensures f !in BOOL_FLAGS
    {
      NoFlagIsInBothTables(f);
    }
  }

  predicate Known(t: FlagTable, flag: string) {
    flag in t.value || flag in t.switch
  }

  // -------------------------------------------------------- the command line

  datatype Item =
    | Plain(text: string)
    | Spaced(flag: string, value: string)
    | Joined(flag: string, value: string)
    | Switch(flag: string)

  /** A command line as a user means it: its items, then what follows a lone "--". */
  datatype Line = Line(items: seq<Item>, rest: Option<seq<string>>)

  ghost predicate ItemOk(t: FlagTable, it: Item) {
    match it
    case Plain(text) => !("-" <= text)
    case Spaced(flag, _) => flag in t.value
    case Joined(flag, _) => Known(t, flag) && "--" <= flag
    case Switch(flag) => flag in t.switch
  }

  ghost predicate LineOk(t: FlagTable, l: Line) {
    forall it :: it in l.items ==> ItemOk(t, it)
  }

  function PrintItem(it: Item): seq<string> {
    match it
    case Plain(text) => [text]
    case Spaced(flag, value) => [flag, value]
    case Joined(flag, value) => [flag + "=" + value]
    case Switch(flag) => [flag]
  }

  function PrintItems(items: seq<Item>): seq<string> {
    if items == [] then [] else PrintItem(items[0]) + PrintItems(items[1..])
  }

  function PrintLine(l: Line): seq<string> {
    PrintItems(l.items) + if l.rest.Some? then ["--"] + l.rest.value else []
  }

  // ---------------------------------------------------------------- reading

  function Cons(it: Item, r: Result<Line, CallError>): Result<Line, CallError> {
    match r
    case Ok(l) => Ok(Line([it] + l.items, l.rest))
    case Err(e) => Err(e)
  }

  /** The reading of an argv, one item at a time. */
  function Read(t: FlagTable, argv: seq<string>): Result<Line, CallError> {
    if argv == [] then Ok(Line([], None)) else
      var a := argv[0];
      if a == "--" then Ok(Line([], Some(argv[1..])))
      else if !("-" <= a) then Cons(Plain(a), Read(t, argv[1..]))
      else if "--" <= a && '=' in a then
        var (k, v) := SplitAt(a, '=');
        if Known(t, k) then Cons(Joined(k, v), Read(t, argv[1..])) else Err(UnknownFlag(k))
      else if a in t.value && |argv| > 1 then Cons(Spaced(a, argv[1]), Read(t, argv[2..]))
      else if a in t.switch then Cons(Switch(a), Read(t, argv[1..]))
      else Err(UnknownFlag(a))
  }

  lemma ReadPrintedItem(t: FlagTable, it: Item, tail: seq<string>)
    requires WellShaped(t) && ItemOk(t, it)
    ensures Read(t, PrintItem(it) + tail) == Cons(it, Read(t, tail))
  {
    var argv := PrintItem(it) + tail;
    assert argv[|PrintItem(it)|..] == tail;
    match it {
      case Plain(text) =>
      case Spaced(flag, value) =>
      case Joined(flag, value) =>
        SplitAtJoined(flag, '=', value);
        assert argv[0] == flag + "=" + value;
        assert "--" <= flag + "=" + value && flag + "=" + value != "--";
      case Switch(flag) =>
    }
  }

  /** Reading undoes printing: positionals, `flag value`, `--flag=value`, switches and `-- rest` all come back. */
  lemma {:induction false} ReadPrinted(t: FlagTable, l: Line)
    requires WellShaped(t) && LineOk(t, l)
    ensures Read(t, PrintLine(l)) == Ok(l)
    decreases |l.items|
  {
    if l.items == [] {
      if l.rest.Some? {
        assert PrintLine(l) == ["--"] + l.rest.value;
      }
    } else {
      var tail := Line(l.items[1..], l.rest);
      assert PrintLine(l) == PrintItem(l.items[0]) + PrintLine(tail);
      ReadPrintedItem(t, l.items[0], PrintLine(tail));
      ReadPrinted(t, tail);
      assert [l.items[0]] + l.items[1..] == l.items;
    }
  }

  /** The item at the head of an accepted argv. */
  lemma ReadHead(t: FlagTable, argv: seq<string>) returns (it: Item, tail: seq<string>)
    requires WellShaped(t) && Read(t, argv).Ok? && argv != [] && argv[0] != "--"
    ensures ItemOk(t, it) && argv == PrintItem(it) + tail
    ensures Read(t, argv) == Cons(it, Read(t, tail))
  {
    var a := argv[0];
    tail := argv[1..];
    if !("-" <= a) {
      it := Plain(a);
    } else if "--" <= a && '=' in a {
      it := Joined(SplitAt(a, '=').0, SplitAt(a, '=').1);
      JoinedOfSplit(a, '=');
      assert "--" <= it.flag by {
        assert a[0] == '-' && a[1] == '-';
      }
    } else if a in t.value && |argv| > 1 {
      it, tail := Spaced(a, argv[1]), argv[2..];
    } else {
      it := Switch(a);
    }
  }

  /** And printing undoes reading: an accepted argv is the print of a line of known flags. */
  lemma {:induction false} PrintedRead(t: FlagTable, argv: seq<string>)
    requires WellShaped(t) && Read(t, argv).Ok?
    ensures LineOk(t, Read(t, argv).value) && PrintLine(Read(t, argv).value) == argv
    decreases |argv|
  {
    if argv != [] && argv[0] != "--" {
      var it, tail := ReadHead(t, argv);
      PrintedRead(t, tail);
      PrintCons(it, Read(t, tail).value);
    }
  }

  lemma PrintCons(it: Item, l: Line)
    ensures PrintLine(Line([it] + l.items, l.rest)) == PrintItem(it) + PrintLine(l)
  {
    assert ([it] + l.items)[1..] == l.items;
  }

  lemma {:induction false} ErrorsCarry(t: FlagTable, items: seq<Item>, argv: seq<string>)
    requires WellShaped(t) && LineOk(t, Line(items, None)) && Read(t, argv).Err?
    ensures Read(t, PrintItems(items) + argv) == Read(t, argv)
    decreases |items|
  {
    if items == [] {
      assert PrintItems(items) + argv == argv;
    } else {
      var tail := PrintItems(items[1..]) + argv;
      ErrorsCarry(t, items[1..], argv);
      ReadPrintedItem(t, items[0], tail);
      assert PrintItems(items) + argv == PrintItem(items[0]) + tail;
    }
  }

  /** A flag that no table lists stops the reading with its name, wherever it stands. */
  lemma UnlistedFlagRaises(t: FlagTable, items: seq<Item>, flag: string, tail: seq<string>)
    requires WellShaped(t) && LineOk(t, Line(items, None))
    requires "-" <= flag && flag != "--" && '=' !in flag && !Known(t, flag)
    ensures Read(t, PrintItems(items) + ([flag] + tail)) == Err(UnknownFlag(flag))
  {
    ErrorsCarry(t, items, [flag] + tail);
  }

  /** So does one in the = form. */
  lemma UnlistedJoinedFlagRaises(t: FlagTable, items: seq<Item>, flag: string, v: string, tail: seq<string>)
    requires WellShaped(t) && LineOk(t, Line(items, None))
    requires "--" <= flag && '=' !in flag && !Known(t, flag)
    ensures Read(t, PrintItems(items) + ([flag + "=" + v] + tail)) == Err(UnknownFlag(flag))
  {
    SplitAtJoined(flag, '=', v);
    var a := flag + "=" + v;
    assert ([a] + tail)[0] == a && a[0] == '-' && a[1] == '-' && a != "--";
    ErrorsCarry(t, items, [a] + tail);
  }

  // --------------------------------------------------- what a line denotes

  function Positionals(items: seq<Item>): seq<Positional> {
    if items == [] then [] else
      Positionals(items[..|items| - 1])
      + (var it := items[|items| - 1]; if it.Plain? then [Word(it.text)] else [])
  }

  /** The value an item gives a flag; a switch gives the empty string. */
  function ValueOf(it: Item): string
    requires !it.Plain?
  {
    if it.Switch? then "" else it.value
  }

  /** The values a flag is given, in order. */
  function Values(items: seq<Item>, flag: string): seq<string> {
    if items == [] then [] else
      Values(items[..|items| - 1], flag)
      + (var it := items[|items| - 1]; if !it.Plain? && it.flag == flag then [ValueOf(it)] else [])
  }

  function Append(flags: map<string, seq<string>>, k: string, v: string): map<string, seq<string>> {
    flags[k := (if k in flags then flags[k] else []) + [v]]
  }

  /** The flag dictionary an item list builds up. */
  function FlagMap(items: seq<Item>): map<string, seq<string>> {
    if items == [] then map[] else
      var it, before := items[|items| - 1], FlagMap(items[..|items| - 1]);
      if it.Plain? then before else Append(before, it.flag, ValueOf(it))
  }

  /** The dictionary holds each flag's values, in order, and no flag that is not given. */
  lemma {:induction false} FlagMapHolds(items: seq<Item>, flag: string)
    ensures flag in FlagMap(items) <==> Values(items, flag) != []
    ensures flag in FlagMap(items) ==> FlagMap(items)[flag] == Values(items, flag)
  {
    if items != [] {
      FlagMapHolds(items[..|items| - 1], flag);
    }
  }

  function CallOf(l: Line): Call {
    Call(Positionals(l.items) + (if l.rest.Some? then [Rest(l.rest.value)] else []), FlagMap(l.items))
  }

  /** What `parse` returns. */
  function Parsed(t: FlagTable, argv: seq<string>): Result<Call, CallError> {
    match Read(t, argv)
    case Ok(l) => Ok(CallOf(l))
    case Err(e) => Err(e)
  }

  function Prepend(done: seq<Item>, r: Result<Line, CallError>): Result<Line, CallError> {
    match r
    case Ok(l) => Ok(Line(done + l.items, l.rest))
    case Err(e) => Err(e)
  }

  lemma FlagMapAppend(items: seq<Item>, it: Item)
    ensures FlagMap(items + [it]) ==
      if it.Plain? then FlagMap(items) else Append(FlagMap(items), it.flag, ValueOf(it))
  {
    assert (items + [it])[..|items|] == items;
  }

  lemma PositionalsAppend(items: seq<Item>, it: Item)
    ensures Positionals(items + [it]) == Positionals(items) + if it.Plain? then [Word(it.text)] else []
  {
    assert (items + [it])[..|items|] == items;
  }

  lemma PrependCons(done: seq<Item>, it: Item, r: Result<Line, CallError>)
    ensures Prepend(done, Cons(it, r)) == Prepend(done + [it], r)
  {
    if r.Ok? {
      assert done + ([it] + r.value.items) == done + [it] + r.value.items;
    }
  }

  lemma PrependNothing(r: Result<Line, CallError>)
    ensures Prepend([], r) == r
  {
    if r.Ok? {
      assert [] + r.value.items == r.value.items;
    }
  }

  /** One turn of the loop: the item at `i` and where the next one starts, or the flag no table lists. */
  method ItemAt(t: FlagTable, argv: seq<string>, i: nat) returns (r: Result<Item, CallError>, next: nat)
    requires i < |argv| && argv[i] != "--"
    ensures i < next <= |argv|
    ensures match r
            case Ok(it) => Read(t, argv[i..]) == Cons(it, Read(t, argv[next..]))
            case Err(e) => Read(t, argv[i..]) == Err(e)
  {
    var a := argv[i];
    next := i + 1;
    assert argv[i..][1..] == argv[i + 1..];
    if "-" <= a {
      if '=' in a && "--" <= a {
        var (k, v) := SplitAt(a, '=');
        r := if Known(t, k) then Ok(Joined(k, v)) else Err(UnknownFlag(k));
      } else if a in t.value && i + 1 < |argv| {
        r, next := Ok(Spaced(a, argv[i + 1])), i + 2;
        assert argv[i..][2..] == argv[i + 2..];
      } else if a in t.switch {
        r := Ok(Switch(a));
      } else {
        r := Err(UnknownFlag(a));
      }
    } else {
      r := Ok(Plain(a));
    }
  }

  method Parse(t: FlagTable, argv: seq<string>) returns (r: Result<Call, CallError>)
    ensures r == Parsed(t, argv)
  {
    var flags: map<string, seq<string>>, pos: seq<Positional> := map[], [];
    ghost var done: seq<Item> := [];
    var i := 0;
    assert argv[0..] == argv;
    PrependNothing(Read(t, argv));
    while i < |argv|
      invariant 0 <= i <= |argv|
      invariant Read(t, argv) == Prepend(done, Read(t, argv[i..]))
      invariant pos == Positionals(done)
      invariant flags == FlagMap(done)
    {
      if argv[i] == "--" {
        assert done + [] == done && Read(t, argv[i..]) == Ok(Line([], Some(argv[i + 1..])));
        return Ok(Call(pos + [Rest(argv[i + 1..])], flags));
      }
      var item, next := ItemAt(t, argv, i);
      if item.Err? {
        return Err(item.error);
      }
      var it := item.value;
      FlagMapAppend(done, it);
      PositionalsAppend(done, it);
      PrependCons(done, it, Read(t, argv[next..]));
      if it.Plain? {
        pos := pos + [Word(it.text)];
      } else {
        flags := Append(flags, it.flag, ValueOf(it));
      }
      done, i := done + [it], next;
    }
    assert argv[i..] == [] && done + [] == done && pos + [] == pos;
    r := Ok(Call(pos, flags));
  }
}
