/** scripts/check-no-secret-argv.py, line_findings, taint and scan_text: the recursive scan of shell text.

    The catalogue of argv patterns is left open: `own` gives the labels of one line by itself, without repeats. */
module SecretArgv {
  import opened Prelude
  import opened ShellLexer

  type Label = string
  type Catalogue = string -> seq<Label>

  ghost predicate NoRepeats<T>(s: seq<T>) {
    forall i, j :: 0 <= i < j < |s| ==> s[i] != s[j]
  }

  /** The catalogue drops repeats, as `_line_findings` does. */
  ghost predicate Distinct(own: Catalogue) {
    forall code :: NoRepeats(own(code))
  }

  // ------------------------------------------------- the texts inside a line

  predicate IsScriptFlag(w: string) {
    w == "-c" || w == "-ec" || w == "-euc"
  }

  predicate EndsShell(w: string) {
    w == "sh" || w == "bash" || EndsWith(w, "/sh") || EndsWith(w, "/bash")
  }

  /** The last part of the word is sh or bash; a line end behind it does not count. */
  predicate IsShell(w: string) {
    EndsShell(w) || (w != "" && w[|w| - 1] == '\n' && EndsShell(w[..|w| - 1]))
  }

  function Texts(lines: seq<Numbered>): seq<string> {
    seq(|lines|, i requires 0 <= i < |lines| => lines[i].1)
  }

  /** The logical lines of the script that word `i` hands to a shell, as in `sh -c '<script>'`. */
  function ScriptAt(ws: seq<string>, i: nat): seq<string>
    requires i + 1 < |ws|
  {
    if i > 0 && IsScriptFlag(ws[i]) && IsShell(ws[i - 1]) then Texts(LogicalLines(ws[i + 1])) else []
  }

  function Scripts(ws: seq<string>, i: nat): seq<string>
    decreases |ws| - i
  {
    if i + 1 >= |ws| then [] else ScriptAt(ws, i) + Scripts(ws, i + 1)
  }

  /** The shell texts one level inside a line. */
  function Inner(code: string): seq<string> {
    Substitutions(code) + Scripts(Words(code), 0)
  }

  lemma {:induction false} WordWithin(ws: seq<string>, i: nat)
    requires i < |ws|
    ensures |ws[i]| + (if i > 0 then |ws[i - 1]| else 0) <= TotalLength(ws)
  {
    if i > 1 {
      WordWithin(ws[1..], i - 1);
    }
  }

  lemma {:induction false} ScriptsAreShort(ws: seq<string>, i: nat, text: string)
    requires text in Scripts(ws, i)
    ensures |text| < TotalLength(ws)
    decreases |ws| - i
  {
    if text in Scripts(ws, i + 1) {
      ScriptsAreShort(ws, i + 1, text);
    } else {
      var lines := LogicalLines(ws[i + 1]);
      var k :| 0 <= k < |lines| && lines[k].1 == text;
      LogicalLinesAreShort(ws[i + 1], lines[k]);
      WordWithin(ws, i + 1);
    }
  }

  /** What the scan descends into is strictly shorter than the line it came from. */
  lemma InnerIsShorter(code: string, text: string)
    requires text in Inner(code)
    ensures |text| < |code|
  {
    if text in Substitutions(code) {
      SubstitutionsAreShort(code, 0, text);
    } else {
      ScriptsAreShort(Words(code), 0, text);
      WordsAreShort(code, "", None, 0, false);
    }
  }

  // ----------------------------------------------------------- line findings

  function Without(found: seq<Label>, out: seq<Label>): seq<Label> {
    if found == [] then [] else (if found[0] in out then [] else [found[0]]) + Without(found[1..], out)
  }

  /** The labels of a line and of every text inside it, first come first. Defined for every string. */
  function LineFindings(own: Catalogue, code: string): seq<Label>
    decreases |code|, 1
  {
    assert forall t :: t in Inner(code) ==> |t| < |code| by {
      forall t | t in Inner(code) {
        InnerIsShorter(code, t);
      }
    }
    Collect(own, |code|, Inner(code), own(code))
  }

  function Collect(own: Catalogue, bound: nat, texts: seq<string>, out: seq<Label>): seq<Label>
    requires forall t :: t in texts ==> |t| < bound
    decreases bound, 0, |texts|
  {
    if texts == [] then out
    else Collect(own, bound, texts[1..], out + Without(LineFindings(own, texts[0]), out))
  }

  method ReadScriptAt(ws: seq<string>, i: nat) returns (out: seq<string>)
    requires i + 1 < |ws|
    ensures out == ScriptAt(ws, i)
  {
    out := [];
    if i > 0 && IsScriptFlag(ws[i]) && IsShell(ws[i - 1]) {
      var lines := ReadLogicalLines(ws[i + 1]);
      out := Texts(lines);
    }
  }

  /** One turn of the loop: what was taken so far, and the rest. */
  lemma ScriptsStep(ws: seq<string>, i: nat, out: seq<string>)
    requires i + 1 < |ws|
    ensures out + Scripts(ws, i) == out + ScriptAt(ws, i) + Scripts(ws, i + 1)
  {
    hide ScriptAt;
    assert Scripts(ws, i) == ScriptAt(ws, i) + Scripts(ws, i + 1);
  }

  method ReadScripts(ws: seq<string>) returns (out: seq<string>)
    ensures out == Scripts(ws, 0)
  {
    hide ScriptAt, Scripts;
    out := [];
    var i := 0;
    while i + 1 < |ws|
      invariant 0 <= i
      invariant Scripts(ws, 0) == out + Scripts(ws, i)
    {
      ScriptsStep(ws, i, out);
      var here := ReadScriptAt(ws, i);
      out := out + here;
      i := i + 1;
    }
    NoScripts(ws, i);
  }

  lemma NoScripts(ws: seq<string>, i: nat)
    requires i + 1 >= |ws|
    ensures Scripts(ws, i) == []
  {
  }

  /** One turn of the loop: a label not yet found is kept. */
  lemma KeepStep(found: seq<Label>, i: nat, out: seq<Label>, kept: seq<Label>)
    requires i < |found|
    ensures kept + Without(found[i..], out)
         == (if found[i] in out then kept else kept + [found[i]]) + Without(found[i + 1..], out)
  {
    var rest := found[i..];
    assert rest[0] == found[i] && rest[1..] == found[i + 1..];
  }

  method Keep(found: seq<Label>, out: seq<Label>) returns (kept: seq<Label>)
    ensures kept == Without(found, out)
  {
    hide Without;
    kept := [];
    assert found[0..] == found;
    for i := 0 to |found|
      invariant Without(found, out) == kept + Without(found[i..], out)
    {
      KeepStep(found, i, out, kept);
      if found[i] !in out {
        kept := kept + [found[i]];
      }
    }
    NothingToKeep(found, out);
  }

  lemma NothingToKeep(found: seq<Label>, out: seq<Label>)
    ensures Without(found[|found|..], out) == []
  {
  }

  method ScanInner(own: Catalogue, bound: nat, texts: seq<string>, start: seq<Label>) returns (out: seq<Label>)
    requires forall t :: t in texts ==> |t| < bound
    ensures out == Collect(own, bound, texts, start)
    decreases bound, 0
  {
    out := start;
    assert texts[0..] == texts;
    for i := 0 to |texts|
      invariant Collect(own, bound, texts, start) == Collect(own, bound, texts[i..], out)
    {
      assert texts[i..][1..] == texts[i + 1..];
      var found := ScanLine(own, texts[i]);
      var kept := Keep(found, out);
      out := out + kept;
    }
  }

  /** The recursive scan ends on every string, because each text it descends into is shorter. */
  method ScanLine(own: Catalogue, code: string) returns (out: seq<Label>)
    ensures out == LineFindings(own, code)
    decreases |code|, 1
  {
    var inner := ReadSubstitutions(code);
    var ws := ReadWords(code);
    var scripts := ReadScripts(ws);
    InnerAreShorter(code);
    out := ScanInner(own, |code|, inner + scripts, own(code));
  }

  lemma InnerAreShorter(code: string)
    ensures forall t :: t in Inner(code) ==> |t| < |code|
  {
    forall t | t in Inner(code)
      ensures |t| < |code|
    {
      InnerIsShorter(code, t);
    }
  }

  /** `text` is the line itself, or is inside it at some depth. */
  ghost predicate Nested(code: string, text: string)
    decreases |code|
  {
    text == code || exists t :: t in Inner(code) && |t| < |code| && Nested(t, text)
  }

  lemma {:induction false} WithoutIsDifference(found: seq<Label>, out: seq<Label>, l: Label)
    ensures l in Without(found, out) <==> l in found && l !in out
  {
    if found != [] {
      WithoutIsDifference(found[1..], out, l);
    }
  }

  /** Nothing nested is missed and nothing is invented: a label is found exactly when the line, or a text inside it at
      any depth, carries it. */
  lemma {:induction false} FindsExactlyNested(own: Catalogue, code: string, l: Label)
    ensures l in LineFindings(own, code) <==> exists text :: Nested(code, text) && l in own(text)
    decreases |code|, 1
  {
    forall t | t in Inner(code)
      ensures |t| < |code|
    {
      InnerIsShorter(code, t);
    }
    CollectsExactly(own, |code|, Inner(code), own(code), l);
    if text :| Nested(code, text) && l in own(text) {
      if text != code {
        var t :| t in Inner(code) && |t| < |code| && Nested(t, text);
        FindsExactlyNested(own, t, l);
      }
    }
    if t :| t in Inner(code) && l in LineFindings(own, t) {
      FindsExactlyNested(own, t, l);
      var text :| Nested(t, text) && l in own(text);
      assert Nested(code, text);
    }
    assert Nested(code, code);
  }

  ghost predicate LabelIn(own: Catalogue, texts: seq<string>, l: Label) {
    exists t :: t in texts && l in LineFindings(own, t)
  }

  lemma LabelInTurn(own: Catalogue, texts: seq<string>, l: Label)
    requires texts != []
    ensures LabelIn(own, texts, l) <==> l in LineFindings(own, texts[0]) || LabelIn(own, texts[1..], l)
  {
    hide LineFindings;
    assert forall t :: t in texts <==> t == texts[0] || t in texts[1..];
  }

  lemma {:induction false} CollectsExactly(own: Catalogue, bound: nat, texts: seq<string>, out: seq<Label>, l: Label)
    requires forall t :: t in texts ==> |t| < bound
    ensures l in Collect(own, bound, texts, out) <==> l in out || LabelIn(own, texts, l)
  {
    if texts != [] {
      hide LineFindings, LabelIn;
      var more := Without(LineFindings(own, texts[0]), out);
      WithoutIsDifference(LineFindings(own, texts[0]), out, l);
      LabelInTurn(own, texts, l);
      CollectsExactly(own, bound, texts[1..], out + more, l);
    }
  }

  /** And each label is found once. */
  lemma {:induction false} FindingsAreDistinct(own: Catalogue, code: string)
    requires Distinct(own)
    ensures NoRepeats(LineFindings(own, code))
    decreases |code|, 1
  {
    forall t | t in Inner(code)
      ensures |t| < |code|
    {
      InnerIsShorter(code, t);
    }
    CollectIsDistinct(own, |code|, Inner(code), own(code));
  }

  lemma {:induction false} CollectIsDistinct(own: Catalogue, bound: nat, texts: seq<string>, out: seq<Label>)
    requires Distinct(own) && (forall t :: t in texts ==> |t| < bound) && NoRepeats(out)
    ensures NoRepeats(Collect(own, bound, texts, out))
    decreases bound, 0, |texts|
  {
    if texts != [] {
      FindingsAreDistinct(own, texts[0]);
      WithoutIsDistinct(LineFindings(own, texts[0]), out);
      CollectIsDistinct(own, bound, texts[1..], out + Without(LineFindings(own, texts[0]), out));
    }
  }

  lemma {:induction false} WithoutIsDistinct(found: seq<Label>, out: seq<Label>)
    requires NoRepeats(found) && NoRepeats(out)
    ensures NoRepeats(out + Without(found, out))
  {
    var kept := Without(found, out);
    KeptInOrder(found, out);
    forall i, k | 0 <= i < |out| && 0 <= k < |kept|
      ensures out[i] != kept[k]
    {
      WithoutIsDifference(found, out, kept[k]);
    }
  }

  lemma {:induction false} KeptInOrder(found: seq<Label>, out: seq<Label>)
    requires NoRepeats(found)
    ensures NoRepeats(Without(found, out))
  {
    if found != [] {
      assert forall i :: 1 <= i < |found| ==> found[i] == found[1..][i - 1];
      KeptInOrder(found[1..], out);
      WithoutIsDifference(found[1..], out, found[0]);
      assert found[0] !in found[1..];
    }
  }

  // -------------------------------------------------------------------- taint

  /** An assignment line: `fromSource` when a command of its right-hand side reads or makes a secret, `harmless` when
      it reads a field that holds none, and the variables it expands. */
  datatype Assign = Assign(name: string, harmless: bool, fromSource: bool, vars: seq<string>)

  predicate Taints(a: Assign, out: set<string>) {
    !a.harmless && (a.fromSource || exists v | v in a.vars :: v in out)
  }

  function Pass(assigns: seq<Assign>, out: set<string>): set<string> {
    if assigns == [] then out
    else Pass(assigns[1..], if Taints(assigns[0], out) then out + {assigns[0].name} else out)
  }

  /** Three passes over the assignments, as the guard makes. */
  function Tainted(assigns: seq<Assign>): set<string> {
    Pass(assigns, Pass(assigns, Pass(assigns, {})))
  }

  method Taint(assigns: seq<Assign>) returns (out: set<string>)
    ensures out == Tainted(assigns)
  {
    out := {};
    for round := 0 to 3
      invariant Tainted(assigns) ==
        if round == 0 then Pass(assigns, Pass(assigns, Pass(assigns, out)))
        else if round == 1 then Pass(assigns, Pass(assigns, out))
        else if round == 2 then Pass(assigns, out) else out
    {
      ghost var start := out;
      assert assigns[0..] == assigns;
      for i := 0 to |assigns|
        invariant Pass(assigns, start) == Pass(assigns[i..], out)
      {
        assert assigns[i..][1..] == assigns[i + 1..];
        if Taints(assigns[i], out) {
          out := out + {assigns[i].name};
        }
      }
    }
  }

  /** Every variable a secret reaches is in the set. */
  ghost predicate Closed(assigns: seq<Assign>, s: set<string>) {
    forall a :: a in assigns && Taints(a, s) ==> a.name in s
  }

  lemma {:induction false} PassStaysWithin(assigns: seq<Assign>, out: set<string>, s: set<string>)
    requires out <= s && Closed(assigns, s)
    ensures Pass(assigns, out) <= s
  {
    if assigns != [] {
      assert Closed(assigns[1..], s) by {
        assert forall a :: a in assigns[1..] ==> a in assigns;
      }
      assert assigns[0] in assigns;
      PassStaysWithin(assigns[1..], if Taints(assigns[0], out) then out + {assigns[0].name} else out, s);
    }
  }

  /** The three passes never name a variable outside a set that holds all a secret reaches. */
  lemma TaintedIsReached(assigns: seq<Assign>, s: set<string>)
    requires Closed(assigns, s)
    ensures Tainted(assigns) <= s
  {
    PassStaysWithin(assigns, {}, s);
    PassStaysWithin(assigns, Pass(assigns, {}), s);
    PassStaysWithin(assigns, Pass(assigns, Pass(assigns, {})), s);
  }

  /** They can miss one that a secret does reach: a secret passed on through four assignments written bottom up is lost. */
  lemma FourStepsUpAreLost()
    ensures exists assigns :: !Closed(assigns, Tainted(assigns))
  {
    var d := Assign("d", false, false, ["c"]);
    var c := Assign("c", false, false, ["b"]);
    var b := Assign("b", false, false, ["a"]);
    var a := Assign("a", false, true, []);
    var assigns := [d, c, b, a];
    assert Then(d, {}) == {} && Then(c, {}) == {} && Then(b, {}) == {} && Then(a, {}) == {"a"};
    OnePass(d, c, b, a, {});
    assert Then(d, {"a"}) == {"a"} && Then(c, {"a"}) == {"a"};
    assert b.vars[0] == "a" && Taints(b, {"a"}) && Then(b, {"a"}) == {"a", "b"};
    assert Then(a, {"a", "b"}) == {"a", "b"};
    OnePass(d, c, b, a, {"a"});
    assert Then(d, {"a", "b"}) == {"a", "b"};
    assert c.vars[0] == "b" && Taints(c, {"a", "b"}) && Then(c, {"a", "b"}) == {"a", "b", "c"};
    assert Then(b, {"a", "b", "c"}) == {"a", "b", "c"} && Then(a, {"a", "b", "c"}) == {"a", "b", "c"};
    OnePass(d, c, b, a, {"a", "b"});
    assert Tainted(assigns) == {"a", "b", "c"};
    assert assigns[0] == d && d.vars[0] == "c" && Taints(d, Tainted(assigns));
    assert !Closed(assigns, Tainted(assigns));
  }

  function Then(a: Assign, out: set<string>): set<string> {
    if Taints(a, out) then out + {a.name} else out
  }

  lemma OnePass(d: Assign, c: Assign, b: Assign, a: Assign, out: set<string>)
    ensures Pass([d, c, b, a], out) == Then(a, Then(b, Then(c, Then(d, out))))
  {
    PassCons(d, [c, b, a], out);
    PassCons(c, [b, a], Then(d, out));
    PassCons(b, [a], Then(c, Then(d, out)));
    PassCons(a, [], Then(b, Then(c, Then(d, out))));
  }

  lemma PassCons(a: Assign, rest: seq<Assign>, out: set<string>)
    ensures Pass([a] + rest, out) == Pass(rest, Then(a, out))
  {
    assert ([a] + rest)[1..] == rest;
  }

  // ---------------------------------------------------------------- scan_text

  type Finding = (nat, Label)

  /** The guard, with the variables it holds tainted. `assignOf` reads an assignment off a line, `own` is the catalogue
      under a set of tainted variables. */
  class Scanner {
    var tainted: set<string>
    const assignOf: string -> Option<Assign>
    const own: set<string> -> Catalogue

    constructor (assignOf: string -> Option<Assign>, own: set<string> -> Catalogue)
      ensures tainted == {} && this.assignOf == assignOf && this.own == own
    {
      tainted := {};
      this.assignOf := assignOf;
      this.own := own;
    }

    /** Each finding of a text, under the text's own tainted variables: what an earlier text left tainted is gone. */
    method ScanText(text: string) returns (found: seq<Finding>)
      modifies this
      ensures tainted == Tainted(Assigns(assignOf, LogicalLines(text)))
      ensures forall f :: f in found <==> FoundIn(own(tainted), LogicalLines(text), f)
    {
      var lines := ReadLogicalLines(text);
      tainted := {};
      var reached := Taint(Assigns(assignOf, lines));
      tainted := tainted + reached;
      found := ScanLines(own(tainted), lines);
    }
  }

  /** The line, or a text inside it at some depth, carries the label. */
  ghost predicate Carries(own: Catalogue, code: string, l: Label) {
    exists inside :: Nested(code, inside) && l in own(inside)
  }

  ghost predicate FoundIn(own: Catalogue, lines: seq<Numbered>, f: Finding) {
    exists i :: 0 <= i < |lines| && lines[i].0 == f.0 && Carries(own, lines[i].1, f.1)
  }

  method LabelLine(own: Catalogue, line: Numbered) returns (found: seq<Finding>)
    ensures forall f :: f in found <==> f.0 == line.0 && Carries(own, line.1, f.1)
  {
    var labels := ScanLine(own, line.1);
    found := [];
    for k := 0 to |labels|
      invariant forall f :: f in found <==> f.0 == line.0 && f.1 in labels[..k]
    {
      assert labels[..k + 1] == labels[..k] + [labels[k]];
      found := found + [(line.0, labels[k])];
    }
    assert labels[..|labels|] == labels;
    forall l
      ensures l in labels <==> Carries(own, line.1, l)
    {
      FindsExactlyNested(own, line.1, l);
    }
  }

  method ScanLines(own: Catalogue, lines: seq<Numbered>) returns (found: seq<Finding>)
    ensures forall f :: f in found <==> FoundIn(own, lines, f)
  {
    found := [];
    for i := 0 to |lines|
      invariant forall f :: f in found <==> FoundIn(own, lines[..i], f)
    {
      var here := LabelLine(own, lines[i]);
      ghost var more := lines[..i + 1];
      forall f
        ensures FoundIn(own, more, f) <==> FoundIn(own, lines[..i], f) || f in here
      {
        FoundInMore(own, lines, i, f);
      }
      found := found + here;
    }
    assert lines[..|lines|] == lines;
  }

  lemma FoundInMore(own: Catalogue, lines: seq<Numbered>, i: nat, f: Finding)
    requires i < |lines|
    ensures FoundIn(own, lines[..i + 1], f) <==>
        FoundIn(own, lines[..i], f) || (f.0 == lines[i].0 && Carries(own, lines[i].1, f.1))
  {
    var less, more := lines[..i], lines[..i + 1];
    assert more[i] == lines[i] && forall k :: 0 <= k < i ==> more[k] == less[k];
  }

  /** The assignments among some logical lines, in order. */
  function Assigns(assignOf: string -> Option<Assign>, lines: seq<Numbered>): seq<Assign> {
    if lines == [] then [] else
      (if assignOf(lines[0].1).Some? then [assignOf(lines[0].1).value] else []) + Assigns(assignOf, lines[1..])
  }
}
