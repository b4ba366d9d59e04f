/** scripts/check-no-secret-argv.py: the words of a command line, told by how the line is written. */
module ShellWords {
  import opened Prelude
  import opened ShellLexer
  import opened ShellTrees
  import opened SecretArgv

  /** A piece of a word: plain characters, a quoted text, or a substitution. */
  datatype Part = Bare(text: string) | Quoted(quote: char, text: string) | Run(body: string)

  /** A word of one or more parts, white space, or a separator. */
  datatype Token = Word(parts: seq<Part>) | Gap(blanks: string) | Sep(sign: char)

  /** The signs that words are told apart by. */
  lemma SignsAre(c: char)
    ensures IsQuote(c) <==> c in "'\""
    ensures IsBlank(c) <==> c in " \t"
    ensures IsSeparator(c) <==> c in ";|&()"
  {
  }

  predicate IsBare(c: char) {
    !IsQuote(c) && !IsBlank(c) && !IsSeparator(c)
  }

  ghost predicate PartOk(p: Part) {
    match p
    case Bare(text) => text != "" && text[|text| - 1] != '$' && forall k :: 0 <= k < |text| ==> IsBare(text[k])
    case Quoted(quote, text) => IsQuote(quote) && quote !in text
    case Run(body) => Balanced(body)
  }

  ghost predicate PartsOk(ps: seq<Part>) {
    forall p :: p in ps ==> PartOk(p)
  }

  ghost predicate TokenOk(t: Token) {
    match t
    case Word(parts) => parts != [] && PartsOk(parts)
    case Gap(blanks) => blanks != "" && forall k :: 0 <= k < |blanks| ==> IsBlank(blanks[k])
    case Sep(sign) => IsSeparator(sign)
  }

  /** Every token is well formed, and no word stands right behind another. */
  ghost predicate LineOk(ts: seq<Token>) {
    && (forall t :: t in ts ==> TokenOk(t))
    && forall k :: 0 < k < |ts| ==> !(ts[k - 1].Word? && ts[k].Word?)
  }

  function PrintPart(p: Part): string {
    match p
    case Bare(text) => text
    case Quoted(quote, text) => [quote] + (text + [quote])
    case Run(body) => "$(" + (body + ")")
  }

  function PrintParts(ps: seq<Part>): string {
    if ps == [] then "" else PrintPart(ps[0]) + PrintParts(ps[1..])
  }

  function PrintToken(t: Token): string {
    match t
    case Word(parts) => PrintParts(parts)
    case Gap(blanks) => blanks
    case Sep(sign) => [sign]
  }

  function PrintLine(ts: seq<Token>): string {
    if ts == [] then "" else PrintToken(ts[0]) + PrintLine(ts[1..])
  }

  /** What a part stands for: quotes go, a substitution stays as it is written. */
  function PartValue(p: Part): string {
    match p
    case Bare(text) => text
    case Quoted(_, text) => text
    case Run(body) => "$(" + (body + ")")
  }

  function Value(ps: seq<Part>): string {
    if ps == [] then "" else PartValue(ps[0]) + Value(ps[1..])
  }

  /** One word for each word, and one for each separator. */
  function TokenWords(t: Token): seq<string> {
    match t
    case Word(parts) => [Value(parts)]
    case Gap(_) => []
    case Sep(sign) => [[sign]]
  }

  function LineWords(ts: seq<Token>): seq<string> {
    if ts == [] then [] else TokenWords(ts[0]) + LineWords(ts[1..])
  }

  // ------------------------------------------------------------------- parts

  lemma Front(c: char, more: string, rest: string)
    ensures ([c] + more) + rest == [c] + (more + rest) && ([c] + (more + rest))[1..] == more + rest
  {
  }

  lemma {:induction false} BareIsRead(text: string, rest: string, cur: string, has: bool)
    requires text != "" && text[|text| - 1] != '$' && forall k :: 0 <= k < |text| ==> IsBare(text[k])
    ensures WordsFrom(text + rest, cur, None, 0, has) == WordsFrom(rest, cur + text, None, 0, true)
    decreases text
  {
    var c, more := text[0], text[1..];
    assert text == [c] + more;
    Front(c, more, rest);
    if more == "" {
      assert text + rest == [c] + rest && ([c] + rest)[1..] == rest;
    } else {
      assert (more + rest)[0] == text[1];
      BareIsRead(more, rest, cur + [c], true);
      assert cur + [c] + more == cur + text;
    }
  }

  lemma {:induction false} UpToQuote(q: char, text: string, rest: string, cur: string, has: bool)
    requires q !in text
    ensures WordsFrom(text + ([q] + rest), cur, Some(q), 0, has) == WordsFrom(rest, cur + text, None, 0, has)
    decreases text
  {
    if text == "" {
      assert text + ([q] + rest) == [q] + rest && cur + text == cur && ([q] + rest)[1..] == rest;
    } else {
      var c, more := text[0], text[1..];
      assert text == [c] + more;
      Front(c, more, [q] + rest);
      UpToQuote(q, more, rest, cur + [c], has);
      assert cur + [c] + more == cur + text;
    }
  }

  /** Inside a substitution every character is kept, and only parentheses count. */
  lemma {:induction false} InsideRun(a: string, rest: string, cur: string, depth: nat, has: bool)
    requires forall k :: 0 <= k < |a| ==> depth + Level(a[..k]) > 0
    requires depth + Level(a) >= 0
    ensures WordsFrom(a + rest, cur, None, depth, has) == WordsFrom(rest, cur + a, None, depth + Level(a), has)
    decreases a
  {
    if a == "" {
      assert a + rest == rest && cur + a == cur;
    } else {
      var c, more := a[0], a[1..];
      assert a == [c] + more && a[..0] == "";
      Front(c, more, rest);
      LevelOfChar(c);
      var next := depth + Level([c]);
      LevelInTurn([c], more);
      forall k | 0 <= k < |more|
        ensures next + Level(more[..k]) > 0
      {
        assert a[..k + 1] == [c] + more[..k];
        LevelInTurn([c], more[..k]);
      }
      StepInside(c, more + rest, cur, depth, has);
      InsideRun(more, rest, cur + [c], next, has);
      assert cur + [c] + more == cur + a;
    }
  }

  lemma StepInside(c: char, rest: string, cur: string, depth: nat, has: bool)
    requires depth > 0
    ensures depth + Level([c]) >= 0
    ensures WordsFrom([c] + rest, cur, None, depth, has) == WordsFrom(rest, cur + [c], None, depth + Level([c]), has)
  {
    LevelOfChar(c);
    assert ([c] + rest)[1..] == rest;
  }

  lemma RunIsRead(body: string, rest: string, cur: string, has: bool)
    requires Balanced(body)
    ensures WordsFrom("$(" + (body + ")") + rest, cur, None, 0, has) == WordsFrom(rest, cur + ("$(" + (body + ")")), None, 0, true)
  {
    hide Level;
    var a := body + ")";
    var s := "$(" + a + rest;
    assert s[0] == '$' && s[1..][0] == '(' && s[1..][1..] == a + rest;
    assert WordsFrom(s, cur, None, 0, has) == WordsFrom(a + rest, cur + "$(", None, 1, true);
    LevelInTurn(body, ")");
    LevelOfChar(')');
    forall k | 0 <= k < |a|
      ensures 1 + Level(a[..k]) > 0
    {
      assert a[..k] == body[..k];
    }
    InsideRun(a, rest, cur + "$(", 1, true);
    assert cur + "$(" + a == cur + ("$(" + a);
  }

  lemma QuotedIsRead(q: char, text: string, rest: string, cur: string, has: bool)
    requires IsQuote(q) && q !in text
    ensures WordsFrom([q] + (text + [q]) + rest, cur, None, 0, has) == WordsFrom(rest, cur + text, None, 0, true)
  {
    var s := [q] + (text + [q]) + rest;
    assert s[1..] == text + ([q] + rest);
    UpToQuote(q, text, rest, cur, true);
  }

  lemma PartIsRead(p: Part, rest: string, cur: string, has: bool)
    requires PartOk(p)
    ensures WordsFrom(PrintPart(p) + rest, cur, None, 0, has) == WordsFrom(rest, cur + PartValue(p), None, 0, true)
  {
    hide WordsFrom, Balanced;
    match p {
      case Bare(text) => BareIsRead(text, rest, cur, has);
      case Quoted(quote, text) => QuotedIsRead(quote, text, rest, cur, has);
      case Run(body) => RunIsRead(body, rest, cur, has);
    }
  }

  lemma {:induction false} PartsAreRead(ps: seq<Part>, rest: string, cur: string, has: bool)
    requires PartsOk(ps)
    ensures WordsFrom(PrintParts(ps) + rest, cur, None, 0, has) == WordsFrom(rest, cur + Value(ps), None, 0, has || ps != [])
  {
    hide WordsFrom, PartOk, PrintPart, PartValue;
    if ps == [] {
      assert PrintParts(ps) + rest == rest && cur + Value(ps) == cur;
    } else {
      var more := PrintParts(ps[1..]) + rest;
      assert PrintParts(ps) + rest == PrintPart(ps[0]) + more;
      assert ps[0] in ps;
      PartIsRead(ps[0], more, cur, has);
      PartsAreRead(ps[1..], rest, cur + PartValue(ps[0]), true);
      assert cur + PartValue(ps[0]) + Value(ps[1..]) == cur + Value(ps);
    }
  }

  // ------------------------------------------------------------------ tokens

  lemma {:induction false} GapIsRead(blanks: string, rest: string, cur: string, has: bool)
    requires blanks != "" && forall k :: 0 <= k < |blanks| ==> IsBlank(blanks[k])
    ensures WordsFrom(blanks + rest, cur, None, 0, has) == Flush(cur, has) + WordsFrom(rest, "", None, 0, false)
    decreases blanks
  {
    var c, more := blanks[0], blanks[1..];
    assert blanks == [c] + more;
    Front(c, more, rest);
    if more == "" {
      assert more + rest == rest;
    } else {
      GapIsRead(more, rest, "", false);
      assert [] + WordsFrom(rest, "", None, 0, false) == WordsFrom(rest, "", None, 0, false);
    }
  }

  lemma SepIsRead(sign: char, rest: string, cur: string, has: bool)
    requires IsSeparator(sign)
    ensures WordsFrom([sign] + rest, cur, None, 0, has) == Flush(cur, has) + ([[sign]] + WordsFrom(rest, "", None, 0, false))
  {
    assert ([sign] + rest)[1..] == rest;
  }

  /** A line under way: what stands of a word is taken with the next token that ends it. */
  lemma {:induction false} TokensAreRead(ts: seq<Token>, cur: string, has: bool)
    requires LineOk(ts) && (cur != "" ==> has) && (has ==> ts == [] || !ts[0].Word?)
    ensures WordsFrom(PrintLine(ts), cur, None, 0, has) == Flush(cur, has) + LineWords(ts)
  {
    hide TokenOk;
    if ts == [] {
      NothingLeft(cur, has);
    } else {
      var rest := PrintLine(ts[1..]);
      assert ts[0] in ts;
      assert forall k :: 0 <= k < |ts[1..]| ==> ts[1..][k] == ts[k + 1];
      OneToken(ts[0], rest, cur, has);
      hide WordsFrom, LineOk;
      match ts[0] {
        case Word(parts) =>
          NoneBehind(ts);
          TokensAreRead(ts[1..], Value(parts), true);
          assert [] + ([Value(parts)] + LineWords(ts[1..])) == LineWords(ts);
        case _ =>
          RestOk(ts);
          TokensAreRead(ts[1..], "", false);
          assert [] + LineWords(ts[1..]) == LineWords(ts[1..]);
      }
    }
  }

  lemma RestOk(ts: seq<Token>)
    requires LineOk(ts) && ts != []
    ensures LineOk(ts[1..])
  {
    assert forall k :: 0 <= k < |ts[1..]| ==> ts[1..][k] == ts[k + 1];
  }

  lemma NoneBehind(ts: seq<Token>)
    requires LineOk(ts) && ts != [] && ts[0].Word?
    ensures LineOk(ts[1..]) && (ts[1..] == [] || !ts[1..][0].Word?)
  {
    RestOk(ts);
  }

  lemma NothingLeft(cur: string, has: bool)
    ensures WordsFrom("", cur, None, 0, has) == Flush(cur, has) + []
  {
  }

  lemma OneToken(t: Token, rest: string, cur: string, has: bool)
    requires TokenOk(t) && (t.Word? ==> !has && cur == "")
    ensures t.Word? ==> WordsFrom(PrintToken(t) + rest, cur, None, 0, has) == WordsFrom(rest, Value(t.parts), None, 0, true)
    ensures !t.Word? ==>
        WordsFrom(PrintToken(t) + rest, cur, None, 0, has) == Flush(cur, has) + (TokenWords(t) + WordsFrom(rest, "", None, 0, false))
  {
    hide WordsFrom, PartOk;
    match t {
      case Word(parts) =>
        PartsAreRead(parts, rest, "", false);
        assert "" + Value(parts) == Value(parts);
      case Gap(blanks) =>
        GapIsRead(blanks, rest, cur, has);
        assert [] + WordsFrom(rest, "", None, 0, false) == WordsFrom(rest, "", None, 0, false);
      case Sep(sign) => SepIsRead(sign, rest, cur, has);
    }
  }

  /** Splitting a written line gives back its words and separators, in order and whole. */
  lemma WordsOfPrint(ts: seq<Token>)
    requires LineOk(ts)
    ensures Words(PrintLine(ts)) == LineWords(ts)
  {
    TokensAreRead(ts, "", false);
    assert [] + LineWords(ts) == LineWords(ts);
  }

  // ----------------------------------------------------------------- scripts

  /** `sh` or `bash`, behind a path or not; a line end may follow. */
  predicate ShellNamed(w: string, dir: string, name: string, end: string) {
    && (dir == "" || dir[|dir| - 1] == '/') && (name == "sh" || name == "bash") && (end == "" || end == "\n")
    && w == dir + (name + end)
  }

  lemma NamedAtEnd(w: string, name: string)
    requires name == "sh" || name == "bash"
    ensures (w == name || EndsWith(w, "/" + name)) <==> exists dir :: ShellNamed(w, dir, name, "")
  {
    if w == name || EndsWith(w, "/" + name) {
      var dir := w[..|w| - |name|];
      assert w[|w| - |name|..] == name by {
        assert w == name || w[|w| - |name|..] == w[|w| - |name| - 1..][1..];
      }
      assert w == dir + (name + "");
      assert dir != "" ==> w != name && dir[|dir| - 1] == w[|w| - |name| - 1..][0];
      assert ShellNamed(w, dir, name, "");
    }
    if dir :| ShellNamed(w, dir, name, "") {
      assert name + "" == name;
      if dir != "" {
        assert w[|dir| - 1..] == [dir[|dir| - 1]] + name;
      } else {
        assert w == name;
      }
    }
  }

  lemma EndsShellIff(w: string)
    ensures EndsShell(w) <==> exists dir, name :: ShellNamed(w, dir, name, "")
  {
    NamedAtEnd(w, "sh");
    NamedAtEnd(w, "bash");
    assert "/" + "sh" == "/sh" && "/" + "bash" == "/bash";
    hide ShellNamed, EndsWith;
    if dir, name :| ShellNamed(w, dir, name, "") {
      NameIs(w, dir, name, "");
    }
  }

  lemma NameIs(w: string, dir: string, name: string, end: string)
    requires ShellNamed(w, dir, name, end)
    ensures name == "sh" || name == "bash"
  {
  }

  /** A word is a shell exactly when its last part is one of the two. */
  lemma IsShellIff(w: string)
    ensures IsShell(w) <==> exists dir, name, end :: ShellNamed(w, dir, name, end)
  {
    hide EndsShell;
    EndsShellIff(w);
    if w != "" && w[|w| - 1] == '\n' {
      var front := w[..|w| - 1];
      EndsShellIff(front);
      if dir, name :| ShellNamed(front, dir, name, "") {
        assert w == dir + (name + "\n");
        assert ShellNamed(w, dir, name, "\n");
      }
    }
    if dir, name, end :| ShellNamed(w, dir, name, end) {
      if end == "\n" {
        assert w[|w| - 1] == '\n' && w[..|w| - 1] == dir + (name + "");
        assert ShellNamed(w[..|w| - 1], dir, name, "");
      } else {
        assert ShellNamed(w, dir, name, "");
      }
    }
  }

  /** The word behind a shell and its command flag is a script. */
  predicate IsScriptWord(ws: seq<string>, i: nat) {
    1 < i < |ws| && IsShell(ws[i - 2]) && (ws[i - 1] == "-c" || ws[i - 1] == "-ec" || ws[i - 1] == "-euc")
  }

  predicate HasLine(script: string, n: int, text: string) {
    0 <= n < |LogicalLines(script)| && LogicalLines(script)[n].1 == text
  }

  /** The texts taken out of the words are the logical lines of such scripts, and no others. */
  lemma {:induction false} ScriptsIff(ws: seq<string>, from: nat, text: string)
    ensures text in Scripts(ws, from) <==>
        exists i, n :: from < i < |ws| && IsScriptWord(ws, i) && HasLine(ws[i], n, text)
    decreases |ws| - from
  {
    hide IsShell, LogicalLines;
    if from + 1 < |ws| {
      ScriptsIff(ws, from + 1, text);
      ScriptAtIff(ws, from, ws[from + 1], text);
      hide ScriptAt;
    }
  }

  lemma ScriptAtIff(ws: seq<string>, i: nat, script: string, text: string)
    requires i + 1 < |ws| && ws[i + 1] == script
    ensures text in ScriptAt(ws, i) <==> IsScriptWord(ws, i + 1) && exists n :: HasLine(script, n, text)
  {
    hide IsShell, LogicalLines;
    var lines := LogicalLines(script);
    assert forall n :: 0 <= n < |lines| ==> Texts(lines)[n] == lines[n].1;
    if n :| 0 <= n < |lines| && lines[n].1 == text {
      assert HasLine(script, n, text);
    }
  }

  /** The texts one level inside a line: its outermost substitutions, and the lines of the scripts its words hand to a shell. */
  lemma InnerIff(code: string, text: string)
    ensures text in Inner(code) <==>
        text in Substitutions(code)
        || exists i, n :: 0 < i < |Words(code)| && IsScriptWord(Words(code), i) && HasLine(Words(code)[i], n, text)
  {
    ScriptsIff(Words(code), 0, text);
    hide Substitutions, Words, Scripts, IsScriptWord, HasLine;
  }

  /** A line carries its own labels and those of the texts one level inside it, and no others. */
  lemma LabelsComeFromInside(own: Catalogue, code: string, l: Label)
    ensures l in LineFindings(own, code) <==>
        || l in own(code)
        || (exists text :: text in Substitutions(code) && l in LineFindings(own, text))
        || exists i, n, text :: 0 < i < |Words(code)| && IsScriptWord(Words(code), i) && HasLine(Words(code)[i], n, text)
                                && l in LineFindings(own, text)
  {
    forall text
      ensures text in Inner(code) ==> |text| < |code|
      ensures text in Inner(code) <==>
          text in Substitutions(code)
          || exists i, n :: 0 < i < |Words(code)| && IsScriptWord(Words(code), i) && HasLine(Words(code)[i], n, text)
    {
      if text in Inner(code) {
        InnerIsShorter(code, text);
      }
      InnerIff(code, text);
    }
    hide Inner, Substitutions, Words, IsScriptWord, HasLine;
    CollectsExactly(own, |code|, Inner(code), own(code), l);
    hide LineFindings;
    assert LabelIn(own, Inner(code), l) <==> exists text :: text in Inner(code) && l in LineFindings(own, text);
  }
}
