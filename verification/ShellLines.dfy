/** scripts/check-no-secret-argv.py: where a comment starts and which lines belong together, told by how a script is written. */
module ShellLines {
  import opened Prelude
  import opened ShellLexer

  // ---------------------------------------------------------------- comments

  /** Literal text, a text in single or in double quotes, or a substitution. */
  datatype Bit = Lit(text: string) | Single(text: string) | Double(text: string) | Sub(bits: seq<Bit>)

  /** A "(" stands behind something other than "$"; outside substitutions a "#" has no white space in front, or "{" behind. */
  predicate CharOk(t: string, k: nat, depth: nat)
    requires k < |t|
  {
    && !IsQuote(t[k])
    && (t[k] == '(' ==> k > 0 && t[k - 1] != '$')
    && (t[k] == ')' ==> depth == 0)
    && (t[k] == '#' && depth == 0 ==> (k > 0 && !IsBlank(t[k - 1])) || (k + 1 < |t| && t[k + 1] == '{'))
  }

  predicate LitOk(t: string, depth: nat) {
    forall k :: 0 <= k < |t| ==> CharOk(t, k, depth)
  }

  /** A double quote inside has a backslash in front, and no backslash stands in front of the closing one. */
  predicate DoubleOk(t: string) {
    (t != "" ==> t[|t| - 1] != '\\') && forall k :: 0 <= k < |t| && t[k] == '"' ==> k > 0 && t[k - 1] == '\\'
  }

  predicate BitOk(b: Bit, depth: nat)
    decreases b
  {
    match b
    case Lit(t) => LitOk(t, depth)
    case Single(t) => '\'' !in t
    case Double(t) => DoubleOk(t)
    case Sub(bits) => BitsOk(bits, depth + 1)
  }

  predicate BitsOk(bs: seq<Bit>, depth: nat)
    decreases bs
  {
    bs == [] || (BitOk(bs[0], depth) && BitsOk(bs[1..], depth))
  }

  function PrintBit(b: Bit): string {
    match b
    case Lit(t) => t
    case Single(t) => "'" + (t + "'")
    case Double(t) => "\"" + (t + "\"")
    case Sub(bits) => "$(" + (PrintBits(bits) + ")")
  }

  function PrintBits(bs: seq<Bit>): string {
    if bs == [] then "" else PrintBit(bs[0]) + PrintBits(bs[1..])
  }

  function LastOf(s: string, prev: Option<char>): Option<char> {
    if s == "" then prev else Some(s[|s| - 1])
  }

  /** All of `s` is code, whatever comes behind. */
  ghost predicate AllCode(s: string, prev: Option<char>, depth: nat) {
    forall rest :: CodeLength(s + rest, prev, None, depth) == |s| + CodeLength(rest, LastOf(s, prev), None, depth)
  }

  lemma CodeInTurn(a: string, b: string, prev: Option<char>, depth: nat)
    requires AllCode(a, prev, depth) && AllCode(b, LastOf(a, prev), depth)
    ensures AllCode(a + b, prev, depth)
  {
    hide CodeLength;
    forall rest
      ensures CodeLength(a + b + rest, prev, None, depth) == |a + b| + CodeLength(rest, LastOf(a + b, prev), None, depth)
    {
      assert a + b + rest == a + (b + rest);
      if b == "" {
        assert a + b == a && b + rest == rest;
      }
    }
  }

  lemma {:induction false} LitIsCode(t: string, k: nat, prev: Option<char>, depth: nat, rest: string)
    requires LitOk(t, depth) && k <= |t| && (k > 0 ==> prev == Some(t[k - 1]))
    ensures CodeLength(t[k..] + rest, prev, None, depth) == |t| - k + CodeLength(rest, LastOf(t[k..], prev), None, depth)
    decreases |t| - k
  {
    if k == |t| {
      assert t[k..] + rest == rest;
    } else {
      var s := t[k..] + rest;
      assert s[0] == t[k] && s[1..] == t[k + 1..] + rest;
      if k + 1 < |t| {
        assert s[1] == t[k + 1];
      }
      HashIsPlain(t, k, prev, depth, s);
      LitIsCode(t, k + 1, Some(t[k]), depth, rest);
      assert t[k..] == [t[k]] + t[k + 1..];
    }
  }

  lemma HashIsPlain(t: string, k: nat, prev: Option<char>, depth: nat, s: string)
    requires LitOk(t, depth) && k < |t| && (k > 0 ==> prev == Some(t[k - 1]))
    requires s != "" && s[0] == t[k] && (k + 1 < |t| ==> |s| > 1 && s[1] == t[k + 1])
    ensures CodeLength(s, prev, None, depth) == 1 + CodeLength(s[1..], Some(t[k]), None, depth)
  {
    assert CharOk(t, k, depth);
    if t[k] == '#' && depth == 0 {
      if k + 1 < |t| && t[k + 1] == '{' {
        assert "#{" <= s;
      } else {
        assert prev == Some(t[k - 1]) && !IsBlank(prev.value);
      }
    } else if t[k] == '(' {
      assert prev == Some(t[k - 1]) && prev != Some('$');
    }
  }

  lemma {:induction false} SingleIsCode(t: string, rest: string, prev: Option<char>, depth: nat)
    requires '\'' !in t
    ensures CodeLength(t + ("'" + rest), prev, Some('\''), depth) == |t| + 1 + CodeLength(rest, Some('\''), None, depth)
    decreases t
  {
    var s := t + ("'" + rest);
    if t == "" {
      assert s[0] == '\'' && s[1..] == rest;
    } else {
      assert s[0] == t[0] && s[1..] == t[1..] + ("'" + rest);
      SingleIsCode(t[1..], rest, Some(t[0]), depth);
    }
  }

  lemma {:induction false} DoubleIsCode(t: string, k: nat, rest: string, prev: Option<char>, depth: nat)
    requires DoubleOk(t) && k <= |t| && (if k > 0 then prev == Some(t[k - 1]) else prev == Some('"'))
    ensures CodeLength(t[k..] + ("\"" + rest), prev, Some('"'), depth) == |t| - k + 1 + CodeLength(rest, Some('"'), None, depth)
    decreases |t| - k
  {
    var s := t[k..] + ("\"" + rest);
    if k == |t| {
      assert s[0] == '"' && s[1..] == rest;
    } else {
      assert s[0] == t[k] && s[1..] == t[k + 1..] + ("\"" + rest);
      DoubleIsCode(t, k + 1, rest, Some(t[k]), depth);
    }
  }

  lemma {:induction false} BitIsCode(b: Bit, prev: Option<char>, depth: nat)
    requires BitOk(b, depth)
    ensures AllCode(PrintBit(b), prev, depth)
    decreases b, 1
  {
    forall rest
      ensures var s := PrintBit(b);
              CodeLength(s + rest, prev, None, depth) == |s| + CodeLength(rest, LastOf(s, prev), None, depth)
    {
      match b {
        case Lit(t) =>
          assert t[0..] == t;
          LitIsCode(t, 0, prev, depth, rest);
        case Single(t) =>
          QuoteOpens('\'', t, "'", rest, prev, depth);
          SingleIsCode(t, rest, Some('\''), depth);
        case Double(t) =>
          QuoteOpens('"', t, "\"", rest, prev, depth);
          assert t[0..] == t;
          DoubleIsCode(t, 0, rest, Some('"'), depth);
        case Sub(bits) =>
          SubIsCode(bits, prev, depth, rest);
      }
    }
  }

  lemma QuoteOpens(q: char, t: string, close: string, rest: string, prev: Option<char>, depth: nat)
    requires IsQuote(q) && close == [q]
    ensures CodeLength(close + (t + close) + rest, prev, None, depth) == 1 + CodeLength(t + (close + rest), Some(q), Some(q), depth)
    ensures LastOf(close + (t + close), prev) == Some(q)
  {
    var s := close + (t + close) + rest;
    assert s[0] == q && s[1..] == t + (close + rest);
  }

  lemma {:induction false} SubIsCode(bits: seq<Bit>, prev: Option<char>, depth: nat, rest: string)
    requires BitsOk(bits, depth + 1)
    ensures var s := "$(" + (PrintBits(bits) + ")");
            CodeLength(s + rest, prev, None, depth) == |s| + CodeLength(rest, Some(')'), None, depth) && LastOf(s, prev) == Some(')')
    decreases bits, 1
  {
    var inside := PrintBits(bits);
    var s := "$(" + (inside + ")");
    BitsAreCode(bits, Some('('), depth + 1);
    SubEnds(inside, LastOf(inside, Some('(')), depth, rest);
    SubOpens(inside, prev, depth, rest);
  }

  lemma SubOpens(inside: string, prev: Option<char>, depth: nat, rest: string)
    ensures CodeLength("$(" + (inside + ")") + rest, prev, None, depth)
         == 2 + CodeLength(inside + (")" + rest), Some('('), None, depth + 1)
  {
    var s := "$(" + (inside + ")") + rest;
    assert s[0] == '$' && s[1..][0] == '(' && s[1..][1..] == inside + (")" + rest);
  }

  lemma SubEnds(inside: string, last: Option<char>, depth: nat, rest: string)
    ensures CodeLength(")" + rest, last, None, depth + 1) == 1 + CodeLength(rest, Some(')'), None, depth)
  {
    assert (")" + rest)[0] == ')' && (")" + rest)[1..] == rest;
  }

  lemma {:induction false} BitsAreCode(bs: seq<Bit>, prev: Option<char>, depth: nat)
    requires BitsOk(bs, depth)
    ensures AllCode(PrintBits(bs), prev, depth)
    decreases bs, 0
  {
    if bs == [] {
      NothingIsCode(prev, depth);
    } else {
      hide AllCode, BitOk, PrintBit;
      BitIsCode(bs[0], prev, depth);
      BitsAreCode(bs[1..], LastOf(PrintBit(bs[0]), prev), depth);
      CodeInTurn(PrintBit(bs[0]), PrintBits(bs[1..]), prev, depth);
    }
  }

  lemma NothingIsCode(prev: Option<char>, depth: nat)
    ensures AllCode("", prev, depth)
  {
    forall rest: string
      ensures "" + rest == rest
    {
    }
  }

  /** A comment starts at the first "#" that stands in front or behind white space, outside quotes and substitutions; up to
      there all is code. */
  lemma CommentIsCut(bs: seq<Bit>, comment: string)
    requires BitsOk(bs, 0) && (PrintBits(bs) == "" || IsBlank(PrintBits(bs)[|PrintBits(bs)| - 1]))
    requires comment == "" || comment[0] != '{'
    ensures Code(PrintBits(bs) + ("#" + comment)) == PrintBits(bs)
  {
    var s := PrintBits(bs);
    BitsAreCode(bs, None, 0);
    var tail := "#" + comment;
    assert tail[0] == '#' && (comment != "" ==> tail[1] == comment[0]);
    assert CodeLength(tail, LastOf(s, None), None, 0) == 0;
    assert (s + tail)[..|s|] == s;
  }

  /** A line without one is kept whole. */
  lemma CodeIsKept(bs: seq<Bit>)
    requires BitsOk(bs, 0)
    ensures Code(PrintBits(bs)) == PrintBits(bs)
  {
    var s := PrintBits(bs);
    BitsAreCode(bs, None, 0);
    assert s + "" == s;
    assert CodeLength("", LastOf(s, None), None, 0) == 0;
  }

  // ------------------------------------------------------------ logical lines

  /** A line that goes on: its text, and the white space behind its backslash. */
  datatype Head = Head(text: string, trail: string)

  /** Lines that go on, and the one that ends them. */
  datatype Logical = Logical(heads: seq<Head>, last: string)

  predicate HeadOk(h: Head) {
    (h.text == "" || h.text[|h.text| - 1] != '\\') && Blank(h.trail) && '\n' !in h.text && '\n' !in h.trail
  }

  /** Before the white space at its end the line has no backslash, or two of them. */
  ghost predicate EndsThere(line: string) {
    !exists text, trail :: GoesOn(line, text, trail)
  }

  predicate GoesOn(line: string, text: string, trail: string) {
    line == text + ("\\" + trail) && Blank(trail) && (text == "" || text[|text| - 1] != '\\')
  }

  ghost predicate LogicalOk(l: Logical) {
    (forall h :: h in l.heads ==> HeadOk(h)) && EndsThere(l.last) && '\n' !in l.last
  }

  function PrintHead(h: Head): string {
    h.text + ("\\" + h.trail)
  }

  function PrintHeads(hs: seq<Head>): seq<string> {
    if hs == [] then [] else [PrintHead(hs[0])] + PrintHeads(hs[1..])
  }

  function PrintLogical(ls: seq<Logical>): seq<string> {
    if ls == [] then [] else PrintHeads(ls[0].heads) + ([ls[0].last] + PrintLogical(ls[1..]))
  }

  /** What the lines that go on hand over: the code of each, and a space for its line end. */
  function CarriedBy(hs: seq<Head>): string {
    if hs == [] then "" else Code(hs[0].text) + " " + CarriedBy(hs[1..])
  }

  /** One line for each, under the number of its first. */
  function NumberedFrom(ls: seq<Logical>, n: nat): seq<Numbered> {
    if ls == [] then [] else
      [(n, Code(CarriedBy(ls[0].heads) + ls[0].last))] + NumberedFrom(ls[1..], n + |ls[0].heads| + 1)
  }

  lemma {:induction false} StrippedSplits(s: string) returns (trail: string)
    ensures Blank(trail) && s == RStrip(s) + trail
  {
    trail := "";
    if s != "" && IsSpace(s[|s| - 1]) {
      var more := StrippedSplits(s[..|s| - 1]);
      trail := more + [s[|s| - 1]];
      assert s == s[..|s| - 1] + [s[|s| - 1]];
      assert RStrip(s) + more + [s[|s| - 1]] == RStrip(s) + trail;
    } else {
      assert s + trail == s;
    }
  }

  /** A line goes on exactly when one backslash, not two, stands at its end or before the white space there. */
  lemma ContinuesIff(line: string)
    ensures Continues(line) <==> exists text, trail :: GoesOn(line, text, trail)
  {
    hide RStrip;
    var s := RStrip(line);
    if text, trail :| GoesOn(line, text, trail) {
      HeadText(text, trail);
    }
    if Continues(line) {
      var trail := StrippedSplits(line);
      var text := s[..|s| - 1];
      assert s == text + "\\";
      assert line == text + ("\\" + trail);
      if text != "" {
        assert s[|s| - 2..] == [text[|text| - 1], '\\'];
      }
      assert GoesOn(line, text, trail);
    }
  }

  lemma HeadText(text: string, trail: string)
    requires Blank(trail) && (text == "" || text[|text| - 1] != '\\')
    ensures Continues(text + ("\\" + trail)) && RStrip(text + ("\\" + trail)) == text + "\\"
  {
    var s := text + "\\";
    assert text + ("\\" + trail) == s + trail;
    RStripBehind(s, trail);
    assert s[|s| - 1..] == "\\";
    if |s| >= 2 {
      assert s[|s| - 2..][0] != "\\\\"[0];
    }
  }

  lemma HeadContinues(h: Head)
    requires HeadOk(h)
    ensures Continues(PrintHead(h)) && Carried(PrintHead(h)) == Code(h.text) + " "
  {
    HeadText(h.text, h.trail);
    assert (h.text + "\\")[..|h.text|] == h.text;
  }

  lemma HeadStep(h: Head, more: seq<string>, n: nat, buf: string, start: Option<nat>)
    requires HeadOk(h)
    ensures Joined([PrintHead(h)] + more, n, buf, start)
         == Joined(more, n + 1, buf + (Code(h.text) + " "), Some(if start.Some? then start.value else n))
  {
    hide Code, HeadOk, PrintHead, Continues, Carried;
    HeadContinues(h);
    assert ([PrintHead(h)] + more)[1..] == more;
  }

  lemma {:induction false} HeadsJoin(hs: seq<Head>, rest: seq<string>, n: nat, buf: string, start: Option<nat>)
    requires forall h :: h in hs ==> HeadOk(h)
    ensures Joined(PrintHeads(hs) + rest, n, buf, start)
         == Joined(rest, n + |hs|, buf + CarriedBy(hs), if hs == [] then start else Some(if start.Some? then start.value else n))
  {
    hide Code, HeadOk, Joined, PrintHead;
    if hs == [] {
      assert PrintHeads(hs) + rest == rest && buf + CarriedBy(hs) == buf;
    } else {
      var more := PrintHeads(hs[1..]) + rest;
      assert PrintHeads(hs) + rest == [PrintHead(hs[0])] + more;
      HeadStep(hs[0], more, n, buf, start);
      var next := buf + (Code(hs[0].text) + " ");
      HeadsJoin(hs[1..], rest, n + 1, next, Some(if start.Some? then start.value else n));
      assert next + CarriedBy(hs[1..]) == buf + CarriedBy(hs);
    }
  }

  lemma {:induction false} LinesJoin(ls: seq<Logical>, n: nat)
    requires forall l :: l in ls ==> LogicalOk(l)
    ensures Joined(PrintLogical(ls), n, "", None) == NumberedFrom(ls, n)
  {
    hide Code, LogicalOk, Continues;
    if ls != [] {
      var l := ls[0];
      var tail := [l.last] + PrintLogical(ls[1..]);
      LogicalIs(ls);
      HeadsJoin(l.heads, tail, n, "", None);
      assert tail[0] == l.last && tail[1..] == PrintLogical(ls[1..]);
      assert "" + CarriedBy(l.heads) == CarriedBy(l.heads);
      LinesJoin(ls[1..], n + |l.heads| + 1);
    }
  }

  lemma LogicalIs(ls: seq<Logical>)
    requires ls != [] && forall l :: l in ls ==> LogicalOk(l)
    ensures !Continues(ls[0].last) && forall h :: h in ls[0].heads ==> HeadOk(h)
  {
    assert ls[0] in ls && LogicalOk(ls[0]);
    ContinuesIff(ls[0].last);
  }

  // ------------------------------------------------------------------- texts

  function JoinLines(lines: seq<string>): string
    requires lines != []
  {
    if |lines| == 1 then lines[0] else lines[0] + ("\n" + JoinLines(lines[1..]))
  }

  lemma {:induction false} SplitOfJoined(lines: seq<string>)
    requires lines != [] && forall l :: l in lines ==> '\n' !in l
    ensures SplitLines(JoinLines(lines)) == lines
  {
    var first := lines[0];
    assert first in lines;
    if |lines| == 1 {
      assert first + [] == first;
      WholeLine(first);
    } else {
      var rest := JoinLines(lines[1..]);
      FirstLine(first, rest);
      SplitOfJoined(lines[1..]);
      assert lines == [first] + lines[1..];
    }
  }

  lemma WholeLine(s: string)
    requires '\n' !in s
    ensures SplitLines(s) == [s]
  {
  }

  lemma FirstLine(first: string, rest: string)
    requires '\n' !in first
    ensures SplitLines(first + ("\n" + rest)) == [first] + SplitLines(rest)
  {
    assert first + ("\n" + rest) == first + ['\n'] + rest;
    SplitAtJoined(first, '\n', rest);
  }

  lemma {:induction false} NoBreaks(ls: seq<Logical>)
    requires forall l :: l in ls ==> LogicalOk(l)
    ensures forall line :: line in PrintLogical(ls) ==> '\n' !in line
    ensures ls != [] ==> PrintLogical(ls) != []
  {
    hide Continues;
    if ls != [] {
      LogicalIs(ls);
      assert LogicalOk(ls[0]);
      HeadsUnbroken(ls[0].heads);
      NoBreaks(ls[1..]);
    }
  }

  lemma {:induction false} HeadsUnbroken(hs: seq<Head>)
    requires forall h :: h in hs ==> HeadOk(h)
    ensures forall line :: line in PrintHeads(hs) ==> '\n' !in line
  {
    if hs != [] {
      assert HeadOk(hs[0]);
      assert "\\"[0] != '\n';
      HeadsUnbroken(hs[1..]);
    }
  }

  /** A written script gives its logical lines back: each under the number of its first line, the code of its parts joined. */
  lemma LinesOfPrint(ls: seq<Logical>)
    requires ls != [] && forall l :: l in ls ==> LogicalOk(l)
    ensures LogicalLines(JoinLines(PrintLogical(ls))) == NumberedFrom(ls, 1)
  {
    hide LogicalOk;
    NoBreaks(ls);
    SplitOfJoined(PrintLogical(ls));
    LinesJoin(ls, 1);
  }

  /** Lines that go on to the end of the text are one line too, and nothing is cut from their end. */
  lemma OpenLinesOfPrint(hs: seq<Head>)
    requires hs != [] && forall h :: h in hs ==> HeadOk(h)
    ensures LogicalLines(JoinLines(PrintHeads(hs))) == [(1, CarriedBy(hs))]
  {
    HeadsUnbroken(hs);
    SplitOfJoined(PrintHeads(hs));
    HeadsJoin(hs, [], 1, "", None);
    assert PrintHeads(hs) + [] == PrintHeads(hs) && "" + CarriedBy(hs) == CarriedBy(hs);
  }
}
