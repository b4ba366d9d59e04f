/** scripts/check-no-secret-argv.py, the shell lexer: comments, logical lines, words and command substitutions.

    It reads a subset of the Shell Command Language of POSIX.1-2017: single quotes (section 2.2.2), token recognition
    (section 2.3) and command substitution (section 2.6.3). */
module ShellLexer {
  import opened Prelude

  type Quote = Option<char>

  predicate IsQuote(c: char) {
    c == '\'' || c == '"'
  }

  predicate IsBlank(c: char) {
    c == ' ' || c == '\t'
  }

  predicate IsSeparator(c: char) {
    c == ';' || c == '|' || c == '&' || c == '(' || c == ')'
  }

  // ----------------------------------------------------------------- comments

  /** How much of `s` is code: all of it, or up to the "#" that starts a comment. `prev` is the character before `s`. */
  function CodeLength(s: string, prev: Option<char>, q: Quote, depth: nat): (n: nat)
    ensures n <= |s|
  {
    if s == "" then 0 else
      var ch, rest := s[0], s[1..];
      if q.Some? then
        var closes := ch == q.value && (q.value == '\'' || prev != Some('\\'));
        1 + CodeLength(rest, Some(ch), if closes then None else q, depth)
      else if IsQuote(ch) then 1 + CodeLength(rest, Some(ch), Some(ch), depth)
      else if ch == '(' && prev == Some('$') then 1 + CodeLength(rest, Some(ch), None, depth + 1)
      else if ch == ')' && depth > 0 then 1 + CodeLength(rest, Some(ch), None, depth - 1)
      else if ch == '#' && depth == 0 && (prev.None? || IsBlank(prev.value)) && !("#{" <= s) then 0
      else 1 + CodeLength(rest, Some(ch), None, depth)
  }

  function Code(line: string): (code: string)
    ensures code <= line
  {
    line[..CodeLength(line, None, None, 0)]
  }

  method StripComment(line: string) returns (code: string)
    ensures code == Code(line)
  {
    var q: Quote := None;
    var depth: nat := 0;
    var i := 0;
    assert line[0..] == line;
    while i < |line|
      invariant 0 <= i <= |line|
      invariant CodeLength(line, None, None, 0)
        == i + CodeLength(line[i..], if i == 0 then None else Some(line[i - 1]), q, depth)
    {
      var ch := line[i];
      assert line[i..][1..] == line[i + 1..];
      if q.Some? {
        if ch == q.value && (q.value == '\'' || i == 0 || line[i - 1] != '\\') {
          q := None;
        }
      } else if IsQuote(ch) {
        q := Some(ch);
      } else if ch == '(' && i > 0 && line[i - 1] == '$' {
        depth := depth + 1;
      } else if ch == ')' && depth > 0 {
        depth := depth - 1;
      } else if ch == '#' && depth == 0 && (i == 0 || IsBlank(line[i - 1])) && !("#{" <= line[i..]) {
        return line[..i];
      }
      i := i + 1;
    }
    code := line;
  }

  // ------------------------------------------------------------ logical lines

  /** Python's `s.split("\n")`. */
  function SplitLines(s: string): (lines: seq<string>)
    ensures lines != [] && TextLength(lines) == |s| + 1
  {
    var i := IndexOf(s, '\n');
    if i < |s| then [s[..i]] + SplitLines(s[i + 1..]) else [s]
  }

  /** The characters of some lines, counting one line end each. */
  function TextLength(lines: seq<string>): nat {
    if lines == [] then 0 else |lines[0]| + 1 + TextLength(lines[1..])
  }

  /** The line ends in one backslash. */
  predicate Continues(raw: string) {
    EndsWith(RStrip(raw), "\\") && !EndsWith(RStrip(raw), "\\\\")
  }

  /** What a continued line adds to the buffer: its code without the backslash, and a blank. */
  function Carried(raw: string): (s: string)
    requires Continues(raw)
    ensures |s| <= |raw|
  {
    var s := RStrip(raw);
    Code(s[..|s| - 1]) + " "
  }

  type Numbered = (nat, string)

  /** The logical lines of the rest of a text: `n` is the next line's number, `start` where the buffer began. */
  function Joined(lines: seq<string>, n: nat, buf: string, start: Option<nat>): seq<Numbered> {
    var first := if start.Some? then start.value else n;
    if lines == [] then if buf != "" && start.Some? then [(start.value, buf)] else []
    else if Continues(lines[0]) then Joined(lines[1..], n + 1, buf + Carried(lines[0]), Some(first))
    else [(first, Code(buf + lines[0]))] + Joined(lines[1..], n + 1, "", None)
  }

  function LogicalLines(text: string): seq<Numbered> {
    Joined(SplitLines(text), 1, "", None)
  }

  /** The lines of a text, with its first `i` lines read into `out` and the buffer. */
  ghost predicate Joining(lines: seq<string>, i: nat, out: seq<Numbered>, buf: string, start: Option<nat>)
    requires i <= |lines|
  {
    Joined(lines, 1, "", None) == out + Joined(lines[i..], i + 1, buf, start)
  }

  lemma JoinStarts(lines: seq<string>)
    ensures Joining(lines, 0, [], "", None)
  {
    assert lines[0..] == lines;
  }

  lemma JoinStep(lines: seq<string>, i: nat, out: seq<Numbered>, buf: string, start: Option<nat>)
    requires i < |lines| && Joining(lines, i, out, buf, start)
    ensures var first := if start.Some? then start.value else i + 1;
            if Continues(lines[i]) then Joining(lines, i + 1, out, buf + Carried(lines[i]), Some(first))
            else Joining(lines, i + 1, out + [(first, Code(buf + lines[i]))], "", None)
  {
    hide Continues, Carried, Code;
    assert lines[i..][0] == lines[i] && lines[i..][1..] == lines[i + 1..];
    if !Continues(lines[i]) {
      var line := (if start.Some? then start.value else i + 1, Code(buf + lines[i]));
      var rest := Joined(lines[i + 1..], i + 2, "", None);
      assert out + ([line] + rest) == out + [line] + rest;
    }
  }

  lemma JoinEnds(lines: seq<string>, out: seq<Numbered>, buf: string, start: Option<nat>)
    requires Joining(lines, |lines|, out, buf, start)
    ensures Joined(lines, 1, "", None) == if buf != "" && start.Some? then out + [(start.value, buf)] else out
  {
    assert lines[|lines|..] == [];
  }

  method Carry(raw: string) returns (s: string)
    requires Continues(raw)
    ensures s == Carried(raw)
  {
    var kept := RStrip(raw);
    var code := StripComment(kept[..|kept| - 1]);
    s := code + " ";
  }

  method ReadLogicalLines(text: string) returns (out: seq<Numbered>)
    ensures out == LogicalLines(text)
  {
    hide RStrip, Code, SplitLines, Continues, Carried, Joined, Joining;
    var lines := SplitLines(text);
    out := [];
    var buf, start: Option<nat> := "", None;
    JoinStarts(lines);
    for i := 0 to |lines|
      invariant Joining(lines, i, out, buf, start)
      invariant start.None? ==> buf == ""
    {
      JoinStep(lines, i, out, buf, start);
      if start.None? {
        start := Some(i + 1);
      }
      if Continues(lines[i]) {
        var more := Carry(lines[i]);
        buf := buf + more;
      } else {
        var code := StripComment(buf + lines[i]);
        out := out + [(start.value, code)];
        buf, start := "", None;
      }
    }
    JoinEnds(lines, out, buf, start);
    if buf != "" {
      out := out + [(start.value, buf)];
    }
  }

  /** No logical line is longer than the text it was read from. */
  lemma {:induction false} JoinedIsShort(lines: seq<string>, n: nat, buf: string, start: Option<nat>, l: Numbered)
    requires l in Joined(lines, n, buf, start)
    ensures |l.1| + (if lines == [] then 0 else 1) <= |buf| + TextLength(lines)
  {
    if lines != [] {
      var first := if start.Some? then start.value else n;
      if Continues(lines[0]) {
        JoinedIsShort(lines[1..], n + 1, buf + Carried(lines[0]), Some(first), l);
      } else if l in Joined(lines[1..], n + 1, "", None) {
        JoinedIsShort(lines[1..], n + 1, "", None, l);
      }
    }
  }

  lemma LogicalLinesAreShort(text: string, l: Numbered)
    requires l in LogicalLines(text)
    ensures |l.1| <= |text|
  {
    JoinedIsShort(SplitLines(text), 1, "", None, l);
  }

  // -------------------------------------------------------------------- words

  function Flush(cur: string, has: bool): seq<string> {
    if cur != "" || has then [cur] else []
  }

  /** The words of the rest of a line: the word under way, whether it was begun, the open quote and the open depth. */
  function WordsFrom(s: string, cur: string, q: Quote, depth: nat, has: bool): seq<string>
    decreases |s|
  {
    if s == "" then Flush(cur, has) else
      var ch, rest := s[0], s[1..];
      if q.Some? then
        if ch == q.value then WordsFrom(rest, cur, None, depth, has) else WordsFrom(rest, cur + [ch], q, depth, has)
      else if depth > 0 then
        WordsFrom(rest, cur + [ch], None, if ch == '(' then depth + 1 else if ch == ')' then depth - 1 else depth, has)
      else if IsQuote(ch) then WordsFrom(rest, cur, Some(ch), 0, true)
      else if ch == '$' && rest != "" && rest[0] == '(' then WordsFrom(rest[1..], cur + "$(", None, 1, true)
      else if IsBlank(ch) then Flush(cur, has) + WordsFrom(rest, "", None, 0, false)
      else if IsSeparator(ch) then Flush(cur, has) + ([[ch]] + WordsFrom(rest, "", None, 0, false))
      else WordsFrom(rest, cur + [ch], None, 0, true)
  }

  function Words(line: string): seq<string> {
    WordsFrom(line, "", None, 0, false)
  }

  method ReadWords(line: string) returns (out: seq<string>)
    ensures out == Words(line)
  {
    out := [];
    var cur, has, i := "", false, 0;
    var q: Quote, depth: nat := None, 0;
    assert line[0..] == line;
    while i < |line|
      invariant 0 <= i <= |line|
      invariant Words(line) == out + WordsFrom(line[i..], cur, q, depth, has)
    {
      var ch := line[i];
      ghost var rest := line[i..];
      assert rest[0] == ch && rest[1..] == line[i + 1..];
      if q.Some? {
        if ch == q.value {
          q := None;
        } else {
          cur := cur + [ch];
        }
      } else if depth > 0 {
        cur := cur + [ch];
        if ch == '(' {
          depth := depth + 1;
        } else if ch == ')' {
          depth := depth - 1;
        }
      } else if IsQuote(ch) {
        q, has := Some(ch), true;
      } else if ch == '$' && i + 1 < |line| && line[i + 1] == '(' {
        assert rest[1..][1..] == line[i + 2..];
        cur, depth, has := cur + "$(", 1, true;
        i := i + 1;
      } else if IsBlank(ch) {
        out := out + Flush(cur, has);
        cur, has := "", false;
      } else if IsSeparator(ch) {
        out := out + Flush(cur, has) + [[ch]];
        cur, has := "", false;
      } else {
        cur, has := cur + [ch], true;
      }
      i := i + 1;
    }
    assert line[i..] == "";
    out := out + Flush(cur, has);
  }

  function TotalLength(ws: seq<string>): nat {
    if ws == [] then 0 else |ws[0]| + TotalLength(ws[1..])
  }

  lemma {:induction false} TotalOfJoined(a: seq<string>, b: seq<string>)
    ensures TotalLength(a + b) == TotalLength(a) + TotalLength(b)
  {
    if a == [] {
      assert a + b == b;
    } else {
      TotalOfJoined(a[1..], b);
      assert (a + b)[1..] == a[1..] + b;
    }
  }

  /** The lexer emits no more characters than it reads. */
  lemma {:induction false} WordsAreShort(s: string, cur: string, q: Quote, depth: nat, has: bool)
    ensures TotalLength(WordsFrom(s, cur, q, depth, has)) <= |cur| + |s|
    decreases |s|
  {
    if s != "" {
      var ch, rest := s[0], s[1..];
      if q.Some? {
        WordsAreShort(rest, cur, None, depth, has);
        WordsAreShort(rest, cur + [ch], q, depth, has);
      } else if depth > 0 {
        WordsAreShort(rest, cur + [ch], None, if ch == '(' then depth + 1 else if ch == ')' then depth - 1 else depth, has);
      } else if IsQuote(ch) {
        WordsAreShort(rest, cur, Some(ch), 0, true);
      } else if ch == '$' && rest != "" && rest[0] == '(' {
        WordsAreShort(rest[1..], cur + "$(", None, 1, true);
      } else if IsBlank(ch) || IsSeparator(ch) {
        WordsAreShort(rest, "", None, 0, false);
        var tail := WordsFrom(rest, "", None, 0, false);
        TotalOfJoined(Flush(cur, has), tail);
        TotalOfJoined(Flush(cur, has), [[ch]] + tail);
        TotalOfJoined([[ch]], tail);
      } else {
        WordsAreShort(rest, cur + [ch], None, 0, true);
      }
    }
  }

  // ------------------------------------------------------------ substitutions

  /** The position of the next "$(" from `i`, or the end. */
  function NextSub(code: string, i: nat): (at: nat)
    requires i <= |code|
    ensures i <= at <= |code| && (at < |code| ==> at + 2 <= |code| && code[at] == '$' && code[at + 1] == '(')
    decreases |code| - i
  {
    if i + 2 > |code| then |code|
    else if code[i] == '$' && code[i + 1] == '(' then i
    else NextSub(code, i + 1)
  }

  /** The position just past the ")" that closes `depth` parentheses open at `j`, or the end. */
  function CloseAt(code: string, j: nat, depth: nat): (end: nat)
    requires j <= |code|
    ensures j <= end <= |code| && (j < |code| && depth > 0 ==> j < end)
    decreases |code| - j
  {
    if j == |code| || depth == 0 then j
    else CloseAt(code, j + 1, if code[j] == '(' then depth + 1 else if code[j] == ')' then depth - 1 else depth)
  }

  function SubstitutionsFrom(code: string, i: nat): seq<string>
    requires i <= |code|
    decreases |code| - i
  {
    var at := NextSub(code, i);
    if at == |code| then [] else
      var end := CloseAt(code, at + 2, 1);
      [Slice(code, at + 2, end - 1)] + SubstitutionsFrom(code, end)
  }

  /** The text inside each outermost "$(...)". */
  function Substitutions(code: string): seq<string> {
    SubstitutionsFrom(code, 0)
  }

  method FindClose(code: string, from: nat) returns (j: nat)
    requires from <= |code|
    ensures j == CloseAt(code, from, 1)
  {
    var depth: nat := 1;
    j := from;
    while j < |code| && depth > 0
      invariant from <= j <= |code|
      invariant CloseAt(code, from, 1) == CloseAt(code, j, depth)
    {
      if code[j] == '(' {
        depth := depth + 1;
      } else if code[j] == ')' {
        depth := depth - 1;
      }
      j := j + 1;
    }
  }

  lemma SubstitutionsStep(code: string, i: nat, out: seq<string>)
    requires i <= |code|
    ensures var at := NextSub(code, i);
            if at == |code| then SubstitutionsFrom(code, i) == []
            else var end := CloseAt(code, at + 2, 1);
                 out + SubstitutionsFrom(code, i) == out + [Slice(code, at + 2, end - 1)] + SubstitutionsFrom(code, end)
  {
    hide NextSub, CloseAt, Slice;
    var at := NextSub(code, i);
    if at < |code| {
      var end := CloseAt(code, at + 2, 1);
      var here, rest := [Slice(code, at + 2, end - 1)], SubstitutionsFrom(code, end);
      assert out + (here + rest) == out + here + rest;
    }
  }

  method ReadSubstitutions(code: string) returns (out: seq<string>)
    ensures out == Substitutions(code)
  {
    hide NextSub, CloseAt, Slice, SubstitutionsFrom;
    out := [];
    var i := 0;
    while true
      invariant 0 <= i <= |code|
      invariant Substitutions(code) == out + SubstitutionsFrom(code, i)
      decreases |code| - i
    {
      SubstitutionsStep(code, i, out);
      var at := NextSub(code, i);
      if at == |code| {
        return;
      }
      var j := FindClose(code, at + 2);
      out := out + [Slice(code, at + 2, j - 1)];
      i := j;
    }
  }

  /** A substitution's body is shorter than the line by at least its "$(" . */
  lemma {:induction false} SubstitutionsAreShort(code: string, i: nat, body: string)
    requires i <= |code| && body in SubstitutionsFrom(code, i)
    ensures |body| + 2 <= |code|
    decreases |code| - i
  {
    var at := NextSub(code, i);
    var end := CloseAt(code, at + 2, 1);
    if body in SubstitutionsFrom(code, end) {
      SubstitutionsAreShort(code, end, body);
    }
  }

  // ------------------------------------------------------ quoting, and back

  /** Each word in single quotes, a blank between two. */
  function QuoteAll(ws: seq<string>): string {
    if ws == [] then ""
    else if |ws| == 1 then "'" + ws[0] + "'"
    else "'" + ws[0] + "' " + QuoteAll(ws[1..])
  }

  predicate Quotable(w: string) {
    '\'' !in w && '\n' !in w
  }

  lemma {:induction false} InsideQuotes(w: string, rest: string, cur: string)
    requires '\'' !in w
    ensures WordsFrom(w + "'" + rest, cur, Some('\''), 0, true) == WordsFrom(rest, cur + w, None, 0, true)
  {
    var s := w + "'" + rest;
    if w == "" {
      assert s[1..] == rest && cur + w == cur;
    } else {
      assert s[0] == w[0] && s[1..] == w[1..] + "'" + rest;
      InsideQuotes(w[1..], rest, cur + [w[0]]);
      assert cur + [w[0]] + w[1..] == cur + w;
    }
  }

  lemma QuotedWord(w: string, rest: string)
    requires '\'' !in w
    ensures WordsFrom("'" + w + "'" + rest, "", None, 0, false) == WordsFrom(rest, w, None, 0, true)
  {
    var s := "'" + w + "'" + rest;
    assert s[0] == '\'' && s[1..] == w + "'" + rest;
    InsideQuotes(w, rest, "");
    assert "" + w == w;
  }

  /** The lexer splits a quoted list back into exactly its words, the empty ones included. */
  lemma {:induction false} WordsOfQuoted(ws: seq<string>)
    requires forall w :: w in ws ==> '\'' !in w
    ensures Words(QuoteAll(ws)) == ws
  {
    if |ws| == 1 {
      QuotedWord(ws[0], "");
      assert "'" + ws[0] + "'" + "" == "'" + ws[0] + "'";
    } else if |ws| > 1 {
      var rest := " " + QuoteAll(ws[1..]);
      assert "'" + ws[0] + "' " + QuoteAll(ws[1..]) == "'" + ws[0] + "'" + rest;
      QuotedWord(ws[0], rest);
      assert rest[1..] == QuoteAll(ws[1..]);
      WordsOfQuoted(ws[1..]);
    }
  }

  lemma {:induction false} CodeInsideQuotes(w: string, rest: string, prev: Option<char>)
    requires '\'' !in w
    ensures CodeLength(w + "'" + rest, prev, Some('\''), 0) == |w| + 1 + CodeLength(rest, Some('\''), None, 0)
  {
    var s := w + "'" + rest;
    if w == "" {
      assert s[1..] == rest;
    } else {
      assert s[0] == w[0] && s[1..] == w[1..] + "'" + rest;
      CodeInsideQuotes(w[1..], rest, Some(w[0]));
    }
  }

  lemma CodeOfQuoted(w: string, rest: string, prev: Option<char>)
    requires '\'' !in w
    ensures CodeLength("'" + (w + "'" + rest), prev, None, 0) == |w| + 2 + CodeLength(rest, Some('\''), None, 0)
  {
    CodeInsideQuotes(w, rest, Some('\''));
    assert ("'" + (w + "'" + rest))[1..] == w + "'" + rest;
  }

  lemma CodeOfNothing(prev: Option<char>)
    ensures CodeLength("", prev, None, 0) == 0
  {
  }

  lemma CodeAfterBlank(rest: string, prev: Option<char>)
    ensures CodeLength(" " + rest, prev, None, 0) == 1 + CodeLength(rest, Some(' '), None, 0)
  {
    assert (" " + rest)[1..] == rest;
  }

  /** Nothing in a quoted list is a comment. */
  lemma {:induction false} QuotedIsCode(ws: seq<string>, prev: Option<char>)
    requires forall w :: w in ws ==> '\'' !in w
    ensures CodeLength(QuoteAll(ws), prev, None, 0) == |QuoteAll(ws)|
  {
    if ws == [] {
      assert QuoteAll(ws) == "";
    } else {
      hide CodeLength;
      var rest := if |ws| == 1 then "" else " " + QuoteAll(ws[1..]);
      assert QuoteAll(ws) == "'" + (ws[0] + "'" + rest);
      CodeOfQuoted(ws[0], rest, prev);
      if |ws| == 1 {
        CodeOfNothing(Some('\''));
      } else {
        CodeAfterBlank(QuoteAll(ws[1..]), Some('\''));
        QuotedIsCode(ws[1..], Some(' '));
      }
    }
  }

  lemma {:induction false} QuotedIsOneLine(ws: seq<string>)
    requires forall w :: w in ws ==> Quotable(w)
    ensures '\n' !in QuoteAll(ws)
    ensures ws != [] ==> QuoteAll(ws) != "" && QuoteAll(ws)[|QuoteAll(ws)| - 1] == '\''
  {
    if ws != [] {
      assert Quotable(ws[0]);
    }
    if |ws| > 1 {
      QuotedIsOneLine(ws[1..]);
    }
  }

  lemma SingleLine(line: string)
    requires '\n' !in line && !Continues(line)
    ensures LogicalLines(line) == [(1, Code(line))]
  {
    var none: seq<string> := [];
    assert SplitLines(line) == [line] && [line][1..] == none && "" + line == line;
    assert Joined(none, 2, "", None) == [];
  }

  /** Quoting and back: one logical line, no comment in it, and exactly the words that went in. */
  lemma QuotingRoundTrip(ws: seq<string>)
    requires forall w :: w in ws ==> Quotable(w)
    ensures LogicalLines(QuoteAll(ws)) == [(1, QuoteAll(ws))]
    ensures Code(QuoteAll(ws)) == QuoteAll(ws)
    ensures Words(QuoteAll(ws)) == ws
  {
    var line := QuoteAll(ws);
    WordsOfQuoted(ws);
    QuotedIsCode(ws, None);
    QuotedIsOneLine(ws);
    EndsWithChar(line, '\\');
    assert RStrip(line) == line;
    SingleLine(line);
    assert Code(line) == line;
  }
}
