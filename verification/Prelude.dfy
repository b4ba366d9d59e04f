/** Shared datatypes and the few string operations every guard leans on. */
module Prelude {

  datatype Option<+T> = None | Some(value: T)

  datatype Result<+T, +E> = Ok(value: T) | Err(error: E)

  /** Python's `x or default` for a string that may be absent: the empty string counts as absent. */
  function OrElse(s: Option<string>, default: string): string {
    if s.Some? && s.value != "" then s.value else default
  }

  predicate EndsWith(s: string, suffix: string) {
    |suffix| <= |s| && s[|s| - |suffix|..] == suffix
  }

  lemma EndsWithChar(s: string, c: char)
    ensures EndsWith(s, [c]) <==> s != "" && s[|s| - 1] == c
  {
    if s != "" {
      assert s[|s| - 1..] == [s[|s| - 1]];
    }
  }

  /** The white space of Python's str.isspace, which `\s`, strip and rstrip share. */
  predicate IsSpace(c: char) {
    var n := c as int;
    || 9 <= n <= 13 || 28 <= n <= 32 || n == 0x85 || n == 0xA0 || n == 0x1680
    || 0x2000 <= n <= 0x200A || n == 0x2028 || n == 0x2029 || n == 0x202F || n == 0x205F || n == 0x3000
  }

  /** The `\w` of an ASCII text. */
  predicate IsWord(c: char) {
    'a' <= c <= 'z' || 'A' <= c <= 'Z' || '0' <= c <= '9' || c == '_'
  }

  function LStrip(s: string): string {
    if s != "" && IsSpace(s[0]) then LStrip(s[1..]) else s
  }

  function RStrip(s: string): (r: string)
    ensures r <= s
  {
    if s != "" && IsSpace(s[|s| - 1]) then RStrip(s[..|s| - 1]) else s
  }

  function Strip(s: string): string {
    RStrip(LStrip(s))
  }

  predicate Blank(s: string) {
    forall k :: 0 <= k < |s| ==> IsSpace(s[k])
  }

  lemma {:induction false} LStripEmptiesBlanks(s: string)
    ensures LStrip(s) == "" <==> Blank(s)
    ensures LStrip(s) != "" ==> !IsSpace(LStrip(s)[0])
  {
    if s != "" && IsSpace(s[0]) {
      LStripEmptiesBlanks(s[1..]);
      assert s == [s[0]] + s[1..];
    }
  }

  lemma {:induction false} RStripKeepsText(s: string)
    requires s != "" && !IsSpace(s[0])
    ensures RStrip(s) != ""
  {
    if IsSpace(s[|s| - 1]) {
      RStripKeepsText(s[..|s| - 1]);
    }
  }

  lemma {:induction false} RStripBehind(text: string, trail: string)
    requires Blank(trail) && text != "" && !IsSpace(text[|text| - 1])
    ensures RStrip(text + trail) == text
  {
    if trail == "" {
      assert text + trail == text;
    } else {
      assert (text + trail)[..|text + trail| - 1] == text + trail[..|trail| - 1];
      RStripBehind(text, trail[..|trail| - 1]);
    }
  }

  lemma StripEmptiesBlanks(s: string)
    ensures Strip(s) == "" <==> Blank(s)
  {
    LStripEmptiesBlanks(s);
    if LStrip(s) != "" {
      RStripKeepsText(LStrip(s));
    }
  }

  /** The line boundaries of Python's str.splitlines. */
  predicate IsBreak(c: char) {
    var n := c as int;
    10 <= n <= 13 || 28 <= n <= 30 || n == 0x85 || n == 0x2028 || n == 0x2029
  }

  predicate Unbroken(s: string) {
    forall k :: 0 <= k < |s| ==> !IsBreak(s[k])
  }

  /** A slice that ends before it starts is empty. */
  function Slice(text: string, from: nat, to: nat): string {
    if from <= to <= |text| then text[from..to] else ""
  }

  /** The first position from `i` on that holds no white space. */
  function SkipSpace(s: string, i: nat): (r: nat)
    requires i <= |s|
    ensures i <= r <= |s| && (r < |s| ==> !IsSpace(s[r])) && forall k :: i <= k < r ==> IsSpace(s[k])
    decreases |s| - i
  {
    if i < |s| && IsSpace(s[i]) then SkipSpace(s, i + 1) else i
  }

  /** `piece` stands in the text at `i`. */
  predicate StandsAt(text: string, i: nat, piece: string) {
    i + |piece| <= |text| && text[i..i + |piece|] == piece
  }

  lemma CharsAt(text: string, i: nat, piece: string)
    requires StandsAt(text, i, piece)
    ensures forall k {:trigger piece[k]} :: 0 <= k < |piece| ==> text[i + k] == piece[k]
  {
    forall k | 0 <= k < |piece|
      ensures text[i + k] == piece[k]
    {
      assert text[i..i + |piece|][k] == text[i + k];
    }
  }

  lemma SkipIs(line: string, at: nat, lead: string, rest: string)
    requires at <= |line| && line[at..] == lead + rest && Blank(lead) && (rest == "" || !IsSpace(rest[0]))
    ensures SkipSpace(line, at) == at + |lead| && line[at + |lead|..] == rest
  {
    var r := SkipSpace(line, at);
    assert forall k :: at <= k < |line| ==> line[k] == (lead + rest)[k - at];
    assert forall k :: at <= k < at + |lead| ==> IsSpace(line[k]) by {
      assert forall k :: at <= k < at + |lead| ==> line[k] == lead[k - at];
    }
    assert rest != "" ==> line[at + |lead|] == rest[0];
  }

  lemma RestBehind(line: string, at: nat, piece: string, rest: string)
    requires at <= |line| && line[at..] == piece + rest
    ensures StandsAt(line, at, piece) && line[at + |piece|..] == rest
  {
    assert line[at..at + |piece|] == line[at..][..|piece|];
  }

  lemma SpaceAt(line: string, at: nat)
    requires at <= |line|
    ensures Blank(line[at..SkipSpace(line, at)]) && line[at..] == line[at..SkipSpace(line, at)] + line[SkipSpace(line, at)..]
  {
  }

  lemma PieceBehind(line: string, at: nat, piece: string)
    requires StandsAt(line, at, piece)
    ensures line[at..] == piece + line[at + |piece|..]
  {
    assert line[at..] == line[at..at + |piece|] + line[at + |piece|..];
  }

  lemma SplitAtPiece(text: string, i: nat, a: string, b: string)
    requires StandsAt(text, i, a + b)
    ensures StandsAt(text, i, a) && StandsAt(text, i + |a|, b)
  {
    var s := text[i..i + |a + b|];
    assert s[..|a|] == a && s[|a|..] == b;
    assert text[i..i + |a|] == s[..|a|];
    assert text[i + |a|..i + |a| + |b|] == s[|a|..];
  }

  /** The first position of `c`, or the length when it does not occur. */
  function IndexOf(s: string, c: char): (i: nat)
    ensures i <= |s| && c !in s[..i] && (i < |s| ==> s[i] == c)
    ensures c in s <==> i < |s|
  {
    if s == "" then 0 else if s[0] == c then 0 else
      var k := IndexOf(s[1..], c);
      assert s[..1 + k] == [s[0]] + s[1..][..k];
      1 + k
  }

  /** Python's `s.split(c, 1)`, or the whole of `s` and "" when `c` does not occur (`partition` without the middle). */
  function SplitAt(s: string, c: char): (string, string) {
    var i := IndexOf(s, c);
    if i < |s| then (s[..i], s[i + 1..]) else (s, "")
  }

  lemma SplitAtJoined(left: string, c: char, right: string)
    requires c !in left
    ensures c in left + [c] + right && SplitAt(left + [c] + right, c) == (left, right)
  {
    var s := left + [c] + right;
    assert forall k :: 0 <= k < |left| ==> s[k] == left[k];
    assert s[|left|] == c;
    var i := IndexOf(s, c);
    assert forall k :: 0 <= k < i ==> s[..i][k] == s[k];
    assert s[..|left|] == left && s[|left| + 1..] == right;
  }

  lemma JoinedOfSplit(s: string, c: char)
    requires c in s
    ensures SplitAt(s, c).0 + [c] + SplitAt(s, c).1 == s && c !in SplitAt(s, c).0
  {
  }

  function LowerChar(c: char): char {
    if 'A' <= c <= 'Z' then (c as int + 32) as char else c
  }

  /** `str.lower` on ASCII text. */
  function Lower(s: string): string {
    seq(|s|, i requires 0 <= i < |s| => LowerChar(s[i]))
  }

  const CAPITALS := "ABCDEFGHIJKLMNOPQRSTUVWXYZ"
  const SMALLS := "abcdefghijklmnopqrstuvwxyz"

  /** Each capital becomes its small letter, and nothing else changes. */
  lemma LowerIs(s: string, i: nat)
    requires i < |s|
    ensures |Lower(s)| == |s|
    ensures forall k :: 0 <= k < 26 && s[i] == CAPITALS[k] ==> Lower(s)[i] == SMALLS[k]
    ensures s[i] !in CAPITALS ==> Lower(s)[i] == s[i]
  {
    assert forall k :: 0 <= k < 26 ==> CAPITALS[k] == ('A' as int + k) as char && SMALLS[k] == ('a' as int + k) as char;
    if 'A' <= s[i] <= 'Z' {
      assert CAPITALS[s[i] as int - 'A' as int] == s[i];
    }
  }

  lemma SignsOf(s: string, first: char, c: char)
    requires |s| <= 26 && first as int + |s| < 0x80 && forall k :: 0 <= k < |s| ==> s[k] as int == first as int + k
    ensures c in s <==> first as int <= c as int < first as int + |s|
  {
    if first as int <= c as int < first as int + |s| {
      assert s[c as int - first as int] == c;
    }
  }

  lemma CapitalsAre(c: char)
    ensures c in CAPITALS <==> 'A' <= c <= 'Z'
  {
    SignsOf(CAPITALS, 'A', c);
  }

  lemma SmallsAre(c: char)
    ensures c in SMALLS <==> 'a' <= c <= 'z'
  {
    SignsOf(SMALLS, 'a', c);
  }

  lemma DigitsAre(c: char)
    ensures c in "0123456789" <==> '0' <= c <= '9'
  {
    SignsOf("0123456789", '0', c);
  }

  /** A word's signs are the letters, the digits and the underscore. */
  lemma WordSignsAre(c: char)
    ensures IsWord(c) <==> c in CAPITALS || c in SMALLS || c in "0123456789" || c == '_'
  {
    CapitalsAre(c);
    SmallsAre(c);
    DigitsAre(c);
  }
}
