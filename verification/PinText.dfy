/** The line patterns of scripts/bump-image-digest.py, and what its two text rewrites do to a line. */
module PinText {
  import opened Prelude

  const REGISTRY := "ghcr.io/zeroroot-ai/"

  predicate IsNameChar(c: char) {
    IsWord(c) || c == '.' || c == '-'
  }

  predicate IsPathChar(c: char) {
    IsNameChar(c) || c == '/'
  }

  /** The first position from `i` on whose character is not `ok`. */
  function SkipAll(s: string, i: nat, ok: char -> bool): (r: nat)
    requires i <= |s|
    ensures i <= r <= |s| && (r < |s| ==> !ok(s[r])) && forall k :: i <= k < r ==> ok(s[k])
    decreases |s| - i
  {
    if i < |s| && ok(s[i]) then SkipAll(s, i + 1, ok) else i
  }

  // ------------------------------------------------------------ reading a line

  datatype Key = Key(indent: nat, name: string)

  datatype Repo = Repo(indent: nat, image: string)

  /** A blank line or a comment. */
  predicate Skipped(line: string) {
    var i := SkipSpace(line, 0);
    i == |line| || line[i] == '#'
  }

  /** The key a line starts with and how far it is indented. */
  function KeyOf(line: string): Option<Key> {
    var i := SkipSpace(line, 0);
    var j := SkipAll(line, i, IsNameChar);
    if i < j < |line| && line[j] == ':' then Some(Key(i, line[i..j])) else None
  }

  function AfterQuote(line: string, i: nat): (r: nat)
    requires i <= |line|
    ensures i <= r <= |line|
  {
    if i < |line| && line[i] == '"' then i + 1 else i
  }

  /** The first-party image a `repository:` line names; anything else on the line disqualifies it. */
  function RepoOf(line: string): Option<Repo> {
    var i := SkipSpace(line, 0);
    if !StandsAt(line, i, "repository:") then None else
      var k := AfterQuote(line, SkipSpace(line, i + |"repository:"|));
      if !StandsAt(line, k, REGISTRY) then None else
        var from := k + |REGISTRY|;
        var to := SkipAll(line, from, IsPathChar);
        if to > from && SkipSpace(line, AfterQuote(line, to)) == |line| then Some(Repo(i, line[from..to])) else None
  }

  lemma SkipAllIs(s: string, i: nat, j: nat, ok: char -> bool)
    requires i <= j <= |s| && (forall k :: i <= k < j ==> ok(s[k])) && (j < |s| ==> !ok(s[j]))
    ensures SkipAll(s, i, ok) == j
  {
  }

  lemma SkipSpaceIs(s: string, i: nat, j: nat)
    requires i <= j <= |s| && (forall k :: i <= k < j ==> IsSpace(s[k])) && (j < |s| ==> !IsSpace(s[j]))
    ensures SkipSpace(s, i) == j
  {
  }

  lemma RepositoryKey(line: string, i: nat, w: string)
    requires w == "repository:" && i == SkipSpace(line, 0) && StandsAt(line, i, w)
    ensures KeyOf(line) == Some(Key(i, "repository")) && !Skipped(line)
  {
    CharsAt(line, i, w);
    assert forall k :: 0 <= k < 10 ==> IsNameChar(w[k]);
    forall k | i <= k < i + 10
      ensures IsNameChar(line[k])
    {
      assert line[i + (k - i)] == w[k - i];
    }
    assert line[i + 10] == w[10] == ':' && line[i + 0] == w[0];
    SkipAllIs(line, i, i + 10, IsNameChar);
    assert line[i..i + 10] == line[i..i + |w|][..10] == "repository";
  }

  /** A repository line has `repository` for its key, at the indent it is listed with. */
  lemma RepoIsKey(line: string)
    requires RepoOf(line).Some?
    ensures KeyOf(line) == Some(Key(RepoOf(line).value.indent, "repository")) && !Skipped(line)
  {
    hide StandsAt, KeyOf, Skipped, AfterQuote;
    RepositoryKey(line, SkipSpace(line, 0), "repository:");
  }

  lemma KeyIsNotSkipped(line: string)
    requires KeyOf(line).Some?
    ensures !Skipped(line)
  {
    var i := SkipSpace(line, 0);
    assert IsNameChar(line[i]);
  }

  function KeyEnd(key: Key): nat {
    key.indent + |key.name| + 1
  }

  /** Up to its colon a key line holds white space, the name and nothing else. */
  lemma KeyText(line: string)
    requires KeyOf(line).Some?
    ensures var key := KeyOf(line).value;
            && KeyEnd(key) <= |line| && '"' !in line[..KeyEnd(key)] && line[KeyEnd(key) - 1] == ':'
            && (forall k :: 0 <= k < key.indent ==> IsSpace(line[k]))
            && StandsAt(line, key.indent, key.name) && key.name != ""
  {
    var key := KeyOf(line).value;
    forall k | 0 <= k < KeyEnd(key)
      ensures line[k] != '"'
    {
    }
  }

  /** The key is read off the text up to its colon. */
  lemma KeyByPrefix(line: string, other: string)
    requires KeyOf(line).Some?
    requires KeyEnd(KeyOf(line).value) <= |other|
    requires other[..KeyEnd(KeyOf(line).value)] == line[..KeyEnd(KeyOf(line).value)]
    ensures KeyOf(other) == KeyOf(line)
  {
    var i := SkipSpace(line, 0);
    var j := SkipAll(line, i, IsNameChar);
    assert KeyEnd(KeyOf(line).value) == j + 1;
    assert forall k :: 0 <= k <= j ==> other[k] == other[..j + 1][k] == line[..j + 1][k] == line[k];
    SkipSpaceIs(other, 0, i);
    SkipAllIs(other, i, j, IsNameChar);
    assert other[i..j] == other[..j + 1][i..j] == line[..j + 1][i..j] == line[i..j];
  }

  // ------------------------------------------------------------- quoted values

  /** A quoted value behind a key: where the key starts, and the value's own extent. */
  datatype Extent = Extent(at: nat, from: nat, to: nat)

  function NextQuote(s: string, i: nat): (r: nat)
    requires i <= |s|
    ensures i <= r <= |s| && (r < |s| ==> s[r] == '"') && forall k :: i <= k < r ==> s[k] != '"'
    decreases |s| - i
  {
    if i < |s| && s[i] != '"' then NextQuote(s, i + 1) else i
  }

  /** The text starts with the key and its colon. */
  predicate StartsKey(s: string, key: string) {
    |key| < |s| && s[|key|] == ':' && forall k :: 0 <= k < |key| ==> s[k] == key[k]
  }

  /** `key:`, white space and a quoted value at the very start. */
  function Match(s: string, key: string): (e: Option<Extent>)
    ensures e.Some? ==> e.value.at == 0 && IsMatch(s, key, e.value.from, e.value.to)
  {
    if !StartsKey(s, key) then None else
      var q := SkipSpace(s, |key| + 1);
      if q == |s| || s[q] != '"' then None else
        var to := NextQuote(s, q + 1);
        if to < |s| then Some(Extent(0, q + 1, to)) else None
  }

  ghost predicate IsMatch(s: string, key: string, from: nat, to: nat) {
    && StartsKey(s, key) && |key| + 2 <= from <= to < |s|
    && (forall k :: |key| + 1 <= k < from - 1 ==> IsSpace(s[k])) && IsValue(s, from, to)
  }

  /** A text between two quotes that holds none. */
  ghost predicate IsValue(s: string, from: nat, to: nat) {
    1 <= from <= to < |s| && s[from - 1] == '"' && s[to] == '"' && forall k :: from <= k < to ==> s[k] != '"'
  }

  lemma MatchIs(s: string, key: string, from: nat, to: nat)
    requires IsMatch(s, key, from, to)
    ensures Match(s, key) == Some(Extent(0, from, to))
  {
    SkipSpaceIs(s, |key| + 1, from - 1);
    var r := NextQuote(s, from);
  }

  function Shift(e: Option<Extent>): Option<Extent> {
    match e
    case Some(e) => Some(Extent(e.at + 1, e.from + 1, e.to + 1))
    case None => None
  }

  /** The leftmost quoted value of `key`, as re.search finds it. */
  function Find(s: string, key: string): (e: Option<Extent>)
    ensures e.Some? ==> e.value.at + |key| + 2 <= e.value.from && IsValue(s, e.value.from, e.value.to)
    ensures e.Some? && key != "" ==> s[e.value.at] == key[0]
  {
    if s == "" then None
    else if Match(s, key).Some? then Match(s, key)
    else Shift(Find(s[1..], key))
  }

  function ValueOf(s: string, key: string): Option<string> {
    match Find(s, key)
    case Some(e) => Some(s[e.from..e.to])
    case None => None
  }

  /** Every quoted value of `key` turned into `text`, as re.sub does it. */
  function SubAll(s: string, key: string, text: string): string
    decreases |s|
  {
    if s == "" then "" else
      match Match(s, key)
      case Some(e) => s[..e.from] + (text + (['"'] + SubAll(s[e.to + 1..], key, text)))
      case None => [s[0]] + SubAll(s[1..], key, text)
  }

  /** Every occurrence of `old`, from left to right, turned into `new`, as str.replace does it. */
  function ReplaceAll(s: string, old_: string, new_: string): string
    requires old_ != ""
    decreases |s|
  {
    if s == "" then ""
    else if old_ <= s then new_ + ReplaceAll(s[|old_|..], old_, new_)
    else [s[0]] + ReplaceAll(s[1..], old_, new_)
  }

  /** A key whose first character occurs only there, so that two of them never overlap. */
  predicate GoodKey(key: string) {
    key != "" && !IsSpace(key[0]) && key[0] != '"' && key[0] != ':' && forall k :: 0 < k < |key| ==> key[k] != key[0]
  }

  lemma TagAndDigestAreGood()
    ensures GoodKey("tag") && GoodKey("digest")
  {
  }

  // ------------------------------------------------- the first value, moved on

  /** Both texts start with the same `n` characters. */
  predicate Agree(s: string, t: string, n: nat) {
    n <= |s| && n <= |t| && forall k :: 0 <= k < n ==> t[k] == s[k]
  }

  lemma AgreeTail(s: string, t: string, n: nat)
    requires Agree(s, t, n) && n > 0
    ensures Agree(s[1..], t[1..], n - 1)
  {
  }

  lemma AgreePrefix(s: string, t: string, n: nat)
    requires Agree(s, t, n)
    ensures s[..n] == t[..n]
  {
  }

  /** Where a value follows later, whatever starts like a match is closed by then. */
  lemma EarlierQuote(s: string, key: string, from: nat, e: Extent)
    requires StartsKey(s, key) && |key| + 2 <= from <= e.from - 1 && IsValue(s, e.from, e.to)
    requires (forall k :: |key| + 1 <= k < from - 1 ==> IsSpace(s[k])) && s[from - 1] == '"'
    ensures Match(s, key).Some?
  {
    MatchIs(s, key, from, NextQuote(s, from));
  }

  lemma MatchCarries(s: string, key: string, e: Extent, t: string)
    requires GoodKey(key) && 0 < e.at && e.at + |key| + 2 <= e.from && IsValue(s, e.from, e.to) && s[e.at] == key[0]
    requires Agree(s, t, e.from)
    ensures Match(t, key).Some? ==> Match(s, key).Some?
  {
    if Match(t, key).Some? {
      assert StartsKey(s, key);
      assert e.at > |key|;
      EarlierQuote(s, key, Match(t, key).value.from, e);
    }
  }

  /** Text that agrees up to the first value matches nowhere before it. */
  lemma NoneStays(s: string, key: string, e: Extent, t: string)
    requires GoodKey(key) && s != "" && Match(s, key) == None && Find(s, key) == Some(e)
    requires Agree(s, t, e.from)
    ensures Match(t, key) == None
  {
    FindTail(s, key, e);
    MatchCarries(s, key, e, t);
  }

  lemma FindTail(s: string, key: string, e: Extent)
    requires s != "" && Match(s, key) == None && Find(s, key) == Some(e)
    ensures e.at >= 1 && e.from >= 1 && e.to >= 1 && Find(s[1..], key) == Some(Extent(e.at - 1, e.from - 1, e.to - 1))
  {
  }

  /** Text that agrees up to the first value and closes it elsewhere has its first value there. */
  lemma {:induction false} FindByPrefix(s: string, key: string, e: Extent, t: string, to: nat)
    requires GoodKey(key) && Find(s, key) == Some(e) && Agree(s, t, e.from) && IsValue(t, e.from, to)
    ensures Find(t, key) == Some(Extent(e.at, e.from, to))
    decreases |s|
  {
    hide Match;
    if Match(s, key).Some? {
      MatchIs(t, key, e.from, to);
    } else {
      NoneStays(s, key, e, t);
      FindTail(s, key, e);
      AgreeTail(s, t, e.from);
      ValueTail(t, e.from, to);
      FindByPrefix(s[1..], key, Extent(e.at - 1, e.from - 1, e.to - 1), t[1..], to - 1);
    }
  }

  lemma ValueTail(t: string, from: nat, to: nat)
    requires IsValue(t, from, to) && from >= 2
    ensures IsValue(t[1..], from - 1, to - 1)
  {
  }

  // ------------------------------------------------------------ re.sub, proved

  lemma {:induction false} NothingToSub(s: string, key: string, text: string)
    requires Find(s, key) == None
    ensures SubAll(s, key, text) == s
  {
    if s != "" {
      NothingToSub(s[1..], key, text);
    }
  }

  /** `t` is `s` up to `from`, then `text` and a quote. */
  ghost predicate Puts(s: string, t: string, from: nat, text: string) {
    Agree(s, t, from) && from + |text| < |t| && t[from..from + |text|] == text && t[from + |text|] == '"'
  }

  lemma PutsHere(s: string, from: nat, text: string, rest: string)
    requires from <= |s|
    ensures Puts(s, s[..from] + (text + (['"'] + rest)), from, text)
  {
    var t := s[..from] + (text + (['"'] + rest));
    assert forall k :: 0 <= k < from ==> t[k] == s[..from][k];
    assert t[from..from + |text|] == text;
  }

  lemma PutsBehind(s: string, r: string, from: nat, text: string)
    requires s != "" && Puts(s[1..], r, from, text)
    ensures Puts(s, [s[0]] + r, from + 1, text)
  {
    var t := [s[0]] + r;
    assert t[from + 1..from + 1 + |text|] == r[from..from + |text|];
    forall k | 0 <= k < from + 1
      ensures t[k] == s[k]
    {
      assert k > 0 ==> t[k] == r[k - 1] && s[k] == s[1..][k - 1];
    }
  }

  lemma SubStep(y: string, key: string, text: string, e: Extent)
    requires y != "" && Match(y, key) == Some(e)
    ensures SubAll(y, key, text) == y[..e.from] + (text + (['"'] + SubAll(y[e.to + 1..], key, text)))
  {
    hide Match, IsMatch, IsValue;
  }

  lemma SubSkip(s: string, key: string, text: string)
    requires s != "" && Match(s, key) == None
    ensures SubAll(s, key, text) == [s[0]] + SubAll(s[1..], key, text)
  {
    hide Match;
  }

  lemma FindStart(s: string, key: string)
    requires Find(s, key).Some?
    ensures s != "" && (Match(s, key).Some? ==> Find(s, key) == Match(s, key))
  {
    hide Match;
  }

  /** Substituting keeps the text up to the first value, which becomes `text`. */
  lemma {:induction false} SubPuts(s: string, key: string, text: string)
    requires Find(s, key).Some?
    ensures Puts(s, SubAll(s, key, text), Find(s, key).value.from, text)
    decreases |s|
  {
    hide Match, Find, SubAll, Puts;
    var e := Find(s, key).value;
    FindStart(s, key);
    if Match(s, key).Some? {
      SubStep(s, key, text, e);
      PutsHere(s, e.from, text, SubAll(s[e.to + 1..], key, text));
    } else {
      FindTail(s, key, e);
      SubPuts(s[1..], key, text);
      SubSkip(s, key, text);
      PutsBehind(s, SubAll(s[1..], key, text), e.from - 1, text);
    }
  }

  lemma PutsValue(s: string, t: string, from: nat, to: nat, text: string)
    requires IsValue(s, from, to) && Puts(s, t, from, text) && '"' !in text
    ensures IsValue(t, from, from + |text|)
  {
    assert forall k :: from <= k < from + |text| ==> t[k] == t[from..from + |text|][k - from];
  }

  /** What a value is replaced with is read back. */
  lemma PutIsFound(s: string, key: string, t: string, text: string)
    requires GoodKey(key) && '"' !in text && Find(s, key).Some? && Puts(s, t, Find(s, key).value.from, text)
    ensures ValueOf(t, key) == Some(text)
  {
    hide Find, Match;
    var e := Find(s, key).value;
    PutsValue(s, t, e.from, e.to, text);
    FindByPrefix(s, key, e, t, e.from + |text|);
  }

  lemma {:induction false} FindAfterSub(s: string, key: string, text: string)
    requires GoodKey(key) && '"' !in text && Find(s, key).Some?
    ensures ValueOf(SubAll(s, key, text), key) == Some(text)
  {
    SubPuts(s, key, text);
    PutIsFound(s, key, SubAll(s, key, text), text);
  }

  /** Substituting twice is substituting once. */
  lemma {:induction false} SubTwice(s: string, key: string, text: string)
    requires GoodKey(key) && '"' !in text
    ensures SubAll(SubAll(s, key, text), key, text) == SubAll(s, key, text)
    decreases |s|
  {
    hide Match;
    if s != "" {
      match Match(s, key) {
        case Some(e) =>
          SubTwice(s[e.to + 1..], key, text);
          SubbedAtMatch(s, key, text, e);
        case None =>
          SubTwice(s[1..], key, text);
          SubbedChar(s, key, text);
      }
    }
  }

  lemma SubbedAtMatch(s: string, key: string, text: string, e: Extent)
    requires '"' !in text && s != "" && Match(s, key) == Some(e)
    requires SubAll(SubAll(s[e.to + 1..], key, text), key, text) == SubAll(s[e.to + 1..], key, text)
    ensures SubAll(SubAll(s, key, text), key, text) == SubAll(s, key, text)
  {
    hide Match, SubAll;
    var head, rest := s[..e.from], SubAll(s[e.to + 1..], key, text);
    Parts(head, text, rest);
    MatchPut(s, key, text, e, rest);
    SubStep(s, key, text, e);
    SubStep(SubAll(s, key, text), key, text, Extent(0, e.from, e.from + |text|));
  }

  lemma {:induction false} SubbedChar(s: string, key: string, text: string)
    requires GoodKey(key) && s != "" && Match(s, key) == None
    requires SubAll(SubAll(s[1..], key, text), key, text) == SubAll(s[1..], key, text)
    ensures SubAll(SubAll(s, key, text), key, text) == SubAll(s, key, text)
  {
    hide Match;
    var t := SubAll(s, key, text);
    if Find(s, key).Some? {
      SubPuts(s, key, text);
      NoneStays(s, key, Find(s, key).value, t);
    } else {
      NothingToSub(s, key, text);
    }
    assert t[1..] == SubAll(s[1..], key, text);
  }

  lemma Parts(head: string, text: string, rest: string)
    ensures var y := head + (text + (['"'] + rest));
            y[..|head|] == head && y[|head| + |text| + 1..] == rest
  {
  }

  lemma MatchPut(s: string, key: string, text: string, e: Extent, rest: string)
    requires '"' !in text && Match(s, key) == Some(e)
    ensures Match(s[..e.from] + (text + (['"'] + rest)), key) == Some(Extent(0, e.from, e.from + |text|))
  {
    var y := s[..e.from] + (text + (['"'] + rest));
    PutsHere(s, e.from, text, rest);
    PutsValue(s, y, e.from, e.to, text);
    MatchIs(y, key, e.from, e.from + |text|);
  }

  // -------------------------------------------------------- str.replace, proved

  ghost predicate NotBefore(s: string, n: nat, old_: string) {
    forall k :: 0 <= k < n && k <= |s| ==> !(old_ <= s[k..])
  }

  /** The text up to the first occurrence is kept, and the first occurrence is replaced. */
  lemma {:induction false} ReplaceFirst(s: string, head: string, old_: string, rest: string, new_: string)
    requires old_ != "" && s == head + (old_ + rest) && NotBefore(s, |head|, old_)
    ensures ReplaceAll(s, old_, new_) == head + (new_ + ReplaceAll(rest, old_, new_))
    decreases |head|
  {
    assert s[0..] == s;
    if head == "" {
      assert s == old_ + rest && s[|old_|..] == rest;
      assert "" + (new_ + ReplaceAll(rest, old_, new_)) == new_ + ReplaceAll(rest, old_, new_);
    } else {
      var tail := head[1..];
      assert s[1..] == tail + (old_ + rest);
      assert forall k :: 0 <= k < |tail| ==> s[1..][k..] == s[k + 1..];
      ReplaceFirst(s[1..], tail, old_, rest, new_);
      HeadInFront(s, head, new_ + ReplaceAll(rest, old_, new_));
    }
  }

  lemma HeadInFront(s: string, head: string, rest: string)
    requires head != "" && s != "" && s[0] == head[0]
    ensures [s[0]] + (head[1..] + rest) == head + rest
  {
    assert head == [head[0]] + head[1..];
  }

  /** Text without a quote is kept when what is replaced starts with one. */
  lemma {:induction false} ReplaceKeeps(s: string, n: nat, old_: string, new_: string)
    requires old_ != "" && old_[0] == '"' && n <= |s| && '"' !in s[..n]
    ensures n <= |ReplaceAll(s, old_, new_)| && ReplaceAll(s, old_, new_)[..n] == s[..n]
    decreases n
  {
    if n > 0 {
      assert s[..n][0] == s[0];
      assert s[1..][..n - 1] == s[..n][1..];
      ReplaceKeeps(s[1..], n - 1, old_, new_);
      var r := ReplaceAll(s[1..], old_, new_);
      assert ([s[0]] + r)[..n] == [s[0]] + r[..n - 1];
      assert s[..n] == [s[0]] + s[1..][..n - 1];
    }
  }

  function Quoted(value: string): string {
    ['"'] + value + ['"']
  }

  /** The quoted value does not occur on the line before the place it was read from. */
  ghost predicate ReadWhereFirst(s: string, key: string) {
    match Find(s, key)
    case Some(e) => NotBefore(s, e.from - 1, Quoted(s[e.from..e.to]))
    case None => true
  }

  lemma FirstReplaced(s: string, from: nat, to: nat, new_: string)
    requires IsValue(s, from, to) && NotBefore(s, from - 1, Quoted(s[from..to]))
    ensures Puts(s, ReplaceAll(s, Quoted(s[from..to]), Quoted(new_)), from, new_)
  {
    var old_ := Quoted(s[from..to]);
    QuotedSplits(s, from, to);
    ReplaceFirst(s, s[..from - 1], old_, s[to + 1..], Quoted(new_));
    var rest := ReplaceAll(s[to + 1..], old_, Quoted(new_));
    Requote(s, from, new_, rest);
    PutsHere(s, from, new_, rest);
  }

  /** A value replaced where it was read is read back as what it was replaced with. */
  lemma {:induction false} FindAfterReplace(s: string, key: string, new_: string)
    requires GoodKey(key) && '"' !in new_ && Find(s, key).Some? && ReadWhereFirst(s, key)
    ensures ValueOf(ReplaceAll(s, Quoted(ValueOf(s, key).value), Quoted(new_)), key) == Some(new_)
  {
    var e := Find(s, key).value;
    FirstReplaced(s, e.from, e.to, new_);
    PutIsFound(s, key, ReplaceAll(s, Quoted(s[e.from..e.to]), Quoted(new_)), new_);
  }

  lemma QuotedStands(s: string, from: nat, to: nat)
    requires IsValue(s, from, to)
    ensures Quoted(s[from..to]) <= s[from - 1..]
  {
    assert s[from - 1..][..to - from + 2] == Quoted(s[from..to]);
  }

  lemma QuotedSplits(s: string, from: nat, to: nat)
    requires IsValue(s, from, to)
    ensures s == s[..from - 1] + (Quoted(s[from..to]) + s[to + 1..])
  {
  }

  lemma Requote(s: string, from: nat, new_: string, rest: string)
    requires 1 <= from <= |s| && s[from - 1] == '"'
    ensures s[..from - 1] + (Quoted(new_) + rest) == s[..from] + (new_ + (['"'] + rest))
  {
    assert s[..from] == s[..from - 1] + ['"'];
  }

  // ------------------------------------------------- what a rewrite leaves alone

  /** Substituting a key's values keeps the key of its line. */
  lemma SubKeepsKey(line: string, text: string)
    requires KeyOf(line).Some? && GoodKey(KeyOf(line).value.name)
    ensures KeyOf(SubAll(line, KeyOf(line).value.name, text)) == KeyOf(line)
  {
    hide Match;
    var key := KeyOf(line).value;
    KeyText(line);
    if Find(line, key.name).Some? {
      var e := Find(line, key.name).value;
      assert e.at >= key.indent;
      SubPuts(line, key.name, text);
      AgreePrefix(line[..KeyEnd(key)], SubAll(line, key.name, text)[..KeyEnd(key)], KeyEnd(key));
      KeyByPrefix(line, SubAll(line, key.name, text));
    } else {
      NothingToSub(line, key.name, text);
    }
  }

  /** So does replacing quoted text. */
  lemma ReplaceKeepsKey(line: string, value: string, new_: string)
    requires KeyOf(line).Some?
    ensures KeyOf(ReplaceAll(line, Quoted(value), Quoted(new_))) == KeyOf(line)
  {
    KeyText(line);
    ReplaceKeeps(line, KeyEnd(KeyOf(line).value), Quoted(value), Quoted(new_));
    KeyByPrefix(line, ReplaceAll(line, Quoted(value), Quoted(new_)));
  }

  predicate AllBreaks(s: string) {
    forall k :: 0 <= k < |s| ==> IsBreak(s[k])
  }

  lemma UnbrokenInTurn(a: string, b: string)
    requires Unbroken(a) && Unbroken(b)
    ensures Unbroken(a + b)
  {
  }

  lemma MatchBeforeEnding(body: string, ending: string, key: string)
    requires AllBreaks(ending) && GoodKey(key)
    ensures Match(body + ending, key) == Match(body, key)
  {
    var s := body + ending;
    assert forall k :: 0 <= k < |body| ==> body[k] == s[k];
    assert forall k :: |body| <= k < |s| ==> IsBreak(s[k]);
    if Match(s, key).Some? {
      var e := Match(s, key).value;
      assert !IsBreak(s[e.to]) && e.to < |body|;
      assert IsMatch(body, key, e.from, e.to);
      MatchIs(body, key, e.from, e.to);
    } else if Match(body, key).Some? {
      var e := Match(body, key).value;
      assert IsMatch(s, key, e.from, e.to);
      MatchIs(s, key, e.from, e.to);
    }
  }

  lemma {:induction false} FindBeforeEnding(body: string, ending: string, key: string)
    requires AllBreaks(ending) && GoodKey(key)
    ensures Find(body + ending, key) == Find(body, key)
    decreases |body| + |ending|
  {
    hide Match;
    var s := body + ending;
    MatchBeforeEnding(body, ending, key);
    if body != "" {
      assert s[1..] == body[1..] + ending;
      FindBeforeEnding(body[1..], ending, key);
    } else if ending != "" {
      assert s[1..] == body + ending[1..];
      FindBeforeEnding(body, ending[1..], key);
    }
  }

  lemma SlicesOf(body: string, ending: string, from: nat, to: nat)
    requires from <= |body| && to <= |body|
    ensures (body + ending)[..from] == body[..from] && (body + ending)[to..] == body[to..] + ending
  {
  }

  /** A line's own ending stays where it is. */
  lemma {:induction false} SubBeforeEnding(body: string, ending: string, key: string, text: string)
    requires AllBreaks(ending) && GoodKey(key)
    ensures SubAll(body + ending, key, text) == SubAll(body, key, text) + ending
    decreases |body|
  {
    hide Match;
    var s := body + ending;
    MatchBeforeEnding(body, ending, key);
    if body == "" {
      assert s == ending;
      FindBeforeEnding("", ending, key);
      NothingToSub(ending, key, text);
      assert "" + ending == ending;
    } else {
      match Match(body, key) {
        case Some(e) =>
          SubBeforeEnding(body[e.to + 1..], ending, key, text);
          SlicesOf(body, ending, e.from, e.to + 1);
          FourInTurn(body[..e.from], text, ['"'], SubAll(body[e.to + 1..], key, text), ending);
        case None =>
          SubBeforeEnding(body[1..], ending, key, text);
          assert s[1..] == body[1..] + ending;
          InTurn([s[0]], SubAll(body[1..], key, text), ending);
      }
    }
  }

  lemma InTurn(a: string, b: string, c: string)
    ensures a + (b + c) == a + b + c
  {
  }

  lemma FourInTurn(a: string, b: string, c: string, d: string, ending: string)
    ensures a + (b + (c + (d + ending))) == a + (b + (c + d)) + ending
  {
  }

  lemma {:induction false} SubUnbroken(s: string, key: string, text: string)
    requires Unbroken(s) && Unbroken(text)
    ensures Unbroken(SubAll(s, key, text))
    decreases |s|
  {
    hide Match;
    if s != "" {
      match Match(s, key) {
        case Some(e) =>
          SubUnbroken(s[e.to + 1..], key, text);
          UnbrokenInTurn(['"'], SubAll(s[e.to + 1..], key, text));
          UnbrokenInTurn(text, ['"'] + SubAll(s[e.to + 1..], key, text));
          UnbrokenInTurn(s[..e.from], text + (['"'] + SubAll(s[e.to + 1..], key, text)));
        case None =>
          SubUnbroken(s[1..], key, text);
          UnbrokenInTurn([s[0]], SubAll(s[1..], key, text));
      }
    }
  }

  lemma OccursBeforeEnding(body: string, ending: string, old_: string)
    requires AllBreaks(ending) && old_ != "" && old_[|old_| - 1] == '"'
    ensures old_ <= body + ending <==> old_ <= body
  {
    var s := body + ending;
    if old_ <= s {
      assert s[|old_| - 1] == '"';
      assert |old_| <= |body|;
      assert body[..|old_|] == s[..|old_|];
    }
    if old_ <= body {
      assert s[..|old_|] == body[..|old_|];
    }
  }

  lemma {:induction false} ReplaceBeforeEnding(body: string, ending: string, old_: string, new_: string)
    requires AllBreaks(ending) && old_ != "" && old_[|old_| - 1] == '"'
    ensures ReplaceAll(body + ending, old_, new_) == ReplaceAll(body, old_, new_) + ending
    decreases |body| + |ending|
  {
    var s := body + ending;
    OccursBeforeEnding(body, ending, old_);
    if body == "" {
      if ending != "" {
        assert s == ending && s[1..] == "" + ending[1..];
        ReplaceBeforeEnding("", ending[1..], old_, new_);
        assert [ending[0]] + ("" + ending[1..]) == "" + ending;
      }
    } else if old_ <= body {
      assert s[|old_|..] == body[|old_|..] + ending;
      ReplaceBeforeEnding(body[|old_|..], ending, old_, new_);
      InTurn(new_, ReplaceAll(body[|old_|..], old_, new_), ending);
    } else {
      assert s[1..] == body[1..] + ending;
      ReplaceBeforeEnding(body[1..], ending, old_, new_);
      InTurn([s[0]], ReplaceAll(body[1..], old_, new_), ending);
    }
  }

  lemma {:induction false} ReplaceUnbroken(s: string, old_: string, new_: string)
    requires old_ != "" && Unbroken(s) && Unbroken(new_)
    ensures Unbroken(ReplaceAll(s, old_, new_))
    decreases |s|
  {
    if s != "" {
      if old_ <= s {
        ReplaceUnbroken(s[|old_|..], old_, new_);
        UnbrokenInTurn(new_, ReplaceAll(s[|old_|..], old_, new_));
      } else {
        ReplaceUnbroken(s[1..], old_, new_);
        UnbrokenInTurn([s[0]], ReplaceAll(s[1..], old_, new_));
      }
    }
  }

  /** Replacing a quoted value that occurs by another one changes the text. */
  lemma {:induction false} ReplaceChanges(s: string, n: nat, value: string, new_: string)
    requires '"' !in value && '"' !in new_ && value != new_
    requires n <= |s| && Quoted(value) <= s[n..]
    ensures ReplaceAll(s, Quoted(value), Quoted(new_)) != s
    decreases |s|
  {
    var old_ := Quoted(value);
    if old_ <= s {
      var t := ReplaceAll(s, old_, Quoted(new_));
      if t == s {
        assert Quoted(new_) <= s;
        QuotedIsOne(s, value, new_);
      }
    } else {
      assert s[0..] == s;
      assert s[1..][n - 1..] == s[n..];
      ReplaceChanges(s[1..], n - 1, value, new_);
      assert s == [s[0]] + s[1..];
    }
  }

  /** A line that starts with a quoted text reads as that text. */
  lemma QuotedHead(s: string, a: string)
    requires '"' !in a && Quoted(a) <= s
    ensures NextQuote(s, 1) == 1 + |a| && s[1..1 + |a|] == a
  {
    assert s[1 + |a|] == Quoted(a)[1 + |a|] == '"';
    assert forall k :: 0 <= k < |a| ==> a[k] == Quoted(a)[1 + k] == s[1 + k];
    assert forall k :: 1 <= k < 1 + |a| ==> s[k] == a[k - 1];
    var r := NextQuote(s, 1);
  }

  lemma QuotedIsOne(s: string, a: string, b: string)
    requires '"' !in a && '"' !in b && Quoted(a) <= s && Quoted(b) <= s
    ensures a == b
  {
    QuotedHead(s, a);
    QuotedHead(s, b);
  }
}
