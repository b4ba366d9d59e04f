/** scripts/bump-image-digest.py: the lines of an image mapping, told by how they are written. */
module PinLines {
  import opened Prelude
  import opened PinText
  import opened Pins

  lemma {:induction false} SkipSpaceIsLead(line: string, lead: string, i: nat)
    requires Blank(lead) && lead <= line && i <= |lead| && (|lead| < |line| ==> !IsSpace(line[|lead|]))
    ensures SkipSpace(line, i) == |lead|
    decreases |lead| - i
  {
    if i < |lead| {
      assert line[i] == lead[i];
      SkipSpaceIsLead(line, lead, i + 1);
    }
  }

  lemma LeadIsBlank(line: string)
    ensures var i := SkipSpace(line, 0); Blank(line[..i]) && line == line[..i] + line[i..]
  {
  }

  // -------------------------------------------------------------------- keys

  /** White space, a name, and a colon. */
  predicate IsKeyLine(line: string, lead: string, name: string, rest: string) {
    Blank(lead) && name != "" && (forall k :: 0 <= k < |name| ==> IsNameChar(name[k])) && line == lead + (name + (":" + rest))
  }

  lemma KeyLineRead(line: string, lead: string, name: string, rest: string)
    requires IsKeyLine(line, lead, name, rest)
    ensures KeyOf(line) == Some(Key(|lead|, name))
  {
    assert line[|lead|] == name[0];
    SkipSpaceIsLead(line, lead, 0);
    var j := |lead| + |name|;
    assert line[|lead|..j] == name && line[j] == ':';
    assert forall k :: |lead| <= k < j ==> line[k] == name[k - |lead|];
    SkipAllIs(line, |lead|, j, IsNameChar);
  }

  /** A line has a key exactly when it is written so; the indent is the white space in front. */
  lemma KeyOfIff(line: string, indent: nat, name: string)
    ensures KeyOf(line) == Some(Key(indent, name)) <==> exists lead, rest :: |lead| == indent && IsKeyLine(line, lead, name, rest)
  {
    hide IsNameChar, KeyOf, IsKeyLine;
    if lead, rest :| |lead| == indent && IsKeyLine(line, lead, name, rest) {
      KeyLineRead(line, lead, name, rest);
    }
    if KeyOf(line) == Some(Key(indent, name)) {
      var lead, rest := KeyLineWritten(line);
    }
  }

  lemma KeyLineWritten(line: string) returns (lead: string, rest: string)
    requires KeyOf(line).Some?
    ensures |lead| == KeyOf(line).value.indent && IsKeyLine(line, lead, KeyOf(line).value.name, rest)
  {
    hide IsNameChar, IsSpace, SkipSpace, SkipAll;
    var i := SkipSpace(line, 0);
    var j := SkipAll(line, i, IsNameChar);
    LeadIsBlank(line);
    lead, rest := line[..i], line[j + 1..];
    KeyParts(line, i, j);
    assert forall k :: 0 <= k < j - i ==> line[i..j][k] == line[i + k];
  }

  lemma KeyParts(line: string, i: nat, j: nat)
    requires i < j < |line| && line[j] == ':'
    ensures line == line[..i] + (line[i..j] + (":" + line[j + 1..]))
  {
  }

  /** A line is passed over when it is blank or a comment. */
  lemma SkippedIff(line: string)
    ensures Skipped(line) <==> Blank(line) || exists lead, rest :: Blank(lead) && line == lead + ("#" + rest)
  {
    var i := SkipSpace(line, 0);
    LeadIsBlank(line);
    if i < |line| && line[i] == '#' {
      assert line[i..] == "#" + line[i + 1..];
    }
    if lead, rest :| Blank(lead) && line == lead + ("#" + rest) {
      assert line[|lead|] == '#';
      SkipSpaceIsLead(line, lead, 0);
    }
    assert i < |line| ==> !IsSpace(line[i]);
  }

  // ------------------------------------------------------------ repositories

  predicate IsQuotes(q: string) {
    q == "" || q == "\""
  }

  function FromQuote(open: string, image: string, close: string, trail: string): string {
    open + ("ghcr.io/zeroroot-ai/" + (image + (close + trail)))
  }

  /** `repository:`, the registry and the image, in quotes or not, and white space between and behind. */
  predicate IsRepoLine(line: string, lead: string, gap: string, open: string, image: string, close: string, trail: string) {
    && Blank(lead) && Blank(gap) && Blank(trail) && IsQuotes(open) && IsQuotes(close)
    && image != "" && (forall k :: 0 <= k < |image| ==> IsPathChar(image[k]))
    && line == lead + ("repository:" + (gap + FromQuote(open, image, close, trail)))
  }

  ghost predicate NamesImage(line: string, indent: nat, image: string) {
    exists lead, gap, open, close, trail :: |lead| == indent && IsRepoLine(line, lead, gap, open, image, close, trail)
  }

  lemma AfterQuoteIs(line: string, at: nat, q: string, rest: string)
    requires at <= |line| && line[at..] == q + rest && IsQuotes(q) && (rest == "" || rest[0] != '"')
    ensures AfterQuote(line, at) == at + |q| && line[at + |q|..] == rest
  {
    assert q == "" ==> q + rest == rest;
    assert at < |line| ==> line[at] == line[at..][0];
  }

  lemma PathEnds(line: string, at: nat, image: string, rest: string)
    requires at <= |line| && line[at..] == image + rest && (forall k :: 0 <= k < |image| ==> IsPathChar(image[k]))
    requires rest == "" || !IsPathChar(rest[0])
    ensures SkipAll(line, at, IsPathChar) == at + |image| && line[at..at + |image|] == image && line[at + |image|..] == rest
  {
    RestBehind(line, at, image, rest);
    var j := at + |image|;
    CharsAt(line, at, image);
    forall k | at <= k < j
      ensures line[k] == image[k - at]
    {
      assert line[at + (k - at)] == image[k - at];
    }
    assert rest != "" ==> line[j] == rest[0];
    SkipAllIs(line, at, j, IsPathChar);
  }

  lemma TailIs(close: string, trail: string)
    requires IsQuotes(close) && Blank(trail)
    ensures var s := close + trail; s == "" || (!IsPathChar(s[0]) && s[0] != 'g')
    ensures trail == "" || trail[0] != '"'
  {
    if close == "" {
      assert close + trail == trail;
    }
  }

  lemma RepoOfParts(line: string, i: nat, b: nat, k: nat, to: nat, c: nat, w: string)
    requires w == "repository:" && i == SkipSpace(line, 0) && StandsAt(line, i, w) && b == SkipSpace(line, i + |w|)
    requires k == AfterQuote(line, b) && StandsAt(line, k, REGISTRY) && to == SkipAll(line, k + |REGISTRY|, IsPathChar)
    requires to > k + |REGISTRY| && c == AfterQuote(line, to) && SkipSpace(line, c) == |line|
    ensures RepoOf(line) == Some(Repo(i, line[k + |REGISTRY|..to]))
  {
    hide SkipSpace, StandsAt, AfterQuote, SkipAll, IsPathChar;
  }

  lemma KeyRead(line: string, lead: string, w: string, gap: string, rest: string)
    requires w == "repository:" && line[0..] == lead + (w + (gap + rest)) && Blank(lead) && Blank(gap)
    requires rest == "" || !IsSpace(rest[0])
    ensures SkipSpace(line, 0) == |lead| && StandsAt(line, |lead|, w)
    ensures SkipSpace(line, |lead| + |w|) == |lead| + |w| + |gap| && line[|lead| + |w| + |gap|..] == rest
  {
    hide *;
    WordStarts(w, gap + rest);
    SkipIs(line, 0, lead, w + (gap + rest));
    RestBehind(line, |lead|, w, gap + rest);
    SkipIs(line, |lead| + |w|, gap, rest);
  }

  lemma WordStarts(w: string, rest: string)
    requires w == "repository:"
    ensures !IsSpace((w + rest)[0])
  {
    assert w[0] == 'r';
  }

  lemma QuoteRead(line: string, b: nat, open: string, image: string, close: string, trail: string)
    requires b <= |line| && line[b..] == FromQuote(open, image, close, trail) && IsQuotes(open)
    ensures AfterQuote(line, b) == b + |open| && line[b + |open|..] == REGISTRY + (image + (close + trail))
  {
    hide AfterQuote;
    QuoteStarts(open, image, close, trail);
    AfterQuoteIs(line, b, open, REGISTRY + (image + (close + trail)));
  }

  lemma QuoteStarts(open: string, image: string, close: string, trail: string)
    requires IsQuotes(open)
    ensures (REGISTRY + (image + (close + trail)))[0] != '"'
    ensures FromQuote(open, image, close, trail) != "" && !IsSpace(FromQuote(open, image, close, trail)[0])
  {
    assert REGISTRY[0] == 'g';
    assert open == "" ==> FromQuote(open, image, close, trail) == REGISTRY + (image + (close + trail));
  }

  lemma BackRead(line: string, k: nat, image: string, close: string, trail: string, at: nat, to: nat, c: nat)
    requires k <= |line| && line[k..] == REGISTRY + (image + (close + trail))
    requires at == k + |REGISTRY| && to == at + |image| && c == to + |close|
    requires Blank(trail) && IsQuotes(close) && forall j :: 0 <= j < |image| ==> IsPathChar(image[j])
    ensures StandsAt(line, k, REGISTRY) && to <= |line| && SkipAll(line, at, IsPathChar) == to && line[at..to] == image
    ensures AfterQuote(line, to) == c && SkipSpace(line, c) == |line|
  {
    hide *;
    RestBehind(line, k, REGISTRY, image + (close + trail));
    ImageRead(line, at, image, close, trail);
    CloseRead(line, to, close, trail);
  }

  lemma ImageRead(line: string, at: nat, image: string, close: string, trail: string)
    requires at <= |line| && line[at..] == image + (close + trail)
    requires Blank(trail) && IsQuotes(close) && forall j :: 0 <= j < |image| ==> IsPathChar(image[j])
    ensures SkipAll(line, at, IsPathChar) == at + |image| && line[at..at + |image|] == image
    ensures line[at + |image|..] == close + trail
  {
    hide *;
    TailIs(close, trail);
    PathEnds(line, at, image, close + trail);
  }

  lemma CloseRead(line: string, to: nat, close: string, trail: string)
    requires to <= |line| && line[to..] == close + trail && Blank(trail) && IsQuotes(close)
    ensures AfterQuote(line, to) == to + |close| && SkipSpace(line, to + |close|) == |line|
  {
    hide *;
    TailIs(close, trail);
    AfterQuoteIs(line, to, close, trail);
    assert trail + "" == trail;
    SkipIs(line, to + |close|, trail, "");
  }

  lemma RepoLineRead(line: string, lead: string, gap: string, open: string, image: string, close: string, trail: string, w: string)
    requires IsRepoLine(line, lead, gap, open, image, close, trail) && w == "repository:"
    ensures RepoOf(line) == Some(Repo(|lead|, image))
  {
    RepoLineIs(line, lead, gap, open, image, close, trail, w);
    hide *;
    var b := |lead| + |w| + |gap|;
    QuoteStarts(open, image, close, trail);
    KeyRead(line, lead, w, gap, FromQuote(open, image, close, trail));
    QuoteRead(line, b, open, image, close, trail);
    BehindFront(line, |lead|, b, b + |open|, image, close, trail, w);
  }

  lemma BehindFront(line: string, i: nat, b: nat, k: nat, image: string, close: string, trail: string, w: string)
    requires w == "repository:" && i == SkipSpace(line, 0) && StandsAt(line, i, w) && b == SkipSpace(line, i + |w|)
    requires k == AfterQuote(line, b) && line[k..] == REGISTRY + (image + (close + trail))
    requires Blank(trail) && IsQuotes(close) && image != "" && forall j :: 0 <= j < |image| ==> IsPathChar(image[j])
    ensures RepoOf(line) == Some(Repo(i, image))
  {
    hide *;
    var to := k + |REGISTRY| + |image|;
    BackRead(line, k, image, close, trail, k + |REGISTRY|, to, to + |close|);
    RepoOfParts(line, i, b, k, to, to + |close|, w);
  }

  lemma RepoLineIs(line: string, lead: string, gap: string, open: string, image: string, close: string, trail: string, w: string)
    requires IsRepoLine(line, lead, gap, open, image, close, trail) && w == "repository:"
    ensures line[0..] == lead + (w + (gap + FromQuote(open, image, close, trail)))
    ensures Blank(lead) && Blank(gap) && Blank(trail) && IsQuotes(open) && IsQuotes(close)
    ensures image != "" && forall k :: 0 <= k < |image| ==> IsPathChar(image[k])
  {
  }

  lemma QuoteAt(line: string, at: nat) returns (q: string)
    requires at <= |line|
    ensures IsQuotes(q) && line[at..] == q + line[AfterQuote(line, at)..] && |q| == AfterQuote(line, at) - at
  {
    q := if at < |line| && line[at] == '"' then "\"" else "";
  }

  lemma RepoOfFacts(line: string, i: nat, a: nat, b: nat, k: nat, from: nat, to: nat, c: nat, w: string)
    requires RepoOf(line).Some? && w == "repository:"
    requires i == SkipSpace(line, 0) && a == i + |w| && a <= |line| && b == SkipSpace(line, a) && k == AfterQuote(line, b)
    requires from == k + |REGISTRY| && from <= |line| && to == SkipAll(line, from, IsPathChar) && c == AfterQuote(line, to)
    ensures StandsAt(line, i, w) && StandsAt(line, k, REGISTRY) && from < to && SkipSpace(line, c) == |line|
    ensures RepoOf(line) == Some(Repo(i, line[from..to])) && forall j :: 0 <= j < to - from ==> IsPathChar(line[from..to][j])
  {
    hide SkipSpace, AfterQuote, SkipAll, IsPathChar, StandsAt;
    assert forall j :: 0 <= j < to - from ==> line[from..to][j] == line[from + j];
  }

  lemma RepoLineWritten(line: string, w: string)
    requires RepoOf(line).Some? && w == "repository:"
    ensures NamesImage(line, RepoOf(line).value.indent, RepoOf(line).value.image)
  {
    var i := SkipSpace(line, 0);
    var a := i + |w|;
    var b := SkipSpace(line, a);
    var k := AfterQuote(line, b);
    var from := k + |REGISTRY|;
    var to := SkipAll(line, from, IsPathChar);
    var c := AfterQuote(line, to);
    RepoOfFacts(line, i, a, b, k, from, to, c, w);
    hide *;
    WrittenFront(line, i, a, b, k, w);
    WrittenBack(line, k, from, to, c);
    var open := QuoteAt(line, b);
    var close := QuoteAt(line, to);
    Assembled(line, line[0..i], w, line[a..b], open, line[from..to], close, line[c..], a, b, k, from, to);
  }

  lemma WrittenFront(line: string, i: nat, a: nat, b: nat, k: nat, w: string)
    requires i == SkipSpace(line, 0) && StandsAt(line, i, w) && a == i + |w| && b == SkipSpace(line, a) && k <= |line|
    ensures Blank(line[0..i]) && line[0..] == line[0..i] + line[i..] && line[i..] == w + line[a..]
    ensures Blank(line[a..b]) && line[a..] == line[a..b] + line[b..]
  {
    hide *;
    SpaceAt(line, 0);
    PieceBehind(line, i, w);
    SpaceAt(line, a);
  }

  lemma WrittenBack(line: string, k: nat, from: nat, to: nat, c: nat)
    requires StandsAt(line, k, REGISTRY) && from == k + |REGISTRY| && from <= to <= c <= |line| && SkipSpace(line, c) == |line|
    ensures line[k..] == REGISTRY + line[from..] && line[from..] == line[from..to] + line[to..] && Blank(line[c..])
  {
    hide *;
    PieceBehind(line, k, REGISTRY);
    SpaceAt(line, c);
    assert line[c..|line|] == line[c..];
  }

  lemma Assembled(line: string, lead: string, w: string, gap: string, open: string, image: string, close: string, trail: string,
                  a: nat, b: nat, k: nat, from: nat, to: nat)
    requires w == "repository:" && a <= |line| && b <= |line| && k <= |line| && from <= |line| && to <= |line| && |lead| <= |line|
    requires line[0..] == lead + line[|lead|..] && line[|lead|..] == w + line[a..] && line[a..] == gap + line[b..]
    requires line[b..] == open + line[k..] && line[k..] == REGISTRY + line[from..] && line[from..] == image + line[to..]
    requires line[to..] == close + trail
    requires Blank(lead) && Blank(gap) && Blank(trail) && IsQuotes(open) && IsQuotes(close)
    requires image != "" && forall j :: 0 <= j < |image| ==> IsPathChar(image[j])
    ensures NamesImage(line, |lead|, image)
  {
    hide IsPathChar, Blank;
    assert line == line[0..];
    assert IsRepoLine(line, lead, gap, open, image, close, trail);
  }

  /** A line is a repository line exactly when it is written so. */
  lemma RepoOfIff(line: string, indent: nat, image: string)
    ensures RepoOf(line) == Some(Repo(indent, image)) <==> NamesImage(line, indent, image)
  {
    hide RepoOf, IsRepoLine;
    if NamesImage(line, indent, image) {
      var lead, gap, open, close, trail :| |lead| == indent && IsRepoLine(line, lead, gap, open, image, close, trail);
      RepoLineRead(line, lead, gap, open, image, close, trail, "repository:");
    }
    if RepoOf(line) == Some(Repo(indent, image)) {
      RepoLineWritten(line, "repository:");
    }
  }

  // ---------------------------------------------------------------- mappings

  /** A key line of one of the four names an image mapping may hold. */
  predicate IsSiblingLine(line: string, lead: string, name: string, rest: string) {
    (name == "tag" || name == "digest" || name == "pullPolicy" || name == "repository") && IsKeyLine(line, lead, name, rest)
  }

  /** A mapping goes on over blank lines and comments, and over its keys at its own indent or deeper, up to the next
      `repository` at its own. */
  lemma PassesIff(line: string, base: nat)
    ensures Passes(ViewOf(line), base) <==>
        || Blank(line) || (exists lead, rest :: Blank(lead) && line == lead + ("#" + rest))
        || exists lead, name, rest :: |lead| >= base && !(|lead| == base && name == "repository")
                                      && IsSiblingLine(line, lead, name, rest)
  {
    hide KeyOf, RepoOf, Skipped, IsKeyLine, Blank;
    SkippedIff(line);
    if KeyOf(line).Some? {
      var key := KeyOf(line).value;
      KeyOfIff(line, key.indent, key.name);
      var lead, rest :| |lead| == key.indent && IsKeyLine(line, lead, key.name, rest);
      assert IsSibling(key.name) ==> IsSiblingLine(line, lead, key.name, rest);
    }
    forall lead, name, rest | IsSiblingLine(line, lead, name, rest)
      ensures KeyOf(line) == Some(Key(|lead|, name)) && IsSibling(name)
    {
      KeyLineRead(line, lead, name, rest);
    }
  }

  /** A pin starts at a line that names an image of the registry, mirrors aside. */
  lemma PinLineIff(line: string)
    ensures IsPinLine(ViewOf(line)) <==> exists indent: nat, image :: NamesImage(line, indent, image) && !("mirror/" <= image)
  {
    hide KeyOf, RepoOf, Skipped, NamesImage;
    forall indent: nat, image
      ensures RepoOf(line) == Some(Repo(indent, image)) <==> NamesImage(line, indent, image)
    {
      RepoOfIff(line, indent, image);
    }
    if RepoOf(line).Some? {
      assert RepoOf(line) == Some(Repo(RepoOf(line).value.indent, RepoOf(line).value.image));
    }
  }

  // ------------------------------------------------------------------ values

  /** No quoted value of the key starts in front of `n`. */
  ghost predicate NoMatchBefore(s: string, key: string, n: nat) {
    forall k :: 0 <= k < n && k <= |s| ==> Match(s[k..], key) == None
  }

  /** The value found is that of the first match on the line. */
  lemma {:induction false} FindIsFirst(s: string, key: string, at: nat, from: nat, to: nat)
    requires at < |s| && at <= from <= to && IsMatch(s[at..], key, from - at, to - at) && NoMatchBefore(s, key, at)
    ensures Find(s, key) == Some(Extent(at, from, to))
    decreases at
  {
    hide Match, IsMatch;
    assert s[0..] == s;
    if at == 0 {
      MatchIs(s, key, from, to);
    } else {
      assert s[1..][at - 1..] == s[at..];
      forall k | 0 <= k < at - 1 && k <= |s[1..]|
        ensures Match(s[1..][k..], key) == None
      {
        assert s[1..][k..] == s[k + 1..];
      }
      FindIsFirst(s[1..], key, at - 1, from - 1, to - 1);
      assert Match(s[0..], key) == None;
    }
  }

  lemma {:induction false} NoMatchNoValue(s: string, key: string)
    requires NoMatchBefore(s, key, |s|)
    ensures Find(s, key) == None
  {
    hide Match;
    if s != "" {
      assert s[0..] == s;
      forall k | 0 <= k < |s[1..]| && k <= |s[1..]|
        ensures Match(s[1..][k..], key) == None
      {
        assert s[1..][k..] == s[k + 1..];
      }
      NoMatchNoValue(s[1..], key);
      assert Match(s[0..], key) == None;
    }
  }

  /** Substituting goes through the line: up to the first value all stays, the value goes, and behind it it goes on. */
  lemma {:induction false} SubAtFirst(s: string, key: string, text: string)
    requires Find(s, key).Some?
    ensures var e := Find(s, key).value;
            SubAll(s, key, text) == s[..e.from] + (text + ("\"" + SubAll(s[e.to + 1..], key, text)))
    decreases |s|
  {
    hide Match, Find, SubAll;
    var e := Find(s, key).value;
    FindStart(s, key);
    if Match(s, key).Some? {
      SubStep(s, key, text, e);
      assert ['"'] == "\"";
    } else {
      FindTail(s, key, e);
      SubAtFirst(s[1..], key, text);
      SubSkip(s, key, text);
      SubBehind(s, e, SubAll(s[e.to + 1..], key, text), text);
    }
  }

  lemma SubBehind(s: string, e: Extent, rest: string, text: string)
    requires s != "" && 1 <= e.from <= e.to < |s|
    ensures s[1..][..e.from - 1] + (text + ("\"" + rest)) == s[1..e.from] + (text + ("\"" + rest))
    ensures s[1..][e.to..] == s[e.to + 1..]
    ensures [s[0]] + (s[1..e.from] + (text + ("\"" + rest))) == s[..e.from] + (text + ("\"" + rest))
  {
    assert s[1..][..e.from - 1] == s[1..e.from];
    assert [s[0]] + s[1..e.from] == s[..e.from];
  }

  /** The signs of a key's name, and those of an image's path. */
  lemma NameSignsAre(c: char)
    ensures IsNameChar(c) <==> IsWord(c) || c in ".-"
    ensures IsPathChar(c) <==> IsWord(c) || c in ".-/"
  {
  }
}
