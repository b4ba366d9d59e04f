/** The comments of both template guards, told by how they are written. */
module CommentTexts {
  import opened Prelude
  import opened TemplateText
  import opened TemplateComments

  predicate IsDash(d: string) {
    d == "" || d == "-"
  }

  /** Opening braces, a trim dash or none, white space, a slash and a star. */
  predicate OpensAs(w: string, dash: string, lead: string) {
    IsDash(dash) && Blank(lead) && w == "{{" + (dash + (lead + "/*"))
  }

  /** A star and a slash, white space, a trim dash or none, closing braces. */
  predicate ClosesAs(w: string, trail: string, dash: string) {
    IsDash(dash) && Blank(trail) && w == "*/" + (trail + (dash + "}}"))
  }

  /** From `i` to `e` a comment is written: opened up to `j`, any text up to `k`, and closed. */
  ghost predicate CommentAt(s: string, i: nat, j: nat, k: nat, e: nat) {
    i <= j <= k <= e <= |s|
    && (exists dash, lead :: OpensAs(s[i..j], dash, lead)) && exists trail, dash :: ClosesAs(s[k..e], trail, dash)
  }

  // -------------------------------------------------------------------- ends

  lemma PairStands(s: string, at: nat, c: char, d: char, pair: string)
    requires pair == [c, d]
    ensures TwoAt(s, at, c, d) <==> StandsAt(s, at, pair)
  {
    if at + 2 <= |s| {
      assert s[at..at + 2] == [s[at], s[at + 1]];
    }
  }

  lemma DashRead(s: string, at: nat, dash: string, rest: string)
    requires at <= |s| && s[at..] == dash + rest && IsDash(dash) && (rest == "" || rest[0] != '-')
    ensures AfterDash(s, at) == at + |dash| && s[at + |dash|..] == rest
  {
    assert dash == "" ==> dash + rest == rest;
    assert at < |s| ==> s[at] == s[at..][0];
  }

  lemma DashAt(s: string, at: nat) returns (dash: string)
    requires at <= |s|
    ensures IsDash(dash) && s[at..] == dash + s[AfterDash(s, at)..] && |dash| == AfterDash(s, at) - at
  {
    dash := if at < |s| && s[at] == '-' then "-" else "";
  }

  lemma CloseText(s: string, k: nat, e: nat, trail: string, dash: string, star: string, braces: string)
    requires k <= e <= |s| && ClosesAs(s[k..e], trail, dash) && star == "*/" && braces == "}}"
    ensures s[k..] == star + (trail + (dash + (braces + s[e..]))) && |s[k..e]| == 4 + |trail| + |dash|
    ensures IsDash(dash) && Blank(trail)
  {
    assert s[k..] == s[k..e] + s[e..];
  }

  /** What closes at `k` closes there only. */
  lemma CloseRead(s: string, k: nat, e: nat, trail: string, dash: string, star: string, braces: string)
    requires k <= e <= |s| && ClosesAs(s[k..e], trail, dash) && star == "*/" && braces == "}}"
    ensures CloseAt(s, k) == Some(e)
  {
    hide *;
    var rest := s[e..];
    CloseText(s, k, e, trail, dash, star, braces);
    BracesStart(dash, rest, braces);
    var a, b := k + 2, k + 2 + |trail|;
    RestBehind(s, k, star, trail + (dash + (braces + rest)));
    SkipIs(s, a, trail, dash + (braces + rest));
    DashRead(s, b, dash, braces + rest);
    RestBehind(s, b + |dash|, braces, rest);
    CloseOfParts(s, k, a, b, b + |dash|, star, braces);
  }

  lemma BracesStart(dash: string, rest: string, braces: string)
    requires IsDash(dash) && braces == "}}"
    ensures (braces + rest)[0] == '}' && !IsSpace((dash + (braces + rest))[0])
  {
    assert dash == "" ==> dash + (braces + rest) == braces + rest;
  }

  lemma CloseOfParts(s: string, k: nat, a: nat, b: nat, m: nat, star: string, braces: string)
    requires star == "*/" && braces == "}}" && StandsAt(s, k, star) && a == k + 2 && b == SkipSpace(s, a)
    requires m == AfterDash(s, b) && StandsAt(s, m, braces)
    ensures CloseAt(s, k) == Some(m + 2)
  {
    PairStands(s, k, '*', '/', star);
    PairStands(s, m, '}', '}', braces);
    hide TwoAt, SkipSpace, AfterDash, StandsAt;
  }

  lemma CloseWritten(s: string, k: nat) returns (trail: string, dash: string)
    requires CloseAt(s, k).Some?
    ensures k <= CloseAt(s, k).value <= |s| && ClosesAs(s[k..CloseAt(s, k).value], trail, dash)
  {
    var a := k + 2;
    var b := SkipSpace(s, a);
    var m := AfterDash(s, b);
    PairStands(s, k, '*', '/', "*/");
    PairStands(s, m, '}', '}', "}}");
    hide TwoAt, SkipSpace, AfterDash, IsSpace, Blank;
    SpaceAt(s, a);
    dash := DashAt(s, b);
    trail := s[a..b];
    ThreePieces(s, k, a, b, m, m + 2, "*/", "}}", dash);
  }

  lemma ThreePieces(s: string, k: nat, a: nat, b: nat, m: nat, e: nat, star: string, braces: string, dash: string)
    requires k <= a <= b <= m <= e <= |s| && StandsAt(s, k, star) && a == k + |star| && StandsAt(s, m, braces) && e == m + |braces|
    requires s[b..] == dash + s[m..] && |dash| == m - b
    ensures s[k..e] == star + (s[a..b] + (dash + braces))
  {
    assert s[b..m] == s[b..][..|dash|] == dash;
    assert s[k..e] == s[k..a] + (s[a..b] + (s[b..m] + s[m..e]));
  }

  // ------------------------------------------------------------------ starts

  /** The position behind the slash and star of a comment that starts at `i`. */
  function OpenAt(s: string, i: nat): Option<nat> {
    if !TwoAt(s, i, '{', '{') then None else
      var j := SkipSpace(s, AfterDash(s, i + 2));
      if TwoAt(s, j, '/', '*') then Some(j + 2) else None
  }

  lemma EndIsClose(s: string, i: nat)
    ensures OpenAt(s, i).Some? ==> OpenAt(s, i).value <= |s| && CommentEnd(s, i) == CloseFrom(s, OpenAt(s, i).value)
    ensures OpenAt(s, i).None? ==> CommentEnd(s, i) == None
  {
  }

  lemma OpenText(s: string, i: nat, j: nat, dash: string, lead: string, braces: string, slash: string)
    requires i <= j <= |s| && OpensAs(s[i..j], dash, lead) && braces == "{{" && slash == "/*"
    ensures s[i..] == braces + (dash + (lead + (slash + s[j..]))) && |s[i..j]| == 4 + |dash| + |lead|
    ensures IsDash(dash) && Blank(lead)
  {
    assert s[i..] == s[i..j] + s[j..];
  }

  lemma OpenRead(s: string, i: nat, j: nat, dash: string, lead: string, braces: string, slash: string)
    requires i <= j <= |s| && OpensAs(s[i..j], dash, lead) && braces == "{{" && slash == "/*"
    ensures OpenAt(s, i) == Some(j)
  {
    hide *;
    OpenText(s, i, j, dash, lead, braces, slash);
    SlashStarts(lead, s[j..], slash);
    OpenFront(s, i, dash, lead + (slash + s[j..]), braces);
    OpenBack(s, i + 2 + |dash|, lead, s[j..], slash);
    OpenOfParts(s, i, i + 2, i + 2 + |dash|, i + 2 + |dash| + |lead|, braces, slash);
  }

  lemma OpenFront(s: string, i: nat, dash: string, rest: string, braces: string)
    requires i <= |s| && s[i..] == braces + (dash + rest) && IsDash(dash) && (rest == "" || rest[0] != '-') && braces == "{{"
    ensures StandsAt(s, i, braces) && i + 2 + |dash| <= |s|
    ensures AfterDash(s, i + 2) == i + 2 + |dash| && s[i + 2 + |dash|..] == rest
  {
    hide *;
    RestBehind(s, i, braces, dash + rest);
    DashRead(s, i + 2, dash, rest);
  }

  lemma OpenBack(s: string, b: nat, lead: string, rest: string, slash: string)
    requires b <= |s| && s[b..] == lead + (slash + rest) && Blank(lead) && slash == "/*"
    ensures SkipSpace(s, b) == b + |lead| && StandsAt(s, b + |lead|, slash)
  {
    hide *;
    SlashStarts(lead, rest, slash);
    SkipIs(s, b, lead, slash + rest);
    RestBehind(s, b + |lead|, slash, rest);
  }

  lemma SlashStarts(lead: string, rest: string, slash: string)
    requires Blank(lead) && slash == "/*"
    ensures !IsSpace((slash + rest)[0]) && (lead + (slash + rest))[0] != '-'
  {
    assert lead == "" ==> lead + (slash + rest) == slash + rest;
  }

  lemma OpenOfParts(s: string, i: nat, a: nat, b: nat, m: nat, braces: string, slash: string)
    requires braces == "{{" && slash == "/*" && StandsAt(s, i, braces) && a == i + 2 && b == AfterDash(s, a)
    requires m == SkipSpace(s, b) && StandsAt(s, m, slash)
    ensures OpenAt(s, i) == Some(m + 2)
  {
    PairStands(s, i, '{', '{', braces);
    PairStands(s, m, '/', '*', slash);
    hide TwoAt, SkipSpace, AfterDash, StandsAt;
  }

  lemma OpenFacts(s: string, i: nat, a: nat, b: nat, m: nat, braces: string, slash: string)
    requires OpenAt(s, i).Some? && braces == "{{" && slash == "/*"
    requires a == i + 2 && a <= |s| && b == AfterDash(s, a) && m == SkipSpace(s, b)
    ensures StandsAt(s, i, braces) && StandsAt(s, m, slash) && OpenAt(s, i) == Some(m + 2)
  {
    hide TwoAt, SkipSpace, AfterDash, StandsAt;
    PairStands(s, i, '{', '{', braces);
    PairStands(s, m, '/', '*', slash);
  }

  lemma OpenInside(s: string, i: nat)
    requires OpenAt(s, i).Some?
    ensures i + 2 <= |s| && OpenAt(s, i).value <= |s|
  {
  }

  lemma OpenWritten(s: string, i: nat, braces: string, slash: string) returns (dash: string, lead: string)
    requires OpenAt(s, i).Some? && braces == "{{" && slash == "/*"
    ensures i <= OpenAt(s, i).value <= |s| && OpensAs(s[i..OpenAt(s, i).value], dash, lead)
  {
    hide *;
    OpenInside(s, i);
    var a := i + 2;
    var b := AfterDash(s, a);
    var m := SkipSpace(s, b);
    OpenFacts(s, i, a, b, m, braces, slash);
    dash := DashAt(s, a);
    SpaceAt(s, b);
    lead := s[b..m];
    OpenPieces(s, i, a, b, m, m + 2, braces, slash, dash);
    OpensAsIs(s[i..m + 2], dash, lead, braces, slash);
  }

  lemma OpensAsIs(w: string, dash: string, lead: string, braces: string, slash: string)
    requires IsDash(dash) && Blank(lead) && braces == "{{" && slash == "/*" && w == braces + (dash + (lead + slash))
    ensures OpensAs(w, dash, lead)
  {
  }

  lemma OpenPieces(s: string, k: nat, a: nat, b: nat, m: nat, e: nat, braces: string, slash: string, dash: string)
    requires k <= a <= b <= m && StandsAt(s, k, braces) && a == k + |braces| && StandsAt(s, m, slash) && e == m + |slash|
    requires s[a..] == dash + s[b..] && |dash| == b - a
    ensures m + |slash| <= |s| && s[k..e] == braces + (dash + (s[b..m] + slash))
  {
    assert s[a..b] == s[a..][..|dash|] == dash;
    assert s[k..e] == s[k..a] + (s[a..b] + (s[b..m] + s[m..e]));
  }

  // ---------------------------------------------------------------- comments

  lemma {:induction false} FirstClose(s: string, from: nat, k: nat)
    requires from <= k <= |s| && CloseAt(s, k).Some?
    ensures CloseFrom(s, from).Some?
    ensures exists first :: from <= first <= k && CloseAt(s, first) == CloseFrom(s, from)
    decreases k - from
  {
    hide CloseAt;
    if from < k && CloseAt(s, from).None? {
      FirstClose(s, from + 1, k);
    }
  }

  lemma {:induction false} CloseIsSomewhere(s: string, from: nat)
    requires from <= |s| && CloseFrom(s, from).Some?
    ensures exists k :: from <= k < |s| && CloseAt(s, k) == CloseFrom(s, from)
    decreases |s| - from
  {
    hide CloseAt;
    if CloseAt(s, from).None? {
      CloseIsSomewhere(s, from + 1);
    }
  }

  /** Two closings do not overlap: one that starts first ends first. */
  lemma ClosesInOrder(s: string, first: nat, k: nat)
    requires first < k && CloseAt(s, first).Some? && CloseAt(s, k).Some?
    ensures CloseAt(s, first).value <= k
  {
    var a := first + 2;
    var b := SkipSpace(s, a);
    var m := AfterDash(s, b);
    assert s[k] == '*' && !IsSpace('*');
    assert forall j :: a <= j < b ==> IsSpace(s[j]);
  }

  /** A comment is found exactly where one is written, and it is the shortest one written there. */
  lemma CommentEndIff(s: string, i: nat, e: nat)
    ensures CommentEnd(s, i) == Some(e) <==>
        && (exists j, k :: CommentAt(s, i, j, k, e))
        && forall j, k, other :: CommentAt(s, i, j, k, other) ==> e <= other
  {
    hide CommentEnd, CommentAt, CloseFrom, CloseAt;
    forall j, k, other | CommentAt(s, i, j, k, other)
      ensures CommentEnd(s, i).Some? && CommentEnd(s, i).value <= other
    {
      WrittenIsFound(s, i, j, k, other);
    }
    if CommentEnd(s, i).Some? {
      var j, k := FoundIsWritten(s, i);
    }
  }

  lemma Unpacked(s: string, i: nat, j: nat, k: nat, e: nat) returns (dash: string, lead: string, trail: string, last: string)
    requires CommentAt(s, i, j, k, e)
    ensures i <= j <= k <= e <= |s| && OpensAs(s[i..j], dash, lead) && ClosesAs(s[k..e], trail, last)
  {
    hide OpensAs, ClosesAs;
    dash, lead :| OpensAs(s[i..j], dash, lead);
    trail, last :| ClosesAs(s[k..e], trail, last);
  }

  lemma WrittenIsFound(s: string, i: nat, j: nat, k: nat, e: nat)
    requires CommentAt(s, i, j, k, e)
    ensures CommentEnd(s, i).Some? && CommentEnd(s, i).value <= e
  {
    hide *;
    var dash, lead, trail, last := Unpacked(s, i, j, k, e);
    OpenRead(s, i, j, dash, lead, "{{", "/*");
    CloseRead(s, k, e, trail, last, "*/", "}}");
    EndIsClose(s, i);
    FirstClose(s, j, k);
    var first :| j <= first <= k && CloseAt(s, first) == CloseFrom(s, j);
    if first < k {
      ClosesInOrder(s, first, k);
    }
  }

  lemma FoundIsWritten(s: string, i: nat) returns (j: nat, k: nat)
    requires CommentEnd(s, i).Some?
    ensures CommentAt(s, i, j, k, CommentEnd(s, i).value)
  {
    hide OpensAs, ClosesAs, CommentEnd, CloseFrom, OpenAt, CloseAt;
    EndIsClose(s, i);
    j := OpenAt(s, i).value;
    var dash, lead := OpenWritten(s, i, "{{", "/*");
    CloseIsSomewhere(s, j);
    k :| j <= k < |s| && CloseAt(s, k) == CloseFrom(s, j);
    var trail, last := CloseWritten(s, k);
  }
}
