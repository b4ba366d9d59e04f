/** What an action starts with, told by how it is written: a trim dash or none, white space, a word, and the rest. */
module ActionWords {
  import opened Prelude
  import opened TemplateText
  import O = OrphanTemplates
  import H = HelperDocs
  import F = FirstWords

  /** Behind a trim dash and white space, if any, the action starts with `word`, and `behind` follows. */
  ghost predicate Begins(raw: string, word: string, behind: string) {
    exists dash, lead :: StartsAs(raw, dash, lead, word, behind)
  }

  predicate StartsAs(raw: string, dash: string, lead: string, word: string, behind: string) {
    (dash == "" || dash == "-") && Blank(lead) && raw == dash + (lead + (word + behind))
  }

  /** A word that starts with neither white space nor a dash, and does not end in a dash. */
  predicate IsPlainWord(word: string) {
    word != "" && !IsSpace(word[0]) && word[0] != '-' && word[|word| - 1] != '-'
  }

  // ------------------------------------------------------------ white space

  lemma {:induction false} LStripBehind(lead: string, rest: string)
    requires Blank(lead) && (rest == "" || !IsSpace(rest[0]))
    ensures LStrip(lead + rest) == rest
  {
    if lead == "" {
      assert lead + rest == rest;
    } else {
      assert (lead + rest)[1..] == lead[1..] + rest;
      LStripBehind(lead[1..], rest);
    }
  }

  lemma {:induction false} LStripSplits(s: string) returns (lead: string)
    ensures Blank(lead) && s == lead + LStrip(s) && (LStrip(s) == "" || !IsSpace(LStrip(s)[0]))
    ensures LStrip(s) != s ==> lead != ""
  {
    lead := "";
    if s != "" && IsSpace(s[0]) {
      var more := LStripSplits(s[1..]);
      lead := [s[0]] + more;
      assert s == [s[0]] + s[1..];
      assert lead + LStrip(s) == [s[0]] + (more + LStrip(s));
    } else {
      assert lead + s == s;
    }
  }

  // ------------------------------------------------------- the text inside

  /** Inside the braces the word stands in front; a trim dash at the end is dropped from what follows it. */
  lemma InnerOfWord(raw: string, word: string, behind: string)
    requires IsPlainWord(word) && Begins(raw, word, behind)
    ensures LStrip(Inner(raw)) == word + DropLastDash(behind)
  {
    var dash, lead :| StartsAs(raw, dash, lead, word, behind);
    var text := lead + (word + behind);
    assert text[0] == if lead == "" then word[0] else lead[0];
    assert raw[Dash(raw)..] == text;
    DropsBehind(lead, word, behind);
    LStripBehind(lead, word + DropLastDash(behind));
  }

  lemma DropsBehind(lead: string, word: string, behind: string)
    requires IsPlainWord(word)
    ensures DropLastDash(lead + (word + behind)) == lead + (word + DropLastDash(behind))
  {
    var text := lead + (word + behind);
    if behind == "" {
      assert text == lead + word && text[|text| - 1] == word[|word| - 1];
    } else {
      assert text[|text| - 1] == behind[|behind| - 1];
      assert text[..|text| - 1] == lead + (word + behind[..|behind| - 1]);
    }
  }

  lemma Undropped(text: string)
    ensures text == DropLastDash(text) || text == DropLastDash(text) + "-"
  {
  }

  lemma DropsItsDash(rest: string)
    ensures DropLastDash(rest + "-") == rest
  {
    assert (rest + "-")[..|rest|] == rest;
  }

  /** And whatever stands in front inside the braces stands in front of the action. */
  lemma WordOfInner(raw: string, word: string, rest: string) returns (behind: string)
    requires word != "" && LStrip(Inner(raw)) == word + rest
    ensures Begins(raw, word, behind) && rest == DropLastDash(behind)
  {
    var dash, text := raw[..Dash(raw)], raw[Dash(raw)..];
    var lead := LStripSplits(Inner(raw));
    assert raw == dash + text && (dash == "" || dash == "-");
    behind := WordOfText(text, lead, word, rest);
    assert StartsAs(raw, dash, lead, word, behind);
  }

  lemma WordOfText(text: string, lead: string, word: string, rest: string) returns (behind: string)
    requires word != "" && DropLastDash(text) == lead + (word + rest)
    ensures text == lead + (word + behind) && rest == DropLastDash(behind)
  {
    Undropped(text);
    if text == DropLastDash(text) {
      behind := rest;
      if rest != "" {
        assert text[|text| - 1] == rest[|rest| - 1];
      }
    } else {
      behind := rest + "-";
      DropsItsDash(rest);
      assert lead + (word + rest) + "-" == lead + (word + (rest + "-"));
    }
  }

  // ------------------------------------------------------------------- names

  /** The action says `define`, white space, and the name in quotes. */
  ghost predicate DefinesName(raw: string, n: string) {
    n != "" && '"' !in n && exists gap, behind :: Quotes(raw, gap, n, behind)
  }

  ghost predicate Quotes(raw: string, gap: string, n: string, behind: string) {
    gap != "" && Blank(gap) && Begins(raw, "define", AsQuoted(gap, n, behind))
  }

  function AsQuoted(gap: string, n: string, behind: string): string {
    gap + ("\"" + (n + ("\"" + behind)))
  }

  lemma QuotedName(inner: string, word: string, gap: string, n: string, behind: string)
    requires word == "define" && LStrip(inner) == word + AsQuoted(gap, n, behind)
    requires gap != "" && Blank(gap) && n != "" && '"' !in n
    ensures DefineName(inner) == Some(n)
  {
    var tail := n + ("\"" + behind);
    var quoted := "\"" + tail;
    assert LStrip(inner)[|word|..] == gap + quoted;
    LStripBehind(gap, quoted);
    assert quoted[1..] == tail;
    NextQuoteIs(n, behind, tail);
  }

  lemma NextQuoteIs(n: string, behind: string, tail: string)
    requires '"' !in n && tail == n + ("\"" + behind)
    ensures IndexOf(tail, '"') == |n| < |tail| && tail[..|n|] == n
  {
    var i := IndexOf(tail, '"');
    assert tail[|n|] == '"';
    assert forall k :: 0 <= k < |n| ==> tail[k] == n[k];
    assert forall k :: 0 <= k < i ==> tail[..i][k] == tail[k];
  }

  lemma DropsBehindQuote(gap: string, n: string, behind: string)
    ensures DropLastDash(AsQuoted(gap, n, behind)) == AsQuoted(gap, n, DropLastDash(behind))
  {
    var front, text := gap + ("\"" + (n + "\"")), AsQuoted(gap, n, behind);
    assert text == front + behind;
    if behind == "" {
      assert text[|text| - 1] == '"';
    } else {
      assert text[|text| - 1] == behind[|behind| - 1];
      assert text[..|text| - 1] == front + behind[..|behind| - 1];
    }
  }

  lemma UndroppedQuote(gap: string, n: string, rest: string, behind: string)
    requires DropLastDash(behind) == AsQuoted(gap, n, rest)
    ensures behind == AsQuoted(gap, n, rest) || behind == AsQuoted(gap, n, rest + "-")
  {
    Undropped(behind);
    assert AsQuoted(gap, n, rest) + "-" == AsQuoted(gap, n, rest + "-");
  }

  lemma DefineParts(inner: string, word: string)
    requires word == "define" && DefineName(inner).Some?
    ensures word <= LStrip(inner)
    ensures var rest := LStrip(inner)[|word|..];
            var quoted := LStrip(rest);
            && quoted != rest && quoted != "" && quoted[0] == '"'
            && 0 < IndexOf(quoted[1..], '"') < |quoted[1..]|
            && DefineName(inner) == Some(quoted[1..][..IndexOf(quoted[1..], '"')])
  {
    hide LStrip, IndexOf;
  }

  lemma UpToQuote(tail: string, i: nat)
    requires i == IndexOf(tail, '"') && 0 < i < |tail|
    ensures tail == tail[..i] + ("\"" + tail[i + 1..]) && tail[..i] != "" && '"' !in tail[..i]
  {
    var at := IndexOf(tail, '"');
    hide IndexOf;
    CutAt(tail, i);
  }

  lemma CutAt(s: string, i: nat)
    requires i < |s| && s[i] == '"'
    ensures s == s[..i] + ("\"" + s[i + 1..])
  {
  }

  lemma NameIsQuoted(inner: string, word: string, n: string) returns (gap: string, behind: string)
    requires word == "define" && DefineName(inner) == Some(n)
    ensures LStrip(inner) == word + AsQuoted(gap, n, behind) && gap != "" && Blank(gap) && n != "" && '"' !in n
  {
    hide *;
    DefineParts(inner, word);
    var rest := LStrip(inner)[|word|..];
    gap := LStripSplits(rest);
    var quoted := LStrip(rest);
    var i := IndexOf(quoted[1..], '"');
    UpToQuote(quoted[1..], i);
    behind := quoted[1..][i + 1..];
    NameJoins(LStrip(inner), word, rest, gap, quoted, n, behind);
  }

  lemma NameJoins(s: string, word: string, rest: string, gap: string, quoted: string, n: string, behind: string)
    requires word <= s && rest == s[|word|..] && rest == gap + quoted && quoted != "" && quoted[0] == '"'
    requires quoted[1..] == n + ("\"" + behind)
    ensures s == word + AsQuoted(gap, n, behind)
  {
    assert quoted == "\"" + quoted[1..];
  }

  /** A name is read exactly where `define` and a quoted name stand in front, and it is that name, whole. */
  lemma NameInIff(raw: string, n: string)
    ensures NameIn(raw) == Some(n) <==> DefinesName(raw, n)
  {
    var word := "define";
    hide LStrip, DropLastDash, Inner, Begins, AsQuoted, DefineName;
    if DefinesName(raw, n) {
      var gap, behind :| Quotes(raw, gap, n, behind);
      InnerOfWord(raw, word, AsQuoted(gap, n, behind));
      DropsBehindQuote(gap, n, behind);
      QuotedName(Inner(raw), word, gap, n, DropLastDash(behind));
    }
    if NameIn(raw) == Some(n) {
      var gap, rest := NameIsQuoted(Inner(raw), word, n);
      var behind := WordOfInner(raw, word, AsQuoted(gap, n, rest));
      UndroppedQuote(gap, n, rest, behind);
      assert Quotes(raw, gap, n, rest) || Quotes(raw, gap, n, rest + "-");
    }
  }

  // ---------------------------------------------------------------- keywords

  predicate IsOpener(word: string) {
    word == "if" || word == "range" || word == "with" || word == "define" || word == "block"
  }

  lemma OpenersAre(word: string)
    ensures word in OPENS <==> IsOpener(word)
    ensures IsOpener(word) || word == "end" ==> IsPlainWord(word) && forall k :: 0 <= k < |word| ==> !IsSpace(word[k])
  {
    assert OPENS[0] == "if" && OPENS[1] == "range" && OPENS[2] == "with" && OPENS[3] == "define" && OPENS[4] == "block";
  }

  /** The action starts with one of the five words that open a block, and the word ends there. */
  ghost predicate OpensByKeyword(raw: string) {
    exists word, behind :: IsOpener(word) && Begins(raw, word, behind) && (behind == "" || !IsWord(behind[0]))
  }

  ghost predicate OpensByFirstWord(raw: string) {
    exists word, behind :: IsOpener(word) && Begins(raw, word, behind) && Spaced(behind)
  }

  /** Behind the word comes white space, or the action's end. */
  predicate Spaced(behind: string) {
    behind == "" || behind == "-" || IsSpace(behind[0])
  }

  /** `end`, and a trim dash or white space at most. */
  ghost predicate IsEnd(raw: string) {
    exists behind :: Begins(raw, "end", behind) && Blank(DropLastDash(behind))
  }

  ghost predicate EndsByFirstWord(raw: string) {
    exists behind :: Begins(raw, "end", behind) && Spaced(behind)
  }

  lemma BoundaryKept(behind: string)
    ensures var rest := DropLastDash(behind);
            && ((behind == "" || !IsWord(behind[0])) <==> (rest == "" || !IsWord(rest[0])))
            && (Spaced(behind) <==> rest == "" || IsSpace(rest[0]))
  {
  }

  /** A word in front inside the braces is a word in front of the action. */
  lemma WordInFrontIff(raw: string, word: string)
    requires IsPlainWord(word)
    ensures word <= LStrip(Inner(raw)) <==> exists behind :: Begins(raw, word, behind)
    ensures forall behind :: Begins(raw, word, behind) ==> LStrip(Inner(raw)) == word + DropLastDash(behind)
  {
    var s := LStrip(Inner(raw));
    forall behind | Begins(raw, word, behind)
      ensures s == word + DropLastDash(behind)
    {
      InnerOfWord(raw, word, behind);
    }
    if word <= s {
      assert s == word + s[|word|..];
      var behind := WordOfInner(raw, word, s[|word|..]);
    }
  }

  lemma StartsWordIff(raw: string, word: string)
    requires IsPlainWord(word)
    ensures H.StartsWord(LStrip(Inner(raw)), word) <==>
        exists behind :: Begins(raw, word, behind) && (behind == "" || !IsWord(behind[0]))
  {
    hide Begins, LStrip, Inner, DropLastDash, IsWord;
    WordInFrontIff(raw, word);
    forall behind | Begins(raw, word, behind)
      ensures H.StartsWord(LStrip(Inner(raw)), word) <==> behind == "" || !IsWord(behind[0])
    {
      BoundaryKept(behind);
    }
  }

  lemma FirstWordIff(raw: string, word: string)
    requires IsPlainWord(word) && forall k :: 0 <= k < |word| ==> !IsSpace(word[k])
    ensures Head(Inner(raw)) == word <==> exists behind :: Begins(raw, word, behind) && Spaced(behind)
  {
    hide Begins, LStrip, Inner, DropLastDash, FirstWord, Spaced;
    var s := LStrip(Inner(raw));
    WordInFrontIff(raw, word);
    F.FirstWordBegins(s);
    forall behind | Begins(raw, word, behind)
      ensures FirstWord(s) == word <==> Spaced(behind)
    {
      BoundaryKept(behind);
      FirstWordOf(word, DropLastDash(behind));
    }
  }

  lemma FirstWordOf(word: string, rest: string)
    requires word != "" && forall k :: 0 <= k < |word| ==> !IsSpace(word[k])
    ensures FirstWord(word + rest) == word <==> rest == "" || IsSpace(rest[0])
  {
    F.FirstWordBegins(word + rest);
    if rest == "" || IsSpace(rest[0]) {
      WordEnds(word, rest);
    }
  }

  lemma StripsToEnd(s: string, word: string)
    requires word == "end"
    ensures RStrip(s) == word <==> word <= s && Blank(s[|word|..])
  {
    F.OnlySpaceIsStripped(s);
    if word <= s && Blank(s[|word|..]) {
      assert s == word + s[|word|..];
      RStripBehind(word, s[|word|..]);
    }
  }

  lemma IsEndIff(raw: string, word: string)
    requires word == "end"
    ensures Strip(Inner(raw)) == word <==> IsEnd(raw)
  {
    hide Begins, LStrip, Inner, DropLastDash, RStrip;
    var s := LStrip(Inner(raw));
    OpenersAre(word);
    WordInFrontIff(raw, word);
    StripsToEnd(s, word);
    forall behind | Begins(raw, word, behind)
      ensures Blank(s[|word|..]) <==> Blank(DropLastDash(behind))
    {
      assert s[|word|..] == DropLastDash(behind);
    }
  }

  lemma EndIsNoOpener(s: string, word: string)
    requires IsOpener(word) && word <= s
    ensures !("end" <= s)
  {
    assert s[0] == word[0] && word[0] != 'e';
  }

  /** What the keyword parser takes an action for, told by how the action is written. */
  lemma KeywordKindIs(raw: string)
    ensures H.KeywordKind(raw) == Opens <==> OpensByKeyword(raw)
    ensures H.KeywordKind(raw) == Closes <==> IsEnd(raw)
  {
    hide Begins, LStrip, Inner, DropLastDash, RStrip, H.StartsWord, IsEnd, IsOpener;
    var s := LStrip(Inner(raw));
    forall word | IsOpener(word)
      ensures word in OPENS
      ensures H.StartsWord(s, word) <==> exists behind :: Begins(raw, word, behind) && (behind == "" || !IsWord(behind[0]))
    {
      OpenersAre(word);
      StartsWordIff(raw, word);
    }
    forall word | word in OPENS
      ensures IsOpener(word)
      ensures H.StartsWord(s, word) ==> Strip(Inner(raw)) != "end"
    {
      OpenersAre(word);
      OpenerIsNotStripped(raw, word);
    }
    IsEndIff(raw, "end");
  }

  lemma OpenerIsNotStripped(raw: string, word: string)
    requires IsOpener(word)
    ensures H.StartsWord(LStrip(Inner(raw)), word) ==> Strip(Inner(raw)) != "end"
  {
    hide LStrip, Inner, RStrip;
    var s := LStrip(Inner(raw));
    if word <= s {
      EndIsNoOpener(s, word);
      StripsToEnd(s, "end");
    }
  }

  /** And what the first-word parser takes it for. */
  lemma HeadKindIs(raw: string)
    ensures O.HeadKind(raw) == Opens <==> OpensByFirstWord(raw)
    ensures O.HeadKind(raw) == Closes <==> EndsByFirstWord(raw)
  {
    hide Begins, Head, Inner, IsOpener, Spaced;
    OpenersAre("end");
    FirstWordIff(raw, "end");
    forall word
      ensures word in OPENS <==> IsOpener(word)
      ensures IsOpener(word) ==> (Head(Inner(raw)) == word <==> exists behind :: Begins(raw, word, behind) && Spaced(behind))
    {
      OpenersAre(word);
      if IsOpener(word) {
        FirstWordIff(raw, word);
      }
    }
    assert !IsOpener("end") by {
      EndOpensNothing("end");
    }
  }

  lemma EndOpensNothing(word: string)
    requires word == "end"
    ensures !IsOpener(word)
  {
    assert word[0] == 'e';
  }
}
