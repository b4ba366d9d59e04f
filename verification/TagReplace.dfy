/** scripts/bump-image-digest.py: what a line reads as once the quoted value read from it is replaced, left to right. */
module TagReplace {
  import opened Prelude
  import opened PinText

  /** The replacement, left to right, comes to position `at` with nothing of it consumed. */
  predicate Reached(s: string, at: nat, old_: string)
    requires old_ != ""
    decreases |s|
  {
    if at == 0 then true
    else if s == "" then false
    else if old_ <= s then at >= |old_| && Reached(s[|old_|..], at - |old_|, old_)
    else Reached(s[1..], at - 1, old_)
  }

  /** A new value that ends neither in white space nor in a colon, so that no key can end in it. */
  predicate GoodValue(text: string) {
    text != "" && '"' !in text && !IsSpace(text[|text| - 1]) && text[|text| - 1] != ':'
  }

  predicate PlainKey(key: string) {
    GoodKey(key) && '"' !in key
  }

  /** The text between the quote a text starts with and the next one. */
  function Opened(t: string): Option<string>
    requires t != ""
  {
    var to := NextQuote(t, 1);
    if to < |t| then Some(t[1..to]) else None
  }

  // ------------------------------------------------------------ first quotes

  /** A match has its opening quote where the text has its first. */
  lemma MatchAtFirstQuote(s: string, key: string, f: nat)
    requires PlainKey(key) && f < |s| && s[f] == '"' && '"' !in s[..f] && Match(s, key).Some?
    ensures Match(s, key).value.from == f + 1
  {
    var from := Match(s, key).value.from;
    assert forall k :: 0 <= k < f ==> s[..f][k] == s[k];
    assert forall k :: 0 <= k < |key| ==> s[k] == key[k];
  }

  lemma FirstQuote(s: string) returns (f: nat)
    requires '"' in s
    ensures f < |s| && s[f] == '"' && '"' !in s[..f]
  {
    f := IndexOf(s, '"');
  }

  /** What starts with a quoted text has no quote of that text to split: the next occurrence of one is its end. */
  lemma SharedQuote(s: string, value: string, p: nat)
    requires '"' !in value && Quoted(value) <= s && 0 < p < |Quoted(value)| && s[p] == '"'
    ensures p == |value| + 1
  {
    assert s[p] == Quoted(value)[p];
    assert forall k :: 0 < k <= |value| ==> Quoted(value)[k] == value[k - 1];
  }

  // ---------------------------------------------------- the text that is skipped

  /** No value is found in a quoted good value, or across its end. */
  lemma {:induction false} QuotedIsSkipped(text: string, rest: string, key: string)
    requires PlainKey(key) && (text == "" || GoodValue(text))
    ensures ValueOf(text + (['"'] + rest), key) == ValueOf(rest, key)
  {
    hide Match;
    var s := text + (['"'] + rest);
    if text == "" {
      assert s == ['"'] + rest && s[1..] == rest;
      QuoteIsNoKey(s, key);
      ValueShifts(s, key);
    } else {
      assert s[1..] == text[1..] + (['"'] + rest);
      EndIsNoKey(text, rest, key);
      ValueShifts(s, key);
      QuotedIsSkipped(text[1..], rest, key);
    }
  }

  lemma QuoteIsNoKey(s: string, key: string)
    requires PlainKey(key) && s != "" && s[0] == '"'
    ensures Match(s, key) == None
  {
  }

  lemma EndIsNoKey(text: string, rest: string, key: string)
    requires PlainKey(key) && GoodValue(text)
    ensures Match(text + (['"'] + rest), key) == None
  {
    hide Match, IsMatch;
    var s := text + (['"'] + rest);
    assert s[..|text|] == text && s[|text|] == '"';
    assert s[|text| - 1] == text[|text| - 1];
    if Match(s, key).Some? {
      MatchAtFirstQuote(s, key, |text|);
      MatchEnds(s, key, Match(s, key).value);
    }
  }

  /** In front of a match's opening quote stands white space or the colon. */
  lemma MatchEnds(s: string, key: string, e: Extent)
    requires Match(s, key) == Some(e)
    ensures 2 <= e.from <= |s| && (IsSpace(s[e.from - 2]) || s[e.from - 2] == ':')
  {
    if e.from - 2 > |key| {
      assert IsSpace(s[e.from - 2]);
    }
  }

  lemma SameValue(s: string, e: Extent, n: nat)
    requires n <= e.from <= e.to <= |s|
    ensures s[n..][e.from - n..e.to - n] == s[e.from..e.to]
  {
  }

  lemma ValueShifts(s: string, key: string)
    requires s != "" && Match(s, key) == None
    ensures ValueOf(s, key) == ValueOf(s[1..], key)
    ensures Find(s, key).Some? <==> Find(s[1..], key).Some?
  {
    hide Match;
    if Find(s, key).Some? {
      var e := Find(s, key).value;
      FindTail(s, key, e);
      SameValue(s, e, 1);
    }
  }

  lemma QuotedThen(value: string, rest: string, key: string)
    requires PlainKey(key) && GoodValue(value)
    ensures ValueOf(Quoted(value) + rest, key) == ValueOf(rest, key)
  {
    hide Match;
    var s := Quoted(value) + rest;
    assert s[1..] == value + (['"'] + rest);
    QuoteIsNoKey(s, key);
    ValueShifts(s, key);
    QuotedIsSkipped(value, rest, key);
  }

  /** Text without a quote is copied, whatever quoted text is replaced. */
  lemma {:induction false} PlainIsCopied(head: string, rest: string, old_: string, new_: string)
    requires old_ != "" && old_[0] == '"' && '"' !in head
    ensures ReplaceAll(head + rest, old_, new_) == head + ReplaceAll(rest, old_, new_)
  {
    if head == "" {
      assert head + rest == rest;
    } else {
      var s := head + rest;
      assert s[0] == head[0] && s[1..] == head[1..] + rest;
      PlainIsCopied(head[1..], rest, old_, new_);
      HeadInFront(s, head, ReplaceAll(rest, old_, new_));
    }
  }

  /** A text that starts with a quote still does, once a quoted value is replaced. */
  lemma StartsWithQuote(s: string, value: string, new_: string)
    requires s != "" && s[0] == '"'
    ensures var t := ReplaceAll(s, Quoted(value), Quoted(new_)); t != "" && t[0] == '"'
  {
  }

  // ------------------------------------------------------------ one step of the scan

  /** Replacing makes no match at a place where there was none. */
  lemma StillNoMatch(s: string, key: string, e: Extent, value: string, new_: string)
    requires PlainKey(key) && s != "" && Match(s, key) == None && Find(s, key) == Some(e)
    requires !(Quoted(value) <= s) && '"' !in value
    ensures Match(ReplaceAll(s, Quoted(value), Quoted(new_)), key) == None
  {
    hide Match, IsMatch, Find, Reached;
    var t := ReplaceAll(s, Quoted(value), Quoted(new_));
    assert s[e.from - 1] == '"';
    var f := FirstQuote(s);
    assert f <= e.from - 1;
    if f == 0 {
      StartsWithQuote(s, value, new_);
      QuoteIsNoKey(t, key);
    } else {
      KeptToFirstQuote(s, f, value, new_);
      if Match(t, key).Some? {
        MatchAtFirstQuote(t, key, f);
        SameStartMatches(s, t, key, f, e);
      }
    }
  }

  lemma KeptToFirstQuote(s: string, f: nat, value: string, new_: string)
    requires f < |s| && s[f] == '"' && '"' !in s[..f]
    ensures var t := ReplaceAll(s, Quoted(value), Quoted(new_)); f < |t| && t[f] == '"' && t[..f] == s[..f]
  {
    PlainIsCopied(s[..f], s[f..], Quoted(value), Quoted(new_));
    StartsWithQuote(s[f..], value, new_);
    assert s[..f] + s[f..] == s;
  }

  lemma SameStartMatches(s: string, t: string, key: string, f: nat, e: Extent)
    requires 0 < f <= e.from - 1 && IsValue(s, e.from, e.to) && s[f] == '"' && f < |t| && t[..f] == s[..f] && t[f] == '"'
    requires '"' !in key && Match(t, key).Some? && Match(t, key).value.from == f + 1
    ensures Match(s, key).Some?
  {
    var to := NextQuote(s, f + 1);
    assert forall k :: 0 <= k < f ==> t[k] == t[..f][k] == s[..f][k] == s[k];
    assert f < e.from - 1 ==> to <= e.from - 1;
    MatchIs(s, key, f + 1, to);
  }

  lemma LaterIsNoMatch(s: string, key: string, e: Extent)
    requires Find(s, key) == Some(e) && e.at > 0
    ensures s != "" && Match(s, key) == None
  {
    hide Match;
    FindStart(s, key);
  }

  /** Behind `n` characters without the value's key the value is found as before. */
  lemma {:induction false} FindBehindText(s: string, key: string, e: Extent, n: nat)
    requires Find(s, key) == Some(e) && n <= e.at
    ensures n <= |s| && e.from >= n && e.to >= n && Find(s[n..], key) == Some(Extent(e.at - n, e.from - n, e.to - n))
    decreases n
  {
    hide Match, Find;
    if n == 0 {
      assert s[0..] == s;
    } else {
      LaterIsNoMatch(s, key, e);
      FindTail(s, key, e);
      FindBehindText(s[1..], key, Extent(e.at - 1, e.from - 1, e.to - 1), n - 1);
      assert s[1..][n - 1..] == s[n..];
    }
  }

  /** Between a key and its value's opening quote no quote stands. */
  lemma {:induction false} NoQuoteBetween(s: string, key: string, e: Extent, k: nat)
    requires PlainKey(key) && Find(s, key) == Some(e) && e.at <= k < e.from - 1
    ensures s[k] != '"'
  {
    FindBehindText(s, key, e, e.at);
    var rest := s[e.at..];
    FindStart(rest, key);
    ValueStands(rest, key, Extent(0, e.from - e.at, e.to - e.at));
    assert s[k] == rest[k - e.at];
  }

  lemma ValueStands(s: string, key: string, e: Extent)
    requires PlainKey(key) && Find(s, key) == Some(e) && e.at == 0
    ensures forall k :: 0 <= k < e.from - 1 ==> s[k] != '"'
  {
    hide Match;
    FindStart(s, key);
    if Match(s, key) == None {
      FindTail(s, key, e);
    }
    MatchHasNoQuote(s, key, e);
  }

  lemma MatchHasNoQuote(s: string, key: string, e: Extent)
    requires PlainKey(key) && Match(s, key) == Some(e)
    ensures forall k :: 0 <= k < e.from - 1 ==> s[k] != '"'
  {
    forall k | 0 <= k < e.from - 1
      ensures s[k] != '"'
    {
      assert k < |key| ==> s[k] == key[k];
    }
  }

  // ---------------------------------------------------------- what is read afterwards

  lemma {:induction false} PlainIsReached(s: string, at: nat, old_: string)
    requires old_ != "" && old_[0] == '"' && at <= |s| && '"' !in s[..at]
    ensures Reached(s, at, old_) && NotBefore(s, at, old_)
  {
    if at > 0 {
      assert s[..at][0] == s[0] && s[1..][..at - 1] == s[..at][1..];
      PlainIsReached(s[1..], at - 1, old_);
      assert s[0..] == s;
      assert forall k :: 0 < k < at ==> s[k..] == s[1..][k - 1..];
    }
  }

  lemma MatchIsReplaced(s: string, key: string, e: Extent, new_: string)
    requires PlainKey(key) && Find(s, key) == Some(e) && Match(s, key).Some? && '"' !in new_
    ensures var old_ := Quoted(s[e.from..e.to]);
            Reached(s, e.from - 1, old_) && ValueOf(ReplaceAll(s, old_, Quoted(new_)), key) == Some(new_)
  {
    hide Match, Find, ReplaceAll, Reached;
    FindStart(s, key);
    MatchHasNoQuote(s, key, e);
    assert forall k :: 0 <= k < e.from - 1 ==> s[..e.from - 1][k] == s[k];
    PlainIsReached(s, e.from - 1, Quoted(s[e.from..e.to]));
    FindAfterReplace(s, key, new_);
  }

  lemma CopyAgrees(s: string, e: Extent, value: string, y: string)
    requires '"' !in value && Quoted(value) <= s && e.from == |value| + 2 && y != "" && y[0] == '"'
    ensures |s| > 1 && Agree(s[1..], value + y, e.from - 1)
  {
    assert forall k :: 0 <= k <= |value| ==> s[1..][k] == Quoted(value)[k + 1];
  }

  /** A copy of the value behind which a quote follows: what is read is what that quote opens. */
  lemma CopyReads(s: string, key: string, e: Extent, value: string, y: string)
    requires PlainKey(key) && s != "" && Match(s, key) == None && Find(s, key) == Some(e)
    requires '"' !in value && Quoted(value) <= s && e.from == |value| + 2 && y != "" && y[0] == '"'
    ensures ValueOf(value + y, key) == Opened(y)
  {
    hide Match, Agree, Quoted;
    var t, to := value + y, NextQuote(y, 1);
    if to < |y| {
      hide Find;
      CopyAgrees(s, e, value, y);
      FindTail(s, key, e);
      assert forall k :: 1 <= k < to ==> t[|value| + k] == y[k];
      FindByPrefix(s[1..], key, Extent(e.at - 1, e.from - 1, e.to - 1), t, |value| + to);
      assert t[|value| + 1..|value| + to] == y[1..to];
    } else {
      OneQuote(value, y, key);
    }
  }

  lemma OneQuote(value: string, y: string, key: string)
    requires '"' !in value && y != "" && y[0] == '"' && NextQuote(y, 1) == |y|
    ensures Find(value + y, key) == None
  {
    hide Match, Find;
    var t := value + y;
    assert forall k :: 0 <= k < |t| && t[k] == '"' ==> k == |value|;
  }

  lemma OpeningConsumed(s: string, key: string, e: Extent, value: string, new_: string)
    requires PlainKey(key) && Match(s, key) == None && Find(s, key) == Some(e) && s[e.from..e.to] == value && GoodValue(new_)
    requires Quoted(value) <= s && e.from == |Quoted(value)|
    ensures ValueOf(ReplaceAll(s, Quoted(value), Quoted(new_)), key)
              == Opened(ReplaceAll(s[e.to..], Quoted(value), Quoted(new_)))
  {
    hide Match, Find, Opened, Reached;
    var old_, renewed := Quoted(value), Quoted(new_);
    var y := ReplaceAll(s[e.to..], old_, renewed);
    assert s[|old_|..] == value + s[e.to..];
    StartsWithQuote(s[e.to..], value, new_);
    PlainIsCopied(value, s[e.to..], old_, renewed);
    QuotedThen(new_, value + y, key);
    CopyReads(s, key, e, value, y);
  }

  lemma NoEarlierQuote(s: string, key: string, e: Extent, n: nat)
    requires PlainKey(key) && Find(s, key) == Some(e) && 0 < n <= e.from - 1 && s[n - 1] == '"'
    ensures n <= e.at
  {
    if e.at <= n - 1 {
      NoQuoteBetween(s, key, e, n - 1);
    }
  }

  /** What is read once `value` is replaced: the new value, or what the closing quote of the old one now opens. */
  ghost predicate Reads(s: string, key: string, e: Extent, value: string, new_: string)
    requires 1 <= e.from <= e.to < |s|
  {
    ValueOf(ReplaceAll(s, Quoted(value), Quoted(new_)), key) ==
      if Reached(s, e.from - 1, Quoted(value)) then Some(new_)
      else OpenedAfter(s, e, value, new_)
  }

  function OpenedAfter(s: string, e: Extent, value: string, new_: string): Option<string>
    requires e.to < |s|
  {
    var t := ReplaceAll(s[e.to..], Quoted(value), Quoted(new_));
    if t == "" then None else Opened(t)
  }

  function Back(e: Extent, n: nat): Extent
    requires n <= e.at && n <= e.from && n <= e.to
  {
    Extent(e.at - n, e.from - n, e.to - n)
  }

  lemma ReadsBehindOccurrence(s: string, key: string, e: Extent, value: string, new_: string)
    requires PlainKey(key) && GoodValue(new_) && Quoted(value) <= s
    requires var n := |Quoted(value)|; n <= e.at <= e.from - 1 && e.from <= e.to < |s| && n < e.from
    requires Reads(s[|Quoted(value)|..], key, Back(e, |Quoted(value)|), value, new_)
    ensures Reads(s, key, e, value, new_)
  {
    hide ValueOf, Opened;
    var n := |Quoted(value)|;
    assert s[n..][e.to - n..] == s[e.to..];
    QuotedThen(new_, ReplaceAll(s[n..], Quoted(value), Quoted(new_)), key);
  }

  lemma ReadsBehindChar(s: string, key: string, e: Extent, value: string, new_: string)
    requires PlainKey(key) && s != "" && Match(s, key) == None && Find(s, key) == Some(e)
    requires !(Quoted(value) <= s) && '"' !in value && e.at >= 1 && e.from >= 2
    requires Reads(s[1..], key, Back(e, 1), value, new_)
    ensures Reads(s, key, e, value, new_)
  {
    hide ValueOf, Opened, Match, Find;
    var t := ReplaceAll(s, Quoted(value), Quoted(new_));
    assert s[1..][e.to - 1..] == s[e.to..];
    StillNoMatch(s, key, e, value, new_);
    ValueShifts(t, key);
    assert t[1..] == ReplaceAll(s[1..], Quoted(value), Quoted(new_));
  }

  lemma ReadsAtOpening(s: string, key: string, e: Extent, value: string, new_: string)
    requires PlainKey(key) && Match(s, key) == None && Find(s, key) == Some(e) && s[e.from..e.to] == value && GoodValue(new_)
    requires Quoted(value) <= s && e.from == |Quoted(value)|
    ensures Reads(s, key, e, value, new_)
  {
    hide ValueOf, Opened, Match, Find;
    StartsWithQuote(s[e.to..], value, new_);
    OpeningConsumed(s, key, e, value, new_);
  }

  /**
   * What is read from a line whose quoted value was replaced, wherever else it stands: the new value if the replacement comes
   * to the place the old one was read from. If it does not, an earlier occurrence has taken that place's opening quote, and
   * what is read is what its closing quote now opens.
   */
  lemma {:induction false} ReplacedReads(s: string, key: string, e: Extent, value: string, new_: string)
    requires PlainKey(key) && Find(s, key) == Some(e) && s[e.from..e.to] == value && GoodValue(new_)
    ensures Reads(s, key, e, value, new_)
    decreases |s|, 1
  {
    hide Match, Find, Reads, ReplaceAll, Reached, GoodKey, Quoted;
    FindStart(s, key);
    if Match(s, key).Some? {
      MatchIsReplaced(s, key, e, new_);
      ReadsAtMatch(s, key, e, value, new_);
    } else if Quoted(value) <= s {
      ReadsFromOccurrence(s, key, e, value, new_);
    } else {
      FindTail(s, key, e);
      SameValue(s, e, 1);
      ReplacedReads(s[1..], key, Back(e, 1), value, new_);
      ReadsBehindChar(s, key, e, value, new_);
    }
  }

  lemma {:induction false} ReadsFromOccurrence(s: string, key: string, e: Extent, value: string, new_: string)
    requires PlainKey(key) && Match(s, key) == None && Find(s, key) == Some(e) && s[e.from..e.to] == value && GoodValue(new_)
    requires Quoted(value) <= s
    ensures Reads(s, key, e, value, new_)
    decreases |s|, 0
  {
    hide Match, Find, Reads, ReplaceAll, Reached, GoodKey, Quoted;
    var n := |Quoted(value)|;
    QuotedEnd(s, value);
    if n <= e.from - 1 {
      NoEarlierQuote(s, key, e, n);
      FindBehindText(s, key, e, n);
      SameValue(s, e, n);
      ReplacedReads(s[n..], key, Back(e, n), value, new_);
      ReadsBehindOccurrence(s, key, e, value, new_);
    } else {
      SharedQuote(s, value, e.from - 1);
      ReadsAtOpening(s, key, e, value, new_);
    }
  }

  lemma QuotedEnd(s: string, value: string)
    requires Quoted(value) <= s
    ensures |Quoted(value)| == |value| + 2 <= |s| && s[|Quoted(value)| - 1] == '"'
  {
    assert s[|Quoted(value)| - 1] == Quoted(value)[|Quoted(value)| - 1];
  }

  lemma ReadsAtMatch(s: string, key: string, e: Extent, value: string, new_: string)
    requires 1 <= e.from <= e.to < |s| && s[e.from..e.to] == value
    requires Reached(s, e.from - 1, Quoted(value)) && ValueOf(ReplaceAll(s, Quoted(value), Quoted(new_)), key) == Some(new_)
    ensures Reads(s, key, e, value, new_)
  {
  }

  lemma NextQuoteIs(s: string, i: nat, r: nat)
    requires i <= r <= |s| && (r < |s| ==> s[r] == '"') && forall k :: i <= k < r ==> s[k] != '"'
    ensures NextQuote(s, i) == r
  {
  }

  /** That text, read off the line: the new value if the old one stands there again, else what stands there. */
  lemma OpenedReads(s: string, value: string, new_: string)
    requires s != "" && s[0] == '"' && '"' !in new_
    ensures var t := ReplaceAll(s, Quoted(value), Quoted(new_));
            t != "" && Opened(t) == if Quoted(value) <= s then Some(new_) else Opened(s)
  {
    var t := ReplaceAll(s, Quoted(value), Quoted(new_));
    if Quoted(value) <= s {
      assert t[1..|new_| + 1] == new_ && t[|new_| + 1] == '"';
      assert forall k :: 1 <= k < |new_| + 1 ==> t[k] == new_[k - 1];
      NextQuoteIs(t, 1, |new_| + 1);
    } else {
      OpenedIsKept(s, value, new_);
    }
  }

  /** Behind an opening quote two texts that agree up to their first quote read alike. */
  lemma OpenedBehind(x: string, y: string, f: nat)
    requires f < |x| && f < |y| && x[..f] == y[..f] && x[f] == y[f] == '"' && '"' !in x[..f]
    ensures Opened(['"'] + x) == Opened(['"'] + y)
  {
    var s, t := ['"'] + x, ['"'] + y;
    assert forall k :: 0 <= k < f ==> y[k] == y[..f][k] == x[..f][k] == x[k];
    assert forall k :: 1 <= k < f + 1 ==> t[k] == y[k - 1] && s[k] == x[k - 1];
    NextQuoteIs(s, 1, f + 1);
    NextQuoteIs(t, 1, f + 1);
    assert t[1..f + 1] == s[1..f + 1];
  }

  lemma OpenedIsKept(s: string, value: string, new_: string)
    requires s != "" && s[0] == '"' && !(Quoted(value) <= s)
    ensures var t := ReplaceAll(s, Quoted(value), Quoted(new_)); t != "" && Opened(t) == Opened(s)
  {
    var t, rest := ReplaceAll(s, Quoted(value), Quoted(new_)), s[1..];
    assert t == [s[0]] + ReplaceAll(rest, Quoted(value), Quoted(new_));
    hide ReplaceAll, Quoted;
    if '"' in rest {
      var f := FirstQuote(rest);
      KeptToFirstQuote(rest, f, value, new_);
      OpenedBehind(rest, ReplaceAll(rest, Quoted(value), Quoted(new_)), f);
      assert s == ['"'] + rest;
    } else {
      PlainIsCopied(rest, "", Quoted(value), Quoted(new_));
      NothingIsCopied(Quoted(value), Quoted(new_));
      assert rest + "" == rest && t == s;
    }
  }

  lemma NothingIsCopied(old_: string, new_: string)
    requires old_ != ""
    ensures ReplaceAll("", old_, new_) == ""
  {
  }
}
