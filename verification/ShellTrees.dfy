/** scripts/check-no-secret-argv.py: where a substitution ends, and which bodies a nested command line gives back. */
module ShellTrees {
  import opened Prelude
  import opened ShellLexer
  import opened SecretArgv

  // ------------------------------------------------------------ parentheses

  /** How many more parentheses the text opens than it closes. */
  function Level(s: string): int {
    if s == "" then 0 else
      var last := s[|s| - 1];
      Level(s[..|s| - 1]) + (if last == '(' then 1 else if last == ')' then -1 else 0)
  }

  /** No prefix closes more parentheses than it opens. */
  ghost predicate NeverBelow(s: string) {
    forall k :: 0 <= k <= |s| ==> Level(s[..k]) >= 0
  }

  ghost predicate Balanced(s: string) {
    NeverBelow(s) && Level(s) == 0
  }

  lemma {:induction false} LevelInTurn(a: string, b: string)
    ensures Level(a + b) == Level(a) + Level(b)
  {
    if b == "" {
      assert a + b == a;
    } else {
      assert (a + b)[..|a + b| - 1] == a + b[..|b| - 1];
      LevelInTurn(a, b[..|b| - 1]);
    }
  }

  lemma LevelOfChar(c: char)
    ensures Level([c]) == if c == '(' then 1 else if c == ')' then -1 else 0
  {
    assert [c][..0] == "";
  }

  lemma LevelStep(code: string, j: nat, k: nat)
    requires j < k <= |code|
    ensures Level(code[j..k]) == Level([code[j]]) + Level(code[j + 1..k])
  {
    assert code[j..k] == [code[j]] + code[j + 1..k];
    LevelInTurn([code[j]], code[j + 1..k]);
  }

  /** The end comes right behind the first parenthesis that closes the open ones; without one it is the end of the text. */
  lemma {:induction false} ClosesFirst(code: string, j: nat, depth: nat)
    requires j <= |code| && depth > 0
    ensures var end := CloseAt(code, j, depth);
            && (forall k :: j <= k < end ==> depth + Level(code[j..k]) > 0)
            && (if depth + Level(code[j..end]) == 0 then j < end && code[end - 1] == ')'
                else end == |code| && depth + Level(code[j..end]) > 0)
    decreases |code| - j
  {
    var end := CloseAt(code, j, depth);
    assert code[j..j] == "";
    if j < |code| {
      LevelOfChar(code[j]);
      var next := depth + Level([code[j]]);
      forall k | j < k <= |code|
        ensures depth + Level(code[j..k]) == next + Level(code[j + 1..k])
      {
        LevelStep(code, j, k);
      }
      if next == 0 {
        assert CloseAt(code, j + 1, 0) == j + 1 && code[j + 1..j + 1] == "";
      } else {
        ClosesFirst(code, j + 1, next);
      }
    }
  }

  /** Up to the next one no substitution starts. */
  lemma {:induction false} NextSubIsFirst(code: string, i: nat)
    requires i <= |code|
    ensures forall k :: i <= k < NextSub(code, i) && k + 1 < |code| ==> !(code[k] == '$' && code[k + 1] == '(')
    decreases |code| - i
  {
    if i + 2 <= |code| && !(code[i] == '$' && code[i + 1] == '(') {
      NextSubIsFirst(code, i + 1);
    }
  }

  /** A substitution starts at `at`, and its body is `body`: balanced, with a parenthesis behind that closes it. */
  ghost predicate IsClosed(code: string, at: nat, body: string) {
    at + |body| + 3 <= |code| && code[at] == '$' && code[at + 1] == '('
    && code[at + 2..at + 2 + |body|] == body && Balanced(body) && code[at + 2 + |body|] == ')'
  }

  /** It starts there and nothing closes it. */
  ghost predicate IsOpen(code: string, at: nat) {
    at + 2 <= |code| && code[at] == '$' && code[at + 1] == '(' && NeverBelow(code[at + 2..])
  }

  lemma LevelsInside(code: string, j: nat, end: nat)
    requires j <= end <= |code| && forall k :: j <= k < end ==> 1 + Level(code[j..k]) > 0
    ensures forall k :: 0 <= k < end - j ==> Level(code[j..end][..k]) >= 0
  {
    forall k | 0 <= k < end - j
      ensures Level(code[j..end][..k]) >= 0
    {
      assert code[j..end][..k] == code[j..j + k];
    }
  }

  /**
   * The scan, for any text: it goes to the next "$(", takes its body, and goes on behind its parenthesis. The body is the
   * balanced text in between. What nothing closes is taken to the end of the text, but for the last character.
   */
  lemma FirstSubstitution(code: string, i: nat)
    requires i <= |code|
    ensures (forall k :: i <= k && k + 1 < |code| ==> !(code[k] == '$' && code[k + 1] == '(')) ==> SubstitutionsFrom(code, i) == []
    ensures forall at: nat, body :: i <= at && IsClosed(code, at, body) && NoSubBefore(code, i, at) ==>
        SubstitutionsFrom(code, i) == [body] + SubstitutionsFrom(code, at + |body| + 3)
    ensures forall at: nat :: i <= at && IsOpen(code, at) && NoSubBefore(code, i, at) ==>
        SubstitutionsFrom(code, i) == [Slice(code, at + 2, |code| - 1)]
  {
    hide NextSub, CloseAt, Slice, Balanced, NeverBelow;
    NextSubIsFirst(code, i);
    forall at: nat, body | i <= at && IsClosed(code, at, body) && NoSubBefore(code, i, at)
      ensures SubstitutionsFrom(code, i) == [body] + SubstitutionsFrom(code, at + |body| + 3)
    {
      ClosedIsTaken(code, i, at, body);
    }
    forall at: nat | i <= at && IsOpen(code, at) && NoSubBefore(code, i, at)
      ensures SubstitutionsFrom(code, i) == [Slice(code, at + 2, |code| - 1)]
    {
      OpenIsTaken(code, i, at);
    }
  }

  predicate NoSubBefore(code: string, i: nat, at: nat) {
    forall k :: i <= k < at && k + 1 < |code| ==> !(code[k] == '$' && code[k + 1] == '(')
  }

  lemma NextSubIs(code: string, i: nat, at: nat)
    requires i <= at && at + 2 <= |code| && code[at] == '$' && code[at + 1] == '(' && NoSubBefore(code, i, at)
    ensures NextSub(code, i) == at
  {
    NextSubIsFirst(code, i);
  }

  lemma LevelBehind(code: string, j: nat, body: string, k: nat)
    requires StandsAt(code, j, body) && Balanced(body) && j <= k <= j + |body|
    ensures Level(code[j..k]) >= 0
  {
    hide Level;
    assert code[j..k] == code[j..j + |body|][..k - j];
  }

  lemma EndsBehind(code: string, j: nat, body: string)
    requires StandsAt(code, j, body) && Balanced(body) && j + |body| < |code| && code[j + |body|] == ')'
    ensures CloseAt(code, j, 1) == j + |body| + 1
  {
    hide CloseAt, Level, Balanced;
    var end, found := j + |body| + 1, CloseAt(code, j, 1);
    ClosesFirst(code, j, 1);
    assert code[j..end] == body + ")";
    LevelInTurn(body, ")");
    LevelOfChar(')');
    assert Level(body) == 0 by {
      ZeroLevel(body);
    }
    if found < end {
      LevelBehind(code, j, body, found);
    }
  }

  lemma ZeroLevel(body: string)
    requires Balanced(body)
    ensures Level(body) == 0
  {
  }

  lemma ClosedIsTaken(code: string, i: nat, at: nat, body: string)
    requires i <= at && IsClosed(code, at, body) && NoSubBefore(code, i, at)
    ensures SubstitutionsFrom(code, i) == [body] + SubstitutionsFrom(code, at + |body| + 3)
  {
    hide *;
    ClosedStands(code, at, body);
    NextSubIs(code, i, at);
    EndsBehind(code, at + 2, body);
    StepAt(code, i, at, at + |body| + 3);
    SliceIs(code, at + 2, body);
  }

  lemma ClosedStands(code: string, at: nat, body: string)
    requires IsClosed(code, at, body)
    ensures at + |body| + 3 <= |code| && code[at] == '$' && code[at + 1] == '(' && code[at + 2 + |body|] == ')'
    ensures StandsAt(code, at + 2, body) && Balanced(body)
  {
  }

  lemma SliceIs(code: string, j: nat, body: string)
    requires StandsAt(code, j, body)
    ensures Slice(code, j, j + |body|) == body
  {
  }

  lemma StepAt(code: string, i: nat, at: nat, end: nat)
    requires i <= |code| && NextSub(code, i) == at < |code| && CloseAt(code, at + 2, 1) == end
    ensures SubstitutionsFrom(code, i) == [Slice(code, at + 2, end - 1)] + SubstitutionsFrom(code, end)
  {
    hide NextSub, CloseAt, Slice;
  }

  lemma OpenIsTaken(code: string, i: nat, at: nat)
    requires i <= at && IsOpen(code, at) && NoSubBefore(code, i, at)
    ensures SubstitutionsFrom(code, i) == [Slice(code, at + 2, |code| - 1)]
  {
    hide NextSub, CloseAt, Level;
    NextSubIs(code, i, at);
    var j := at + 2;
    ClosesFirst(code, j, 1);
    var found := CloseAt(code, j, 1);
    assert code[j..found] == code[j..][..found - j];
    assert found == |code|;
    NoMore(code);
  }

  lemma NoMore(code: string)
    ensures SubstitutionsFrom(code, |code|) == []
  {
  }

  // ------------------------------------------------------------------- trees

  /** Text without parentheses, a substitution, or a group in parentheses. */
  datatype Piece = Plain(text: string) | Subst(body: seq<Piece>) | Group(body: seq<Piece>)

  function PrintPiece(p: Piece): string {
    match p
    case Plain(text) => text
    case Subst(body) => "$(" + (PrintAll(body) + ")")
    case Group(body) => "(" + (PrintAll(body) + ")")
  }

  function PrintAll(ps: seq<Piece>): string {
    if ps == [] then "" else PrintPiece(ps[0]) + PrintAll(ps[1..])
  }

  /** Text has no parenthesis, and does not end in a dollar sign, which would make a group a substitution. */
  predicate PlainOk(text: string) {
    '(' !in text && ')' !in text && (text == "" || text[|text| - 1] != '$')
  }

  predicate PieceOk(p: Piece) {
    match p
    case Plain(text) => PlainOk(text)
    case Subst(body) => PiecesOk(body)
    case Group(body) => PiecesOk(body)
  }

  predicate PiecesOk(ps: seq<Piece>) {
    ps == [] || (PieceOk(ps[0]) && PiecesOk(ps[1..]))
  }

  /** The outermost substitutions of the tree, in order, each with what is printed inside it. */
  function OutermostIn(p: Piece): seq<string> {
    match p
    case Plain(_) => []
    case Subst(body) => [PrintAll(body)]
    case Group(body) => Outermost(body)
  }

  function Outermost(ps: seq<Piece>): seq<string> {
    if ps == [] then [] else OutermostIn(ps[0]) + Outermost(ps[1..])
  }

  lemma {:induction false} PlainIsLevel(text: string)
    requires '(' !in text && ')' !in text
    ensures Balanced(text)
  {
    if text != "" {
      var front := text[..|text| - 1];
      assert text[|text| - 1] in text;
      assert forall c :: c in front ==> c in text;
      PlainIsLevel(front);
      assert forall k :: 0 <= k <= |front| ==> text[..k] == front[..k];
      assert text[..|text|] == text;
    }
  }

  lemma BalancedInTurn(a: string, b: string)
    requires Balanced(a) && Balanced(b)
    ensures Balanced(a + b)
  {
    hide Level;
    LevelInTurn(a, b);
    forall k | 0 <= k <= |a + b|
      ensures Level((a + b)[..k]) >= 0
    {
      if k <= |a| {
        assert (a + b)[..k] == a[..k];
      } else {
        assert (a + b)[..k] == a + b[..k - |a|];
        LevelInTurn(a, b[..k - |a|]);
      }
    }
  }

  lemma BalancedInside(a: string)
    requires Balanced(a)
    ensures Balanced("(" + (a + ")"))
  {
    hide Level;
    var s := "(" + (a + ")");
    LevelOfChar('(');
    LevelOfChar(')');
    LevelInTurn("(", a + ")");
    LevelInTurn(a, ")");
    assert Level("") == 0 by {
      PlainIsLevel("");
    }
    forall k | 0 <= k <= |s|
      ensures Level(s[..k]) >= 0
    {
      if k == 0 {
        assert s[..k] == "";
      } else if k < |s| {
        assert s[..k] == "(" + a[..k - 1];
        LevelInTurn("(", a[..k - 1]);
      } else {
        assert s[..k] == s;
      }
    }
  }

  /** What a tree prints is balanced. */
  lemma {:induction false} PieceIsBalanced(p: Piece)
    requires PieceOk(p)
    ensures Balanced(PrintPiece(p))
    decreases p, 1
  {
    hide Balanced;
    match p {
      case Plain(text) => PlainIsLevel(text);
      case Subst(body) =>
        TreeIsBalanced(body);
        BalancedInside(PrintAll(body));
        PlainIsLevel("$");
        BalancedInTurn("$", "(" + (PrintAll(body) + ")"));
        assert "$" + ("(" + (PrintAll(body) + ")")) == PrintPiece(p);
      case Group(body) =>
        TreeIsBalanced(body);
        BalancedInside(PrintAll(body));
    }
  }

  lemma {:induction false} TreeIsBalanced(ps: seq<Piece>)
    requires PiecesOk(ps)
    ensures Balanced(PrintAll(ps))
    decreases ps, 0
  {
    hide Balanced, PieceOk, PrintPiece;
    if ps == [] {
      PlainIsLevel("");
    } else {
      PieceIsBalanced(ps[0]);
      TreeIsBalanced(ps[1..]);
      BalancedInTurn(PrintPiece(ps[0]), PrintAll(ps[1..]));
    }
  }

  // ------------------------------------------------------- scanning a print

  /** From `i` to `j` the scan takes `found`, whatever comes behind. */
  ghost predicate Takes(code: string, i: nat, j: nat, found: seq<string>) {
    i <= j <= |code| && SubstitutionsFrom(code, i) == found + SubstitutionsFrom(code, j)
  }

  lemma TakesInTurn(code: string, i: nat, j: nat, k: nat, first: seq<string>, second: seq<string>)
    requires Takes(code, i, j, first) && Takes(code, j, k, second)
    ensures Takes(code, i, k, first + second)
  {
    var rest := SubstitutionsFrom(code, k);
    assert first + (second + rest) == first + second + rest;
  }

  lemma PassesOne(code: string, i: nat)
    requires i < |code| && (i + 1 < |code| ==> !(code[i] == '$' && code[i + 1] == '('))
    ensures SubstitutionsFrom(code, i) == SubstitutionsFrom(code, i + 1)
  {
    hide CloseAt, Slice;
  }

  /** The scan passes over characters that start no substitution. */
  lemma {:induction false} Passes(code: string, i: nat, j: nat)
    requires i <= j <= |code| && NoSubBefore(code, i, j)
    ensures Takes(code, i, j, [])
    decreases j - i
  {
    hide SubstitutionsFrom;
    if i < j {
      Passes(code, i + 1, j);
      PassesOne(code, i);
    } else {
      assert [] + SubstitutionsFrom(code, i) == SubstitutionsFrom(code, i);
    }
  }

  lemma TakesPlain(code: string, i: nat, text: string)
    requires StandsAt(code, i, text) && PlainOk(text)
    ensures Takes(code, i, i + |text|, [])
  {
    CharsAt(code, i, text);
    forall k | i <= k < i + |text| && k + 1 < |code|
      ensures !(code[k] == '$' && code[k + 1] == '(')
    {
      assert code[i + (k - i)] == text[k - i];
      if k + 1 < i + |text| {
        assert code[i + (k + 1 - i)] == text[k + 1 - i];
      }
    }
    Passes(code, i, i + |text|);
  }

  lemma TakesParenthesis(code: string, i: nat, p: string)
    requires StandsAt(code, i, p) && |p| == 1 && p[0] != '$'
    ensures Takes(code, i, i + 1, [])
  {
    CharsAt(code, i, p);
    assert code[i + 0] == p[0];
    Passes(code, i, i + 1);
  }

  lemma TakesSubst(code: string, i: nat, body: string)
    requires StandsAt(code, i, "$(" + (body + ")")) && Balanced(body)
    ensures Takes(code, i, i + |body| + 3, [body])
  {
    hide Balanced;
    var s := "$(" + (body + ")");
    CharsAt(code, i, s);
    assert s[0] == '$' && s[1] == '(' && s[|body| + 2] == ')';
    SplitAtPiece(code, i, "$(", body + ")");
    SplitAtPiece(code, i + 2, body, ")");
    assert code[i + 0] == '$' && code[i + 1] == '(' && code[i + (|body| + 2)] == ')';
    assert IsClosed(code, i, body);
    ClosedIsTaken(code, i, i, body);
  }

  lemma {:induction false} TakesPiece(code: string, i: nat, p: Piece)
    requires PieceOk(p) && StandsAt(code, i, PrintPiece(p))
    ensures Takes(code, i, i + |PrintPiece(p)|, OutermostIn(p))
    decreases p, 1
  {
    hide Takes, StandsAt, PlainOk;
    match p {
      case Plain(text) => TakesPlain(code, i, text);
      case Subst(body) =>
        TreeIsBalanced(body);
        TakesSubst(code, i, PrintAll(body));
      case Group(body) =>
        SplitAtPiece(code, i, "(", PrintAll(body) + ")");
        SplitAtPiece(code, i + 1, PrintAll(body), ")");
        TakesGroup(code, i, body);
    }
  }

  lemma {:induction false} TakesGroup(code: string, i: nat, body: seq<Piece>)
    requires PiecesOk(body) && StandsAt(code, i, "(") && StandsAt(code, i + 1, PrintAll(body))
    requires StandsAt(code, i + 1 + |PrintAll(body)|, ")")
    ensures Takes(code, i, i + |PrintAll(body)| + 2, Outermost(body))
    decreases body, 1
  {
    var last := i + 1 + |PrintAll(body)|;
    hide Takes, Outermost, PrintAll;
    TakesParenthesis(code, i, "(");
    TakesTree(code, i + 1, body);
    TakesParenthesis(code, last, ")");
    TakesInTurn(code, i, i + 1, last, [], Outermost(body));
    TakesInTurn(code, i, last, last + 1, [] + Outermost(body), []);
    assert [] + Outermost(body) + [] == Outermost(body);
  }

  lemma FirstStands(code: string, i: nat, ps: seq<Piece>)
    requires ps != [] && StandsAt(code, i, PrintAll(ps))
    ensures StandsAt(code, i, PrintPiece(ps[0])) && StandsAt(code, i + |PrintPiece(ps[0])|, PrintAll(ps[1..]))
    ensures |PrintAll(ps)| == |PrintPiece(ps[0])| + |PrintAll(ps[1..])|
  {
    SplitAtPiece(code, i, PrintPiece(ps[0]), PrintAll(ps[1..]));
  }

  lemma TakesNothing(code: string, i: nat)
    requires StandsAt(code, i, PrintAll([]))
    ensures Takes(code, i, i + |PrintAll([])|, Outermost([]))
  {
    Passes(code, i, i);
  }

  lemma {:induction false} TakesTree(code: string, i: nat, ps: seq<Piece>)
    requires PiecesOk(ps) && StandsAt(code, i, PrintAll(ps))
    ensures Takes(code, i, i + |PrintAll(ps)|, Outermost(ps))
    decreases ps, 0
  {
    hide Takes, StandsAt, PieceOk, PrintPiece, OutermostIn, PrintAll;
    if ps == [] {
      TakesNothing(code, i);
    } else {
      var j := i + |PrintPiece(ps[0])|;
      FirstStands(code, i, ps);
      TakesPiece(code, i, ps[0]);
      TakesTree(code, j, ps[1..]);
      TakesInTurn(code, i, j, j + |PrintAll(ps[1..])|, OutermostIn(ps[0]), Outermost(ps[1..]));
    }
  }

  /** A printed tree gives back exactly the bodies of its outermost substitutions, whole and in order. */
  lemma SubstitutionsOfPrint(ps: seq<Piece>)
    requires PiecesOk(ps)
    ensures Substitutions(PrintAll(ps)) == Outermost(ps)
  {
    var code := PrintAll(ps);
    assert code[0..0 + |code|] == code;
    TakesTree(code, 0, ps);
    NoMore(code);
    assert Outermost(ps) + [] == Outermost(ps);
  }

  // ------------------------------------------------------------------ labels

  /** Some substitution, at any depth, has this text for its body. */
  ghost predicate Holds(ps: seq<Piece>, text: string)
    decreases ps
  {
    exists k :: 0 <= k < |ps| && PieceHolds(ps[k], text)
  }

  ghost predicate PieceHolds(p: Piece, text: string)
    decreases p
  {
    match p
    case Plain(_) => false
    case Subst(body) => text == PrintAll(body) || Holds(body, text)
    case Group(body) => Holds(body, text)
  }

  /** What a substitution holds at any depth is nested in the line. */
  lemma {:induction false} HeldIsNested(ps: seq<Piece>, text: string)
    requires PiecesOk(ps) && Holds(ps, text)
    ensures exists t :: t in Outermost(ps) && Nested(t, text)
    decreases ps, 0
  {
    var k :| 0 <= k < |ps| && PieceHolds(ps[k], text);
    if k == 0 {
      PieceHeldIsNested(ps[0], text);
    } else {
      assert PieceHolds(ps[1..][k - 1], text);
      HeldIsNested(ps[1..], text);
    }
  }

  lemma {:induction false} PieceHeldIsNested(p: Piece, text: string)
    requires PieceOk(p) && PieceHolds(p, text)
    ensures exists t :: t in OutermostIn(p) && Nested(t, text)
    decreases p, 1
  {
    match p {
      case Subst(body) =>
        assert PrintAll(body) in OutermostIn(p);
        if text != PrintAll(body) {
          HeldIsNested(body, text);
          NestedInPrint(body, text);
        }
      case Group(body) => HeldIsNested(body, text);
      case Plain(_) =>
    }
  }

  lemma NestedInPrint(ps: seq<Piece>, text: string)
    requires PiecesOk(ps) && exists t :: t in Outermost(ps) && Nested(t, text)
    ensures Nested(PrintAll(ps), text)
  {
    var t :| t in Outermost(ps) && Nested(t, text);
    SubstitutionsOfPrint(ps);
    assert t in Inner(PrintAll(ps));
    InnerIsShorter(PrintAll(ps), t);
  }

  /** A label that the body of any substitution carries, however deep, is found in the line. */
  lemma LabelsInsideAreFound(own: Catalogue, ps: seq<Piece>, text: string, l: Label)
    requires PiecesOk(ps) && (text == PrintAll(ps) || Holds(ps, text)) && l in own(text)
    ensures l in LineFindings(own, PrintAll(ps))
  {
    hide LineFindings, Holds, Nested;
    if text != PrintAll(ps) {
      HeldIsNested(ps, text);
      NestedInPrint(ps, text);
    } else {
      NestedItself(text);
    }
    FindsExactlyNested(own, PrintAll(ps), l);
  }

  lemma NestedItself(text: string)
    ensures Nested(text, text)
  {
  }
}
