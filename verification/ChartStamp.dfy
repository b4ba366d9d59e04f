/** scripts/check-chart-deps-fresh.py: the stamp that says which sources a chart's tarballs were packaged from. */
module ChartStamp {
  import opened Prelude

  /** SHA-256 as a hex digest; the model needs no more than its shape and, where stated, that it does not collide. */
  type Sha = string -> string

  predicate IsHex(c: char) {
    '0' <= c <= '9' || 'a' <= c <= 'f'
  }

  ghost predicate HexDigests(sha: Sha) {
    forall x :: |sha(x)| == 64 && forall i :: 0 <= i < 64 ==> IsHex(sha(x)[i])
  }

  // ------------------------------------------------------------------ sorting

  predicate TextLe(a: string, b: string) {
    a == "" || (b != "" && (a[0] < b[0] || (a[0] == b[0] && TextLe(a[1..], b[1..]))))
  }

  lemma {:induction false} TextLeTotal(a: string, b: string)
    ensures TextLe(a, b) || TextLe(b, a)
    ensures TextLe(a, b) && TextLe(b, a) ==> a == b
  {
    if a != "" && b != "" {
      TextLeTotal(a[1..], b[1..]);
      if TextLe(a, b) && TextLe(b, a) {
        assert a == [a[0]] + a[1..] && b == [b[0]] + b[1..];
      }
    }
  }

  lemma {:induction false} TextLeTransitive(a: string, b: string, c: string)
    requires TextLe(a, b) && TextLe(b, c)
    ensures TextLe(a, c)
  {
    if a != "" && a[0] == b[0] == c[0] {
      TextLeTransitive(a[1..], b[1..], c[1..]);
    }
  }

  ghost predicate IsSorted(s: seq<string>) {
    forall i, j :: 0 <= i < j < |s| ==> TextLe(s[i], s[j])
  }

  function Insert(x: string, s: seq<string>): seq<string> {
    if s == [] || TextLe(x, s[0]) then [x] + s else [s[0]] + Insert(x, s[1..])
  }

  /** Python's `sorted`. */
  function Sorted(s: seq<string>): seq<string> {
    if s == [] then [] else Insert(s[0], Sorted(s[1..]))
  }

  lemma {:induction false} InsertSorts(x: string, s: seq<string>)
    requires IsSorted(s)
    ensures IsSorted(Insert(x, s)) && multiset(Insert(x, s)) == multiset([x] + s)
  {
    hide TextLe;
    if s != [] {
      if TextLe(x, s[0]) {
        forall j | 0 <= j < |s|
          ensures TextLe(x, s[j])
        {
          if j > 0 {
            TextLeTransitive(x, s[0], s[j]);
          }
        }
      } else {
        TextLeTotal(x, s[0]);
        InsertSorts(x, s[1..]);
        assert s == [s[0]] + s[1..];
        var rest := Insert(x, s[1..]);
        forall j | 0 <= j < |rest|
          ensures TextLe(s[0], rest[j])
        {
          assert rest[j] in multiset(rest);
          if rest[j] != x {
            assert rest[j] in s[1..];
          }
        }
      }
    }
  }

  lemma {:induction false} SortedSorts(s: seq<string>)
    ensures IsSorted(Sorted(s)) && multiset(Sorted(s)) == multiset(s)
  {
    if s != [] {
      SortedSorts(s[1..]);
      InsertSorts(s[0], Sorted(s[1..]));
      assert s == [s[0]] + s[1..];
    }
  }

  lemma SameHead(a: seq<string>, b: seq<string>)
    requires IsSorted(a) && IsSorted(b) && multiset(a) == multiset(b) && a != []
    ensures b != [] && a[0] == b[0] && multiset(a[1..]) == multiset(b[1..])
  {
    assert a[0] in multiset(b);
    LeastFirst(b, a[0]);
    assert b[0] in multiset(a);
    LeastFirst(a, b[0]);
    TextLeTotal(a[0], b[0]);
    WithoutHead(a);
    WithoutHead(b);
  }

  lemma WithoutHead(a: seq<string>)
    requires a != []
    ensures multiset(a[1..]) == multiset(a) - multiset{a[0]}
  {
    assert a == [a[0]] + a[1..];
  }

  lemma {:induction false} SortedIsUnique(a: seq<string>, b: seq<string>)
    requires IsSorted(a) && IsSorted(b) && multiset(a) == multiset(b)
    ensures a == b
  {
    assert |a| == |multiset(a)| == |multiset(b)| == |b|;
    if a != [] {
      SameHead(a, b);
      SortedIsUnique(a[1..], b[1..]);
      assert a == [a[0]] + a[1..] && b == [b[0]] + b[1..];
    }
  }

  lemma LeastFirst(s: seq<string>, x: string)
    requires IsSorted(s) && x in multiset(s)
    ensures s != [] && TextLe(s[0], x)
  {
    var i :| 0 <= i < |s| && s[i] == x;
    TextLeTotal(x, x);
  }

  /** Two listings sort alike exactly when they hold the same paths, each as often. */
  lemma {:induction false} SortedAlike(a: seq<string>, b: seq<string>)
    ensures Sorted(a) == Sorted(b) <==> multiset(a) == multiset(b)
  {
    SortedSorts(a);
    SortedSorts(b);
    if multiset(a) == multiset(b) {
      SortedIsUnique(Sorted(a), Sorted(b));
    }
  }

  // ------------------------------------------------------------------- digest

  /** A chart's directory and what its stamp depends on: file contents, the dependency-source listing that
      chart-dep-srcs.sh prints, the declared dependencies, and the names under charts/. */
  datatype Tree = Tree(files: map<string, string>, listing: seq<string>, deps: seq<string>, tarballs: set<string>, hasChart: bool)

  datatype Broken = NoSources | NoFile | NoChart | NotBuilt(missing: seq<string>)

  type Entry = (string, string)  // (path, content digest)

  function Line(e: Entry): string {
    e.0 + ['\0'] + e.1 + ['\n']
  }

  function Encode(es: seq<Entry>): string {
    if es == [] then "" else Line(es[0]) + Encode(es[1..])
  }

  ghost predicate EntryOk(e: Entry) {
    '\0' !in e.0 && |e.1| == 64
  }

  /** The encoding is uniquely decodable: a path ends at its NUL, and a digest is 64 characters long. */
  lemma {:induction false} EncodeIsInjective(a: seq<Entry>, b: seq<Entry>)
    requires forall e :: e in a || e in b ==> EntryOk(e)
    requires Encode(a) == Encode(b)
    ensures a == b
  {
    assert a != [] ==> Encode(a) != "";
    assert b != [] ==> Encode(b) != "";
    if a != [] && b != [] {
      assert EntryOk(a[0]) && EntryOk(b[0]);
      LineEnds(a[0], Encode(a[1..]), b[0], Encode(b[1..]));
      assert forall e :: e in a[1..] ==> e in a;
      assert forall e :: e in b[1..] ==> e in b;
      EncodeIsInjective(a[1..], b[1..]);
      assert a == [a[0]] + a[1..] && b == [b[0]] + b[1..];
    }
  }

  lemma LineEnds(x: Entry, restX: string, y: Entry, restY: string)
    requires EntryOk(x) && EntryOk(y) && Line(x) + restX == Line(y) + restY
    ensures x == y && restX == restY
  {
    var text := Line(x) + restX;
    var tailX, tailY := x.1 + ['\n'] + restX, y.1 + ['\n'] + restY;
    assert text == x.0 + ['\0'] + tailX && text == y.0 + ['\0'] + tailY;
    SplitAtJoined(x.0, '\0', tailX);
    SplitAtJoined(y.0, '\0', tailY);
    assert tailX[..64] == x.1 && tailY[..64] == y.1;
    assert tailX[65..] == restX && tailY[65..] == restY;
  }

  function Entries(sha: Sha, files: map<string, string>, paths: seq<string>): seq<Entry>
    requires forall p :: p in paths ==> p in files
  {
    seq(|paths|, i requires 0 <= i < |paths| => (paths[i], sha(files[paths[i]])))
  }

  predicate Readable(t: Tree) {
    t.listing != [] && forall p :: p in t.listing ==> p in t.files
  }

  lemma SortedKeepsPaths(t: Tree)
    ensures forall p :: p in Sorted(t.listing) <==> p in t.listing
  {
    SortedSorts(t.listing);
    assert forall p :: p in Sorted(t.listing) <==> p in multiset(Sorted(t.listing));
    assert forall p :: p in t.listing <==> p in multiset(t.listing);
  }

  function Closure(sha: Sha, t: Tree): seq<Entry>
    requires Readable(t)
  {
    SortedKeepsPaths(t);
    Entries(sha, t.files, Sorted(t.listing))
  }

  /** The digest over (path, content digest) of the sorted closure, or why there is none. */
  function SourcesDigest(sha: Sha, t: Tree): Result<string, Broken> {
    if t.listing == [] then Err(NoSources)
    else if !Readable(t) then Err(NoFile)
    else Ok(sha(Encode(Closure(sha, t))))
  }

  method DigestSources(sha: Sha, t: Tree) returns (r: Result<string, Broken>)
    ensures r == SourcesDigest(sha, t)
  {
    if t.listing == [] {
      return Err(NoSources);
    }
    var paths := Sorted(t.listing);
    SortedKeepsPaths(t);
    var fed := "";
    var i := 0;
    ghost var readable := Readable(t);
    assert readable ==> Closure(sha, t)[0..] == Closure(sha, t) && "" + Encode(Closure(sha, t)) == Encode(Closure(sha, t));
    while i < |paths|
      invariant 0 <= i <= |paths|
      invariant forall k :: 0 <= k < i ==> paths[k] in t.files
      invariant readable ==> fed + Encode(Closure(sha, t)[i..]) == Encode(Closure(sha, t))
    {
      if paths[i] !in t.files {
        return Err(NoFile);
      }
      if readable {
        assert Closure(sha, t)[i..][1..] == Closure(sha, t)[i + 1..];
      }
      fed := fed + Line((paths[i], sha(t.files[paths[i]])));
      i := i + 1;
    }
    assert readable;
    assert Closure(sha, t)[|paths|..] == [] && fed + "" == fed;
    r := Ok(sha(fed));
  }

  /** The same sources: the same paths, each as often, with the same contents. */
  predicate SameSources(a: Tree, b: Tree)
    requires Readable(a) && Readable(b)
  {
    multiset(a.listing) == multiset(b.listing) && forall p :: p in a.listing && p in b.listing ==> a.files[p] == b.files[p]
  }

  /** Every text that the digest of a tree hashes. */
  ghost function Hashed(sha: Sha, t: Tree): set<string>
    requires Readable(t)
  {
    (set p | p in t.listing :: t.files[p]) + {Encode(Closure(sha, t))}
  }

  ghost predicate NoCollision(sha: Sha, texts: set<string>) {
    forall x, y :: x in texts && y in texts && sha(x) == sha(y) ==> x == y
  }

  predicate NulFree(t: Tree) {
    forall p :: p in t.listing ==> '\0' !in p
  }

  lemma ClosureEntriesOk(sha: Sha, t: Tree)
    requires HexDigests(sha) && Readable(t) && NulFree(t)
    ensures forall e :: e in Closure(sha, t) ==> EntryOk(e)
  {
    SortedKeepsPaths(t);
    forall e | e in Closure(sha, t)
      ensures EntryOk(e)
    {
      var i :| 0 <= i < |Closure(sha, t)| && Closure(sha, t)[i] == e;
      assert e.0 == Sorted(t.listing)[i];
    }
  }

  /** Equal closures are equal sources, as far as the digest does not collide on the contents. */
  lemma ClosureIsSources(sha: Sha, a: Tree, b: Tree)
    requires Readable(a) && Readable(b)
    requires NoCollision(sha, Hashed(sha, a) + Hashed(sha, b))
    ensures Closure(sha, a) == Closure(sha, b) <==> SameSources(a, b)
  {
    SortedAlike(a.listing, b.listing);
    SortedKeepsPaths(a);
    SortedKeepsPaths(b);
    var x, y, pa, pb := Closure(sha, a), Closure(sha, b), Sorted(a.listing), Sorted(b.listing);
    if x == y {
      assert pa == pb by {
        assert |pa| == |x| && |pb| == |y|;
        forall i | 0 <= i < |pa|
          ensures pa[i] == pb[i]
        {
          assert x[i].0 == pa[i] && y[i].0 == pb[i];
        }
      }
      forall p | p in a.listing && p in b.listing
        ensures a.files[p] == b.files[p]
      {
        var i :| 0 <= i < |pa| && pa[i] == p;
        assert x[i].1 == sha(a.files[p]) && y[i].1 == sha(b.files[p]);
        assert a.files[p] in Hashed(sha, a) && b.files[p] in Hashed(sha, b);
      }
    }
    if SameSources(a, b) {
      assert pa == pb;
      forall i | 0 <= i < |x|
        ensures x[i] == y[i]
      {
        assert pa[i] in a.listing && pb[i] in b.listing;
      }
    }
  }

  /** The digest agrees with the sources. */
  lemma DigestIsSources(sha: Sha, a: Tree, b: Tree)
    requires HexDigests(sha) && Readable(a) && Readable(b) && NulFree(a) && NulFree(b)
    requires NoCollision(sha, Hashed(sha, a) + Hashed(sha, b))
    ensures SourcesDigest(sha, a) == SourcesDigest(sha, b) <==> SameSources(a, b)
  {
    ClosureIsSources(sha, a, b);
    ClosureEntriesOk(sha, a);
    ClosureEntriesOk(sha, b);
    if SourcesDigest(sha, a) == SourcesDigest(sha, b) {
      assert Encode(Closure(sha, a)) in Hashed(sha, a) && Encode(Closure(sha, b)) in Hashed(sha, b);
      EncodeIsInjective(Closure(sha, a), Closure(sha, b));
    }
  }

  // -------------------------------------------------------------------- stamp

  function BreakAt(s: string): (i: nat)
    ensures i <= |s| && Unbroken(s[..i]) && (i < |s| ==> IsBreak(s[i]))
  {
    if s == "" || IsBreak(s[0]) then 0 else
      assert s[..1 + BreakAt(s[1..])] == [s[0]] + s[1..][..BreakAt(s[1..])];
      1 + BreakAt(s[1..])
  }

  const KEY := "sources-sha256:"

  /** The digest of the first line that starts with the key. */
  function StampDigest(text: string): Option<string>
    decreases |text|
  {
    var i := BreakAt(text);
    var line := text[..i];
    if KEY <= line then Some(Strip(line[|KEY|..]))
    else if i < |text| then StampDigest(text[i + 1..]) else None
  }

  /** A line of the stamp's opening comment, whose wording the model leaves open. */
  predicate CommentLine(l: string) {
    l != "" && l[0] == '#' && Unbroken(l)
  }

  function Lines(lines: seq<string>): string {
    if lines == [] then "" else lines[0] + "\n" + Lines(lines[1..])
  }

  function StampText(header: seq<string>, chart: string, digest: string): string {
    Lines(header + ["chart: " + chart, KEY + " " + digest])
  }

  lemma BreakOfLine(line: string, rest: string)
    requires Unbroken(line)
    ensures BreakAt(line + "\n" + rest) == |line|
  {
    var text := line + "\n" + rest;
    var i := BreakAt(text);
    assert text[|line|] == '\n';
    assert forall k :: 0 <= k < |line| ==> text[k] == line[k];
    assert forall k :: 0 <= k < i ==> text[..i][k] == text[k];
  }

  /** A line that does not start with the key is passed over. */
  lemma SkipLine(line: string, rest: string)
    requires Unbroken(line) && !(KEY <= line)
    ensures StampDigest(line + "\n" + rest) == StampDigest(rest)
  {
    BreakOfLine(line, rest);
    var text := line + "\n" + rest;
    assert text[..|line|] == line && text[|line| + 1..] == rest;
  }

  lemma {:induction false} SkipHeader(header: seq<string>, tail: seq<string>)
    requires forall l :: l in header ==> CommentLine(l)
    ensures StampDigest(Lines(header + tail)) == StampDigest(Lines(tail))
  {
    hide StampDigest;
    if header == [] {
      assert header + tail == tail;
    } else {
      assert CommentLine(header[0]);
      assert KEY[0] == 's';
      SkipHeader(header[1..], tail);
      SkipLine(header[0], Lines(header[1..] + tail));
      assert (header + tail)[1..] == header[1..] + tail;
    }
  }

  lemma HexIsPlain(digest: string)
    requires |digest| == 64 && forall i :: 0 <= i < 64 ==> IsHex(digest[i])
    ensures Unbroken(" " + digest) && Strip(" " + digest) == digest
  {
    var padded := " " + digest;
    assert padded[0] == ' ' && padded[1..] == digest;
    assert LStrip(padded) == LStrip(digest) == digest;
    assert RStrip(digest) == digest;
  }

  lemma KeyedLine(digest: string)
    requires |digest| == 64 && forall i :: 0 <= i < 64 ==> IsHex(digest[i])
    ensures StampDigest(KEY + " " + digest + "\n") == Some(digest)
  {
    var keyed, padded := KEY + " " + digest, " " + digest;
    HexIsPlain(digest);
    assert keyed == KEY + padded;
    assert Unbroken(KEY);
    assert Unbroken(keyed);
    BreakOfLine(keyed, "");
    var text := keyed + "\n" + "";
    assert text == keyed + "\n" && text[..|keyed|] == keyed && keyed[|KEY|..] == padded;
  }

  /** What write_stamp writes, stamp_digest reads back. */
  lemma StampReadsBack(header: seq<string>, chart: string, digest: string)
    requires (forall l :: l in header ==> CommentLine(l)) && Unbroken(chart)
    requires |digest| == 64 && forall i :: 0 <= i < 64 ==> IsHex(digest[i])
    ensures StampDigest(StampText(header, chart, digest)) == Some(digest)
  {
    hide StampDigest;
    var named, keyed := "chart: " + chart, KEY + " " + digest;
    var last: seq<string> := [keyed];
    SkipHeader(header, [named, keyed]);
    assert [named, keyed][1..] == last && last[1..] == [];
    assert named[0] == 'c' && KEY[0] == 's';
    SkipLine(named, Lines(last));
    assert Lines(last) == keyed + "\n" + "" == keyed + "\n";
    KeyedLine(digest);
  }

  // ------------------------------------------------------------------- verify

  /** charts/ holds a name that `<dep>-*.tgz` matches. */
  predicate Packaged(t: Tree, dep: string) {
    exists name | name in t.tarballs :: TarballOf(dep, name)
  }

  predicate TarballOf(dep: string, name: string) {
    dep + "-" <= name && EndsWith(name, ".tgz") && |name| >= |dep| + 5
  }

  /** A tarball of a dependency is its name, a dash, any version and the suffix. */
  lemma TarballOfIff(dep: string, name: string)
    ensures TarballOf(dep, name) <==> exists version :: name == dep + ("-" + (version + ".tgz"))
  {
    if TarballOf(dep, name) {
      VersionOf(dep, name, "-", ".tgz");
    }
    forall version | name == dep + ("-" + (version + ".tgz"))
      ensures TarballOf(dep, name)
    {
      VersionBetween(dep, version, name, "-", ".tgz");
    }
  }

  lemma VersionOf(dep: string, name: string, dash: string, end: string)
    requires dep + dash <= name && EndsWith(name, end) && |name| >= |dep| + |dash| + |end|
    ensures name == dep + (dash + (name[|dep| + |dash|..|name| - |end|] + end))
  {
    var k, m := |dep| + |dash|, |name| - |end|;
    assert name == name[..k] + (name[k..m] + name[m..]);
    assert name[..k] == dep + dash && name[m..] == end;
  }

  lemma VersionBetween(dep: string, version: string, name: string, dash: string, end: string)
    requires name == dep + (dash + (version + end))
    ensures dep + dash <= name && EndsWith(name, end) && |name| >= |dep| + |dash| + |end|
  {
    assert name == (dep + dash) + (version + end);
    assert name == (dep + dash + version) + end;
  }

  function MissingTarballs(t: Tree, deps: seq<string>): seq<string> {
    if deps == [] then [] else
      (if Packaged(t, deps[0]) then [] else [deps[0]]) + MissingTarballs(t, deps[1..])
  }

  lemma {:induction false} NoneMissing(t: Tree, deps: seq<string>)
    ensures MissingTarballs(t, deps) == [] <==> forall d :: d in deps ==> Packaged(t, d)
  {
    if deps != [] {
      NoneMissing(t, deps[1..]);
    }
  }

  datatype Verdict = Fresh | NeverBuilt | TarballGone(missing: seq<string>) | SourcesChanged

  function Judged(sha: Sha, t: Tree, stamp: Option<string>): Result<Verdict, Broken> {
    if !t.hasChart then Err(NoChart) else
      var recorded := if stamp.Some? then StampDigest(stamp.value) else None;
      if recorded.None? then Ok(NeverBuilt)
      else if MissingTarballs(t, t.deps) != [] then Ok(TarballGone(MissingTarballs(t, t.deps)))
      else match SourcesDigest(sha, t)
        case Err(e) => Err(e)
        case Ok(actual) => Ok(if actual != recorded.value then SourcesChanged else Fresh)
  }

  /** One chart of a checkout: the tree as it stands, and the stamp that packaging leaves beside it. */
  class Checkout {
    var tree: Tree
    var stamp: Option<string>

    constructor (tree: Tree)
      ensures this.tree == tree && stamp == None
    {
      this.tree := tree;
      stamp := None;
    }

    method WriteStamp(sha: Sha, header: seq<string>, chart: string) returns (r: Result<(), Broken>)
      modifies this`stamp
      ensures r.Err? ==> stamp == old(stamp)
      ensures r.Ok? <==> (forall d :: d in tree.deps ==> Packaged(tree, d)) && Readable(tree)
      ensures r.Ok? ==> stamp == Some(StampText(header, chart, SourcesDigest(sha, tree).value))
    {
      NoneMissing(tree, tree.deps);
      var missing := MissingTarballs(tree, tree.deps);
      if missing != [] {
        return Err(NotBuilt(missing));
      }
      var digest := DigestSources(sha, tree);
      if digest.Err? {
        return Err(digest.error);
      }
      stamp := Some(StampText(header, chart, digest.value));
      r := Ok(());
    }

    method Verify(sha: Sha) returns (r: Result<Verdict, Broken>)
      ensures r == Judged(sha, tree, stamp)
    {
      if !tree.hasChart {
        return Err(NoChart);
      }
      var recorded := if stamp.Some? then StampDigest(stamp.value) else None;
      if recorded.None? {
        return Ok(NeverBuilt);
      }
      var missing := MissingTarballs(tree, tree.deps);
      if missing != [] {
        return Ok(TarballGone(missing));
      }
      var actual := DigestSources(sha, tree);
      if actual.Err? {
        return Err(actual.error);
      }
      r := Ok(if actual.value != recorded.value then SourcesChanged else Fresh);
    }
  }

  /** What is missing: exactly the dependencies without a tarball, in the order declared. */
  lemma {:induction false} MissingAre(t: Tree, deps: seq<string>)
    ensures forall d :: d in MissingTarballs(t, deps) <==> d in deps && !Packaged(t, d)
  {
    if deps != [] {
      MissingAre(t, deps[1..]);
    }
  }

  /** A stamp is read off the first of its lines that starts with the key; without such a line there is nothing to read. */
  lemma {:induction false} StampReadsFirst(lines: seq<string>, k: nat)
    requires k <= |lines| && forall l :: l in lines ==> Unbroken(l)
    requires forall j :: 0 <= j < k ==> !("sources-sha256:" <= lines[j])
    requires k < |lines| ==> "sources-sha256:" <= lines[k]
    ensures StampDigest(Lines(lines)) == if k < |lines| then Some(Strip(lines[k][|"sources-sha256:"|..])) else None
  {
    if lines == [] {
      NoKeyInNothing();
    } else {
      assert lines[0] in lines;
      if k == 0 {
        FirstKeyIsRead(lines[0], Lines(lines[1..]));
      } else {
        SkipLine(lines[0], Lines(lines[1..]));
        assert forall j :: 0 <= j < k - 1 ==> lines[1..][j] == lines[j + 1];
        StampReadsFirst(lines[1..], k - 1);
      }
    }
  }

  lemma NoKeyInNothing()
    ensures StampDigest("") == None
  {
    assert !(KEY <= "");
  }

  lemma FirstKeyIsRead(line: string, rest: string)
    requires Unbroken(line) && KEY <= line
    ensures StampDigest(line + "\n" + rest) == Some(Strip(line[|KEY|..]))
  {
    BreakOfLine(line, rest);
    assert (line + "\n" + rest)[..|line|] == line;
  }

  /** The verdict, in the order it is reached: a chart without a readable digest was never built, then tarballs are
      asked for, then the sources are compared. */
  lemma VerdictIs(sha: Sha, t: Tree, stamp: Option<string>)
    requires t.hasChart
    ensures var recorded := if stamp.Some? then StampDigest(stamp.value) else None;
            var packed := forall d :: d in t.deps ==> Packaged(t, d);
            && (Judged(sha, t, stamp) == Ok(NeverBuilt) <==> recorded == None)
            && (recorded.Some? && !packed <==> Judged(sha, t, stamp).Ok? && Judged(sha, t, stamp).value.TarballGone?)
            && (recorded.Some? && packed && Readable(t) ==>
                  (Judged(sha, t, stamp) == Ok(Fresh) <==> SourcesDigest(sha, t) == Ok(recorded.value))
                  && (Judged(sha, t, stamp) == Ok(SourcesChanged) <==> SourcesDigest(sha, t) != Ok(recorded.value)))
            && (recorded.Some? && packed && !Readable(t) <==> Judged(sha, t, stamp).Err?)
  {
    hide StampDigest, Closure, Encode;
    MissingAre(t, t.deps);
    if MissingTarballs(t, t.deps) != [] {
      assert MissingTarballs(t, t.deps)[0] in MissingTarballs(t, t.deps);
    }
  }

  /** A chart that was never stamped is never fresh, whatever its tree. */
  lemma UnstampedIsNeverBuilt(sha: Sha, t: Tree, lines: seq<string>)
    requires t.hasChart && (forall l :: l in lines ==> Unbroken(l))
    requires forall j :: 0 <= j < |lines| ==> !("sources-sha256:" <= lines[j])
    ensures Judged(sha, t, None) == Ok(NeverBuilt) && Judged(sha, t, Some(Lines(lines))) == Ok(NeverBuilt)
  {
    hide StampDigest, SourcesDigest;
    StampReadsFirst(lines, |lines|);
  }

  /** The stamp agrees with the sources: stamped at `then`, and whatever edits led to `now`, the chart is fresh exactly
      when the closure is the same and every dependency declared now has a tarball. */
  lemma FreshIffUnchanged(sha: Sha, header: seq<string>, chart: string, stamped: Tree, now: Tree)
    requires HexDigests(sha) && Unbroken(chart) && forall l :: l in header ==> CommentLine(l)
    requires Readable(stamped) && NulFree(stamped)
    requires now.hasChart && Readable(now) && NulFree(now)
    requires NoCollision(sha, Hashed(sha, stamped) + Hashed(sha, now))
    ensures var stamp := Some(StampText(header, chart, SourcesDigest(sha, stamped).value));
            Judged(sha, now, stamp) == Ok(Fresh) <==>
              SameSources(stamped, now) && forall d :: d in now.deps ==> Packaged(now, d)
  {
    StampReadsBack(header, chart, SourcesDigest(sha, stamped).value);
    NoneMissing(now, now.deps);
    DigestIsSources(sha, stamped, now);
  }

  /** Without the premise on collisions, a fresh verdict on changed sources exhibits two texts that collide. */
  lemma StaleButFreshCollides(sha: Sha, header: seq<string>, chart: string, stamped: Tree, now: Tree)
    requires HexDigests(sha) && Unbroken(chart) && forall l :: l in header ==> CommentLine(l)
    requires Readable(stamped) && NulFree(stamped) && now.hasChart && Readable(now) && NulFree(now)
    requires Judged(sha, now, Some(StampText(header, chart, SourcesDigest(sha, stamped).value))) == Ok(Fresh)
    requires !SameSources(stamped, now)
    ensures exists x, y :: x != y && sha(x) == sha(y)
  {
    if NoCollision(sha, Hashed(sha, stamped) + Hashed(sha, now)) {
      FreshIffUnchanged(sha, header, chart, stamped, now);
    }
  }

  // ------------------------------------------------------ whose tarball it is

  /** One of the two names is the other, or the other followed by "-" and more. */
  predicate Overlap(d: string, e: string) {
    d + "-" <= e + "-" || e + "-" <= d + "-"
  }

  /** A dependency's tarball is looked for by prefix: one tarball counts for two dependencies exactly when they overlap. */
  lemma SharedTarballIff(d: string, e: string)
    ensures (exists name :: TarballOf(d, name) && TarballOf(e, name)) <==> Overlap(d, e)
  {
    if name :| TarballOf(d, name) && TarballOf(e, name) {
      if |d| <= |e| {
        assert (e + "-")[..|d| + 1] == name[..|d| + 1] == d + "-";
      } else {
        assert (d + "-")[..|e| + 1] == name[..|e| + 1] == e + "-";
      }
    }
    if d + "-" <= e + "-" {
      StandsInFor(d, e);
    } else if e + "-" <= d + "-" {
      StandsInFor(e, d);
    }
  }

  function Packed(dep: string): string {
    dep + "-.tgz"
  }

  lemma StandsInFor(d: string, e: string)
    requires d + "-" <= e + "-"
    ensures TarballOf(d, Packed(e)) && TarballOf(e, Packed(e))
  {
    var name := Packed(e);
    assert name[..|e| + 1] == e + "-" && name[|name| - 4..] == ".tgz";
    assert name[..|d| + 1] == (e + "-")[..|d| + 1];
  }

  /** Each dependency has a tarball, and no two of them share it. */
  ghost predicate OwnTarballs(t: Tree, deps: set<string>, own: map<string, string>) {
    && own.Keys == deps
    && (forall d :: d in deps ==> own[d] in t.tarballs && TarballOf(d, own[d]))
    && forall d, e :: d in deps && e in deps && d != e ==> own[d] != own[e]
  }

  function Declared(t: Tree): set<string> {
    set d | d in t.deps
  }

  ghost function ATarballOf(t: Tree, d: string): (name: string)
    requires Packaged(t, d)
    ensures name in t.tarballs && TarballOf(d, name)
  {
    var name :| name in t.tarballs && TarballOf(d, name);
    name
  }

  lemma {:induction false} OwnIsInjective(deps: set<string>, own: map<string, string>, tarballs: set<string>)
    requires deps <= own.Keys && forall d :: d in deps ==> own[d] in tarballs
    requires forall d, e :: d in deps && e in deps && d != e ==> own[d] != own[e]
    ensures |deps| <= |tarballs|
  {
    if deps != {} {
      var d :| d in deps;
      OwnIsInjective(deps - {d}, own, tarballs - {own[d]});
      assert |deps - {d}| == |deps| - 1 && |tarballs - {own[d]}| == |tarballs| - 1;
    }
  }

  function PackedAll(deps: set<string>): set<string> {
    set d | d in deps :: Packed(d)
  }

  lemma {:induction false} FewPacked(deps: set<string>)
    ensures |PackedAll(deps)| <= |deps|
  {
    if deps != {} {
      var d :| d in deps;
      FewPacked(deps - {d});
      assert PackedAll(deps) == PackedAll(deps - {d}) + {Packed(d)};
    }
  }

  /** So "no tarball is missing" means a tarball of its own for each dependency, whatever the tree holds, exactly when no
      two of them overlap. */
  lemma NoneMissingMeansOwnIff(deps: seq<string>)
    ensures (forall t: Tree :: t.deps == deps && MissingTarballs(t, deps) == [] ==> exists own :: OwnTarballs(t, Declared(t), own))
              <==> forall d, e :: d in deps && e in deps && d != e ==> !Overlap(d, e)
  {
    if forall d, e :: d in deps && e in deps && d != e ==> !Overlap(d, e) {
      forall t: Tree | t.deps == deps && MissingTarballs(t, deps) == []
        ensures exists own :: OwnTarballs(t, Declared(t), own)
      {
        ApartMeansOwn(t);
      }
    } else {
      var d, e :| d in deps && e in deps && d != e && Overlap(d, e);
      if d + "-" <= e + "-" {
        OneShort(deps, d, e);
      } else {
        OneShort(deps, e, d);
      }
    }
  }

  lemma ApartMeansOwn(t: Tree)
    requires MissingTarballs(t, t.deps) == []
    requires forall d, e :: d in t.deps && e in t.deps && d != e ==> !Overlap(d, e)
    ensures exists own :: OwnTarballs(t, Declared(t), own)
  {
    NoneMissing(t, t.deps);
    var own := map d | d in Declared(t) :: ATarballOf(t, d);
    forall d, e | d in Declared(t) && e in Declared(t) && d != e
      ensures own[d] != own[e]
    {
      SharedTarballIff(d, e);
    }
    assert OwnTarballs(t, Declared(t), own);
  }

  /** A tree that holds a tarball for every dependency but `d`. */
  function ShortTree(deps: seq<string>, d: string): Tree {
    Tree(map[], [], deps, PackedAll((set x | x in deps) - {d}), true)
  }

  /** Where `e`'s tarball stands in for `d`'s nothing is missing there, and there is one tarball too few. */
  lemma OneShort(deps: seq<string>, d: string, e: string)
    requires d in deps && e in deps && d != e && d + "-" <= e + "-"
    ensures var t := ShortTree(deps, d);
            t.deps == deps && MissingTarballs(t, deps) == [] && !exists own :: OwnTarballs(t, Declared(t), own)
  {
    hide MissingTarballs, TarballOf, Packed;
    var t := ShortTree(deps, d);
    forall x | x in deps
      ensures Packaged(t, x)
    {
      StandsInHere(t, x, if x == d then e else x);
    }
    NoneMissing(t, deps);
    forall own
      ensures !OwnTarballs(t, Declared(t), own)
    {
      OneTooFew(t, d, own);
    }
  }

  lemma StandsInHere(t: Tree, x: string, y: string)
    requires x + "-" <= y + "-" && Packed(y) in t.tarballs
    ensures Packaged(t, x)
  {
    StandsInFor(x, y);
  }

  lemma OneTooFew(t: Tree, d: string, own: map<string, string>)
    requires d in t.deps && t.tarballs == PackedAll(Declared(t) - {d})
    ensures !OwnTarballs(t, Declared(t), own)
  {
    hide TarballOf, PackedAll;
    var all := Declared(t);
    FewPacked(all - {d});
    assert |all - {d}| == |all| - 1;
    if OwnTarballs(t, all, own) {
      OwnIsInjective(all, own, t.tarballs);
    }
  }

  /** The order of the listing: a text comes first when it begins the other, or is smaller where they first differ. */
  lemma {:induction false} TextLeIs(a: string, b: string)
    ensures TextLe(a, b) <==> a <= b || exists k :: 0 <= k < |a| && k < |b| && a[..k] == b[..k] && a[k] < b[k]
  {
    if a != "" && b != "" {
      TextLeIs(a[1..], b[1..]);
      if a[0] == b[0] {
        assert a <= b <==> a[1..] <= b[1..] by {
          assert a == [a[0]] + a[1..] && b == [b[0]] + b[1..];
        }
        if k :| 0 <= k < |a[1..]| && k < |b[1..]| && a[1..][..k] == b[1..][..k] && a[1..][k] < b[1..][k] {
          assert a[..k + 1] == [a[0]] + a[1..][..k] && b[..k + 1] == [b[0]] + b[1..][..k];
          assert a[k + 1] < b[k + 1];
        }
        if k :| 0 <= k < |a| && k < |b| && a[..k] == b[..k] && a[k] < b[k] {
          assert k > 0;
          assert a[1..][..k - 1] == a[..k][1..] && b[1..][..k - 1] == b[..k][1..];
          assert a[1..][k - 1] < b[1..][k - 1];
        }
      } else {
        assert a[..0] == b[..0];
        if k :| 0 <= k < |a| && k < |b| && a[..k] == b[..k] && a[k] < b[k] {
          assert k > 0 ==> a[..k][0] == b[..k][0];
        }
      }
    }
  }
}
