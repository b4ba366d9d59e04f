/** scripts/check-no-pipe-grep-q.py: which scripts run under pipefail because a pipefail script sources them. */
module PipefailClosure {
  import opened Prelude

  /** A script as the scan reads it: whether its own text sets pipefail, the file names its source lines name, and the
      numbers of its lines that pipe into grep -q. */
  datatype Script = Script(path: string, setsPipefail: bool, sources: seq<string>, hits: seq<nat>)

  function BaseName(path: string): string {
    var i := IndexOf(path, '/');
    if i < |path| then BaseName(path[i + 1..]) else path
  }

  /** The script sets pipefail, or its file name is among `names`. */
  predicate Active(s: Script, names: set<string>) {
    s.setsPipefail || BaseName(s.path) in names
  }

  ghost predicate Closed(scripts: seq<Script>, names: set<string>) {
    forall s, n :: s in scripts && Active(s, names) && n in s.sources ==> n in names
  }

  /** A chain of scripts: the first sets pipefail, each sources the next by its file name, the last sources `name`. */
  ghost predicate Chain(scripts: seq<Script>, chain: seq<Script>, name: string) {
    && chain != [] && (forall s :: s in chain ==> s in scripts)
    && chain[0].setsPipefail && name in chain[|chain| - 1].sources
    && forall i :: 0 <= i < |chain| - 1 ==> BaseName(chain[i + 1].path) in chain[i].sources
  }

  ghost predicate Reached(scripts: seq<Script>, name: string) {
    exists chain :: Chain(scripts, chain, name)
  }

  lemma ReachOnce(scripts: seq<Script>, s: Script, name: string)
    requires s in scripts && s.setsPipefail && name in s.sources
    ensures Reached(scripts, name)
  {
    assert Chain(scripts, [s], name);
  }

  lemma ReachOn(scripts: seq<Script>, s: Script, name: string)
    requires s in scripts && Reached(scripts, BaseName(s.path)) && name in s.sources
    ensures Reached(scripts, name)
  {
    var chain :| Chain(scripts, chain, BaseName(s.path));
    assert Chain(scripts, chain + [s], name);
  }

  /** Every closed set holds all that is reached. */
  lemma {:induction false} ReachedIsLeast(scripts: seq<Script>, chain: seq<Script>, name: string, names: set<string>)
    requires Closed(scripts, names) && Chain(scripts, chain, name)
    ensures name in names
    decreases |chain|
  {
    var last := chain[|chain| - 1];
    if |chain| > 1 {
      var front := chain[..|chain| - 1];
      assert last == chain[|front| - 1 + 1];
      assert Chain(scripts, front, BaseName(last.path));
      ReachedIsLeast(scripts, front, BaseName(last.path), names);
    }
    assert Active(last, names);
  }

  ghost function AllSources(scripts: seq<Script>): set<string> {
    set s, n | s in scripts && n in s.sources :: n
  }

  method AddSources(scripts: seq<Script>, s: Script, names: set<string>) returns (names': set<string>, added: bool)
    requires s in scripts && Active(s, names) && names <= AllSources(scripts)
    requires forall n :: n in names ==> Reached(scripts, n)
    ensures names' == names + set n | n in s.sources
    ensures added <==> names' != names
    ensures names' <= AllSources(scripts) && forall n :: n in names' ==> Reached(scripts, n)
  {
    names', added := names, false;
    for i := 0 to |s.sources|
      invariant names' == names + set n | n in s.sources[..i]
      invariant added <==> names' != names
    {
      assert s.sources[..i + 1] == s.sources[..i] + [s.sources[i]];
      if s.sources[i] !in names' {
        names', added := names' + {s.sources[i]}, true;
      }
    }
    assert s.sources[..|s.sources|] == s.sources;
    forall n | n in s.sources
      ensures Reached(scripts, n)
    {
      if s.setsPipefail {
        ReachOnce(scripts, s, n);
      } else {
        ReachOn(scripts, s, n);
      }
    }
  }

  /** One round over the scripts. */
  method OnePass(scripts: seq<Script>, start: set<string>) returns (names: set<string>, changed: bool)
    requires start <= AllSources(scripts) && forall n :: n in start ==> Reached(scripts, n)
    ensures start <= names <= AllSources(scripts) && forall n :: n in names ==> Reached(scripts, n)
    ensures (changed <==> names != start) && (!changed ==> Closed(scripts, names))
  {
    hide AllSources, Reached;
    names, changed := start, false;
    for i := 0 to |scripts|
      invariant start <= names <= AllSources(scripts) && forall n :: n in names ==> Reached(scripts, n)
      invariant changed <==> names != start
      invariant !changed ==> forall s, n :: s in scripts[..i] && Active(s, names) && n in s.sources ==> n in names
    {
      assert scripts[..i + 1] == scripts[..i] + [scripts[i]];
      if Active(scripts[i], names) {
        var more, added := AddSources(scripts, scripts[i], names);
        names, changed := more, changed || added;
      }
    }
    assert scripts[..|scripts|] == scripts;
  }

  /** The fixpoint loop ends with the reached names and no others: the least set that holds what its scripts source,
      whatever order the scripts come in. */
  method SourcedByPipefail(scripts: seq<Script>) returns (names: set<string>)
    ensures forall n :: n in names <==> Reached(scripts, n)
    ensures Closed(scripts, names) && forall more :: Closed(scripts, more) ==> names <= more
  {
    names := {};
    var changed := true;
    ghost var all := AllSources(scripts);
    while changed
      invariant names <= all && forall n :: n in names ==> Reached(scripts, n)
      invariant !changed ==> Closed(scripts, names)
      decreases |all - names|, changed
    {
      ghost var start := names;
      names, changed := OnePass(scripts, names);
      if changed {
        assert all - names < all - start by {
          var n :| n in names && n !in start;
          assert n in all - start;
        }
        Shrinks(all - names, all - start);
      }
    }
    forall n, more | Reached(scripts, n) && Closed(scripts, more)
      ensures n in more
    {
      var chain :| Chain(scripts, chain, n);
      ReachedIsLeast(scripts, chain, n, more);
    }
  }

  lemma Shrinks<T>(a: set<T>, b: set<T>)
    requires a < b
    ensures |a| < |b|
  {
    assert b == a + (b - a);
  }

  /** Only which scripts there are matters. */
  lemma ReachedInAnyOrder(scripts: seq<Script>, shuffled: seq<Script>, name: string)
    requires forall s :: s in scripts <==> s in shuffled
    ensures Reached(scripts, name) <==> Reached(shuffled, name)
  {
    if chain :| Chain(scripts, chain, name) {
      assert Chain(shuffled, chain, name);
    }
    if chain :| Chain(shuffled, chain, name) {
      assert Chain(scripts, chain, name);
    }
  }

  type Finding = (string, nat)

  /** A finding for each hit of each script that sets pipefail or runs inside one that does, and no other. */
  method ScanTexts(scripts: seq<Script>) returns (found: set<Finding>)
    ensures forall path, line :: (path, line) in found <==>
        exists s :: s in scripts && s.path == path && line in s.hits
                    && (s.setsPipefail || Reached(scripts, BaseName(s.path)))
  {
    var sourced := SourcedByPipefail(scripts);
    found := {};
    for i := 0 to |scripts|
      invariant forall path, line :: (path, line) in found <==>
          exists s :: s in scripts[..i] && s.path == path && line in s.hits && Active(s, sourced)
    {
      var s := scripts[i];
      assert scripts[..i + 1] == scripts[..i] + [s];
      if Active(s, sourced) {
        found := found + set line | line in s.hits :: (s.path, line);
      }
    }
    assert scripts[..|scripts|] == scripts;
  }

  /** The name of a script is what stands behind its path's last slash. */
  lemma {:induction false} BaseNameIs(dir: string, name: string)
    requires '/' !in name
    ensures BaseName(name) == name && BaseName(dir + ("/" + name)) == name
    decreases |dir|
  {
    FirstSlash(dir, name, "/");
    NoSlash(name);
    var i := IndexOf(dir, '/');
    if i < |dir| {
      BaseNameIs(dir[i + 1..], name);
    }
  }

  lemma NoSlash(name: string)
    requires '/' !in name
    ensures BaseName(name) == name
  {
    hide IndexOf;
  }

  lemma FirstSlash(dir: string, name: string, slash: string)
    requires slash == "/"
    ensures var path, i := dir + (slash + name), IndexOf(dir, '/');
            BaseName(path) == if i < |dir| then BaseName(dir[i + 1..] + (slash + name)) else BaseName(name)
  {
    hide *;
    var path := dir + (slash + name);
    SlashAt(path, dir, name, slash);
    IndexIsFirst(path, IndexOf(dir, '/'));
    BaseNameBehind(path, IndexOf(dir, '/'));
  }

  lemma SlashAt(path: string, dir: string, name: string, slash: string)
    requires path == dir + (slash + name) && slash == "/"
    ensures var i := IndexOf(dir, '/');
            && i <= |dir| && i < |path| && path[i] == '/' && '/' !in path[..i]
            && path[i + 1..] == if i < |dir| then dir[i + 1..] + (slash + name) else name
  {
    hide IndexOf;
    var i := IndexOf(dir, '/');
    assert path[..i] == dir[..i];
    if i < |dir| {
      assert path[i + 1..] == dir[i + 1..] + (slash + name);
    } else {
      assert path[i + 1..] == name;
    }
  }

  lemma BaseNameBehind(path: string, i: nat)
    requires IndexOf(path, '/') == i < |path|
    ensures BaseName(path) == BaseName(path[i + 1..])
  {
    hide IndexOf;
  }

  lemma IndexIsFirst(path: string, i: nat)
    requires i < |path| && path[i] == '/' && '/' !in path[..i]
    ensures IndexOf(path, '/') == i
  {
    var j := IndexOf(path, '/');
    assert path[i] in path;
    assert forall k :: 0 <= k < i ==> path[k] == path[..i][k];
    assert forall k :: 0 <= k < j ==> path[k] == path[..j][k];
  }
}
