/** scripts/bump-image-digest.py: which image mappings a values file pins, and which lines each one owns. */
module Pins {
  import opened Prelude
  import opened PinText

  datatype Pin = Pin(path: string, image: string, repoLine: nat, tagLine: Option<nat>, digestLine: Option<nat>)

  /** All that the scan reads of a line. */
  datatype View = View(skipped: bool, key: Option<Key>, repo: Option<Repo>)

  function ViewOf(line: string): View {
    View(Skipped(line), KeyOf(line), RepoOf(line))
  }

  function Views(lines: seq<string>): seq<View> {
    seq(|lines|, k requires 0 <= k < |lines| => ViewOf(lines[k]))
  }

  predicate IsSibling(name: string) {
    name == "tag" || name == "digest" || name == "pullPolicy" || name == "repository"
  }

  /** The scan of a mapping indented by `base` goes on behind the line. */
  predicate Passes(v: View, base: nat) {
    || v.skipped
    || (v.key.Some? && v.key.value.indent >= base && IsSibling(v.key.value.name)
        && !(v.key.value.indent == base && v.key.value.name == "repository"))
  }

  predicate IsKey(v: View, base: nat, name: string) {
    !v.skipped && v.key == Some(Key(base, name))
  }

  /** A first-party repository line. */
  predicate IsPinLine(v: View) {
    v.repo.Some? && !("mirror/" <= v.repo.value.image)
  }

  /** The first `name` key of the mapping from `j` on. */
  function FirstKey(views: seq<View>, j: nat, base: nat, name: string): Option<nat>
    decreases |views| - j
  {
    if j >= |views| then None
    else if IsKey(views[j], base, name) then Some(j)
    else if !Passes(views[j], base) then None
    else FirstKey(views, j + 1, base, name)
  }

  function PinAt(views: seq<View>, i: nat, path: string): Pin
    requires i < |views| && IsPinLine(views[i])
  {
    var base := views[i].repo.value.indent;
    Pin(path, views[i].repo.value.image, i, FirstKey(views, i + 1, base, "tag"), FirstKey(views, i + 1, base, "digest"))
  }

  function PinsAt(views: seq<View>, i: nat, path: string): seq<Pin>
    requires i < |views|
  {
    if IsPinLine(views[i]) then [PinAt(views, i, path)] else []
  }

  function PinsFrom(views: seq<View>, i: nat, path: string): seq<Pin>
    decreases |views| - i
  {
    if i >= |views| then []
    else PinsAt(views, i, path) + PinsFrom(views, i + 1, path)
  }

  function Or(first: Option<nat>, second: Option<nat>): Option<nat> {
    if first.Some? then first else second
  }

  method ScanBlock(lines: array<string>, i: nat, base: nat) returns (tag: Option<nat>, digest: Option<nat>)
    requires i < lines.Length
    ensures tag == FirstKey(Views(lines[..]), i + 1, base, "tag")
    ensures digest == FirstKey(Views(lines[..]), i + 1, base, "digest")
  {
    tag, digest := None, None;
    ghost var views := Views(lines[..]);
    for j := i + 1 to lines.Length
      invariant Or(tag, FirstKey(views, j, base, "tag")) == FirstKey(views, i + 1, base, "tag")
      invariant Or(digest, FirstKey(views, j, base, "digest")) == FirstKey(views, i + 1, base, "digest")
    {
      hide Skipped, KeyOf, RepoOf;
      assert views[j] == ViewOf(lines[j]);
      if Skipped(lines[j]) {
        continue;
      }
      var key := KeyOf(lines[j]);
      if key.None? || key.value.indent < base || !IsSibling(key.value.name) {
        break;
      }
      if key.value.indent > base {
        continue;
      }
      if key.value.name == "repository" {
        break;
      }
      if key.value.name == "tag" && tag.None? {
        tag := Some(j);
      } else if key.value.name == "digest" && digest.None? {
        digest := Some(j);
      }
    }
  }

  method ReadPin(lines: array<string>, i: nat, path: string) returns (found: seq<Pin>)
    requires i < lines.Length
    ensures found == PinsAt(Views(lines[..]), i, path)
  {
    hide Skipped, KeyOf, RepoOf;
    found := [];
    assert Views(lines[..])[i] == ViewOf(lines[i]);
    var repo := RepoOf(lines[i]);
    if repo.Some? && !("mirror/" <= repo.value.image) {
      var tag, digest := ScanBlock(lines, i, repo.value.indent);
      found := [Pin(path, repo.value.image, i, tag, digest)];
    }
  }

  method FindPins(lines: array<string>, path: string) returns (pins: seq<Pin>)
    ensures pins == PinsFrom(Views(lines[..]), 0, path)
  {
    hide ViewOf, PinsAt;
    pins := [];
    ghost var views := Views(lines[..]);
    for i := 0 to lines.Length
      invariant PinsFrom(views, 0, path) == pins + PinsFrom(views, i, path)
    {
      var found := ReadPin(lines, i, path);
      pins := pins + found;
    }
  }

  // ------------------------------------------------------------------ ownership

  /** `j` is the first `name` key behind `i`, and every line between belongs to the mapping. */
  ghost predicate OwnKey(views: seq<View>, i: nat, j: nat, base: nat, name: string) {
    && i <= j < |views| && IsKey(views[j], base, name)
    && forall k :: i <= k < j ==> Passes(views[k], base) && !IsKey(views[k], base, name)
  }

  lemma {:induction false} FirstKeyIs(views: seq<View>, i: nat, j: nat, base: nat, name: string)
    ensures FirstKey(views, i, base, name) == Some(j) <==> OwnKey(views, i, j, base, name)
    decreases |views| - i
  {
    if i < |views| && Passes(views[i], base) && !IsKey(views[i], base, name) {
      FirstKeyIs(views, i + 1, j, base, name);
    }
  }

  /** What a pin holds: its line, its image, and the first `tag` and `digest` key of its own mapping. */
  lemma PinOwnsItsKeys(views: seq<View>, i: nat, path: string, k: nat)
    requires i < |views| && IsPinLine(views[i])
    ensures var pin, base := PinAt(views, i, path), views[i].repo.value.indent;
            && pin.path == path && pin.repoLine == i && views[i].repo == Some(Repo(base, pin.image))
            && (pin.tagLine == Some(k) <==> OwnKey(views, i + 1, k, base, "tag"))
            && (pin.digestLine == Some(k) <==> OwnKey(views, i + 1, k, base, "digest"))
  {
    FirstKeyIs(views, i + 1, k, views[i].repo.value.indent, "tag");
    FirstKeyIs(views, i + 1, k, views[i].repo.value.indent, "digest");
    hide FirstKey, OwnKey;
  }

  /** No repository line is passed over. */
  lemma {:induction false} EveryMappingIsPinned(views: seq<View>, i: nat, j: nat, path: string)
    requires i <= j < |views| && IsPinLine(views[j])
    ensures PinAt(views, j, path) in PinsFrom(views, i, path)
    decreases |views| - i
  {
    hide FirstKey, IsPinLine;
    if i < j {
      EveryMappingIsPinned(views, i + 1, j, path);
    }
  }

  /** A repository line's key is `repository`. */
  ghost predicate Coherent(views: seq<View>) {
    forall k :: 0 <= k < |views| && views[k].repo.Some? ==>
      IsKey(views[k], views[k].repo.value.indent, "repository")
  }

  lemma {:induction false} ViewsAreCoherent(lines: seq<string>)
    ensures Coherent(Views(lines))
  {
    forall k | 0 <= k < |lines| && RepoOf(lines[k]).Some?
      ensures IsKey(ViewOf(lines[k]), RepoOf(lines[k]).value.indent, "repository")
    {
      RepoIsKey(lines[k]);
    }
  }

  predicate Owns(pin: Pin, line: nat) {
    pin.tagLine == Some(line) || pin.digestLine == Some(line)
  }

  /** What a pin owns stands behind its repository line, in range, under its own key. */
  lemma OwnedLine(views: seq<View>, i: nat, path: string, line: nat)
    requires i < |views| && IsPinLine(views[i]) && Owns(PinAt(views, i, path), line)
    ensures var base := views[i].repo.value.indent;
            && i < line < |views| && (forall k :: i < k < line ==> Passes(views[k], base))
            && (PinAt(views, i, path).tagLine == Some(line) ==> IsKey(views[line], base, "tag"))
            && (PinAt(views, i, path).digestLine == Some(line) ==> IsKey(views[line], base, "digest"))
  {
    var base := views[i].repo.value.indent;
    FirstKeyIs(views, i + 1, line, base, "tag");
    FirstKeyIs(views, i + 1, line, base, "digest");
  }

  lemma RepositoryStops(views: seq<View>, i: nat)
    requires Coherent(views) && i < |views| && views[i].repo.Some?
    ensures !Passes(views[i], views[i].repo.value.indent)
  {
    assert IsKey(views[i], views[i].repo.value.indent, "repository");
  }

  /** Two pins of one file own no line in common, and a pin's own two lines differ. */
  lemma PinsOwnApart(views: seq<View>, i: nat, j: nat, path: string, line: nat)
    requires Coherent(views) && i < |views| && j < |views| && IsPinLine(views[i]) && IsPinLine(views[j])
    requires Owns(PinAt(views, i, path), line) && Owns(PinAt(views, j, path), line)
    ensures i == j
    ensures PinAt(views, i, path).tagLine != PinAt(views, i, path).digestLine
  {
    OwnedLine(views, i, path, line);
    OwnedLine(views, j, path, line);
    RepositoryStops(views, i);
    RepositoryStops(views, j);
  }

  // ----------------------------------------------------------------- all pins

  /** The pin is the one the scan makes of its repository line. */
  ghost predicate Scanned(views: seq<View>, pin: Pin) {
    pin.repoLine < |views| && IsPinLine(views[pin.repoLine]) && pin == PinAt(views, pin.repoLine, pin.path)
  }

  ghost predicate Apart(p: Pin, q: Pin) {
    forall line :: !(Owns(p, line) && Owns(q, line))
  }

  /** Pins in a row own different lines. */
  ghost predicate AllApart(pins: seq<Pin>) {
    forall j, k :: 0 <= j < k < |pins| ==> Apart(pins[j], pins[k])
  }

  ghost predicate Rising(pins: seq<Pin>, from: nat) {
    pins == [] || (from <= pins[0].repoLine && Rising(pins[1..], pins[0].repoLine + 1))
  }

  lemma {:induction false} RisingFromEarlier(pins: seq<Pin>, from: nat, earlier: nat)
    requires Rising(pins, from) && earlier <= from
    ensures Rising(pins, earlier)
  {
  }

  lemma {:induction false} RisingAt(pins: seq<Pin>, from: nat, k: nat)
    requires Rising(pins, from) && k < |pins|
    ensures from <= pins[k].repoLine
  {
    if k > 0 {
      RisingAt(pins[1..], pins[0].repoLine + 1, k - 1);
    }
  }

  /** The pins of a file are those of its repository lines, each once, from top to bottom. */
  lemma {:induction false} PinsAreScanned(views: seq<View>, i: nat, path: string)
    ensures var pins := PinsFrom(views, i, path);
            Rising(pins, i) && forall k :: 0 <= k < |pins| ==> Scanned(views, pins[k]) && pins[k].path == path
    decreases |views| - i
  {
    hide FirstKey, IsPinLine;
    if i < |views| {
      PinsAreScanned(views, i + 1, path);
      var rest := PinsFrom(views, i + 1, path);
      if IsPinLine(views[i]) {
        assert ([PinAt(views, i, path)] + rest)[1..] == rest;
      } else {
        assert [] + rest == rest;
        RisingFromEarlier(rest, i + 1, i);
      }
    }
  }

  function OfImage(pins: seq<Pin>, image: string): seq<Pin> {
    if pins == [] then []
    else (if pins[0].image == image then [pins[0]] else []) + OfImage(pins[1..], image)
  }

  lemma {:induction false} OfImageKeeps(pins: seq<Pin>, image: string, views: seq<View>, path: string, from: nat)
    requires Rising(pins, from) && forall k :: 0 <= k < |pins| ==> Scanned(views, pins[k]) && pins[k].path == path
    ensures var kept := OfImage(pins, image);
            Rising(kept, from) && forall k :: 0 <= k < |kept| ==> Scanned(views, kept[k]) && kept[k].path == path
  {
    hide Scanned;
    if pins != [] {
      var rest := OfImage(pins[1..], image);
      OfImageKeeps(pins[1..], image, views, path, pins[0].repoLine + 1);
      if pins[0].image == image {
        assert ([pins[0]] + rest)[1..] == rest;
      } else {
        assert [] + rest == rest;
        RisingFromEarlier(rest, pins[0].repoLine + 1, from);
      }
    }
  }

  lemma {:induction false} RisingPairs(pins: seq<Pin>, from: nat, j: nat, k: nat)
    requires Rising(pins, from) && j < k < |pins|
    ensures pins[j].repoLine < pins[k].repoLine
  {
    if j == 0 {
      RisingAt(pins[1..], pins[0].repoLine + 1, k - 1);
    } else {
      RisingPairs(pins[1..], pins[0].repoLine + 1, j - 1, k - 1);
    }
  }

  /** The pins of one image in one file own different lines. */
  lemma PinsOfImageAreApart(views: seq<View>, path: string, image: string)
    requires Coherent(views)
    ensures var pins := OfImage(PinsFrom(views, 0, path), image);
            AllApart(pins) && forall k :: 0 <= k < |pins| ==> Scanned(views, pins[k])
  {
    var pins := OfImage(PinsFrom(views, 0, path), image);
    PinsAreScanned(views, 0, path);
    OfImageKeeps(PinsFrom(views, 0, path), image, views, path, 0);
    forall j, k, line | 0 <= j < k < |pins| && Owns(pins[j], line)
      ensures !Owns(pins[k], line)
    {
      RisingPairs(pins, 0, j, k);
      if Owns(pins[k], line) {
        PinsOwnApart(views, pins[j].repoLine, pins[k].repoLine, path, line);
      }
    }
  }
}
