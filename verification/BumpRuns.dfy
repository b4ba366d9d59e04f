/** scripts/bump-image-digest.py: runs of the bump command over whole files. */
module BumpRuns {
  import opened Prelude
  import opened PinText
  import opened Pins
  import opened BumpImage

  /** The pins of one image in one file. */
  function FilePins(lines: seq<string>, path: string, image: string): seq<Pin> {
    OfImage(PinsFrom(Views(lines), 0, path), image)
  }

  lemma ScannedInRange(views: seq<View>, pin: Pin)
    requires Coherent(views) && Scanned(views, pin)
    ensures InRange(pin, |views|)
  {
    var i, path := pin.repoLine, pin.path;
    if pin.tagLine.Some? {
      OwnedLine(views, i, path, pin.tagLine.value);
    }
    if pin.digestLine.Some? {
      OwnedLine(views, i, path, pin.digestLine.value);
    }
  }

  lemma FilePinsFit(lines: seq<string>, path: string, image: string)
    ensures var pins := FilePins(lines, path, image);
            AllInRange(pins, |lines|) && AllApart(pins) && forall k :: 0 <= k < |pins| ==> Scanned(Views(lines), pins[k])
  {
    var views := Views(lines);
    ViewsAreCoherent(lines);
    PinsOfImageAreApart(views, path, image);
    var pins := FilePins(lines, path, image);
    forall k | 0 <= k < |pins|
      ensures InRange(pins[k], |lines|)
    {
      ScannedInRange(views, pins[k]);
    }
  }

  // ------------------------------------------------------------- shape is kept

  lemma {:induction false} ViewKept(line: string, new_: string)
    requires KeyOf(line).Some? && KeyOf(line).value.name != "repository" && KeyOf(new_) == KeyOf(line)
    ensures ViewOf(new_) == ViewOf(line)
  {
    KeyIsNotSkipped(line);
    KeyIsNotSkipped(new_);
    if RepoOf(line).Some? {
      RepoIsKey(line);
    }
    if RepoOf(new_).Some? {
      RepoIsKey(new_);
    }
  }

  lemma SubKeepsView(line: string, text: string)
    requires KeyOf(line).Some? && (KeyOf(line).value.name == "tag" || KeyOf(line).value.name == "digest")
    ensures ViewOf(SubAll(line, KeyOf(line).value.name, text)) == ViewOf(line)
  {
    hide KeyOf, Skipped, RepoOf, SubAll;
    TagAndDigestAreGood();
    SubKeepsKey(line, text);
    ViewKept(line, SubAll(line, KeyOf(line).value.name, text));
  }

  lemma {:induction false} RetagKeepsView(line: string, ref: Option<string>, digest: string)
    requires KeyOf(line).Some? && KeyOf(line).value.name == "tag" && ValueOf(line, "tag").Some?
    ensures ViewOf(RewriteTag(line, ref, digest)) == ViewOf(line)
  {
    hide KeyOf, Skipped, RepoOf, ReplaceAll, ValueOf, Renewed;
    var current := ValueOf(line, "tag").value;
    ReplaceKeepsKey(line, current, Renewed(current, ref, digest));
    ViewKept(line, RewriteTag(line, ref, digest));
  }

  lemma PutReadsAlike(lines: seq<string>, after: seq<string>, pin: Pin)
    requires |after| == |lines| && InRange(pin, |lines|)
    requires forall k :: 0 <= k < |lines| && !Owns(pin, k) ==> after[k] == lines[k]
    requires pin.tagLine.Some? ==> ViewOf(after[pin.tagLine.value]) == ViewOf(lines[pin.tagLine.value])
    requires pin.digestLine.Some? ==> ViewOf(after[pin.digestLine.value]) == ViewOf(lines[pin.digestLine.value])
    ensures Views(after) == Views(lines)
  {
    hide ViewOf;
  }

  /** A rewrite changes only the pin's own lines and leaves every line reading as the same key. */
  lemma RewriteKeepsViews(lines: seq<string>, pin: Pin, ref: Option<string>, digest: string)
    requires Scanned(Views(lines), pin) && InRange(pin, |lines|)
    ensures |Rewritten(lines, pin, ref, digest)| == |lines| && Views(Rewritten(lines, pin, ref, digest)) == Views(lines)
    ensures forall k :: 0 <= k < |lines| && !Owns(pin, k) ==> Rewritten(lines, pin, ref, digest)[k] == lines[k]
  {
    hide RewriteOwn, KeyOf, Skipped, RepoOf, Scanned;
    var own := OwnOf(lines, pin);
    var new_ := RewriteOwn(own, ref, digest);
    OwnKept(lines, pin, ref, digest);
    forall k | 0 <= k < |lines| && !Owns(pin, k)
      ensures Put(lines, pin, new_)[k] == lines[k]
    {
      OtherLinesStay(lines, pin, new_, k);
    }
    PutThenOwn(lines, pin, new_);
    PutReadsAlike(lines, Put(lines, pin, new_), pin);
  }

  /** Each line a pin owns reads after the rewrite as it did before. */
  lemma OwnKept(lines: seq<string>, pin: Pin, ref: Option<string>, digest: string)
    requires Scanned(Views(lines), pin) && InRange(pin, |lines|)
    ensures var own, new_ := OwnOf(lines, pin), RewriteOwn(OwnOf(lines, pin), ref, digest);
            && (own.tag.Some? <==> new_.tag.Some?) && (own.digest.Some? <==> new_.digest.Some?)
            && (own.tag.Some? ==> ViewOf(new_.tag.value) == ViewOf(own.tag.value))
            && (own.digest.Some? ==> ViewOf(new_.digest.value) == ViewOf(own.digest.value))
  {
    hide KeyOf, Skipped, RepoOf, ReplaceAll, ValueOf, SubAll, Strip, RewriteTag, Renewed;
    var own := OwnOf(lines, pin);
    var views := Views(lines);
    if pin.digestLine.Some? {
      OwnedLine(views, pin.repoLine, pin.path, pin.digestLine.value);
      SubKeepsView(own.digest.value, digest);
    }
    if pin.tagLine.Some? {
      OwnedLine(views, pin.repoLine, pin.path, pin.tagLine.value);
      if Given(ref) {
        SubKeepsView(own.tag.value, ref.value);
      }
      if ShapeOf(own) == Combined {
        RetagKeepsView(own.tag.value, ref, digest);
      }
    }
  }

  lemma {:induction false} BumpKeepsViews(lines: seq<string>, pins: seq<Pin>, ref: Option<string>, digest: string)
    requires AllInRange(pins, |lines|) && forall k :: 0 <= k < |pins| ==> Scanned(Views(lines), pins[k])
    ensures |Bumped(lines, pins, ref, digest)| == |lines| && Views(Bumped(lines, pins, ref, digest)) == Views(lines)
  {
    hide Stale, Scanned, Views, Rewritten, InRange;
    if pins != [] {
      if Stale(OwnOf(lines, pins[0]), ref, digest) {
        RewriteKeepsViews(lines, pins[0], ref, digest);
      } else {
        BumpKeepsViews(lines, pins[1..], ref, digest);
      }
    }
  }

  // --------------------------------------------------------------- line endings

  /** The pin's lines with their line endings. */
  function Ended(own: Own, tagEnd: string, digestEnd: string): Own {
    Own(if own.tag.Some? then Some(own.tag.value + tagEnd) else None,
        if own.digest.Some? then Some(own.digest.value + digestEnd) else None)
  }

  predicate OwnUnbroken(own: Own) {
    (own.tag.Some? ==> Unbroken(own.tag.value)) && (own.digest.Some? ==> Unbroken(own.digest.value))
  }

  lemma ValueBeforeEnding(body: string, ending: string, key: string)
    requires AllBreaks(ending) && GoodKey(key)
    ensures ValueOf(body + ending, key) == ValueOf(body, key)
  {
    FindBeforeEnding(body, ending, key);
    if Find(body, key).Some? {
      var e := Find(body, key).value;
      assert (body + ending)[e.from..e.to] == body[e.from..e.to];
    }
  }

  lemma TagEndingStays(tag: string, ending: string, ref: Option<string>, digest: string)
    requires AllBreaks(ending) && Unbroken(tag) && ValueOf(tag, "tag").Some?
    requires IsDigest(digest) && (ref.Some? ==> Unbroken(ref.value))
    ensures ValueOf(tag + ending, "tag") == ValueOf(tag, "tag")
    ensures RewriteTag(tag + ending, ref, digest) == RewriteTag(tag, ref, digest) + ending
    ensures Unbroken(RewriteTag(tag, ref, digest))
  {
    hide Find, ReplaceAll;
    TagAndDigestAreGood();
    ValueBeforeEnding(tag, ending, "tag");
    var current := ValueOf(tag, "tag").value;
    var renewed := Renewed(current, ref, digest);
    ReplaceBeforeEnding(tag, ending, Quoted(current), Quoted(renewed));
    DigestIsPlain(digest);
    KeptIsUnbroken(tag, ref);
    UnbrokenInTurn(KeepRef(current, ref), "@");
    UnbrokenInTurn(KeepRef(current, ref) + "@", digest);
    UnbrokenInTurn(['"'], renewed);
    UnbrokenInTurn(['"'] + renewed, ['"']);
    ReplaceUnbroken(tag, Quoted(current), Quoted(renewed));
  }

  lemma KeptIsUnbroken(tag: string, ref: Option<string>)
    requires Unbroken(tag) && ValueOf(tag, "tag").Some? && (ref.Some? ==> Unbroken(ref.value))
    ensures Unbroken(KeepRef(ValueOf(tag, "tag").value, ref))
  {
    var e := Find(tag, "tag").value;
    var current := tag[e.from..e.to];
    assert Unbroken(current);
    var i := IndexOf(current, '@');
    assert Unbroken(current[..i]);
  }

  /**
   * A rewrite commutes with the line endings and puts no line break of its own into a line, so a file
   * joined and split again has the same lines.
   */
  lemma EndingsStay(own: Own, tagEnd: string, digestEnd: string, ref: Option<string>, digest: string)
    requires OwnUnbroken(own) && AllBreaks(tagEnd) && AllBreaks(digestEnd)
    requires IsDigest(digest) && (ref.Some? ==> Unbroken(ref.value))
    ensures RewriteOwn(Ended(own, tagEnd, digestEnd), ref, digest) == Ended(RewriteOwn(own, ref, digest), tagEnd, digestEnd)
    ensures OwnUnbroken(RewriteOwn(own, ref, digest))
  {
    hide Find, ReplaceAll, ValueOf, SubAll, Strip, RewriteTag, Renewed;
    TagAndDigestAreGood();
    DigestIsPlain(digest);
    if own.digest.Some? {
      ValueBeforeEnding(own.digest.value, digestEnd, "digest");
      SubBeforeEnding(own.digest.value, digestEnd, "digest", digest);
      SubUnbroken(own.digest.value, "digest", digest);
    }
    if own.tag.Some? {
      ValueBeforeEnding(own.tag.value, tagEnd, "tag");
      if Given(ref) {
        SubBeforeEnding(own.tag.value, tagEnd, "tag", ref.value);
        SubUnbroken(own.tag.value, "tag", ref.value);
      }
      if ValueOf(own.tag.value, "tag").Some? {
        TagEndingStays(own.tag.value, tagEnd, ref, digest);
      }
    }
  }

  // ----------------------------------------------------------------------- runs

  /** The file's lines after one run for the image. */
  ghost function Run(lines: seq<string>, path: string, image: string, ref: Option<string>, digest: string): seq<string> {
    FilePinsFit(lines, path, image);
    Bumped(lines, FilePins(lines, path, image), ref, digest)
  }

  ghost function Runs(lines: seq<string>, path: string, image: string, ref: Option<string>, digest: string, n: nat): seq<string>
    decreases n
  {
    if n == 0 then lines else Runs(Run(lines, path, image, ref, digest), path, image, ref, digest, n - 1)
  }

  ghost function StaleCount(lines: seq<string>, path: string, image: string, ref: Option<string>, digest: string): nat {
    FilePinsFit(lines, path, image);
    StaleIn(lines, FilePins(lines, path, image), ref, digest)
  }

  ghost predicate AllPinsSettle(lines: seq<string>, path: string, image: string, ref: Option<string>, digest: string) {
    FilePinsFit(lines, path, image);
    AllSettle(lines, FilePins(lines, path, image), ref, digest)
  }

  ghost predicate AllPinsCurrent(lines: seq<string>, path: string, image: string, ref: Option<string>, digest: string) {
    FilePinsFit(lines, path, image);
    var pins := FilePins(lines, path, image);
    forall k :: 0 <= k < |pins| ==> Current(OwnOf(lines, pins[k]), ref, digest)
  }

  /** One run keeps every pin at its lines and lowers the number of stale ones by exactly one, if there is any. */
  lemma RunMakesOneCurrent(lines: seq<string>, path: string, image: string, ref: Option<string>, digest: string)
    requires GoodArgs(ref, digest) && AllPinsSettle(lines, path, image, ref, digest)
    ensures var after := Run(lines, path, image, ref, digest);
            && |after| == |lines| && FilePins(after, path, image) == FilePins(lines, path, image)
            && AllPinsSettle(after, path, image, ref, digest)
            && (StaleCount(lines, path, image, ref, digest) == 0 ==> after == lines)
            && (StaleCount(lines, path, image, ref, digest) > 0 ==>
                  StaleCount(after, path, image, ref, digest) == StaleCount(lines, path, image, ref, digest) - 1)
  {
    hide Stale, Views, OwnOf, Settles, InRange, Scanned, Apart;
    var pins := FilePins(lines, path, image);
    FilePinsFit(lines, path, image);
    BumpKeepsViews(lines, pins, ref, digest);
    OneFewer(lines, pins, ref, digest);
    forall k | 0 <= k < |pins|
      ensures var after := OwnOf(Bumped(lines, pins, ref, digest), pins[k]);
              after == OwnOf(lines, pins[k]) || !Stale(after, ref, digest)
    {
      StaleWasStale(lines, pins, ref, digest, k);
    }
  }

  /** A run that touches nothing certifies every quoted, digest-carrying pin of the image. */
  lemma {:induction false} CleanRunCertifies(lines: seq<string>, path: string, image: string, ref: Option<string>, digest: string)
    requires GoodArgs(ref, digest) && StaleCount(lines, path, image, ref, digest) == 0
    ensures AllPinsCurrent(lines, path, image, ref, digest)
  {
    hide Stale, Views, OwnOf, InRange, Scanned, Apart, Current;
    var pins := FilePins(lines, path, image);
    FilePinsFit(lines, path, image);
    forall k | 0 <= k < |pins|
      ensures Current(OwnOf(lines, pins[k]), ref, digest)
    {
      NoneStaleIsCurrent(lines, pins, ref, digest, k);
    }
  }

  /** As many runs as there are stale pins make all of them current, and no fewer do. */
  lemma {:induction false} RunsConverge(lines: seq<string>, path: string, image: string, ref: Option<string>,
                                        digest: string, n: nat)
    requires GoodArgs(ref, digest) && AllPinsSettle(lines, path, image, ref, digest)
    requires n <= StaleCount(lines, path, image, ref, digest)
    ensures var after := Runs(lines, path, image, ref, digest, n);
            && |after| == |lines| && FilePins(after, path, image) == FilePins(lines, path, image)
            && StaleCount(after, path, image, ref, digest) == StaleCount(lines, path, image, ref, digest) - n
            && (n == StaleCount(lines, path, image, ref, digest) ==> AllPinsCurrent(after, path, image, ref, digest))
    decreases n
  {
    hide StaleCount, AllPinsSettle, AllPinsCurrent, Run, FilePins;
    if n == 0 {
      if StaleCount(lines, path, image, ref, digest) == 0 {
        CleanRunCertifies(lines, path, image, ref, digest);
      }
    } else {
      RunMakesOneCurrent(lines, path, image, ref, digest);
      RunsConverge(Run(lines, path, image, ref, digest), path, image, ref, digest, n - 1);
    }
  }

  // ----------------------------------------------------------------- the command

  /** A listed file: its lines, or nothing when it is missing. */
  datatype File = File(path: string, lines: Option<seq<string>>)

  ghost function BumpFile(file: File, image: string, ref: Option<string>, digest: string): File {
    match file.lines
    case Some(lines) => File(file.path, Some(Run(lines, file.path, image, ref, digest)))
    case None => file
  }

  predicate HasPin(file: File, image: string) {
    file.lines.Some? && FilePins(file.lines.value, file.path, image) != []
  }

  ghost predicate IsStale(file: File, image: string, ref: Option<string>, digest: string) {
    file.lines.Some? && StaleCount(file.lines.value, file.path, image, ref, digest) > 0
  }

  ghost function Touched(files: seq<File>, image: string, ref: Option<string>, digest: string): seq<string> {
    if files == [] then []
    else
      Touched(files[..|files| - 1], image, ref, digest)
      + (if IsStale(files[|files| - 1], image, ref, digest) then [files[|files| - 1].path] else [])
  }

  lemma TouchedNone(image: string, ref: Option<string>, digest: string)
    ensures Touched([], image, ref, digest) == []
  {
  }

  lemma TouchedNext(files: seq<File>, k: nat, image: string, ref: Option<string>, digest: string)
    requires k < |files|
    ensures Touched(files[..k + 1], image, ref, digest)
              == Touched(files[..k], image, ref, digest) + (if IsStale(files[k], image, ref, digest) then [files[k].path] else [])
  {
    hide IsStale;
    assert files[..k + 1][..k] == files[..k];
  }

  method BumpOne(file: File, image: string, ref: Option<string>, digest: string)
    returns (found: bool, changed: bool, after: File)
    ensures found == HasPin(file, image) && changed == IsStale(file, image, ref, digest)
    ensures after == BumpFile(file, image, ref, digest)
  {
    hide Stale, Views, PinsFrom, OfImage;
    found, changed, after := false, false, file;
    if file.lines.None? {
      return;
    }
    var text := file.lines.value;
    var lines := new string[|text|](i requires 0 <= i < |text| => text[i]);
    assert lines[..] == text;
    FilePinsFit(text, file.path, image);
    var all := FindPins(lines, file.path);
    var pins := OfImage(all, image);
    if pins == [] {
      return;
    }
    found := true;
    changed := RewriteAny(lines, pins, ref, digest);
    after := File(file.path, Some(lines[..]));
  }

  /** The loop over the listed files. */
  method BumpAll(files: array<File>, image: string, ref: Option<string>, digest: string)
    returns (found: bool, touched: seq<string>)
    modifies files
    ensures found <==> exists k :: 0 <= k < files.Length && HasPin(old(files[k]), image)
    ensures touched == Touched(old(files[..]), image, ref, digest)
    ensures forall k :: 0 <= k < files.Length ==> files[k] == BumpFile(old(files[k]), image, ref, digest)
  {
    hide *;
    ghost var was := files[..];
    found, touched := false, [];
    TouchedNone(image, ref, digest);
    for k := 0 to files.Length
      invariant found <==> exists j :: 0 <= j < k && HasPin(was[j], image)
      invariant touched == Touched(was[..k], image, ref, digest)
      invariant forall j :: 0 <= j < k ==> files[j] == BumpFile(was[j], image, ref, digest)
      invariant forall j :: k <= j < files.Length ==> files[j] == was[j]
    {
      var file := files[k];
      assert file == was[k];
      var pinned, changed, after := BumpOne(file, image, ref, digest);
      TouchedNext(was, k, image, ref, digest);
      found := found || pinned;
      if changed {
        touched := touched + [file.path];
      }
      files[k] := after;
    }
    assert was[..files.Length] == was;
  }

  /** Re-pins the image in every file that pins it: 0 when some file does, 2 when none, 1 for a malformed digest. */
  method CmdBump(files: array<File>, image: string, ref: Option<string>, digest: string)
    returns (code: nat, touched: seq<string>)
    modifies files
    ensures !IsDigest(digest) ==> code == 1 && touched == [] && files[..] == old(files[..])
    ensures IsDigest(digest) ==>
              && (code == if exists k :: 0 <= k < files.Length && HasPin(old(files[k]), image) then 0 else 2)
              && touched == Touched(old(files[..]), image, ref, digest)
              && forall k :: 0 <= k < files.Length ==> files[k] == BumpFile(old(files[k]), image, ref, digest)
  {
    hide *;
    if !IsDigest(digest) {
      return 1, [];
    }
    var found;
    found, touched := BumpAll(files, image, ref, digest);
    code := if found then 0 else 2;
  }
}
