/** scripts/bump-image-digest.py: what a re-pinned image carries: the new digest, and its own ref unless one was given. */
module BumpRefs {
  import opened Prelude
  import opened PinText
  import opened Pins
  import opened BumpImage
  import opened BumpRuns

  // ------------------------------------------------------------------ shapes

  /** Which lines hold the pin, told by the values quoted on them. */
  lemma ShapeIs(own: Own)
    ensures ShapeOf(own) == Separate <==>
        own.digest.Some?
        && (var d := ValueOf(own.digest.value, "digest");
            (d.Some? && !Blank(d.value)) || own.tag.None? || ValueOf(own.tag.value, "tag").None?
            || '@' !in ValueOf(own.tag.value, "tag").value)
    ensures ShapeOf(own) == Bare <==>
        own.digest.None?
        && (own.tag.None? || ValueOf(own.tag.value, "tag").None? || '@' !in ValueOf(own.tag.value, "tag").value)
  {
    hide Find, Strip;
    if own.digest.Some? && ValueOf(own.digest.value, "digest").Some? {
      StripEmptiesBlanks(ValueOf(own.digest.value, "digest").value);
    }
  }

  // -------------------------------------------------------------------- refs

  /** What stands in front of the value's first `@`. */
  predicate HasRef(value: string, r: string) {
    '@' !in r && r + "@" <= value
  }

  /** The value written is the ref, `@` and the digest: the ref given, or the value's own, up to its first `@`. */
  lemma RenewedIs(value: string, r: string, ref: Option<string>, digest: string)
    requires HasRef(value, r)
    ensures Renewed(value, ref, digest) == (if Given(ref) then ref.value else r) + "@" + digest
  {
    var x := value[|r| + 1..];
    assert value == r + ['@'] + x;
    SplitAtJoined(r, '@', x);
  }

  /**
   * `after` is `before` re-pinned. A combined tag reads as the ref, the digest behind it; without a ref given it is the
   * tag's own. With separate keys a quoted digest reads as the new one, a quoted tag as the ref given, and without one
   * the tag line is as it was.
   */
  ghost predicate Repinned(before: Own, after: Own, ref: Option<string>, digest: string) {
    var given := ref.Some? && ref.value != "";
    match ShapeOf(before)
    case Separate =>
      && after.tag.Some? == before.tag.Some? && after.digest.Some? && before.digest.Some?
      && (ValueOf(before.digest.value, "digest").Some? ==> ValueOf(after.digest.value, "digest") == Some(digest))
      && (if given then
            before.tag.Some? && ValueOf(before.tag.value, "tag").Some? ==> ValueOf(after.tag.value, "tag") == ref
          else after.tag == before.tag)
    case Combined =>
      && after.tag.Some? && after.digest == before.digest
      && forall r :: HasRef(ValueOf(before.tag.value, "tag").value, r) ==>
           ValueOf(after.tag.value, "tag") == Some((if given then ref.value else r) + "@" + digest)
    case Bare => after == before
  }

  /** A pin that settles, or needs no rewrite, is re-pinned by one. */
  lemma {:induction false} RewriteRepins(own: Own, ref: Option<string>, digest: string)
    requires GoodArgs(ref, digest) && (Stale(own, ref, digest) ==> Settles(own, ref))
    ensures Repinned(own, RewriteOwn(own, ref, digest), ref, digest)
  {
    hide Find, ReplaceAll, SubAll, Strip, WrittenWhereRead, RewriteTag, Renewed;
    TagAndDigestAreGood();
    DigestIsPlain(digest);
    match ShapeOf(own) {
      case Separate =>
        SubbedText(own.digest.value, "digest", digest);
        if Given(ref) && own.tag.Some? {
          SubbedText(own.tag.value, "tag", ref.value);
        }
      case Combined =>
        var current := ValueOf(own.tag.value, "tag").value;
        CombinedReads(own.tag.value, ref, digest);
        forall r | HasRef(current, r)
          ensures Renewed(current, ref, digest) == (if Given(ref) then ref.value else r) + "@" + digest
        {
          RenewedIs(current, r, ref, digest);
        }
      case Bare =>
    }
  }

  lemma CombinedReads(tag: string, ref: Option<string>, digest: string)
    requires GoodArgs(ref, digest) && ValueOf(tag, "tag").Some?
    requires Renewed(ValueOf(tag, "tag").value, ref, digest) != ValueOf(tag, "tag").value ==> WrittenWhereRead(tag)
    ensures ValueOf(RewriteTag(tag, ref, digest), "tag") == Some(Renewed(ValueOf(tag, "tag").value, ref, digest))
  {
    hide Find, ReplaceAll, Renewed, WrittenWhereRead;
    if Renewed(ValueOf(tag, "tag").value, ref, digest) != ValueOf(tag, "tag").value {
      TagIsRenewed(tag, ref, digest);
    }
  }

  /** In the file: the pin's lines are re-pinned. */
  lemma RewrittenIsRepinned(lines: seq<string>, pin: Pin, ref: Option<string>, digest: string)
    requires InRange(pin, |lines|) && GoodArgs(ref, digest)
    requires Stale(OwnOf(lines, pin), ref, digest) ==> Settles(OwnOf(lines, pin), ref)
    ensures |Rewritten(lines, pin, ref, digest)| == |lines|
    ensures Repinned(OwnOf(lines, pin), OwnOf(Rewritten(lines, pin, ref, digest), pin), ref, digest)
  {
    hide Repinned, Settles, Stale, ReplaceAll, ValueOf, SubAll, Strip;
    PutThenOwn(lines, pin, RewriteOwn(OwnOf(lines, pin), ref, digest));
    RewriteRepins(OwnOf(lines, pin), ref, digest);
  }

  // -------------------------------------------------------------------- runs

  /** A run leaves each pin as it was, or rewrites it because it was stale. */
  lemma {:induction false} BumpedOwn(lines: seq<string>, pins: seq<Pin>, ref: Option<string>, digest: string, k: nat)
    requires AllInRange(pins, |lines|) && AllApart(pins) && k < |pins|
    ensures |Bumped(lines, pins, ref, digest)| == |lines|
    ensures var before, after := OwnOf(lines, pins[k]), OwnOf(Bumped(lines, pins, ref, digest), pins[k]);
            after == before || (Stale(before, ref, digest) && after == RewriteOwn(before, ref, digest))
  {
    hide Stale, OwnOf, RewriteOwn, InRange, Put;
    var rest := pins[1..];
    assert forall j :: 0 <= j < |rest| ==> rest[j] == pins[j + 1];
    if Stale(OwnOf(lines, pins[0]), ref, digest) {
      RewrittenHere(lines, pins[0], ref, digest);
      if k > 0 {
        RewrittenElsewhere(lines, pins[0], pins[k], ref, digest);
      }
    } else if k == 0 {
      BumpedElsewhere(lines, pins[0], rest, ref, digest);
    } else {
      BumpedOwn(lines, rest, ref, digest, k - 1);
    }
  }

  lemma RewrittenHere(lines: seq<string>, pin: Pin, ref: Option<string>, digest: string)
    requires InRange(pin, |lines|)
    ensures |Rewritten(lines, pin, ref, digest)| == |lines|
    ensures OwnOf(Rewritten(lines, pin, ref, digest), pin) == RewriteOwn(OwnOf(lines, pin), ref, digest)
  {
    hide ReplaceAll, ValueOf, SubAll, Strip;
    PutThenOwn(lines, pin, RewriteOwn(OwnOf(lines, pin), ref, digest));
  }

  /** So do several runs, each pin being rewritten once at most. */
  lemma {:induction false} RunsOwn(lines: seq<string>, path: string, image: string, ref: Option<string>, digest: string,
                                   n: nat, k: nat)
    requires GoodArgs(ref, digest) && AllPinsSettle(lines, path, image, ref, digest) && k < |FilePins(lines, path, image)|
    ensures var pin, last := FilePins(lines, path, image)[k], Runs(lines, path, image, ref, digest, n);
            && InRange(pin, |lines|) && |last| == |lines|
            && (OwnOf(last, pin) == OwnOf(lines, pin) || OwnOf(last, pin) == RewriteOwn(OwnOf(lines, pin), ref, digest))
    decreases n
  {
    hide *;
    var pin := FilePins(lines, path, image)[k];
    SettlesIfStale(lines, path, image, ref, digest, k);
    RunsUnfolded(lines, path, image, ref, digest, n);
    if n > 0 {
      var next := Run(lines, path, image, ref, digest);
      RunMakesOneCurrent(lines, path, image, ref, digest);
      OneRunOwn(lines, path, image, ref, digest, k);
      RunsOwn(next, path, image, ref, digest, n - 1, k);
      if Stale(OwnOf(lines, pin), ref, digest) {
        RewriteTwice(OwnOf(lines, pin), ref, digest);
      }
    }
  }

  lemma RunsUnfolded(lines: seq<string>, path: string, image: string, ref: Option<string>, digest: string, n: nat)
    ensures Runs(lines, path, image, ref, digest, n)
              == if n == 0 then lines else Runs(Run(lines, path, image, ref, digest), path, image, ref, digest, n - 1)
  {
  }

  lemma OneRunOwn(lines: seq<string>, path: string, image: string, ref: Option<string>, digest: string, k: nat)
    requires GoodArgs(ref, digest) && AllPinsSettle(lines, path, image, ref, digest) && k < |FilePins(lines, path, image)|
    ensures var pin, next := FilePins(lines, path, image)[k], Run(lines, path, image, ref, digest);
            && InRange(pin, |lines|) && |next| == |lines|
            && var before, after := OwnOf(lines, pin), OwnOf(next, pin);
               after == before || (Stale(before, ref, digest) && after == RewriteOwn(before, ref, digest))
  {
    hide OwnOf, RewriteOwn, InRange, Bumped, FilePins, Stale, Settles, AllPinsSettle, AllApart, GoodArgs;
    FilePinsFit(lines, path, image);
    BumpedOwn(lines, FilePins(lines, path, image), ref, digest, k);
  }

  lemma {:induction false} PinIsRepinned(lines: seq<string>, path: string, image: string, ref: Option<string>,
                                         digest: string, k: nat)
    requires GoodArgs(ref, digest) && AllPinsSettle(lines, path, image, ref, digest) && k < |FilePins(lines, path, image)|
    ensures var pin, last := FilePins(lines, path, image)[k],
                             Runs(lines, path, image, ref, digest, StaleCount(lines, path, image, ref, digest));
            && InRange(pin, |lines|) && |last| == |lines|
            && Repinned(OwnOf(lines, pin), OwnOf(last, pin), ref, digest)
  {
    hide OwnOf, RewriteOwn, InRange, Bumped, FilePins, Stale, Settles, Runs, Repinned;
    var pins, n := FilePins(lines, path, image), StaleCount(lines, path, image, ref, digest);
    var last := Runs(lines, path, image, ref, digest, n);
    RunsConverge(lines, path, image, ref, digest, n);
    FilePinsFit(last, path, image);
    RunsOwn(lines, path, image, ref, digest, n, k);
    NoneIsStale(last, pins, ref, digest, k);
    if OwnOf(last, pins[k]) == OwnOf(lines, pins[k]) {
      FreshIsRewritten(OwnOf(lines, pins[k]), ref, digest);
    }
    SettlesIfStale(lines, path, image, ref, digest, k);
    RewriteRepins(OwnOf(lines, pins[k]), ref, digest);
  }

  lemma SettlesIfStale(lines: seq<string>, path: string, image: string, ref: Option<string>, digest: string, k: nat)
    requires AllPinsSettle(lines, path, image, ref, digest) && k < |FilePins(lines, path, image)|
    ensures var pin := FilePins(lines, path, image)[k];
            InRange(pin, |lines|) && (Stale(OwnOf(lines, pin), ref, digest) ==> Settles(OwnOf(lines, pin), ref))
  {
    hide OwnOf, Stale, Settles, InRange, FilePins;
    FilePinsFit(lines, path, image);
  }

  /** When as many runs are made as pins were stale, every pin of the image is re-pinned. */
  lemma {:induction false} RunsRepin(lines: seq<string>, path: string, image: string, ref: Option<string>, digest: string)
    requires GoodArgs(ref, digest) && AllPinsSettle(lines, path, image, ref, digest)
    ensures var pins := FilePins(lines, path, image);
            var last := Runs(lines, path, image, ref, digest, StaleCount(lines, path, image, ref, digest));
            && |last| == |lines| && FilePins(last, path, image) == pins
            && forall k :: 0 <= k < |pins| ==>
                 InRange(pins[k], |lines|) && Repinned(OwnOf(lines, pins[k]), OwnOf(last, pins[k]), ref, digest)
  {
    hide OwnOf, InRange, FilePins, AllPinsSettle, Runs, StaleCount, Repinned;
    RunsConverge(lines, path, image, ref, digest, StaleCount(lines, path, image, ref, digest));
    forall k | 0 <= k < |FilePins(lines, path, image)|
      ensures var pin := FilePins(lines, path, image)[k];
              var last := Runs(lines, path, image, ref, digest, StaleCount(lines, path, image, ref, digest));
              InRange(pin, |lines|) && |last| == |lines| && Repinned(OwnOf(lines, pin), OwnOf(last, pin), ref, digest)
    {
      PinIsRepinned(lines, path, image, ref, digest, k);
    }
  }

  lemma FreshIsRewritten(own: Own, ref: Option<string>, digest: string)
    requires !Stale(own, ref, digest)
    ensures RewriteOwn(own, ref, digest) == own
  {
    hide ReplaceAll, ValueOf, SubAll, Strip;
  }

  lemma {:induction false} NoneIsStale(lines: seq<string>, pins: seq<Pin>, ref: Option<string>, digest: string, k: nat)
    requires AllInRange(pins, |lines|) && k < |pins| && StaleIn(lines, pins, ref, digest) == 0
    ensures !Stale(OwnOf(lines, pins[k]), ref, digest)
  {
    hide Stale, OwnOf, InRange;
    if k > 0 {
      assert forall j :: 0 <= j < |pins[1..]| ==> pins[1..][j] == pins[j + 1];
      NoneIsStale(lines, pins[1..], ref, digest, k - 1);
    }
  }

  // --------------------------------------------------------------- arguments

  predicate IsHexDigit(c: char) {
    '0' <= c <= '9' || 'a' <= c <= 'f'
  }

  /** A digest is `sha256:` and sixty-four hexadecimal digits. */
  lemma IsDigestIff(digest: string)
    ensures IsDigest(digest) <==>
        exists hex :: |hex| == 64 && (forall k :: 0 <= k < 64 ==> IsHexDigit(hex[k])) && digest == "sha256:" + hex
  {
    if IsDigest(digest) {
      var hex := digest[7..];
      assert digest == "sha256:" + hex;
      assert forall k :: 0 <= k < 64 ==> hex[k] == digest[7 + k];
    }
    if hex :| |hex| == 64 && (forall k :: 0 <= k < 64 ==> IsHexDigit(hex[k])) && digest == "sha256:" + hex {
      assert forall k :: 7 <= k < 71 ==> digest[k] == hex[k - 7];
    }
  }

  lemma NoImages(image: string)
    ensures OfImage([], image) == []
  {
  }

  lemma OfImageStep(pins: seq<Pin>, image: string)
    requires pins != []
    ensures OfImage(pins, image) == (if pins[0].image == image then [pins[0]] else []) + OfImage(pins[1..], image)
  {
  }

  /** The pins of an image are those of the file that name it, in order. */
  lemma {:induction false} OfImageIs(first: seq<Pin>, rest: seq<Pin>, image: string)
    ensures OfImage(first + rest, image) == OfImage(first, image) + OfImage(rest, image)
    ensures forall p :: p in OfImage(first, image) <==> p in first && p.image == image
  {
    hide OfImage;
    if first == [] {
      NoImages(image);
      assert first + rest == rest;
    } else {
      var own := if first[0].image == image then [first[0]] else [];
      OfImageIs(first[1..], rest, image);
      OfImageStep(first, image);
      OfImageStep(first + rest, image);
      assert (first + rest)[1..] == first[1..] + rest;
      assert own + OfImage(first[1..], image) + OfImage(rest, image) == own + (OfImage(first[1..], image) + OfImage(rest, image));
      assert forall p :: p in first <==> p == first[0] || p in first[1..];
    }
  }

  /** A file is listed as touched exactly when the run changed its text. */
  lemma StaleIffRunChanges(file: File, image: string, ref: Option<string>, digest: string)
    requires GoodArgs(ref, digest)
    ensures IsStale(file, image, ref, digest) <==> BumpFile(file, image, ref, digest) != file
  {
    hide FilePins, Bumped, StaleIn;
    if file.lines.Some? {
      var pins := FilePins(file.lines.value, file.path, image);
      FilePinsFit(file.lines.value, file.path, image);
      BumpChangesIff(file.lines.value, pins, ref, digest);
    }
  }

  lemma {:induction false} BumpChangesIff(lines: seq<string>, pins: seq<Pin>, ref: Option<string>, digest: string)
    requires AllInRange(pins, |lines|) && GoodArgs(ref, digest)
    ensures StaleIn(lines, pins, ref, digest) > 0 <==> Bumped(lines, pins, ref, digest) != lines
  {
    hide Stale, OwnOf, InRange, Put, RewriteOwn;
    if pins != [] {
      assert forall j :: 0 <= j < |pins[1..]| ==> pins[1..][j] == pins[j + 1];
      BumpChangesIff(lines, pins[1..], ref, digest);
      if Stale(OwnOf(lines, pins[0]), ref, digest) {
        RewrittenHere(lines, pins[0], ref, digest);
        StaleIffChanged(OwnOf(lines, pins[0]), ref, digest);
      }
    }
  }

  lemma TouchedAlone(f: File, image: string, ref: Option<string>, digest: string)
    requires GoodArgs(ref, digest)
    ensures Touched([f], image, ref, digest) == if BumpFile(f, image, ref, digest) != f then [f.path] else []
  {
    hide *;
    StaleIffRunChanges(f, image, ref, digest);
    TouchedNone(image, ref, digest);
    TouchedNext([f], 0, image, ref, digest);
    assert [f][..0] == [] && [f][..1] == [f];
  }

  /** The files listed as touched are those that the run changes, in their order. */
  lemma {:induction false} TouchedAreChanged(first: seq<File>, rest: seq<File>, image: string, ref: Option<string>, digest: string)
    requires GoodArgs(ref, digest)
    ensures Touched(first + rest, image, ref, digest) == Touched(first, image, ref, digest) + Touched(rest, image, ref, digest)
    ensures forall f :: Touched([f], image, ref, digest) == if BumpFile(f, image, ref, digest) != f then [f.path] else []
  {
    hide *;
    forall f ensures Touched([f], image, ref, digest) == if BumpFile(f, image, ref, digest) != f then [f.path] else [] {
      TouchedAlone(f, image, ref, digest);
    }
    if rest == [] {
      TouchedNone(image, ref, digest);
      assert first + rest == first;
    } else {
      var k, all := |rest| - 1, first + rest;
      TouchedAreChanged(first, rest[..k], image, ref, digest);
      TouchedNext(rest, k, image, ref, digest);
      TouchedNext(all, |all| - 1, image, ref, digest);
      assert all[..|all| - 1] == first + rest[..k] && all[..|all|] == all && rest[..k + 1] == rest;
    }
  }
}
