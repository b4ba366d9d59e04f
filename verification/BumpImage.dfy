/** scripts/bump-image-digest.py: re-pinning an image in place. */
module BumpImage {
  import opened Prelude
  import opened PinText
  import opened Pins
  import opened TagReplace

  // -------------------------------------------------------------- one pin's lines

  /** The text of the lines a pin owns. */
  datatype Own = Own(tag: Option<string>, digest: Option<string>)

  /** `sha256:` and 64 lower-case hexadecimal digits. */
  predicate IsDigest(digest: string) {
    |digest| == 71 && digest[..7] == "sha256:"
    && forall k :: 7 <= k < 71 ==> '0' <= digest[k] <= '9' || 'a' <= digest[k] <= 'f'
  }

  /** A ref was given: neither absent nor empty. */
  predicate Given(ref: Option<string>) {
    ref.Some? && ref.value != ""
  }

  predicate TagIsCombined(tag: Option<string>) {
    tag.Some? && match ValueOf(tag.value, "tag") case Some(v) => '@' in v case None => false
  }

  predicate DigestInUse(digest: Option<string>) {
    digest.Some? && match ValueOf(digest.value, "digest") case Some(v) => Strip(v) != "" case None => false
  }

  datatype Shape = Separate | Combined | Bare

  /** A digest key in use, or the only place for one; else a tag that carries its digest; else nothing to re-pin. */
  function ShapeOf(own: Own): Shape {
    if DigestInUse(own.digest) || (own.digest.Some? && !TagIsCombined(own.tag)) then Separate
    else if TagIsCombined(own.tag) then Combined
    else Bare
  }

  function KeepRef(current: string, ref: Option<string>): string {
    if Given(ref) then ref.value else SplitAt(current, '@').0
  }

  /** The value a combined tag gets. */
  function Renewed(current: string, ref: Option<string>, digest: string): string {
    KeepRef(current, ref) + "@" + digest
  }

  function RewriteTag(tag: string, ref: Option<string>, digest: string): string
    requires ValueOf(tag, "tag").Some?
  {
    var current := ValueOf(tag, "tag").value;
    var renewed := Renewed(current, ref, digest);
    if renewed == current then tag else ReplaceAll(tag, Quoted(current), Quoted(renewed))
  }

  function RewriteOwn(own: Own, ref: Option<string>, digest: string): Own {
    match ShapeOf(own)
    case Separate =>
      Own(if own.tag.Some? && Given(ref) then Some(SubAll(own.tag.value, "tag", ref.value)) else own.tag,
          if own.digest.Some? then Some(SubAll(own.digest.value, "digest", digest)) else None)
    case Combined => own.(tag := Some(RewriteTag(own.tag.value, ref, digest)))
    case Bare => own
  }

  /** The rewrite would report a change. */
  predicate Stale(own: Own, ref: Option<string>, digest: string) {
    match ShapeOf(own)
    case Separate => RewriteOwn(own, ref, digest) != own
    case Combined =>
      var current := ValueOf(own.tag.value, "tag").value;
      Renewed(current, ref, digest) != current
    case Bare => false
  }

  // ----------------------------------------------------------------- in the file

  predicate InRange(pin: Pin, n: nat) {
    && (pin.tagLine.Some? ==> pin.tagLine.value < n) && (pin.digestLine.Some? ==> pin.digestLine.value < n)
    && (pin.tagLine.Some? ==> pin.tagLine != pin.digestLine)
  }

  function TextAt(lines: seq<string>, line: Option<nat>): Option<string>
    requires line.Some? ==> line.value < |lines|
  {
    if line.Some? then Some(lines[line.value]) else None
  }

  function OwnOf(lines: seq<string>, pin: Pin): Own
    requires InRange(pin, |lines|)
  {
    Own(TextAt(lines, pin.tagLine), TextAt(lines, pin.digestLine))
  }

  function PutAt(lines: seq<string>, line: Option<nat>, text: Option<string>): seq<string>
    requires line.Some? ==> line.value < |lines|
  {
    if line.Some? && text.Some? then lines[line.value := text.value] else lines
  }

  function Put(lines: seq<string>, pin: Pin, own: Own): seq<string>
    requires InRange(pin, |lines|)
  {
    PutAt(PutAt(lines, pin.digestLine, own.digest), pin.tagLine, own.tag)
  }

  function Rewritten(lines: seq<string>, pin: Pin, ref: Option<string>, digest: string): seq<string>
    requires InRange(pin, |lines|)
  {
    Put(lines, pin, RewriteOwn(OwnOf(lines, pin), ref, digest))
  }

  method RewriteSeparate(lines: array<string>, pin: Pin, ref: Option<string>, digest: string) returns (changed: bool)
    requires InRange(pin, lines.Length) && ShapeOf(OwnOf(lines[..], pin)) == Separate
    modifies lines
    ensures lines[..] == Rewritten(old(lines[..]), pin, ref, digest)
    ensures changed == Stale(OwnOf(old(lines[..]), pin), ref, digest)
  {
    hide SubAll, ValueOf, ReplaceAll, Strip;
    changed := false;
    var d := pin.digestLine.value;
    var new_ := SubAll(lines[d], "digest", digest);
    if new_ != lines[d] {
      lines[d] := new_;
      changed := true;
    }
    if Given(ref) && pin.tagLine.Some? {
      var t := pin.tagLine.value;
      new_ := SubAll(lines[t], "tag", ref.value);
      if new_ != lines[t] {
        lines[t] := new_;
        changed := true;
      }
    }
  }

  method RewriteCombined(lines: array<string>, pin: Pin, ref: Option<string>, digest: string) returns (changed: bool)
    requires InRange(pin, lines.Length) && ShapeOf(OwnOf(lines[..], pin)) != Separate
    modifies lines
    ensures lines[..] == Rewritten(old(lines[..]), pin, ref, digest)
    ensures changed == Stale(OwnOf(old(lines[..]), pin), ref, digest)
  {
    hide SubAll, ValueOf, ReplaceAll, Strip, KeepRef;
    if pin.tagLine.None? {
      return false;
    }
    var t := pin.tagLine.value;
    var value := ValueOf(lines[t], "tag");
    if value.None? || '@' !in value.value {
      return false;
    }
    var renewed := KeepRef(value.value, ref) + "@" + digest;
    changed := renewed != value.value;
    if changed {
      lines[t] := ReplaceAll(lines[t], Quoted(value.value), Quoted(renewed));
    }
  }

  method RewritePin(lines: array<string>, pin: Pin, ref: Option<string>, digest: string) returns (changed: bool)
    requires InRange(pin, lines.Length)
    modifies lines
    ensures lines[..] == Rewritten(old(lines[..]), pin, ref, digest)
    ensures changed == Stale(OwnOf(old(lines[..]), pin), ref, digest)
  {
    hide SubAll, ValueOf, ReplaceAll, Strip;
    var combined := pin.tagLine.Some? && TagIsCombined(Some(lines[pin.tagLine.value]));
    var inUse := pin.digestLine.Some? && DigestInUse(Some(lines[pin.digestLine.value]));
    if inUse || (pin.digestLine.Some? && !combined) {
      changed := RewriteSeparate(lines, pin, ref, digest);
    } else {
      changed := RewriteCombined(lines, pin, ref, digest);
    }
  }

  // ------------------------------------------------------- rewriting once, twice

  /** What a caller passes: no quote in the ref, and a digest. */
  predicate GoodArgs(ref: Option<string>, digest: string) {
    (ref.Some? ==> '"' !in ref.value) && IsDigest(digest)
  }

  lemma DigestIsPlain(digest: string)
    requires IsDigest(digest)
    ensures '"' !in digest && '@' !in digest && Strip(digest) != "" && Unbroken(digest)
  {
    assert digest[..7] == "sha256:";
    forall k | 0 <= k < |digest|
      ensures digest[k] != '"' && digest[k] != '@' && !IsSpace(digest[k])
    {
      if k < 7 {
        assert digest[k] == "sha256:"[k];
      }
    }
    StripEmptiesBlanks(digest);
    assert !IsSpace(digest[0]);
  }

  lemma {:induction false} RenewedIsPlain(current: string, ref: Option<string>, digest: string)
    requires '"' !in current && GoodArgs(ref, digest)
    ensures '"' !in Renewed(current, ref, digest) && '@' in Renewed(current, ref, digest)
    ensures Renewed(Renewed(current, ref, digest), ref, digest) == Renewed(current, ref, digest)
  {
    DigestIsPlain(digest);
    var kept := KeepRef(current, ref);
    assert kept + "@" + digest == kept + ['@'] + digest;
    if !Given(ref) {
      assert '@' !in kept by {
        var i := IndexOf(current, '@');
      }
      SplitAtJoined(kept, '@', digest);
    }
    assert (kept + "@" + digest)[|kept|] == '@';
  }

  /** The replacement comes to the place on the line that the value was read from. */
  predicate WrittenWhereRead(tag: string) {
    match Find(tag, "tag")
    case Some(e) => Reached(tag, e.from - 1, Quoted(tag[e.from..e.to]))
    case None => true
  }

  /**
   * One rewrite settles the pin: a combined value is written where it was read, and a ref that would turn a tag into a
   * combined one comes with a digest key that can be written.
   */
  ghost predicate Settles(own: Own, ref: Option<string>) {
    match ShapeOf(own)
    case Separate => WritesSafely(own, ref)
    case Combined => WrittenWhereRead(own.tag.value)
    case Bare => true
  }

  predicate WritesSafely(own: Own, ref: Option<string>) {
    (own.tag.Some? && ValueOf(own.tag.value, "tag").Some? && Given(ref) && '@' in ref.value) ==>
      own.digest.Some? && ValueOf(own.digest.value, "digest").Some?
  }

  /** A combined tag that is rewritten where it is read is read back as renewed. */
  lemma {:induction false} TagIsRenewed(tag: string, ref: Option<string>, digest: string)
    requires GoodArgs(ref, digest) && ValueOf(tag, "tag").Some? && WrittenWhereRead(tag)
    ensures ValueOf(RewriteTag(tag, ref, digest), "tag") == Some(Renewed(ValueOf(tag, "tag").value, ref, digest))
    ensures RewriteTag(RewriteTag(tag, ref, digest), ref, digest) == RewriteTag(tag, ref, digest)
  {
    hide Find, ReplaceAll, Renewed, Reached;
    var e := Find(tag, "tag").value;
    var current := ValueOf(tag, "tag").value;
    TagIsPlainKey();
    RenewedIsPlain(current, ref, digest);
    if Renewed(current, ref, digest) != current {
      RenewedIsGood(current, ref, digest);
      ReplacedReads(tag, "tag", e, current, Renewed(current, ref, digest));
    }
  }

  lemma TagIsPlainKey()
    ensures PlainKey("tag")
  {
  }

  lemma RenewedIsGood(current: string, ref: Option<string>, digest: string)
    requires '"' !in current && GoodArgs(ref, digest)
    ensures GoodValue(Renewed(current, ref, digest))
  {
    RenewedIsPlain(current, ref, digest);
    var renewed := Renewed(current, ref, digest);
    assert renewed[|renewed| - 1] == digest[70];
  }

  lemma {:induction false} CombinedTwice(own: Own, ref: Option<string>, digest: string)
    requires GoodArgs(ref, digest) && ShapeOf(own) == Combined && WrittenWhereRead(own.tag.value)
    ensures var once := RewriteOwn(own, ref, digest);
            ShapeOf(once) == Combined && RewriteOwn(once, ref, digest) == once && !Stale(once, ref, digest)
  {
    hide Find, ReplaceAll, Renewed, Strip, SubAll, WrittenWhereRead, RewriteTag;
    TagIsRenewed(own.tag.value, ref, digest);
    RenewedIsPlain(ValueOf(own.tag.value, "tag").value, ref, digest);
  }

  /** What substituting does to the one value that decides the shape. */
  lemma {:induction false} SubbedText(text: string, key: string, value: string)
    requires GoodKey(key) && '"' !in value
    ensures ValueOf(SubAll(text, key, value), key) == (if ValueOf(text, key).Some? then Some(value) else None)
    ensures SubAll(SubAll(text, key, value), key, value) == SubAll(text, key, value)
  {
    hide Match;
    SubTwice(text, key, value);
    if Find(text, key).Some? {
      FindAfterSub(text, key, value);
    } else {
      NothingToSub(text, key, value);
    }
  }

  lemma DigestAfter(digestLine: string, digest: string)
    requires IsDigest(digest)
    ensures DigestInUse(Some(SubAll(digestLine, "digest", digest))) == ValueOf(digestLine, "digest").Some?
    ensures SubAll(SubAll(digestLine, "digest", digest), "digest", digest) == SubAll(digestLine, "digest", digest)
  {
    hide Find, SubAll, Strip;
    TagAndDigestAreGood();
    DigestIsPlain(digest);
    SubbedText(digestLine, "digest", digest);
  }

  lemma TagAfter(tag: string, ref: string)
    requires '"' !in ref
    ensures TagIsCombined(Some(SubAll(tag, "tag", ref))) == (ValueOf(tag, "tag").Some? && '@' in ref)
    ensures SubAll(SubAll(tag, "tag", ref), "tag", ref) == SubAll(tag, "tag", ref)
  {
    hide Find, SubAll;
    TagAndDigestAreGood();
    SubbedText(tag, "tag", ref);
  }

  /** With separate keys one rewrite settles the pin exactly when it does not make a tag combined beside a bare digest. */
  lemma SeparateTwice(own: Own, ref: Option<string>, digest: string)
    requires GoodArgs(ref, digest) && ShapeOf(own) == Separate && WritesSafely(own, ref)
    ensures var once := RewriteOwn(own, ref, digest);
            ShapeOf(once) == Separate && RewriteOwn(once, ref, digest) == once && !Stale(once, ref, digest)
  {
    hide Find, SubAll, Strip, ValueOf;
    DigestAfter(own.digest.value, digest);
    if own.tag.Some? && Given(ref) {
      TagAfter(own.tag.value, ref.value);
    }
  }

  lemma {:induction false} RetaggingChanges(tag: string, ref: Option<string>, digest: string)
    requires GoodArgs(ref, digest) && ValueOf(tag, "tag").Some?
    requires Renewed(ValueOf(tag, "tag").value, ref, digest) != ValueOf(tag, "tag").value
    ensures RewriteTag(tag, ref, digest) != tag
  {
    hide ReplaceAll, Renewed;
    var e := Find(tag, "tag").value;
    var current := ValueOf(tag, "tag").value;
    RenewedIsPlain(current, ref, digest);
    QuotedStands(tag, e.from, e.to);
    ReplaceChanges(tag, e.from - 1, current, Renewed(current, ref, digest));
  }

  /** The rewrite reports a change exactly when it makes one. */
  lemma {:induction false} StaleIffChanged(own: Own, ref: Option<string>, digest: string)
    requires GoodArgs(ref, digest)
    ensures Stale(own, ref, digest) <==> RewriteOwn(own, ref, digest) != own
  {
    hide ReplaceAll, Renewed, ValueOf, SubAll, Strip;
    if ShapeOf(own) == Combined && Stale(own, ref, digest) {
      RetaggingChanges(own.tag.value, ref, digest);
    }
  }

  /** Otherwise the second rewrite appends the digest to the tag the first one wrote. */
  lemma UnsafeWriteDrifts(own: Own, ref: Option<string>, digest: string)
    requires GoodArgs(ref, digest) && ShapeOf(own) == Separate && !WritesSafely(own, ref)
    ensures var once := RewriteOwn(own, ref, digest);
            ShapeOf(once) == Combined && RewriteOwn(once, ref, digest) != once
  {
    hide Find, SubAll, Strip, ReplaceAll;
    var once := RewriteOwn(own, ref, digest);
    DigestAfter(own.digest.value, digest);
    TagAfter(own.tag.value, ref.value);
    TagAndDigestAreGood();
    SubbedText(own.tag.value, "tag", ref.value);
    assert |Renewed(ref.value, ref, digest)| > |ref.value|;
    RetaggingChanges(once.tag.value, ref, digest);
  }

  lemma SeparateTwiceIff(own: Own, ref: Option<string>, digest: string)
    requires GoodArgs(ref, digest) && ShapeOf(own) == Separate
    ensures RewriteOwn(RewriteOwn(own, ref, digest), ref, digest) == RewriteOwn(own, ref, digest) <==> WritesSafely(own, ref)
  {
    hide RewriteOwn;
    if WritesSafely(own, ref) {
      SeparateTwice(own, ref, digest);
    } else {
      UnsafeWriteDrifts(own, ref, digest);
    }
  }

  /** No quoted value on the digest line, or no such line. */
  predicate DigestUnquoted(digest: Option<string>) {
    digest.Some? ==> ValueOf(digest.value, "digest").None?
  }

  /**
   * When an earlier occurrence takes the value's opening quote: what its closing quote then opens needs no rewrite. If that
   * is a tag without a digest, the pin is no longer combined: beside a digest key it is one with separate keys, and a
   * quoted value of that key is written at once, as is a given ref on the tag line.
   */
  predicate LeftoverSettles(own: Own, ref: Option<string>, digest: string)
    requires own.tag.Some? && ValueOf(own.tag.value, "tag").Some?
  {
    var tag := own.tag.value;
    var e := Find(tag, "tag").value;
    var behind := tag[e.to..];
    || Quoted(tag[e.from..e.to]) <= behind
    || match Opened(behind)
       case Some(next) =>
         if '@' in next then Renewed(next, ref, digest) == next
         else own.digest.None? || (DigestUnquoted(own.digest) && RefStands(RewriteTag(tag, ref, digest), ref))
       case None => DigestUnquoted(own.digest)
  }

  /** A given ref is on the tag line already, wherever a tag is quoted. */
  predicate RefStands(tag: string, ref: Option<string>) {
    Given(ref) ==> SubAll(tag, "tag", ref.value) == tag
  }

  lemma {:induction false} TagReadAfter(tag: string, ref: Option<string>, digest: string)
    requires GoodArgs(ref, digest) && Find(tag, "tag").Some?
    requires Renewed(ValueOf(tag, "tag").value, ref, digest) != ValueOf(tag, "tag").value
    ensures var e, current := Find(tag, "tag").value, ValueOf(tag, "tag").value;
            ValueOf(RewriteTag(tag, ref, digest), "tag") ==
              if WrittenWhereRead(tag) || Quoted(current) <= tag[e.to..] then Some(Renewed(current, ref, digest))
              else Opened(tag[e.to..])
  {
    hide Find, ReplaceAll, Renewed, Reached;
    var e := Find(tag, "tag").value;
    var current := ValueOf(tag, "tag").value;
    TagIsPlainKey();
    RenewedIsGood(current, ref, digest);
    ReplacedReads(tag, "tag", e, current, Renewed(current, ref, digest));
    OpenedReads(tag[e.to..], current, Renewed(current, ref, digest));
  }

  /** When a pin whose digest key, if any, is not in use is left alone. */
  predicate LeftAlone(tag: string, digestLine: Option<string>, ref: Option<string>, digest: string) {
    match ValueOf(tag, "tag")
    case Some(v) =>
      if '@' in v then Renewed(v, ref, digest) == v
      else digestLine.None? || (DigestUnquoted(digestLine) && RefStands(tag, ref))
    case None => DigestUnquoted(digestLine)
  }

  lemma {:induction false} LeftAloneIff(tag: string, digestLine: Option<string>, ref: Option<string>, digest: string)
    requires GoodArgs(ref, digest) && !DigestInUse(digestLine)
    ensures var own := Own(Some(tag), digestLine);
            RewriteOwn(own, ref, digest) == own <==> LeftAlone(tag, digestLine, ref, digest)
  {
    hide ReplaceAll, Renewed, Find, SubAll, Strip;
    if TagIsCombined(Some(tag)) {
      if Renewed(ValueOf(tag, "tag").value, ref, digest) != ValueOf(tag, "tag").value {
        RetaggingChanges(tag, ref, digest);
      }
    } else if digestLine.Some? {
      UnusedDigestStays(digestLine.value, digest);
      if ValueOf(tag, "tag").None? && Given(ref) {
        NothingToSub(tag, "tag", ref.value);
      }
    }
  }

  /** A digest key that is not in use is written if it is quoted, and stays if not. */
  lemma UnusedDigestStays(digestLine: string, digest: string)
    requires IsDigest(digest) && !DigestInUse(Some(digestLine))
    ensures SubAll(digestLine, "digest", digest) == digestLine <==> DigestUnquoted(Some(digestLine))
  {
    hide Find, SubAll, Strip;
    DigestAfter(digestLine, digest);
    if ValueOf(digestLine, "digest").None? {
      NothingToSub(digestLine, "digest", digest);
    }
  }

  /** Exact for a tag that carries its digest: the second rewrite changes nothing if and only if the first had nothing to
      renew, wrote the value where it was read, or left behind it what needs no rewrite. */
  lemma {:induction false} CombinedTwiceIff(own: Own, ref: Option<string>, digest: string)
    requires GoodArgs(ref, digest) && ShapeOf(own) == Combined
    ensures var tag := own.tag.value;
            var current := ValueOf(tag, "tag").value;
            RewriteOwn(RewriteOwn(own, ref, digest), ref, digest) == RewriteOwn(own, ref, digest) <==>
              Renewed(current, ref, digest) == current || WrittenWhereRead(tag) || LeftoverSettles(own, ref, digest)
  {
    hide ReplaceAll, Renewed, Find, WrittenWhereRead, Opened, SubAll, Strip;
    var tag := own.tag.value;
    var current := ValueOf(tag, "tag").value;
    RenewedIsPlain(current, ref, digest);
    if Renewed(current, ref, digest) != current {
      TagReadAfter(tag, ref, digest);
      LeftAloneIff(RewriteTag(tag, ref, digest), own.digest, ref, digest);
    }
  }

  /** A pin that settles is rewritten once: the second rewrite changes nothing, and the pin keeps settling. */
  lemma {:induction false} RewriteTwice(own: Own, ref: Option<string>, digest: string)
    requires GoodArgs(ref, digest) && Settles(own, ref)
    ensures var once := RewriteOwn(own, ref, digest);
            RewriteOwn(once, ref, digest) == once && !Stale(once, ref, digest) && ShapeOf(once) == ShapeOf(own)
  {
    hide ReplaceAll, Renewed, ValueOf, SubAll, Strip, WrittenWhereRead;
    match ShapeOf(own) {
      case Separate => SeparateTwice(own, ref, digest);
      case Combined => CombinedTwice(own, ref, digest);
      case Bare =>
    }
  }

  // --------------------------------------------------------------- certification

  /** Every quoted value the pin carries is the one asked for. */
  predicate Current(own: Own, ref: Option<string>, digest: string) {
    match ShapeOf(own)
    case Separate =>
      && (own.digest.Some? && ValueOf(own.digest.value, "digest").Some? ==>
            ValueOf(own.digest.value, "digest") == Some(digest))
      && (Given(ref) && own.tag.Some? && ValueOf(own.tag.value, "tag").Some? ==> ValueOf(own.tag.value, "tag") == ref)
    case Combined =>
      var current := ValueOf(own.tag.value, "tag").value;
      EndsWith(current, "@" + digest) && (Given(ref) ==> current == ref.value + "@" + digest)
    case Bare => true
  }

  /** A pin the rewrite leaves alone is at the digest, and at the ref when one was given. */
  lemma {:induction false} NotStaleIsCurrent(own: Own, ref: Option<string>, digest: string)
    requires GoodArgs(ref, digest) && !Stale(own, ref, digest)
    ensures Current(own, ref, digest)
  {
    hide Find, SubAll, Strip, ReplaceAll;
    TagAndDigestAreGood();
    DigestIsPlain(digest);
    match ShapeOf(own) {
      case Separate =>
        SubbedText(own.digest.value, "digest", digest);
        if Given(ref) && own.tag.Some? {
          SubbedText(own.tag.value, "tag", ref.value);
        }
      case Combined =>
        var kept := KeepRef(ValueOf(own.tag.value, "tag").value, ref);
        assert (kept + "@" + digest)[|kept|..] == "@" + digest;
      case Bare =>
    }
  }

  // ------------------------------------------------------------- one file's pins

  lemma PutThenOwn(lines: seq<string>, pin: Pin, own: Own)
    requires InRange(pin, |lines|) && (pin.tagLine.Some? <==> own.tag.Some?) && (pin.digestLine.Some? <==> own.digest.Some?)
    ensures |Put(lines, pin, own)| == |lines| && OwnOf(Put(lines, pin, own), pin) == own
  {
  }

  /** A rewrite changes no line the pin does not own. */
  lemma OtherLinesStay(lines: seq<string>, pin: Pin, own: Own, k: nat)
    requires InRange(pin, |lines|) && k < |lines| && !Owns(pin, k)
    ensures Put(lines, pin, own)[k] == lines[k]
  {
  }

  lemma OtherPinsStay(lines: seq<string>, pin: Pin, own: Own, other: Pin)
    requires InRange(pin, |lines|) && InRange(other, |lines|) && Apart(pin, other)
    ensures OwnOf(Put(lines, pin, own), other) == OwnOf(lines, other)
  {
    if other.tagLine.Some? {
      assert Owns(other, other.tagLine.value);
      OtherLinesStay(lines, pin, own, other.tagLine.value);
    }
    if other.digestLine.Some? {
      assert Owns(other, other.digestLine.value);
      OtherLinesStay(lines, pin, own, other.digestLine.value);
    }
  }

  ghost predicate AllInRange(pins: seq<Pin>, n: nat) {
    forall k :: 0 <= k < |pins| ==> InRange(pins[k], n)
  }

  /** How many of the pins a rewrite would change. */
  ghost function StaleIn(lines: seq<string>, pins: seq<Pin>, ref: Option<string>, digest: string): nat
    requires AllInRange(pins, |lines|)
  {
    if pins == [] then 0
    else (if Stale(OwnOf(lines, pins[0]), ref, digest) then 1 else 0) + StaleIn(lines, pins[1..], ref, digest)
  }

  /** The lines after `any(rewrite_pin(...))`: the first stale pin is rewritten and no other. */
  ghost function Bumped(lines: seq<string>, pins: seq<Pin>, ref: Option<string>, digest: string): seq<string>
    requires AllInRange(pins, |lines|)
  {
    if pins == [] then lines
    else if Stale(OwnOf(lines, pins[0]), ref, digest) then Rewritten(lines, pins[0], ref, digest)
    else Bumped(lines, pins[1..], ref, digest)
  }

  lemma FreshStays(lines: seq<string>, pin: Pin, ref: Option<string>, digest: string)
    requires InRange(pin, |lines|) && !Stale(OwnOf(lines, pin), ref, digest)
    ensures Rewritten(lines, pin, ref, digest) == lines
  {
    hide ReplaceAll, ValueOf, SubAll, Strip;
  }

  method RewriteAny(lines: array<string>, pins: seq<Pin>, ref: Option<string>, digest: string) returns (any: bool)
    requires AllInRange(pins, lines.Length)
    modifies lines
    ensures lines[..] == Bumped(old(lines[..]), pins, ref, digest)
    ensures any <==> StaleIn(old(lines[..]), pins, ref, digest) > 0
  {
    hide Stale, Rewritten, OwnOf;
    ghost var was := lines[..];
    assert pins[0..] == pins;
    for k := 0 to |pins|
      invariant lines[..] == was && AllInRange(pins[k..], |was|)
      invariant Bumped(was, pins, ref, digest) == Bumped(was, pins[k..], ref, digest)
      invariant StaleIn(was, pins, ref, digest) == StaleIn(was, pins[k..], ref, digest)
    {
      assert pins[k..][0] == pins[k] && pins[k..][1..] == pins[k + 1..];
      if !Stale(OwnOf(was, pins[k]), ref, digest) {
        FreshStays(was, pins[k], ref, digest);
      }
      var changed := RewritePin(lines, pins[k], ref, digest);
      if changed {
        return true;
      }
    }
    return false;
  }

  /** Every pin that the rewrite would change is settled by it. */
  ghost predicate AllSettle(lines: seq<string>, pins: seq<Pin>, ref: Option<string>, digest: string)
    requires AllInRange(pins, |lines|)
  {
    forall k :: 0 <= k < |pins| && Stale(OwnOf(lines, pins[k]), ref, digest) ==> Settles(OwnOf(lines, pins[k]), ref)
  }

  lemma {:induction false} StaleElsewhere(lines: seq<string>, other: seq<string>, pins: seq<Pin>, ref: Option<string>,
                                          digest: string)
    requires |lines| == |other| && AllInRange(pins, |lines|)
    requires forall k :: 0 <= k < |pins| ==> OwnOf(other, pins[k]) == OwnOf(lines, pins[k])
    ensures StaleIn(other, pins, ref, digest) == StaleIn(lines, pins, ref, digest)
  {
    hide Stale, OwnOf;
    if pins != [] {
      assert OwnOf(other, pins[0]) == OwnOf(lines, pins[0]);
      assert forall k :: 0 <= k < |pins[1..]| ==> pins[1..][k] == pins[k + 1];
      StaleElsewhere(lines, other, pins[1..], ref, digest);
    }
  }

  lemma PinIsDone(lines: seq<string>, pin: Pin, ref: Option<string>, digest: string)
    requires InRange(pin, |lines|) && GoodArgs(ref, digest) && Settles(OwnOf(lines, pin), ref)
    ensures |Rewritten(lines, pin, ref, digest)| == |lines|
    ensures OwnOf(Rewritten(lines, pin, ref, digest), pin) == RewriteOwn(OwnOf(lines, pin), ref, digest)
    ensures !Stale(OwnOf(Rewritten(lines, pin, ref, digest), pin), ref, digest)
  {
    hide ReplaceAll, ValueOf, SubAll, Strip, ReadWhereFirst;
    RewriteTwice(OwnOf(lines, pin), ref, digest);
    PutThenOwn(lines, pin, RewriteOwn(OwnOf(lines, pin), ref, digest));
  }

  /** A run over a file with stale pins makes exactly one of them current; a run over a file without leaves it alone. */
  lemma {:induction false} OneFewer(lines: seq<string>, pins: seq<Pin>, ref: Option<string>, digest: string)
    requires AllInRange(pins, |lines|) && AllApart(pins) && GoodArgs(ref, digest) && AllSettle(lines, pins, ref, digest)
    ensures |Bumped(lines, pins, ref, digest)| == |lines|
    ensures StaleIn(lines, pins, ref, digest) == 0 ==> Bumped(lines, pins, ref, digest) == lines
    ensures StaleIn(lines, pins, ref, digest) > 0 ==>
              StaleIn(Bumped(lines, pins, ref, digest), pins, ref, digest) == StaleIn(lines, pins, ref, digest) - 1
  {
    hide Stale, OwnOf, Settles, Rewritten, InRange;
    if pins != [] {
      var rest := pins[1..];
      assert forall k :: 0 <= k < |rest| ==> rest[k] == pins[k + 1];
      if Stale(OwnOf(lines, pins[0]), ref, digest) {
        PinIsDone(lines, pins[0], ref, digest);
        var after := Rewritten(lines, pins[0], ref, digest);
        forall k | 0 <= k < |rest|
          ensures OwnOf(after, rest[k]) == OwnOf(lines, rest[k])
        {
          RewrittenElsewhere(lines, pins[0], rest[k], ref, digest);
        }
        StaleElsewhere(lines, after, rest, ref, digest);
      } else {
        OneFewer(lines, rest, ref, digest);
        BumpedElsewhere(lines, pins[0], rest, ref, digest);
      }
    }
  }

  /** After a run every pin still stale is one that was, with its lines as they were. */
  lemma {:induction false} StaleWasStale(lines: seq<string>, pins: seq<Pin>, ref: Option<string>, digest: string, k: nat)
    requires AllInRange(pins, |lines|) && AllApart(pins) && GoodArgs(ref, digest) && AllSettle(lines, pins, ref, digest)
    requires k < |pins|
    ensures |Bumped(lines, pins, ref, digest)| == |lines|
    ensures var after := OwnOf(Bumped(lines, pins, ref, digest), pins[k]);
            after == OwnOf(lines, pins[k]) || !Stale(after, ref, digest)
  {
    hide Stale, OwnOf, Settles, Rewritten, InRange;
    var rest := pins[1..];
    assert forall k :: 0 <= k < |rest| ==> rest[k] == pins[k + 1];
    if Stale(OwnOf(lines, pins[0]), ref, digest) {
      PinIsDone(lines, pins[0], ref, digest);
      if k > 0 {
        RewrittenElsewhere(lines, pins[0], pins[k], ref, digest);
      }
    } else if k == 0 {
      BumpedElsewhere(lines, pins[0], rest, ref, digest);
    } else {
      StaleWasStale(lines, rest, ref, digest, k - 1);
    }
  }

  lemma RewrittenElsewhere(lines: seq<string>, pin: Pin, other: Pin, ref: Option<string>, digest: string)
    requires InRange(pin, |lines|) && InRange(other, |lines|) && Apart(pin, other)
    ensures |Rewritten(lines, pin, ref, digest)| == |lines|
    ensures OwnOf(Rewritten(lines, pin, ref, digest), other) == OwnOf(lines, other)
  {
    OtherPinsStay(lines, pin, RewriteOwn(OwnOf(lines, pin), ref, digest), other);
  }

  lemma {:induction false} BumpedElsewhere(lines: seq<string>, other: Pin, pins: seq<Pin>, ref: Option<string>, digest: string)
    requires AllInRange(pins, |lines|) && InRange(other, |lines|)
    requires forall k :: 0 <= k < |pins| ==> Apart(other, pins[k])
    ensures |Bumped(lines, pins, ref, digest)| == |lines|
    ensures OwnOf(Bumped(lines, pins, ref, digest), other) == OwnOf(lines, other)
  {
    hide Stale, OwnOf, Rewritten, InRange;
    if pins != [] {
      var rest := pins[1..];
      assert forall k :: 0 <= k < |rest| ==> rest[k] == pins[k + 1];
      if Stale(OwnOf(lines, pins[0]), ref, digest) {
        assert Apart(other, pins[0]);
        RewrittenElsewhere(lines, pins[0], other, ref, digest);
      } else {
        BumpedElsewhere(lines, other, rest, ref, digest);
      }
    }
  }

  lemma {:induction false} NoneStaleIsCurrent(lines: seq<string>, pins: seq<Pin>, ref: Option<string>, digest: string, k: nat)
    requires AllInRange(pins, |lines|) && GoodArgs(ref, digest) && k < |pins| && StaleIn(lines, pins, ref, digest) == 0
    ensures Current(OwnOf(lines, pins[k]), ref, digest)
  {
    hide Stale, OwnOf, Current, InRange;
    if k == 0 {
      NotStaleIsCurrent(OwnOf(lines, pins[0]), ref, digest);
    } else {
      assert pins[1..][k - 1] == pins[k];
      NoneStaleIsCurrent(lines, pins[1..], ref, digest, k - 1);
    }
  }

  // ------------------------------------------------- a tag that does not settle

  lemma NoKeyNoMatch(s: string, key: string)
    requires s != "" && key != "" && s[0] != key[0]
    ensures Match(s, key) == None
  {
  }

  lemma FindStep(s: string, key: string)
    requires s != "" && Match(s, key) == None
    ensures Find(s, key) == Shift(Find(s[1..], key))
  {
    hide Match, IsMatch, IsValue, Shift;
  }

  /** Nothing is found where the key's first character does not stand. */
  lemma {:induction false} FindSkips(s: string, n: nat, key: string, rest: string, e: Extent)
    requires n <= |s| && key != "" && (forall k :: 0 <= k < n ==> s[k] != key[0])
    requires s[n..] == rest && Find(rest, key) == Some(e)
    ensures Find(s, key) == Some(Extent(e.at + n, e.from + n, e.to + n))
    decreases n
  {
    hide Match, Find;
    if n == 0 {
      assert s == rest;
    } else {
      NoKeyNoMatch(s, key);
      FindSkips(s[1..], n - 1, key, rest, e);
      FindStep(s, key);
    }
  }

  lemma FindHere(s: string, key: string, e: Extent)
    requires Match(s, key) == Some(e)
    ensures s != "" && Find(s, key) == Some(e) && e.at == 0 && IsValue(s, e.from, e.to)
  {
    hide Match;
  }

  lemma DroppedFirst(s: string, n: nat, c: char)
    requires 1 <= n <= |s| && forall k :: 1 <= k < n ==> s[k] != c
    ensures s[1..][n - 1..] == s[n..] && forall k :: 0 <= k < n - 1 ==> s[1..][k] != c
  {
  }

  lemma FindBehind(s: string, n: nat, key: string, rest: string, e: Extent)
    requires 1 <= n <= |s| && key != "" && s[n..] == rest && Match(rest, key) == Some(e)
    requires Match(s, key) == None && forall k :: 1 <= k < n ==> s[k] != key[0]
    ensures Find(s, key) == Some(Extent(n, e.from + n, e.to + n))
  {
    hide Match, Find, IsMatch, IsValue;
    FindHere(rest, key, e);
    DroppedFirst(s, n, key[0]);
    FindSkips(s[1..], n - 1, key, rest, e);
    FindStep(s, key);
  }

  lemma ValueBehind(s: string, n: nat, key: string, rest: string, e: Extent)
    requires n <= |s| && s[n..] == rest && e.from <= e.to <= |rest| && Find(s, key) == Some(Extent(n, e.from + n, e.to + n))
    ensures ValueOf(s, key) == Some(rest[e.from..e.to])
  {
    hide Find;
    var value := s[e.from + n..e.to + n];
    assert forall k :: 0 <= k < |value| ==> value[k] == s[n + (e.from + k)] == rest[e.from + k];
    assert value == rest[e.from..e.to];
  }

  lemma {:induction false} ReplaceNothing(s: string, old_: string, new_: string)
    requires old_ != "" && NotBefore(s, |s|, old_)
    ensures ReplaceAll(s, old_, new_) == s
    decreases |s|
  {
    if s != "" {
      assert s[0..] == s;
      assert forall k :: 0 <= k < |s[1..]| ==> s[1..][k..] == s[k + 1..];
      ReplaceNothing(s[1..], old_, new_);
    }
  }

  /** A tag whose own value is not quoted does not match. */
  lemma BareIsNoMatch(s: string, start: string)
    requires start == "tag: x \"" && Agree(start, s, 8)
    ensures Match(s, "tag") == None
  {
    SkipSpaceIs(s, 4, 5);
  }

  lemma QuotedTagMatches(s: string, start: string, value: string, rest: string)
    requires '"' !in value && start == "tag: \"" && s == start + (value + (['"'] + rest))
    ensures Match(s, "tag") == Some(Extent(0, 6, 6 + |value|)) && s[6..6 + |value|] == value
  {
    assert forall k :: 0 <= k < 6 ==> s[k] == start[k];
    assert forall k :: 0 <= k < |value| ==> s[6 + k] == value[k];
    MatchIs(s, "tag", 6, 6 + |value|);
  }

  lemma BareStart(start: string, middle: string, tail: string)
    requires start == "tag: x \"" && 't' !in middle
    ensures var s := start + (middle + tail);
            Agree(start, s, 8) && s[|middle| + 8..] == tail && forall k :: 1 <= k < |middle| + 8 ==> s[k] != 't'
  {
    var s := start + (middle + tail);
    assert forall k :: 0 <= k < 8 ==> s[k] == start[k];
    assert forall k :: 8 <= k < |middle| + 8 ==> s[k] == middle[k - 8];
  }

  /** A bare tag value, then a quoted text without the letter t, then a quoted tag: the last one is read. */
  lemma LaterTagIsRead(start: string, middle: string, inner: string, value: string, rest: string)
    requires start == "tag: x \"" && inner == "tag: \"" && 't' !in middle && '"' !in value
    ensures var s := start + (middle + (inner + (value + (['"'] + rest))));
            ValueOf(s, "tag") == Some(value) && Find(s, "tag").value.from == |middle| + 14
  {
    hide Match, Find, IsMatch, IsValue, ValueOf;
    var tail := inner + (value + (['"'] + rest));
    var s := start + (middle + tail);
    BareStart(start, middle, tail);
    BareIsNoMatch(s, start);
    QuotedTagMatches(tail, inner, value, rest);
    FindBehind(s, |middle| + 8, "tag", tail, Extent(0, 6, 6 + |value|));
    ValueBehind(s, |middle| + 8, "tag", tail, Extent(0, 6, 6 + |value|));
  }

  /** What replacing the quoted value does when the text before the tag ends in the same value. */
  lemma EarlierIsReplaced(start: string, value: string, tail: string, renewed: string)
    requires start == "tag: x " && '"' !in value && NotBefore(tail, |tail|, Quoted(value))
    ensures ReplaceAll(start + (Quoted(value) + tail), Quoted(value), Quoted(renewed)) == start + (Quoted(renewed) + tail)
  {
    var s := start + (Quoted(value) + tail);
    forall k | 0 <= k < 7
      ensures !(Quoted(value) <= s[k..])
    {
      assert s[k..][0] == start[k];
    }
    ReplaceFirst(s, start, Quoted(value), tail, Quoted(renewed));
    ReplaceNothing(tail, Quoted(value), Quoted(renewed));
  }

  /** `tag: x "a@tag: "a@tag: "b@c"`: the value read is `a@tag: `, which is quoted earlier on the line too. */
  function DriftingTag(start: string, value: string, next: string): string {
    start + (Quoted(value) + (value + Quoted(next)))
  }

  lemma DriftingTagRead(start: string, value: string, next: string)
    requires start == "tag: x " && value == "a@tag: "
    ensures ValueOf(DriftingTag(start, value, next), "tag") == Some(value)
  {
    var s := DriftingTag(start, value, next);
    var rest := next + ['"'];
    var open, inner := "tag: x \"", "tag: \"";
    assert value + ['"'] == "a@" + inner;
    assert value + Quoted(next) == value + (['"'] + rest);
    assert s == open + ("a@" + (inner + (value + (['"'] + rest))));
    LaterTagIsRead(open, "a@", inner, value, rest);
  }

  /** After one rewrite another value is read, so the second rewrite changes the line again. */
  lemma {:induction false} TagDrifts(start: string, value: string, next: string, digest: string)
    requires start == "tag: x " && value == "a@tag: " && next == "b@c" && IsDigest(digest)
    ensures var own := Own(Some(DriftingTag(start, value, next)), None);
            var once := RewriteOwn(own, None, digest);
            && ShapeOf(own) == Combined && !Settles(own, None)
            && ValueOf(once.tag.value, "tag") == Some(next) && RewriteOwn(once, None, digest) != once
  {
    hide Find, ReplaceAll, ValueOf, DriftingTag, WrittenWhereRead, RewriteTag;
    DriftingTagRead(start, value, next);
    var line := DriftingTag(start, value, next);
    DriftedTagRead(start, value, next, digest);
    assert |Renewed("b@c", None, digest)| > 3;
    if WrittenWhereRead(line) {
      TagIsRenewed(line, None, digest);
    }
    RetaggingChanges(RewriteTag(line, None, digest), None, digest);
  }

  /** With a tag left over that carries no digest, beside `digest: ""`, the second rewrite finds separate keys and writes the
      blank one. */
  lemma {:induction false} BlankDigestDrifts(start: string, value: string, next: string, digestLine: string, digest: string)
    requires start == "tag: x " && value == "a@tag: " && next == "b" && digestLine == "digest: \"\"" && IsDigest(digest)
    ensures var own := Own(Some(DriftingTag(start, value, next)), Some(digestLine));
            var once := RewriteOwn(own, None, digest);
            ShapeOf(own) == Combined && ShapeOf(once) == Separate && RewriteOwn(once, None, digest) != once
  {
    hide Find, ReplaceAll, ValueOf, DriftingTag, RewriteTag, SubAll, Strip;
    var line := DriftingTag(start, value, next);
    DriftingTagRead(start, value, next);
    DriftedTagRead(start, value, next, digest);
    BlankDigestRead(digestLine);
    LeftAloneIff(RewriteTag(line, None, digest), Some(digestLine), None, digest);
  }

  /** A key with an empty quoted value. */
  lemma BlankValue(s: string, key: string, at: nat)
    requires IsMatch(s, key, at, at)
    ensures ValueOf(s, key) == Some("")
  {
    MatchIs(s, key, at, at);
    assert s[at..at] == "";
  }

  lemma BlankDigestRead(digestLine: string)
    requires digestLine == "digest: \"\""
    ensures ValueOf(digestLine, "digest") == Some("") && !DigestInUse(Some(digestLine))
  {
    assert digestLine[7] == ' ' && digestLine[8] == '"' && digestLine[9] == '"' && |digestLine| == 10;
    BlankValue(digestLine, "digest", 9);
  }

  lemma {:induction false} DriftedTagRead(start: string, value: string, next: string, digest: string)
    requires start == "tag: x " && value == "a@tag: " && IsDigest(digest) && '"' !in next && |next| < |value|
    requires ValueOf(DriftingTag(start, value, next), "tag") == Some(value)
    ensures ValueOf(RewriteTag(DriftingTag(start, value, next), None, digest), "tag") == Some(next)
  {
    hide Find, ReplaceAll, ValueOf;
    assert SplitAt(value, '@').0 == "a";
    var renewed := "a" + "@" + digest;
    var tail := value + Quoted(next);
    assert |renewed| > |value|;
    NotInTail(value, next);
    EarlierIsReplaced(start, value, tail, renewed);
    var open, inner, middle := "tag: x \"", "tag: \"", renewed + "\"a@";
    DriftedText(start, value, renewed, next);
    DigestHasNoT(digest);
    LaterTagIsRead(open, middle, inner, next, "");
  }

  lemma DriftedText(start: string, value: string, renewed: string, next: string)
    requires start == "tag: x " && value == "a@tag: "
    ensures start + (Quoted(renewed) + (value + Quoted(next))) ==
              "tag: x \"" + ((renewed + "\"a@") + ("tag: \"" + (next + (['"'] + ""))))
  {
    assert value + Quoted(next) == "a@" + ("tag: \"" + (next + (['"'] + "")));
  }

  lemma NotInTail(value: string, next: string)
    requires '"' !in value && '"' !in next && |next| < |value|
    ensures NotBefore(value + Quoted(next), |value + Quoted(next)|, Quoted(value))
  {
    var tail := value + Quoted(next);
    forall k | 0 <= k < |tail|
      ensures !(Quoted(value) <= tail[k..])
    {
      assert tail[k..][0] == tail[k];
      assert k >= |value| ==> |tail[k..]| < |Quoted(value)|;
      assert k < |value| ==> tail[k] == value[k];
    }
  }

  lemma DigestHasNoT(digest: string)
    requires IsDigest(digest)
    ensures 't' !in digest
  {
    assert digest[..7] == "sha256:";
    forall k | 0 <= k < |digest|
      ensures digest[k] != 't'
    {
      if k < 7 {
        assert digest[k] == "sha256:"[k];
      }
    }
  }
}
