/** MOV codec tags, which the text form writes into the media type as four characters. */
module CapsMovTags {
  import opened Options
  import opened Integers
  import opened Strings
  import opened Caps
  import opened CapsPrinter
  import opened CapsParser
  import opened CapsNames
  import opened CapsScan
  import opened CapsValues
  import opened CapsLeaves

  function TagOf(c: Caps): CodecTag
    requires HasTag(c)
  {
    if c.CompressedVideo? then c.codec.codecTag else c.audioFormat.audioTag
  }

  function KindOf(c: Caps): string {
    if c.CompressedVideo? then "video" else "audio"
  }

  predicate HasMovTag(c: Caps) {
    HasTag(c) && TagOf(c).namespace.Mov?
  }

  /** The four characters survive: all are ASCII, the last is no space, the scanner cuts
      at none of them, and when fields follow it is back at the top after them. */
  ghost predicate MovTagReads(tag: u32, alone: bool) {
    && (forall i :: 0 <= i < 4 ==> TagBytes(tag)[i] < 0x80)
    && !IsSpace(TagChars(tag)[3])
    && NoCut(TOP, TagChars(tag))
    && (alone || Run(TOP, TagChars(tag)) == TOP)
  }

  // ----- the four bytes -----

  lemma TagSum(tag: u32)
    ensures TagFromBytes(TagBytes(tag)) == Some(tag)
  {
    assert tag == tag % 256 + 256 * (tag / 256);
    assert tag / 256 == tag / 256 % 256 + 256 * (tag / 65536);
    assert tag / 65536 == tag / 65536 % 256 + 256 * (tag / 16777216);
  }

  lemma BytesAreUnique(a: nat, b: nat, x: nat, y: nat)
    requires a < 256 && b < 256 && a + 256 * x == b + 256 * y
    ensures a == b && x == y
  {
  }

  lemma TagIsUnique(b: seq<nat>, tag: u32)
    requires TagFromBytes(b) == Some(tag)
    ensures b == TagBytes(tag)
  {
    var d := TagBytes(tag);
    TagSum(tag);
    BytesAreUnique(b[0], d[0], b[1] + 256 * b[2] + 65536 * b[3], d[1] + 256 * d[2] + 65536 * d[3]);
    BytesAreUnique(b[1], d[1], b[2] + 256 * b[3], d[2] + 256 * d[3]);
    BytesAreUnique(b[2], d[2], b[3], d[3]);
    assert b == [b[0], b[1], b[2], b[3]];
  }

  ghost function Codes(s: string): seq<nat> {
    if s == [] then [] else [s[0] as nat] + Codes(s[1..])
  }

  lemma {:induction false} CodesLength(s: string)
    ensures |Codes(s)| == |s| && forall i :: 0 <= i < |s| ==> Codes(s)[i] == s[i] as nat
  {
    if s != [] {
      CodesLength(s[1..]);
    }
  }

  lemma TagCodes(tag: u32)
    ensures Codes(TagChars(tag)) == TagBytes(tag)
  {
    CodesLength(TagChars(tag));
    assert |Codes(TagChars(tag))| == |TagBytes(tag)|;
  }

  lemma {:induction false} AsciiUtf8(s: string)
    requires forall i :: 0 <= i < |s| ==> s[i] as nat < 0x80
    ensures Utf8Bytes(s) == Codes(s)
  {
    if s != [] {
      AsciiUtf8(s[1..]);
    }
  }

  /** A Latin-1 character past ASCII takes two bytes, and its own code is the first of
      them only for 0xC3, whose second byte is 0x83. */
  lemma TwoBytes(c: char)
    requires 0x80 <= c as nat < 0x100
    ensures |Utf8Char(c)| == 2
    ensures Utf8Char(c)[0] == c as nat ==> c as nat == 0xC3 && Utf8Char(c)[1] == 0x83
    ensures c as nat == 0x83 ==> Utf8Char(c) == [0xC2, 0x83]
  {
  }

  /** The UTF-8 bytes of a part of `t`, cut before a comma or a space, are the codes of
      all of `t` only when nothing was cut off and all of it is ASCII. */
  lemma {:induction false} Utf8IsTag(t: string, k: nat)
    requires |t| <= 4 && k <= |t| && forall i :: 0 <= i < |t| ==> t[i] as nat < 0x100
    requires k < |t| ==> IsSpace(t[k]) || t[k] == ','
    requires Utf8Bytes(t[..k]) == Codes(t)
    ensures k == |t| && forall i :: 0 <= i < |t| ==> t[i] as nat < 0x80
    decreases |t|
  {
    CodesLength(t);
    if k > 0 {
      var rest := t[..k][1..];
      assert rest == t[1..][..k - 1];
      assert Utf8Bytes(t[..k]) == Utf8Char(t[0]) + Utf8Bytes(rest);
      if t[0] as nat < 0x80 {
        assert Utf8Bytes(t[..k])[1..] == Utf8Bytes(rest);
        assert Codes(t)[1..] == Codes(t[1..]);
        Utf8IsTag(t[1..], k - 1);
      } else {
        NoTwoBytes(t, k, rest);
      }
    }
  }

  lemma LeadBytes(t: string, rest: string)
    requires t != [] && 0x80 <= t[0] as nat < 0x100
    requires |Codes(t)| == |t| && forall i :: 0 <= i < |t| ==> Codes(t)[i] == t[i] as nat
    requires Utf8Char(t[0]) + Utf8Bytes(rest) == Codes(t)
    ensures |t| == 2 + |Utf8Bytes(rest)| && t[1] as nat == 0x83
    ensures forall i :: 2 <= i < |t| ==> t[i] as nat == Utf8Bytes(rest)[i - 2]
  {
    TwoBytes(t[0]);
    var all := Utf8Char(t[0]) + Utf8Bytes(rest);
    assert all[0] == t[0] as nat && all[1] == t[1] as nat;
    forall i | 2 <= i < |t| ensures t[i] as nat == Utf8Bytes(rest)[i - 2] {
      assert all[i] == Codes(t)[i];
    }
  }

  lemma NextBytes(rest: string)
    requires rest != [] && rest[0] as nat == 0x83 && |Utf8Bytes(rest)| <= 2
    ensures Utf8Bytes(rest) == [0xC2, 0x83] && |rest| == 1
  {
    TwoBytes(rest[0]);
    Utf8Length(rest[1..]);
  }

  lemma NoTwoBytes(t: string, k: nat, rest: string)
    requires 0 < k <= |t| <= 4 && forall i :: 0 <= i < |t| ==> t[i] as nat < 0x100
    requires k < |t| ==> IsSpace(t[k]) || t[k] == ','
    requires t[0] as nat >= 0x80 && rest == t[1..k]
    requires |Codes(t)| == |t| && forall i :: 0 <= i < |t| ==> Codes(t)[i] == t[i] as nat
    ensures Utf8Char(t[0]) + Utf8Bytes(rest) != Codes(t)
  {
    if Utf8Char(t[0]) + Utf8Bytes(rest) == Codes(t) {
      LeadBytes(t, rest);
      if rest != [] {
        NextBytes(rest);
      }
      assert false;
    }
  }

  // ----- the first part of a description -----

  lemma {:induction false} FirstPart(s: string, st: Scan, cur: string) returns (j: nat)
    ensures j <= |s| && SplitFrom(s, st, cur)[0] == cur + s[..j]
    ensures NoCut(st, s[..j])
    ensures j < |s| ==> Cuts(Run(st, s[..j]), s[j])
    decreases |s|
  {
    j := 0;
    if s != [] && !Cuts(st, s[0]) {
      var i := FirstPart(s[1..], Next(st, s[0]), cur + [s[0]]);
      j := i + 1;
      assert s[..j][1..] == s[1..][..i];
      assert cur + [s[0]] + s[1..][..i] == cur + s[..j];
    }
  }

  function MovHead(kind: string): string {
    kind + "/" + MOV_PREFIX
  }

  lemma MovHeadIsPlain(kind: string)
    requires kind == "video" || kind == "audio"
    ensures Plain(MovHead(kind)) && |MovHead(kind)| == 19
    ensures At(MovHead(kind), 0, 'v') || (At(MovHead(kind), 0, 'a') && At(MovHead(kind), 1, 'u'))
    ensures At(MovHead(kind), 6, 'x') && At(MovHead(kind), 8, 'g')
  {
    RiffSubtype();
    MovPrefixIsPlain();
    PlainConcat(kind, "/");
    PlainConcat(kind + "/", MOV_PREFIX);
  }

  lemma MovPrefixIsPlain()
    ensures Plain(MOV_PREFIX)
  {
  }

  lemma MovMedia(c: Caps)
    requires HasMovTag(c)
    ensures Media(c) == MovHead(KindOf(c)) + TagChars(TagOf(c).tag)
  {
  }

  lemma MovCodec(kind: string, x: string, fs: Fields)
    requires kind == "video" || kind == "audio"
    ensures TaggedCodecOf(MovHead(kind) + x, fs)
         == match TagFromBytes(Utf8Bytes(x))
            case Some(tag) => TaggedOfKind(kind, CodecTag(Mov, tag))
            case None => None
  {
    RiffSubtype();
    SplitOnceAt(kind, '/', MOV_PREFIX + x);
    assert MovHead(kind) + x == kind + "/" + (MOV_PREFIX + x);
    StripPrefixOf(MOV_PREFIX, x);
  }

  /** Trimming takes nothing off the head. */
  lemma TrimAfterHead(head: string, u: string) returns (k: nat)
    requires Plain(head) && head != []
    ensures k <= |u| && Trim(head + u) == head + u[..k]
    ensures forall i :: k <= i < |u| ==> IsSpace(u[i])
    ensures k > 0 ==> !IsSpace(u[k - 1])
  {
    var s := head + u;
    assert PlainChar(head[0]) && PlainChar(head[|head| - 1]);
    assert s[0] == head[0];
    var n := TrimEndTail(s);
    assert !IsSpace(s[|head| - 1]);
    k := n - |head|;
    assert s[..n] == head + u[..k];
    forall i | k <= i < |u| ensures IsSpace(u[i]) {
      assert s[|head| + i] == u[i];
    }
  }

  // ----- which tag an element carries -----

  lemma {:induction false} CellCodec(k: VideoCodec, w: Dim, h: Dim, rs: seq<Rate>, col: Colorimetry, al: Alignment)
    ensures forall c :: c in CompressedCell(k, w, h, rs, col, al) ==> c.CompressedVideo? && c.codec == k
  {
    if rs != [] {
      CellCodec(k, w, h, rs[1..], col, al);
    }
  }

  lemma {:induction false} RowCodec(k: VideoCodec, w: Dim, hs: seq<Dim>, rs: seq<Rate>, col: Colorimetry, al: Alignment)
    ensures forall c :: c in CompressedRow(k, w, hs, rs, col, al) ==> c.CompressedVideo? && c.codec == k
  {
    if hs != [] {
      CellCodec(k, w, hs[0], rs, col, al);
      RowCodec(k, w, hs[1..], rs, col, al);
    }
  }

  lemma {:induction false} ProductCodec(k: VideoCodec, ws: seq<Dim>, hs: seq<Dim>, rs: seq<Rate>, col: Colorimetry, al: Alignment)
    ensures forall c :: c in CompressedProduct(k, ws, hs, rs, col, al) ==> c.CompressedVideo? && c.codec == k
  {
    if ws != [] {
      RowCodec(k, ws[0], hs, rs, col, al);
      ProductCodec(k, ws[1..], hs, rs, col, al);
    }
  }

  lemma CompressedSetCodec(fs: Fields, k: VideoCodec, c: Caps)
    requires CompressedSet(fs, k) == Some([c])
    ensures c.CompressedVideo? && c.codec == k
  {
    ProductCodec(k, ExpandDim(Lookup(fs, "width")).value, ExpandDim(Lookup(fs, "height")).value,
                 ExpandRate(Lookup(fs, "framerate")).value, ExpandColorimetry(Lookup(fs, "colorimetry")).value,
                 ExpandAlignment(Lookup(fs, "alignment")).value);
    assert c in [c];
  }

  lemma {:induction false} AudioCellFormat(f: AudioFormat, ch: u8, srs: seq<u32>, l: ChannelLayout)
    ensures forall c :: c in AudioCell(f, ch, srs, l) ==> c.Audio? && c.audioFormat == f
  {
    if srs != [] {
      AudioCellFormat(f, ch, srs[1..], l);
    }
  }

  lemma {:induction false} AudioRowFormat(f: AudioFormat, chs: seq<u8>, srs: seq<u32>, l: ChannelLayout)
    ensures forall c :: c in AudioRow(f, chs, srs, l) ==> c.Audio? && c.audioFormat == f
  {
    if chs != [] {
      AudioCellFormat(f, chs[0], srs, l);
      AudioRowFormat(f, chs[1..], srs, l);
    }
  }

  lemma AudioSetFormat(fs: Fields, f: AudioFormat, c: Caps)
    requires AudioSet(fs, [f]) == Some([c])
    ensures c.Audio? && c.audioFormat == f
  {
    var chs := Expand(Lookup(fs, "channels"), [ANY_CHANNELS], ParseU8).value;
    var srs := Expand(Lookup(fs, "rate"), [ANY_SAMPLE_RATE], ParseU32).value;
    var l := ExpandMask(Lookup(fs, "channel-mask")).value;
    AudioRowFormat(f, chs, srs, l);
    assert [f][1..] == [];
    assert AudioProduct([f], chs, srs, l) == AudioRow(f, chs, srs, l);
    assert c in [c];
  }

  lemma LeafSetTag(media: string, fs: Fields, kind: string, tag: u32, c: Caps)
    requires kind == "video" || kind == "audio"
    requires HasTag(c) && LeafSet(media, fs) == Some([c])
    requires TaggedCodecOf(media, fs) == TaggedOfKind(kind, CodecTag(Mov, tag))
    ensures TagOf(c) == CodecTag(Mov, tag)
  {
    KindsRead(CodecTag(Mov, tag));
    if kind == "video" {
      CompressedSetCodec(fs, VideoCodec.Tagged(CodecTag(Mov, tag)), c);
    } else {
      AudioSetFormat(fs, AudioFormat.Tagged(CodecTag(Mov, tag)), c);
    }
  }

  // ----- a tag that survives reads back -----

  lemma MovMediaParts(media: string, head: string, t: string)
    requires media == head + t && Plain(head) && |t| == 4 && !IsSpace(t[3])
    requires At(head, 0, 'v') || At(head, 0, 'a')
    ensures Trim(media) == media && media != BATCH_MEDIA
    ensures NoCut(TOP, t) ==> NoCut(TOP, media)
    ensures Run(TOP, media) == Run(TOP, t)
  {
    PlainRuns(TOP, head);
    RunConcat(TOP, head, t);
    assert media[0] == head[0] && media[|media| - 1] == t[3];
    assert PlainChar(head[0]);
    TrimOfTrimmed(media);
    LeafIsNoBatch(media);
  }

  lemma MovPrinted(c: Caps)
    requires HasMovTag(c) && MovTagReads(TagOf(c).tag, LeafFields(c) == [])
    ensures MediaOf(Print(c)) == Media(c) != BATCH_MEDIA && FieldsOf(Print(c)) == Some(Read(LeafFields(c)))
  {
    MovMedia(c);
    MovHeadIsPlain(KindOf(c));
    MovMediaParts(Media(c), MovHead(KindOf(c)), TagChars(TagOf(c).tag));
    LeafParts(c);
  }

  lemma MovParses(c: Caps)
    requires HasMovTag(c) && MovTagReads(TagOf(c).tag, LeafFields(c) == [])
    ensures Parse(Print(c)) == Some([c])
  {
    MovPrinted(c);
    MovTagIsRead(c, Read(LeafFields(c)));
    MovSetReads(c);
    ParsesAs(Print(c), Media(c), Read(LeafFields(c)));
  }

  lemma MovTagIsRead(c: Caps, fs: Fields)
    requires HasMovTag(c) && forall i :: 0 <= i < 4 ==> TagBytes(TagOf(c).tag)[i] < 0x80
    ensures TaggedCodecOf(Media(c), fs) == TaggedOfKind(KindOf(c), TagOf(c))
  {
    var tag := TagOf(c).tag;
    var t := TagChars(tag);
    MovMedia(c);
    TagCodes(tag);
    CodesLength(t);
    AsciiUtf8(t);
    TagSum(tag);
    MovCodec(KindOf(c), t, fs);
  }

  lemma MovSetReads(c: Caps)
    requires HasMovTag(c) && TaggedCodecOf(Media(c), Read(LeafFields(c))) == TaggedOfKind(KindOf(c), TagOf(c))
    ensures LeafSet(Media(c), Read(LeafFields(c))) == Some([c])
  {
    KindsRead(TagOf(c));
    if c.CompressedVideo? {
      TaggedVideoSet(c);
    } else {
      TaggedAudioSet(c);
    }
  }

  // ----- only such a tag does -----

  /** If the parser takes the right tag out of `head + u`, then the trimmed `u` is the tag's
      four characters, unless the tag was cut short. */
  lemma MovMediaReads(c: Caps, fs: Fields, media: string, x: string)
    requires HasMovTag(c) && media == MovHead(KindOf(c)) + x
    requires LeafSet(media, fs) == Some([c])
    ensures Utf8Bytes(x) == TagBytes(TagOf(c).tag)
  {
    MovHeadIsPlain(KindOf(c));
    MovCodec(KindOf(c), x, fs);
    MovIsNoMedia(media, fs);
    var tag := TagFromBytes(Utf8Bytes(x)).value;
    LeafSetTag(media, fs, KindOf(c), tag, c);
    TagIsUnique(Utf8Bytes(x), tag);
  }

  lemma ParseMedia(text: string, media: string) returns (fs: Fields)
    requires Parse(text).Some? && MediaOf(text) == media && media != BATCH_MEDIA
    ensures LeafSet(media, fs) == Parse(text)
  {
    fs := FieldsOf(text).value;
    ParsesAs(text, media, fs);
  }

  lemma TailText(text: string, head: string, t: string, fs: seq<(string, string)>) returns (tail: string)
    requires fs == [] ==> text == head + t
    requires fs != [] ==> text == head + t + "," + Commas(FieldTexts(fs))
    ensures text == head + (t + tail)
    ensures (tail == [] <==> fs == []) && (tail != [] ==> tail[0] == ',')
  {
    if fs == [] {
      tail := [];
    } else {
      tail := "," + Commas(FieldTexts(fs));
    }
    assert head + t + tail == head + (t + tail);
  }

  lemma MovText(c: Caps) returns (tail: string)
    requires HasMovTag(c)
    ensures Print(c) == MovHead(KindOf(c)) + (TagChars(TagOf(c).tag) + tail)
    ensures (tail == [] <==> LeafFields(c) == []) && (tail != [] ==> tail[0] == ',')
  {
    MovMedia(c);
    LeafText(c);
    tail := TailText(Print(c), MovHead(KindOf(c)), TagChars(TagOf(c).tag), LeafFields(c));
  }

  lemma HeadHasNoComma(head: string, rest: string, n: nat)
    requires Plain(head)
    ensures n < |head + rest| && (head + rest)[n] == ',' ==> n >= |head|
  {
    assert n < |head| ==> PlainChar(head[n]);
  }

  /** The first part of `head + rest`, when the head has no delimiter. */
  lemma PartAfterHead(head: string, rest: string) returns (j: nat)
    requires Plain(head)
    ensures j <= |rest| && SplitTop(head + rest)[0] == head + rest[..j]
    ensures NoCut(TOP, rest[..j])
    ensures j < |rest| ==> rest[j] == ',' && Run(TOP, rest[..j]) == TOP
  {
    var s := head + rest;
    var n := FirstPart(s, TOP, []);
    HeadHasNoComma(head, rest, n);
    j := n - |head|;
    assert s[..n] == head + rest[..j];
    assert [] + s[..n] == s[..n];
    PlainRuns(TOP, head);
    RunConcat(TOP, head, rest[..j]);
  }

  lemma TagIsWhole(t: string, tail: string, j: nat, k: nat, tag: u32)
    requires t == TagChars(tag) && j <= |t + tail| && k <= j
    requires tail != [] ==> tail[0] == ','
    requires j < |t + tail| ==> (t + tail)[j] == ','
    requires forall i :: k <= i < j ==> IsSpace((t + tail)[i])
    requires Utf8Bytes((t + tail)[..k]) == TagBytes(tag)
    ensures k == 4 && j == 4 && forall i :: 0 <= i < 4 ==> TagBytes(tag)[i] < 0x80
  {
    var rest := t + tail;
    TagCodes(tag);
    CodesLength(t);
    Utf8Length(rest[..k]);
    assert rest[..k] == t[..k];
    assert k < 4 ==> rest[k] == t[k];
    Utf8IsTag(t, k);
    assert j > 4 ==> IsSpace(rest[4]);
  }

  /** What the parser takes for the media type of `head + rest`. */
  lemma CutMedia(head: string, rest: string) returns (j: nat, k: nat)
    requires Plain(head) && (At(head, 0, 'v') || At(head, 0, 'a'))
    ensures k <= j <= |rest| && MediaOf(head + rest) == head + rest[..k] != BATCH_MEDIA
    ensures NoCut(TOP, rest[..j])
    ensures j < |rest| ==> rest[j] == ',' && Run(TOP, rest[..j]) == TOP
    ensures forall i :: k <= i < j ==> IsSpace(rest[i])
    ensures k > 0 ==> !IsSpace(rest[k - 1])
  {
    j := PartAfterHead(head, rest);
    k := TrimAfterHead(head, rest[..j]);
    assert rest[..j][..k] == rest[..k];
    LeafIsNoBatch(head + rest[..k]);
    assert (head + rest[..k])[0] == head[0];
  }

  lemma MovTextReads(c: Caps, text: string, x: string)
    requires HasMovTag(c) && Parse(text) == Some([c])
    requires MediaOf(text) == MovHead(KindOf(c)) + x != BATCH_MEDIA
    ensures Utf8Bytes(x) == TagBytes(TagOf(c).tag)
  {
    var fs := ParseMedia(text, MovHead(KindOf(c)) + x);
    MovMediaReads(c, fs, MovHead(KindOf(c)) + x, x);
  }

  lemma MovTextParsesBack(c: Caps, text: string, tail: string)
    requires HasMovTag(c) && Parse(text) == Some([c])
    requires text == MovHead(KindOf(c)) + (TagChars(TagOf(c).tag) + tail)
    requires tail != [] ==> tail[0] == ','
    ensures MovTagReads(TagOf(c).tag, tail == [])
  {
    var t := TagChars(TagOf(c).tag);
    var rest := t + tail;
    MovHeadIsPlain(KindOf(c));
    var j, k := CutMedia(MovHead(KindOf(c)), rest);
    MovTextReads(c, text, rest[..k]);
    TagIsWhole(t, tail, j, k, TagOf(c).tag);
    assert rest[..4] == t;
  }

  lemma MovParsesBack(c: Caps)
    requires HasMovTag(c) && Parse(Print(c)) == Some([c])
    ensures MovTagReads(TagOf(c).tag, LeafFields(c) == [])
  {
    var tail := MovText(c);
    MovTextParsesBack(c, Print(c), tail);
  }

  /** A MOV tag reads back exactly when its four characters survive. */
  lemma MovReads(c: Caps)
    requires HasMovTag(c)
    ensures Parse(Print(c)) == Some([c]) <==> MovTagReads(TagOf(c).tag, LeafFields(c) == [])
  {
    if MovTagReads(TagOf(c).tag, LeafFields(c) == []) {
      MovParses(c);
    } else if Parse(Print(c)) == Some([c]) {
      MovParsesBack(c);
    }
  }
}
