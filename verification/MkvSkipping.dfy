/**
 * Payloads the walk passes over do not matter in a well-formed file, and how
 * that fails in a malformed one, where a child may run past the end of its parent.
 */
module MkvSkipping {
  import opened Bytes
  import opened Vints
  import opened MkvSearch
  import opened MkvSpec
  import opened MkvTree
  import opened MkvRoundTrip

  /** The same element up to the bytes of its payload. */
  predicate SameHeader(a: Ebml, b: Ebml) {
    a.id == b.id && a.sizeLen == b.sizeLen && |Body(a)| == |Body(b)|
  }

  predicate SameHeaders(xs: seq<Ebml>, ys: seq<Ebml>) {
    |xs| == |ys| && forall i :: 0 <= i < |xs| ==> SameHeader(xs[i], ys[i])
  }

  /** Two Video elements whose children differ only in payloads other than the dimensions. */
  predicate VideoAlike(xs: seq<Ebml>, ys: seq<Ebml>) {
    && SameHeaders(xs, ys)
    && forall i :: 0 <= i < |xs| && (xs[i].id == ID_PIXEL_WIDTH || xs[i].id == ID_PIXEL_HEIGHT) ==>
         Body(xs[i]) == Body(ys[i])
  }

  predicate InfoAlike(xs: seq<Ebml>, ys: seq<Ebml>) {
    && SameHeaders(xs, ys)
    && forall i :: 0 <= i < |xs| && (xs[i].id == ID_TIMECODE_SCALE || xs[i].id == ID_DURATION) ==>
         Body(xs[i]) == Body(ys[i])
  }

  predicate EntryAlike(xs: seq<Ebml>, ys: seq<Ebml>) {
    && SameHeaders(xs, ys)
    && (forall i :: 0 <= i < |xs| && xs[i].id == ID_TRACK_TYPE ==> Body(xs[i]) == Body(ys[i]))
    && (forall i :: 0 <= i < |xs| && xs[i].id == ID_VIDEO ==> VideoAlike(Kids(xs[i]), Kids(ys[i])))
  }

  predicate TracksAlike(xs: seq<Ebml>, ys: seq<Ebml>) {
    && SameHeaders(xs, ys)
    && (forall i :: 0 <= i < |xs| && xs[i].id == ID_TRACK_ENTRY ==> EntryAlike(Kids(xs[i]), Kids(ys[i])))
  }

  /** Clusters, Cues, Attachments and everything else but Info and Tracks may hold any payload of the same length. */
  predicate SegmentAlike(xs: seq<Ebml>, ys: seq<Ebml>) {
    && SameHeaders(xs, ys)
    && (forall i :: 0 <= i < |xs| && xs[i].id == ID_INFO ==> InfoAlike(Kids(xs[i]), Kids(ys[i])))
    && (forall i :: 0 <= i < |xs| && xs[i].id == ID_TRACKS ==> TracksAlike(Kids(xs[i]), Kids(ys[i])))
  }

  predicate RootsAlike(xs: seq<Ebml>, ys: seq<Ebml>) {
    && SameHeaders(xs, ys)
    && (forall i :: 0 <= i < |xs| && xs[i].id == ID_SEGMENT ==> SegmentAlike(Kids(xs[i]), Kids(ys[i])))
  }

  predicate FilesAlike(f: File, g: File) {
    && RootsAlike(f.roots, g.roots)
    && f.streaming.Some? == g.streaming.Some?
    && (f.streaming.Some? ==>
          f.streaming.value.0 == g.streaming.value.0 && SegmentAlike(f.streaming.value.1, g.streaming.value.1))
  }

  lemma TailAlike(xs: seq<Ebml>, ys: seq<Ebml>)
    requires xs != [] && SameHeaders(xs, ys)
    ensures SameHeader(xs[0], ys[0]) && SameHeaders(xs[1..], ys[1..])
    ensures VideoAlike(xs, ys) ==> VideoAlike(xs[1..], ys[1..])
    ensures InfoAlike(xs, ys) ==> InfoAlike(xs[1..], ys[1..])
    ensures EntryAlike(xs, ys) ==> EntryAlike(xs[1..], ys[1..])
    ensures TracksAlike(xs, ys) ==> TracksAlike(xs[1..], ys[1..])
    ensures SegmentAlike(xs, ys) ==> SegmentAlike(xs[1..], ys[1..])
    ensures RootsAlike(xs, ys) ==> RootsAlike(xs[1..], ys[1..])
  {
    hide Body, Kids;
    assert forall i :: 0 <= i < |xs| - 1 ==> xs[1..][i] == xs[i + 1] && ys[1..][i] == ys[i + 1];
  }

  lemma {:induction false} VideoSizesAlike(xs: seq<Ebml>, ys: seq<Ebml>)
    requires VideoAlike(xs, ys)
    ensures Numbers(xs, ID_PIXEL_WIDTH) == Numbers(ys, ID_PIXEL_WIDTH)
    ensures Numbers(xs, ID_PIXEL_HEIGHT) == Numbers(ys, ID_PIXEL_HEIGHT)
  {
    hide Body, UintOf;
    if xs != [] {
      TailAlike(xs, ys);
      VideoSizesAlike(xs[1..], ys[1..]);
    }
  }

  lemma {:induction false} InfosAlike(xs: seq<Ebml>, ys: seq<Ebml>, f: Fields)
    requires InfoAlike(xs, ys)
    ensures InfoMeaning(xs, f) == InfoMeaning(ys, f)
  {
    hide Body, InfoMeaning, UintOf, FloatOf;
    if xs == [] {
      InfoNil(xs, f);
      InfoNil(ys, f);
    } else {
      TailAlike(xs, ys);
      InfoCons(xs, f);
      InfoCons(ys, f);
      InfosAlike(xs[1..], ys[1..], InfoStep(xs[0].id, Body(xs[0]), f));
    }
  }

  lemma {:induction false} EntriesAlike(xs: seq<Ebml>, ys: seq<Ebml>, st: Entry)
    requires EntryAlike(xs, ys)
    ensures EntryMeaning(xs, st) == EntryMeaning(ys, st)
  {
    hide Body, EntryMeaning, UintOf, Numbers;
    if xs == [] {
      EntryNil(xs, st);
      EntryNil(ys, st);
    } else {
      TailAlike(xs, ys);
      if xs[0].id == ID_VIDEO {
        VideoSizesAlike(Kids(xs[0]), Kids(ys[0]));
      }
      var v := UintOf(Body(xs[0]));
      var next := if xs[0].id == ID_TRACK_TYPE && v.Some? then st.(trackType := v)
                  else if xs[0].id == ID_VIDEO then st.(dims := VideoSize(Kids(xs[0])))
                  else st;
      EntryCons(xs, st, next);
      EntryCons(ys, st, next);
      EntriesAlike(xs[1..], ys[1..], next);
    }
  }

  lemma {:induction false} TrackSizesAlike(xs: seq<Ebml>, ys: seq<Ebml>)
    requires TracksAlike(xs, ys)
    ensures UsableSizes(Named(xs, ID_TRACK_ENTRY)) == UsableSizes(Named(ys, ID_TRACK_ENTRY))
  {
    hide Body, UsableSizes, Named, EntryMeaning, Usable, EntrySize;
    if xs == [] {
      SizesNil(xs);
      SizesNil(ys);
    } else {
      TailAlike(xs, ys);
      SizesCons(xs);
      SizesCons(ys);
      TrackSizesAlike(xs[1..], ys[1..]);
      if xs[0].id == ID_TRACK_ENTRY {
        EntriesAlike(Kids(xs[0]), Kids(ys[0]), NO_ENTRY);
        UsableIsMeaning(Kids(xs[0]));
        UsableIsMeaning(Kids(ys[0]));
      }
    }
  }

  lemma UsableIsMeaning(es: seq<Ebml>)
    ensures EntrySize(es) == EntryMeaning(es, NO_ENTRY).dims
    ensures Usable(es) <==> Keep(None, EntryMeaning(es, NO_ENTRY)).Some?
  {
    hide Numbers, Named, VideoSize;
  }

  lemma FoldOneAlike(a: Ebml, b: Ebml, f: Fields)
    requires a.id == b.id
    requires a.id == ID_INFO ==> InfoAlike(Kids(a), Kids(b))
    requires a.id == ID_TRACKS ==> TracksAlike(Kids(a), Kids(b))
    ensures FoldOne(a, f) == FoldOne(b, f)
  {
    hide Positive, Numbers, Floats, Named, UsableSizes, Kids;
    if a.id == ID_INFO {
      InfosAlike(Kids(a), Kids(b), f.(haveInfo := true));
    } else if a.id == ID_TRACKS {
      TrackSizesAlike(Kids(a), Kids(b));
    }
  }

  /** One more child of a Segment, metadata or not. */
  lemma FoldMetadataCons(es: seq<Ebml>, f: Fields)
    requires es != [] && !f.Done()
    ensures var g := FoldOne(es[0], f);
            FoldAll(Metadata(es), f) == if g.Done() then g else FoldAll(Metadata(es[1..]), g)
  {
    hide FoldOne;
    var e, ms := es[0], Metadata(es);
    if e.id == ID_INFO || e.id == ID_TRACKS {
      assert ms[1..] == Metadata(es[1..]);
      FoldCons(ms, f);
      if FoldOne(e, f).Done() {
        FoldDone(ms[1..], FoldOne(e, f));
      }
    } else {
      FoldOther(e, f);
      assert ms == Metadata(es[1..]);
    }
  }

  lemma {:induction false} SegmentsAlike(xs: seq<Ebml>, ys: seq<Ebml>, f: Fields)
    requires SegmentAlike(xs, ys) && !f.Done()
    ensures FoldAll(Metadata(xs), f) == FoldAll(Metadata(ys), f)
  {
    hide Body, FoldAll, FoldOne, Kids;
    if xs != [] {
      TailAlike(xs, ys);
      FoldMetadataCons(xs, f);
      FoldMetadataCons(ys, f);
      FoldOneAlike(xs[0], ys[0], f);
      if !FoldOne(xs[0], f).Done() {
        SegmentsAlike(xs[1..], ys[1..], FoldOne(xs[0], f));
      }
    }
  }

  lemma FoldRootsCons(es: seq<Ebml>, f: Fields, here: seq<Ebml>)
    requires es != [] && !f.Done()
    requires here == if es[0].id == ID_SEGMENT then Metadata(Kids(es[0])) else []
    ensures var g := FoldAll(here, f);
            FoldAll(RootMetadata(es), f) == if g.Done() then g else FoldAll(RootMetadata(es[1..]), g)
  {
    hide FoldAll, Metadata, Kids;
    MetadataIds(Kids(es[0]));
    FoldAllAppend(here, RootMetadata(es[1..]), f);
  }

  lemma {:induction false} RootsFoldAlike(xs: seq<Ebml>, ys: seq<Ebml>, f: Fields)
    requires RootsAlike(xs, ys) && !f.Done()
    ensures FoldAll(RootMetadata(xs), f) == FoldAll(RootMetadata(ys), f)
  {
    hide Body, FoldAll, Kids, Metadata;
    if xs != [] {
      TailAlike(xs, ys);
      var a := if xs[0].id == ID_SEGMENT then Metadata(Kids(xs[0])) else [];
      var b := if ys[0].id == ID_SEGMENT then Metadata(Kids(ys[0])) else [];
      FoldRootsCons(xs, f, a);
      FoldRootsCons(ys, f, b);
      if xs[0].id == ID_SEGMENT {
        SegmentsAlike(Kids(xs[0]), Kids(ys[0]), f);
      }
      if !FoldAll(a, f).Done() {
        RootsFoldAlike(xs[1..], ys[1..], FoldAll(a, f));
      }
    }
  }

  lemma {:induction false} SameLength(xs: seq<Ebml>, ys: seq<Ebml>)
    requires SameHeaders(xs, ys) && ValidAll(xs) && ValidAll(ys)
    ensures |Encode(xs)| == |Encode(ys)|
  {
    hide Body, EncodeElement;
    if xs != [] {
      assert xs[0] in xs && ys[0] in ys;
      assert forall e :: e in xs[1..] ==> e in xs;
      assert forall e :: e in ys[1..] ==> e in ys;
      assert SameHeader(xs[0], ys[0]);
      TailAlike(xs, ys);
      SameLength(xs[1..], ys[1..]);
    }
  }

  /**
   * Payload independence for well-formed files: two files that differ only
   * inside payloads the walk passes over have the same length and probe alike.
   */
  lemma SkippedPayloadsDoNotMatter(f: File, g: File)
    requires Valid(f) && Valid(g) && FilesAlike(f, g) && |EncodeFile(f)| + CHUNK <= MAX_INT64
    ensures |EncodeFile(f)| == |EncodeFile(g)|
    ensures Probe(EncodeFile(f)) == Probe(EncodeFile(g))
  {
    hide FoldAll, Metadata, RootMetadata, Meaning, InfoOf, Probe, Encode, Pow128;
    SameLength(f.roots, g.roots);
    RootsFoldAlike(f.roots, g.roots, NO_FIELDS);
    RootMetadataIds(f.roots);
    RootMetadataIds(g.roots);
    var st := FoldAll(RootMetadata(f.roots), NO_FIELDS);
    if f.streaming.Some? {
      var a, b := f.streaming.value.1, g.streaming.value.1;
      SameLength(a, b);
      FoldAllAppend(RootMetadata(f.roots), Metadata(a), NO_FIELDS);
      FoldAllAppend(RootMetadata(g.roots), Metadata(b), NO_FIELDS);
      if !st.Done() {
        SegmentsAlike(a, b, st);
      }
    } else {
      assert RootMetadata(f.roots) + [] == RootMetadata(f.roots);
      assert RootMetadata(g.roots) + [] == RootMetadata(g.roots);
    }
    MeaningIsFold(f);
    MeaningIsFold(g);
    ProbeOfEncode(f);
    ProbeOfEncode(g);
  }

  /**
   * A Segment whose Info ends right after the header of a four-byte Duration,
   * so that the Duration's payload lies in the Void element that follows Info.
   */
  function Overrun(x: byte, y: byte): seq<byte> {
    [0x18, 0x53, 0x80, 0x67, 0x8C, 0x15, 0x49, 0xA9, 0x66, 0x83, 0x44, 0x89, 0x84, 0xEC, 0x82, x, y]
  }

  lemma ShortHeader(file: seq<byte>, off: nat, id: nat, size: nat)
    requires |file| + CHUNK <= MAX_INT64 && ValidId(id) && size < 127
    requires At(file, off, EncodeId(id) + [0x80 + size])
    ensures ReadHeader(file, |file|, off)
            == Ok(Header(id, Vint(0x80 + size, size, 1, false), off + ByteLength(id) + 1))
  {
    PowTable();
    var sizeByte := [0x80 + size];
    AtSplit(file, off, EncodeId(id), sizeByte);
    assert EncodeVint(size, 1) == sizeByte by {
      assert ToBigEndian((0x80 + size) / 256, 0) == [];
    }
    hide EncodeVint, EncodeId, ReadHeader, ByteLength;
    HeaderParses(file, |file|, off, id, size, 1);
  }

  lemma FourByteId(a: byte, b: byte, c: byte, d: byte)
    requires 0x10 <= a < 0x20
    ensures var id := ((a * 256 + b) * 256 + c) * 256 + d;
            ValidId(id) && ByteLength(id) == 4 && EncodeId(id) == [a, b, c, d]
  {
    Id4(a, b, c, d);
    PowTable();
    ByteLengthUnique(((a * 256 + b) * 256 + c) * 256 + d, 4);
  }

  lemma TwoByteId(a: byte, b: byte)
    requires 0x40 <= a < 0x80
    ensures ValidId(a * 256 + b) && ByteLength(a * 256 + b) == 2 && EncodeId(a * 256 + b) == [a, b]
  {
    Id2(a, b);
    PowTable();
    ByteLengthUnique(a * 256 + b, 2);
  }

  lemma OneByteId(a: byte)
    requires 0x80 <= a
    ensures ValidId(a) && ByteLength(a) == 1 && EncodeId(a) == [a]
  {
    Id1(a);
    PowTable();
    ByteLengthUnique(a, 1);
  }

  lemma OverrunBytes(x: byte, y: byte)
    ensures var f := Overrun(x, y);
            && |f| == 17 && f[0] == 0x18 && f[1] == 0x53 && f[2] == 0x80 && f[3] == 0x67 && f[4] == 0x8C
            && f[5] == 0x15 && f[6] == 0x49 && f[7] == 0xA9 && f[8] == 0x66 && f[9] == 0x83
            && f[10] == 0x44 && f[11] == 0x89 && f[12] == 0x84 && f[13] == 0xEC && f[14] == 0x82 && f[15] == x && f[16] == y
  {
  }

  lemma OverrunOuterHeaders(x: byte, y: byte)
    ensures var file := Overrun(x, y);
            && ReadHeader(file, 17, 0) == Ok(Header(ID_SEGMENT, Vint(0x8C, 12, 1, false), 5))
            && ReadHeader(file, 17, 5) == Ok(Header(ID_INFO, Vint(0x83, 3, 1, false), 10))
  {
    hide ReadHeader, EncodeId, ByteLength, Overrun;
    var file := Overrun(x, y);
    OverrunBytes(x, y);
    FourByteId(0x18, 0x53, 0x80, 0x67);
    assert file[0..5] == [0x18, 0x53, 0x80, 0x67] + [0x8C];
    ShortHeader(file, 0, ID_SEGMENT, 12);
    FourByteId(0x15, 0x49, 0xA9, 0x66);
    assert file[5..10] == [0x15, 0x49, 0xA9, 0x66] + [0x83];
    ShortHeader(file, 5, ID_INFO, 3);
  }

  lemma OverrunInnerHeaders(x: byte, y: byte)
    ensures var file := Overrun(x, y);
            && ReadHeader(file, 17, 10) == Ok(Header(ID_DURATION, Vint(0x84, 4, 1, false), 13))
            && ReadHeader(file, 17, 13) == Ok(Header(ID_VOID, Vint(0x82, 2, 1, false), 15))
  {
    hide ReadHeader, EncodeId, ByteLength, Overrun;
    var file := Overrun(x, y);
    OverrunBytes(x, y);
    TwoByteId(0x44, 0x89);
    assert file[10..13] == [0x44, 0x89] + [0x84];
    ShortHeader(file, 10, ID_DURATION, 4);
    OneByteId(0xEC);
    assert file[13..15] == [0xEC] + [0x82];
    ShortHeader(file, 13, ID_VOID, 2);
  }

  /**
   * Children are clamped to the file, not to their parent, so for malformed
   * bytes independence fails: these files differ only inside the payload of a
   * known-size Void element that the Segment's walk passes over, and the
   * duration reported is made of that payload.
   */
  lemma OverrunReadsSkippedPayload(x: byte, y: byte)
    ensures var file := Overrun(x, y);
            && ReadElement(file, 17, 13, SEGMENT_IDS) == Ok(Element(ID_VOID, 15, 17))
            && Probe(file).duration == Some((Float(0xEC820000 + 256 * x + y, false), DEFAULT_TIMECODE_SCALE))
  {
    hide ReadHeader, FileWalk, SegmentWalk, InfoWalk, FloatOf;
    var file := Overrun(x, y);
    OverrunOuterHeaders(x, y);
    OverrunInnerHeaders(x, y);
    KnownSizeClamps(file, 17, 0, SEGMENT_IDS);
    KnownSizeClamps(file, 17, 5, SEGMENT_IDS);
    KnownSizeClamps(file, 17, 10, INFO_IDS);
    KnownSizeClamps(file, 17, 13, SEGMENT_IDS);
    OverrunWalk(file, Float(0xEC820000 + 256 * x + y, false), x, y);
  }

  lemma OverrunFloat(x: byte, y: byte)
    ensures FloatOf([0xEC, 0x82, x, y]) == Some(Float(0xEC820000 + 256 * x + y, false))
  {
    Id3(0xEC, 0x82, x);
    BigEndianSnoc([0xEC, 0x82, x], y);
    assert [0xEC, 0x82, x] + [y] == [0xEC, 0x82, x, y];
  }

  lemma OverrunWalk(file: seq<byte>, v: Float, x: byte, y: byte)
    requires file == Overrun(x, y) && v == Float(0xEC820000 + 256 * x + y, false)
    requires ReadElement(file, 17, 0, SEGMENT_IDS) == Ok(Element(ID_SEGMENT, 5, 17))
    requires ReadElement(file, 17, 5, SEGMENT_IDS) == Ok(Element(ID_INFO, 10, 13))
    requires ReadElement(file, 17, 10, INFO_IDS) == Ok(Element(ID_DURATION, 13, 17))
    requires ReadElement(file, 17, 13, SEGMENT_IDS) == Ok(Element(ID_VOID, 15, 17))
    ensures FileWalk(file, 17, 0, NO_FIELDS) == NO_FIELDS.(haveInfo := true, duration := Some(v))
  {
    hide ReadElement, FloatOf, UintOf;
    OverrunFloat(x, y);
    assert file[13..17] == [0xEC, 0x82, x, y];
    var f := NO_FIELDS.(haveInfo := true);
    var g := f.(duration := Some(v));
    assert InfoWalk(file, 17, 17, 13, g) == g;
    assert InfoWalk(file, 17, 10, 13, f) == g;
    assert SegmentWalk(file, 17, 17, 17, g) == g;
    assert SegmentWalk(file, 17, 13, 17, g) == g;
    assert SegmentWalk(file, 17, 5, 17, NO_FIELDS) == g;
    assert FileWalk(file, 17, 17, g) == g;
  }
}
