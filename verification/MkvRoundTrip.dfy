/** Parsing an encoded Matroska tree recovers its meaning. */
module MkvRoundTrip {
  import opened Bytes
  import opened Vints
  import opened MkvSearch
  import opened MkvSpec
  import opened MkvTree

  lemma IdIsVint(id: nat)
    requires ValidId(id)
    ensures 1 <= ByteLength(id) <= 8 && Pow128(ByteLength(id)) <= id < 2 * Pow128(ByteLength(id))
    ensures EncodeId(id) == EncodeVint(id - Pow128(ByteLength(id)), ByteLength(id))
  {
  }

  lemma VintParses(file: seq<byte>, limit: nat, off: nat, value: nat, n: nat)
    requires Bounded(file, limit) && limit == |file| && 1 <= n <= 8 && value < Pow128(n)
    requires At(file, off, EncodeVint(value, n))
    ensures ReadVintAt(file, limit, off) == Ok(Vint(Pow128(n) + value, value, n, value == Pow128(n) - 1))
  {
    hide Parse, ReadVintAt, EncodeVint;
    var s := EncodeVint(value, n);
    ReadVintIsParse(file, limit, off);
    assert file[off..limit] == s + file[off + n..limit];
    ParseEncoded(value, n, file[off + n..limit]);
  }

  lemma HeaderParses(file: seq<byte>, limit: nat, off: nat, id: nat, value: nat, n: nat)
    requires Bounded(file, limit) && limit == |file| && ValidId(id) && 1 <= n <= 8 && value < Pow128(n)
    requires At(file, off, EncodeId(id)) && At(file, off + ByteLength(id), EncodeVint(value, n))
    ensures ReadHeader(file, limit, off)
            == Ok(Header(id, Vint(Pow128(n) + value, value, n, value == Pow128(n) - 1), off + ByteLength(id) + n))
  {
    hide ReadVintAt, EncodeVint, EncodeId, ByteLength, Pow128;
    var m := ByteLength(id);
    IdIsVint(id);
    VintParses(file, limit, off, id - Pow128(m), m);
    VintParses(file, limit, off + m, value, n);
  }

  /** An encoded element is read back: its ID, and exactly its payload. */
  lemma RawElementParses(
    file: seq<byte>, limit: nat, off: nat, id: nat, n: nat, body: seq<byte>, siblings: seq<nat>)
    requires Bounded(file, limit) && limit == |file|
    requires ValidId(id) && 1 <= n <= 8 && |body| < Pow128(n) - 1
    requires At(file, off, EncodeElement(id, n, body))
    ensures ReadElement(file, limit, off, siblings)
            == Ok(Element(id, off + ByteLength(id) + n, off + ByteLength(id) + n + |body|))
    ensures At(file, off + ByteLength(id) + n, body)
  {
    hide ReadElement, ReadHeader, EncodeVint, EncodeId, ByteLength, Pow128, ValidId, At;
    var idBytes, size := EncodeId(id), EncodeVint(|body|, n);
    AtSplit(file, off, idBytes + size, body);
    AtSplit(file, off, idBytes, size);
    HeaderParses(file, limit, off, id, |body|, n);
    KnownSizeClamps(file, limit, off, siblings);
  }

  /** An element of the tree as it lies in the file. */
  ghost predicate Reads(file: seq<byte>, limit: nat, off: nat, e: Ebml, el: Element, siblings: seq<nat>)
    requires Bounded(file, limit)
  {
    && ReadElement(file, limit, off, siblings) == Ok(el)
    && el.id == e.id && off < el.start <= el.end <= limit <= |file|
    && file[el.start..el.end] == Body(e)
  }

  /** The first element of an encoded list, and the rest of the list after it. */
  lemma ListParses(file: seq<byte>, limit: nat, off: nat, es: seq<Ebml>, siblings: seq<nat>) returns (el: Element)
    requires Bounded(file, limit) && limit == |file| && es != [] && ValidAll(es) && At(file, off, Encode(es))
    ensures Reads(file, limit, off, es[0], el, siblings)
    ensures At(file, el.start, Body(es[0])) && el.start + |Body(es[0])| == el.end
    ensures el.end + |Encode(es[1..])| == off + |Encode(es)|
    ensures At(file, el.end, Encode(es[1..])) && ValidAll(es[1..])
  {
    hide ReadElement, Body, EncodeElement;
    var e, rest := es[0], Encode(es[1..]);
    assert e in es;
    var body := Body(e);
    AtSplit(file, off, EncodeOne(e), rest);
    RawElementParses(file, limit, off, e.id, e.sizeLen, body, siblings);
    el := Element(e.id, off + ByteLength(e.id) + e.sizeLen, off + ByteLength(e.id) + e.sizeLen + |body|);
  }

  lemma {:induction false} VideoLevel(file: seq<byte>, limit: nat, off: nat, es: seq<Ebml>, dims: (nat, nat))
    requires Bounded(file, limit) && limit == |file| && ValidAll(es) && At(file, off, Encode(es))
    ensures VideoWalk(file, limit, off, off + |Encode(es)|, dims)
            == (Last(Numbers(es, ID_PIXEL_WIDTH), dims.0), Last(Numbers(es, ID_PIXEL_HEIGHT), dims.1))
    decreases |es|
  {
    hide ReadElement, Body, EncodeOne, UintOf;
    if es != [] {
      var el := ListParses(file, limit, off, es, VIDEO_IDS);
      VideoLevel(file, limit, el.end, es[1..], VideoStep(el.id, Body(es[0]), dims));
    }
  }

  lemma PositiveCons(es: seq<Ebml>)
    requires es != []
    ensures var v := UintOf(Body(es[0]));
            Positive(Numbers(es, ID_TIMECODE_SCALE))
            == (if es[0].id == ID_TIMECODE_SCALE && v.Some? && v.value > 0 then [v.value] else [])
               + Positive(Numbers(es[1..], ID_TIMECODE_SCALE))
  {
    hide UintOf, Body;
    var v := UintOf(Body(es[0]));
    var rest := Numbers(es[1..], ID_TIMECODE_SCALE);
    if es[0].id == ID_TIMECODE_SCALE && v.Some? {
      assert Numbers(es, ID_TIMECODE_SCALE)[1..] == rest;
    } else {
      assert Numbers(es, ID_TIMECODE_SCALE) == rest;
    }
  }

  lemma MasterBody(e: Ebml)
    ensures e.Master? ==> Body(e) == Encode(e.kids)
  {
    hide Encode;
  }

  function InfoMeaning(es: seq<Ebml>, f: Fields): Fields {
    var ds := Floats(es);
    f.(scale := Last(Positive(Numbers(es, ID_TIMECODE_SCALE)), f.scale),
       duration := if ds == [] then f.duration else Some(ds[|ds| - 1]))
  }

  lemma InfoCons(es: seq<Ebml>, f: Fields)
    requires es != []
    ensures InfoMeaning(es, f) == InfoMeaning(es[1..], InfoStep(es[0].id, Body(es[0]), f))
  {
    hide UintOf, FloatOf, Body, Positive, Numbers;
    PositiveCons(es);
  }

  lemma {:induction false} InfoLevel(file: seq<byte>, limit: nat, off: nat, es: seq<Ebml>, f: Fields)
    requires Bounded(file, limit) && limit == |file| && ValidAll(es) && At(file, off, Encode(es))
    ensures InfoWalk(file, limit, off, off + |Encode(es)|, f) == InfoMeaning(es, f)
    decreases |es|
  {
    hide ReadElement, Body, EncodeOne, InfoStep, InfoMeaning;
    if es == [] {
      InfoNil(es, f);
    } else {
      var el := ListParses(file, limit, off, es, INFO_IDS);
      InfoCons(es, f);
      InfoLevel(file, limit, el.end, es[1..], InfoStep(el.id, Body(es[0]), f));
    }
  }

  lemma InfoNil(es: seq<Ebml>, f: Fields)
    requires es == []
    ensures InfoMeaning(es, f) == f
  {
  }

  lemma EntryChild(file: seq<byte>, limit: nat, el: Element, e: Ebml, st: Entry)
    requires Bounded(file, limit) && el.start <= el.end <= |file| && el.id == e.id
    requires file[el.start..el.end] == Body(e)
    requires e.id == ID_VIDEO ==> VideoWalk(file, limit, el.start, el.end, (0, 0)) == VideoSize(Kids(e))
    ensures EntryStep(file, limit, el, st)
            == if e.id == ID_TRACK_TYPE && UintOf(Body(e)).Some? then st.(trackType := UintOf(Body(e)))
               else if e.id == ID_VIDEO then st.(dims := VideoSize(Kids(e)))
               else st
  {
    hide UintOf, Body, VideoWalk, VideoSize;
  }

  function EntryMeaning(es: seq<Ebml>, st: Entry): Entry {
    var types, videos := Numbers(es, ID_TRACK_TYPE), Named(es, ID_VIDEO);
    Entry(
      if types == [] then st.trackType else Some(types[|types| - 1]),
      if videos == [] then st.dims else VideoSize(Kids(videos[|videos| - 1])))
  }

  lemma {:induction false} EntryLevel(file: seq<byte>, limit: nat, off: nat, es: seq<Ebml>, st: Entry)
    requires Bounded(file, limit) && limit == |file| && ValidEntry(es) && At(file, off, Encode(es))
    ensures EntryWalk(file, limit, off, off + |Encode(es)|, st) == EntryMeaning(es, st)
    decreases |es|
  {
    hide ReadElement, Body, EncodeOne, UintOf, VideoWalk, VideoSize, EntryStep, EntryMeaning, Numbers, Named;
    if es == [] {
      EntryNil(es, st);
    } else {
      var e := es[0];
      assert e in es;
      var el := ListParses(file, limit, off, es, ENTRY_IDS);
      if e.id == ID_VIDEO {
        MasterBody(e);
        VideoElement(file, limit, el.start, e.kids);
      }
      EntryChild(file, limit, el, e, st);
      EntryCons(es, st, EntryStep(file, limit, el, st));
      EntryLevel(file, limit, el.end, es[1..], EntryStep(file, limit, el, st));
    }
  }

  lemma VideoElement(file: seq<byte>, limit: nat, off: nat, es: seq<Ebml>)
    requires Bounded(file, limit) && limit == |file| && ValidAll(es) && At(file, off, Encode(es))
    ensures VideoWalk(file, limit, off, off + |Encode(es)|, (0, 0)) == VideoSize(es)
  {
    hide VideoWalk, Encode;
    VideoLevel(file, limit, off, es, (0, 0));
  }

  lemma EntryNil(es: seq<Ebml>, st: Entry)
    requires es == []
    ensures EntryMeaning(es, st) == st
  {
  }

  lemma EntryCons(es: seq<Ebml>, st: Entry, next: Entry)
    requires es != []
    requires next == if es[0].id == ID_TRACK_TYPE && UintOf(Body(es[0])).Some?
                     then st.(trackType := UintOf(Body(es[0])))
                     else if es[0].id == ID_VIDEO then st.(dims := VideoSize(Kids(es[0])))
                     else st
    ensures EntryMeaning(es, st) == EntryMeaning(es[1..], next)
  {
    hide UintOf, Body, VideoSize, Numbers, Named, Kids;
    TypesCons(es);
    VideosCons(es);
  }

  lemma TypesCons(es: seq<Ebml>)
    requires es != []
    ensures var v := UintOf(Body(es[0]));
            Numbers(es, ID_TRACK_TYPE)
            == (if es[0].id == ID_TRACK_TYPE && v.Some? then [v.value] else []) + Numbers(es[1..], ID_TRACK_TYPE)
  {
    hide UintOf, Body;
  }

  lemma VideosCons(es: seq<Ebml>)
    requires es != []
    ensures Named(es, ID_VIDEO) == (if es[0].id == ID_VIDEO then [es[0]] else []) + Named(es[1..], ID_VIDEO)
  {
  }

  function FirstOr<T>(o: Option<T>, s: seq<T>): Option<T> {
    if o.Some? || s == [] then o else Some(s[0])
  }

  lemma {:induction false} TracksLevel(file: seq<byte>, limit: nat, off: nat, es: seq<Ebml>, video: Option<(nat, nat)>)
    requires Bounded(file, limit) && limit == |file| && ValidTracks(es) && At(file, off, Encode(es))
    ensures TracksWalk(file, limit, off, off + |Encode(es)|, video)
            == FirstOr(video, UsableSizes(Named(es, ID_TRACK_ENTRY)))
    decreases |es|
  {
    hide ReadElement, Body, EncodeOne, EntryWalk, EntrySize, Usable, UsableSizes, Named, EntryMeaning, Keep;
    if es == [] {
      SizesNil(es);
    } else {
      var e := es[0];
      var el := ListParses(file, limit, off, es, TRACK_IDS);
      var next := video;
      if e.id == ID_TRACK_ENTRY {
        MasterBody(e);
        EntryLevel(file, limit, el.start, e.kids, NO_ENTRY);
        next := Keep(video, EntryWalk(file, limit, el.start, el.end, NO_ENTRY));
        KeepUsable(video, e.kids);
      }
      TracksLevel(file, limit, el.end, es[1..], next);
      SizesCons(es);
    }
  }

  lemma KeepUsable(video: Option<(nat, nat)>, es: seq<Ebml>)
    ensures Keep(video, EntryMeaning(es, NO_ENTRY))
            == if video.None? && Usable(es) then Some(EntrySize(es)) else video
  {
    hide Numbers, Named, VideoSize;
  }

  lemma SizesNil(es: seq<Ebml>)
    requires es == []
    ensures UsableSizes(Named(es, ID_TRACK_ENTRY)) == []
  {
  }

  lemma SizesCons(es: seq<Ebml>)
    requires es != []
    ensures UsableSizes(Named(es, ID_TRACK_ENTRY))
            == (if es[0].id == ID_TRACK_ENTRY && Usable(Kids(es[0])) then [EntrySize(Kids(es[0]))] else [])
               + UsableSizes(Named(es[1..], ID_TRACK_ENTRY))
  {
    hide Usable, EntrySize;
    var rest := Named(es[1..], ID_TRACK_ENTRY);
    if es[0].id == ID_TRACK_ENTRY {
      assert Named(es, ID_TRACK_ENTRY)[1..] == rest;
    } else {
      assert Named(es, ID_TRACK_ENTRY) == rest;
    }
  }

  /** Folding Info and Tracks elements into what has been found, in order. */
  function Fold(ms: seq<Ebml>, f: Fields): Fields {
    if ms == [] then f else Fold(ms[1..], FoldOne(ms[0], f))
  }

  function FoldOne(m: Ebml, f: Fields): Fields {
    if m.id == ID_INFO then
      var ds := Floats(Kids(m));
      f.(haveInfo := true,
         scale := Last(Positive(Numbers(Kids(m), ID_TIMECODE_SCALE)), f.scale),
         duration := if ds == [] then f.duration else Some(ds[|ds| - 1]))
    else if m.id == ID_TRACKS then
      f.(haveTracks := true, video := FirstOr(f.video, UsableSizes(Named(Kids(m), ID_TRACK_ENTRY))))
    else f
  }

  lemma FoldOther(m: Ebml, f: Fields)
    requires m.id != ID_INFO && m.id != ID_TRACKS
    ensures FoldOne(m, f) == f
  {
  }

  lemma SegmentChild(file: seq<byte>, limit: nat, el: Element, e: Ebml, f: Fields)
    requires Bounded(file, limit) && limit == |file|
    requires el.id == e.id && At(file, el.start, Body(e)) && el.end == el.start + |Body(e)|
    requires e.id == ID_INFO ==> e.Master? && ValidAll(e.kids)
    requires e.id == ID_TRACKS ==> e.Master? && ValidTracks(e.kids)
    ensures SegmentStep(file, limit, el, f) == FoldOne(e, f)
  {
    hide ReadElement, EncodeOne, InfoWalk, TracksWalk, UsableSizes, Numbers, Floats, Named;
    if e.id == ID_INFO {
      InfoLevel(file, limit, el.start, e.kids, f.(haveInfo := true));
    } else if e.id == ID_TRACKS {
      TracksLevel(file, limit, el.start, e.kids, f.video);
    }
  }

  lemma {:induction false} SegmentLevel(file: seq<byte>, limit: nat, off: nat, es: seq<Ebml>, f: Fields)
    requires Bounded(file, limit) && limit == |file| && ValidSegment(es) && At(file, off, Encode(es)) && !f.Done()
    ensures SegmentWalk(file, limit, off, off + |Encode(es)|, f)
            == Fold(UntilBoth(Metadata(es), f.haveInfo, f.haveTracks), f)
    decreases |es|
  {
    hide ReadElement, Body, EncodeOne, SegmentStep, FoldOne;
    if es != [] {
      var e := es[0];
      assert e in es;
      var el := ListParses(file, limit, off, es, SEGMENT_IDS);
      SegmentChild(file, limit, el, e, f);
      var g := FoldOne(e, f);
      var ms := Metadata(es);
      if e.id == ID_INFO || e.id == ID_TRACKS {
        assert ms[1..] == Metadata(es[1..]);
        FoldCons(ms, f);
      } else {
        FoldOther(e, f);
        assert ms == Metadata(es[1..]);
      }
      if !g.Done() {
        SegmentLevel(file, limit, el.end, es[1..], g);
      }
    }
  }

  /** Taking one more element before the cut. */
  lemma FoldCons(ms: seq<Ebml>, f: Fields)
    requires ms != [] && !f.Done() && (ms[0].id == ID_INFO || ms[0].id == ID_TRACKS)
    ensures var g := FoldOne(ms[0], f);
            Fold(UntilBoth(ms, f.haveInfo, f.haveTracks), f) == Fold(UntilBoth(ms[1..], g.haveInfo, g.haveTracks), g)
  {
    var g := FoldOne(ms[0], f);
    var rest := UntilBoth(ms[1..], g.haveInfo, g.haveTracks);
    assert UntilBoth(ms, f.haveInfo, f.haveTracks) == [ms[0]] + rest;
    assert ([ms[0]] + rest)[1..] == rest;
  }

  /** Folding over two runs of elements, cut once both kinds have been seen. */
  lemma {:induction false} FoldAppend(a: seq<Ebml>, b: seq<Ebml>, f: Fields)
    requires !f.Done() && forall m :: m in a ==> m.id == ID_INFO || m.id == ID_TRACKS
    ensures var g := Fold(UntilBoth(a, f.haveInfo, f.haveTracks), f);
            Fold(UntilBoth(a + b, f.haveInfo, f.haveTracks), f)
            == if g.Done() then g else Fold(UntilBoth(b, g.haveInfo, g.haveTracks), g)
    decreases |a|
  {
    hide FoldOne;
    if a == [] {
      assert a + b == b;
    } else {
      var g := FoldOne(a[0], f);
      assert (a + b)[1..] == a[1..] + b;
      FoldCons(a + b, f);
      FoldCons(a, f);
      if g.Done() {
        FoldDone(a[1..] + b, g);
        FoldDone(a[1..], g);
      } else {
        FoldAppend(a[1..], b, g);
      }
    }
  }

  lemma FoldDone(ms: seq<Ebml>, f: Fields)
    requires f.Done()
    ensures Fold(UntilBoth(ms, f.haveInfo, f.haveTracks), f) == f
  {
  }

  lemma MetadataIds(es: seq<Ebml>)
    ensures forall m :: m in Metadata(es) ==> m.id == ID_INFO || m.id == ID_TRACKS
  {
  }

  lemma {:induction false} RootMetadataIds(es: seq<Ebml>)
    ensures forall m :: m in RootMetadata(es) ==> m.id == ID_INFO || m.id == ID_TRACKS
  {
    if es != [] {
      MetadataIds(Kids(es[0]));
      RootMetadataIds(es[1..]);
    }
  }

  function FoldAll(ms: seq<Ebml>, f: Fields): Fields {
    Fold(UntilBoth(ms, f.haveInfo, f.haveTracks), f)
  }

  /** Walking known-size top-level elements, up to what follows them. */
  lemma {:induction false} RootsLevel(file: seq<byte>, limit: nat, off: nat, es: seq<Ebml>, f: Fields)
    requires Bounded(file, limit) && limit == |file| && ValidRoots(es) && At(file, off, Encode(es)) && !f.Done()
    ensures var g := FoldAll(RootMetadata(es), f);
            FileWalk(file, limit, off, f) == if g.Done() then g else FileWalk(file, limit, off + |Encode(es)|, g)
    decreases |es|
  {
    hide ReadElement, Body, EncodeOne, SegmentWalk, Metadata, FoldAll;
    if es == [] {
      FoldAllNil(RootMetadata(es), f);
    } else {
      var e := es[0];
      assert e in es;
      var el := ListParses(file, limit, off, es, SEGMENT_IDS);
      var here := if e.id == ID_SEGMENT then Metadata(Kids(e)) else [];
      var g := f;
      if e.id == ID_SEGMENT {
        MasterBody(e);
        WholeSegment(file, limit, el.start, e.kids, f);
        g := SegmentWalk(file, limit, el.start, el.end, f);
        MetadataIds(e.kids);
      } else {
        FoldAllNil(here, f);
      }
      FoldAllAppend(here, RootMetadata(es[1..]), f);
      assert g == FoldAll(here, f) && RootMetadata(es) == here + RootMetadata(es[1..]);
      if !g.Done() {
        RootsLevel(file, limit, el.end, es[1..], g);
      }
    }
  }

  lemma WholeSegment(file: seq<byte>, limit: nat, off: nat, es: seq<Ebml>, f: Fields)
    requires Bounded(file, limit) && limit == |file| && ValidSegment(es) && At(file, off, Encode(es)) && !f.Done()
    ensures SegmentWalk(file, limit, off, off + |Encode(es)|, f) == FoldAll(Metadata(es), f)
  {
    hide SegmentWalk, Metadata, Encode;
    SegmentLevel(file, limit, off, es, f);
  }

  lemma FoldAllNil(ms: seq<Ebml>, f: Fields)
    requires ms == []
    ensures FoldAll(ms, f) == f
  {
  }

  lemma FoldAllAppend(a: seq<Ebml>, b: seq<Ebml>, f: Fields)
    requires !f.Done() && forall m :: m in a ==> m.id == ID_INFO || m.id == ID_TRACKS
    ensures FoldAll(a + b, f) == if FoldAll(a, f).Done() then FoldAll(a, f) else FoldAll(b, FoldAll(a, f))
  {
    hide Fold, UntilBoth;
    FoldAppend(a, b, f);
  }

  /** A Segment of unknown size is read as running to the end of the file. */
  lemma StreamingSegment(file: seq<byte>, limit: nat, off: nat, n: nat, es: seq<Ebml>, f: Fields)
    requires Bounded(file, limit) && limit == |file| && 1 <= n <= 8 && ValidSegment(es) && !f.Done()
    requires At(file, off, EncodeId(ID_SEGMENT) + EncodeVint(Pow128(n) - 1, n) + Encode(es))
    requires limit == off + |EncodeId(ID_SEGMENT) + EncodeVint(Pow128(n) - 1, n) + Encode(es)|
    ensures FileWalk(file, limit, off, f) == FoldAll(Metadata(es), f)
  {
    hide ReadHeader, SegmentWalk, Metadata, FoldAll, Encode, EncodeVint, EncodeId, Pow128;
    var id, size := EncodeId(ID_SEGMENT), EncodeVint(Pow128(n) - 1, n);
    AtSplit(file, off, id + size, Encode(es));
    AtSplit(file, off, id, size);
    SegmentIdValid();
    HeaderParses(file, limit, off, ID_SEGMENT, Pow128(n) - 1, n);
    WholeSegment(file, limit, off + |id| + n, es, f);
  }

  lemma SegmentIdValid()
    ensures ValidId(ID_SEGMENT)
  {
    PowTable();
    ByteLengthUnique(ID_SEGMENT, 4);
  }

  /** Folding in closed form: last scale, last duration, first usable track. */
  function Closed(infos: seq<Ebml>, tracks: seq<Ebml>, f: Fields): Fields {
    var ds := AllDurations(infos);
    Fields(
      Last(AllScales(infos), f.scale),
      if ds == [] then f.duration else Some(ds[|ds| - 1]),
      FirstOr(f.video, AllSizes(tracks)),
      f.haveInfo || infos != [],
      f.haveTracks || tracks != [])
  }

  lemma ClosedInfo(m: Ebml, infos: seq<Ebml>, tracks: seq<Ebml>, f: Fields)
    requires m.id == ID_INFO
    ensures Closed([m] + infos, tracks, f) == Closed(infos, tracks, FoldOne(m, f))
  {
    hide Floats, Positive, Numbers, AllSizes;
    assert ([m] + infos)[1..] == infos;
  }

  lemma ClosedTracks(m: Ebml, infos: seq<Ebml>, tracks: seq<Ebml>, f: Fields)
    requires m.id == ID_TRACKS
    ensures Closed(infos, [m] + tracks, f) == Closed(infos, tracks, FoldOne(m, f))
  {
    hide AllScales, AllDurations, UsableSizes, Named;
    assert ([m] + tracks)[1..] == tracks;
  }

  lemma {:induction false} FoldClosed(ms: seq<Ebml>, f: Fields)
    requires forall m :: m in ms ==> m.id == ID_INFO || m.id == ID_TRACKS
    ensures Fold(ms, f) == Closed(Named(ms, ID_INFO), Named(ms, ID_TRACKS), f)
    decreases |ms|
  {
    hide Closed, FoldOne;
    if ms == [] {
      ClosedNil(f);
    } else {
      var m := ms[0];
      FoldClosed(ms[1..], FoldOne(m, f));
      var infos, tracks := Named(ms[1..], ID_INFO), Named(ms[1..], ID_TRACKS);
      if m.id == ID_INFO {
        assert [] + tracks == tracks;
        ClosedInfo(m, infos, tracks, f);
      } else {
        assert [] + infos == infos;
        ClosedTracks(m, infos, tracks, f);
      }
    }
  }

  lemma ClosedNil(f: Fields)
    ensures Closed([], [], f) == f
  {
  }

  lemma {:induction false} UntilBothKeeps(ms: seq<Ebml>, info: bool, tracks: bool)
    ensures forall m :: m in UntilBoth(ms, info, tracks) ==> m in ms
  {
    if ms != [] && !(info && tracks) {
      UntilBothKeeps(ms[1..], info || ms[0].id == ID_INFO, tracks || ms[0].id == ID_TRACKS);
    }
  }

  lemma MeaningIsFold(f: File)
    ensures FoldAll(FileMetadata(f), NO_FIELDS) == Meaning(f)
  {
    hide RootMetadata, Metadata, UntilBoth, Fold;
    RootMetadataIds(f.roots);
    if f.streaming.Some? {
      MetadataIds(f.streaming.value.1);
    }
    UntilBothKeeps(FileMetadata(f), false, false);
    FoldClosed(UntilBoth(FileMetadata(f), false, false), NO_FIELDS);
  }

  /**
   * Probing the encoding of any well-formed file gives exactly the file's
   * meaning, with known sizes of any length, any other elements in between, and
   * a last Segment of known or unknown size.
   */
  lemma ProbeOfEncode(f: File)
    requires Valid(f) && |EncodeFile(f)| + CHUNK <= MAX_INT64
    ensures Probe(EncodeFile(f)) == InfoOf(Meaning(f))
  {
    hide Encode, FoldAll, RootMetadata, Metadata, Meaning, FileWalk, EncodeVint, EncodeId, Pow128, InfoOf;
    var file := EncodeFile(f);
    MeaningIsFold(f);
    if file == [] {
      EmptyFile(f);
    } else {
      var limit := |file|;
      var tail := file[|Encode(f.roots)|..];
      assert file == Encode(f.roots) + tail;
      assert At(file, 0, Encode(f.roots));
      RootsLevel(file, limit, 0, f.roots, NO_FIELDS);
      RootMetadataIds(f.roots);
      var g := FoldAll(RootMetadata(f.roots), NO_FIELDS);
      match f.streaming
      case None =>
        assert RootMetadata(f.roots) + [] == RootMetadata(f.roots);
        WalkPastEnd(file, limit, |Encode(f.roots)|, g);
      case Some((n, kids)) =>
        FoldAllAppend(RootMetadata(f.roots), Metadata(kids), NO_FIELDS);
        if !g.Done() {
          assert At(file, |Encode(f.roots)|, tail);
          StreamingSegment(file, limit, |Encode(f.roots)|, n, kids, g);
        }
    }
  }

  lemma WalkPastEnd(file: seq<byte>, limit: nat, off: nat, f: Fields)
    requires Bounded(file, limit) && off >= limit
    ensures FileWalk(file, limit, off, f) == f
  {
  }

  lemma EmptyFile(f: File)
    requires Valid(f) && EncodeFile(f) == []
    ensures FileWalk([], MAX_INT64, 0, NO_FIELDS) == NO_FIELDS
    ensures FoldAll(FileMetadata(f), NO_FIELDS) == NO_FIELDS
  {
    hide FoldAll;
    if f.roots != [] {
      assert f.roots[0] in f.roots;
      assert |EncodeOne(f.roots[0])| >= 2;
    }
    assert f.streaming.None?;
    FoldAllNil(FileMetadata(f), NO_FIELDS);
  }
}
