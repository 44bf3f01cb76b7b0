/**
 * RIFF chunk lists, what an AVI header means, and the proof that probing the encoding
 * recovers it. Where a stream header is too short for the four bytes of its type, the
 * meaning takes them from the bytes behind it, as the code does.
 */
module AviTree {
  import opened Bytes
  import opened AviSpec

  /** A chunk with a payload, or a LIST of a kind with chunks in it; a LIST may also hold other bytes. */
  datatype Riff =
    | Data(id: seq<byte>, payload: seq<byte>)
    | Group(kind: seq<byte>, kids: seq<Riff>)

  function Id(t: Riff): seq<byte> {
    if t.Data? then t.id else LIST
  }

  function Body(t: Riff): seq<byte>
    decreases t, 0
  {
    match t
    case Data(_, payload) => payload
    case Group(kind, kids) => kind + Encode(kids)
  }

  function Padding(n: nat): seq<byte> {
    if n % 2 == 1 then [0] else []
  }

  /** Id, little-endian length, payload, and a pad byte after an odd payload. */
  function EncodeChunk(id: seq<byte>, body: seq<byte>): seq<byte> {
    id + ToLittleEndian(|body|, 4) + body + Padding(|body|)
  }

  function EncodeOne(t: Riff): seq<byte>
    decreases t, 1
  {
    EncodeChunk(Id(t), Body(t))
  }

  function Encode(ts: seq<Riff>): seq<byte> {
    if ts == [] then [] else EncodeOne(ts[0]) + Encode(ts[1..])
  }

  function EncodeFile(ts: seq<Riff>): seq<byte> {
    RIFF + ToLittleEndian(4 + |Encode(ts)|, 4) + AVI + Encode(ts)
  }

  /** A LIST the walks do not look into: too short for a kind, or of a kind other than hdrl and strl. */
  predicate Opaque(payload: seq<byte>) {
    |payload| >= 4 ==> payload[..4] != HDRL && payload[..4] != STRL
  }

  /** Lengths fit 32 bits; a LIST that is looked into is spelled as a Group. */
  predicate ValidChunk(t: Riff) {
    && |Body(t)| < 0x1_0000_0000
    && (t.Data? ==> |t.id| == 4 && (t.id == LIST ==> Opaque(t.payload)))
    && (t.Group? ==> |t.kind| == 4)
  }

  predicate ValidAll(ts: seq<Riff>)
    decreases ts
  {
    forall t :: t in ts ==> ValidChunk(t) && (t.Group? ==> ValidAll(t.kids))
  }

  predicate Valid(ts: seq<Riff>) {
    ValidAll(ts) && |Encode(ts)| + 12 < 0x1_0000_0000
  }

  /** The chunks of a list laid out from off, padding included. */
  function Layout(ts: seq<Riff>, off: nat): seq<Chunk> {
    if ts == [] then []
    else [Chunk(Id(ts[0]), off + 8, off + 8 + |Body(ts[0])|)] + Layout(ts[1..], off + |EncodeOne(ts[0])|)
  }

  // What a chunk tree means.

  /** The bytes behind the payload of a list's first chunk: its padding, the rest of the list, what comes after the list. */
  function Behind(ts: seq<Riff>, after: seq<byte>): seq<byte>
    requires ts != []
  {
    Padding(|Body(ts[0])|) + (Encode(ts[1..]) + after)
  }

  /** The chunks of one LIST and the bytes that come after it. */
  datatype Section = Section(kids: seq<Riff>, after: seq<byte>)

  function Groups(ts: seq<Riff>, kind: seq<byte>, after: seq<byte>): seq<Section> {
    if ts == [] then []
    else
      (if ts[0].Group? && ts[0].kind == kind then [Section(ts[0].kids, Behind(ts, after))] else [])
      + Groups(ts[1..], kind, after)
  }

  function Named(ts: seq<Riff>, id: seq<byte>): seq<seq<byte>> {
    if ts == [] then [] else (if Id(ts[0]) == id then [Body(ts[0])] else []) + Named(ts[1..], id)
  }

  function Bitmaps(ps: seq<seq<byte>>): seq<(int, int)> {
    if ps == [] then []
    else
      var s := if |ps[0]| >= 12 then BitmapSize(ps[0][..12]) else None;
      (if s.Some? then [s.value] else []) + Bitmaps(ps[1..])
  }

  /** What a stream header says its stream is: four bytes, which a shorter header takes from what comes after it. */
  function TypeOf(payload: seq<byte>, after: seq<byte>): seq<byte> {
    if |payload + after| < 4 then [] else (payload + after)[..4]
  }

  function Types(ts: seq<Riff>, after: seq<byte>): seq<seq<byte>> {
    if ts == [] then []
    else (if Id(ts[0]) == STRH then [TypeOf(Body(ts[0]), Behind(ts, after))] else []) + Types(ts[1..], after)
  }

  /** A stream list's size: from its last readable strf, if its last strh says video. */
  function StreamSize(l: Section): Option<(int, int)> {
    var hs, bs := Types(l.kids, l.after), Bitmaps(Named(l.kids, STRF));
    if hs != [] && hs[|hs| - 1] == VIDS && bs != []
       && 0 < bs[|bs| - 1].0 <= MAX_DIMENSION && 0 < bs[|bs| - 1].1 <= MAX_DIMENSION then Some(bs[|bs| - 1])
    else None
  }

  function StreamSizes(ls: seq<Section>): seq<(int, int)> {
    if ls == [] then []
    else (if StreamSize(ls[0]).Some? then [StreamSize(ls[0]).value] else []) + StreamSizes(ls[1..])
  }

  function MainHeaders(ps: seq<seq<byte>>): seq<Header> {
    if ps == [] then []
    else
      var h := if |ps[0]| >= 40 then MainHeader(ps[0][..40]) else None;
      (if h.Some? then [h.value] else []) + MainHeaders(ps[1..])
  }

  function AllHeaders(ls: seq<Section>): seq<Header> {
    if ls == [] then [] else MainHeaders(Named(ls[0].kids, AVIH)) + AllHeaders(ls[1..])
  }

  function AllSizes(ls: seq<Section>): seq<(int, int)> {
    if ls == [] then [] else StreamSizes(Groups(ls[0].kids, STRL, ls[0].after)) + AllSizes(ls[1..])
  }

  /** The last main header and the first usable video stream of all header lists. */
  function Meaning(ts: seq<Riff>): Info {
    var headers, sizes := AllHeaders(Groups(ts, HDRL, [])), AllSizes(Groups(ts, HDRL, []));
    InfoOf(State(
      if headers == [] then None else Some(headers[|headers| - 1]),
      if sizes == [] then None else Some(sizes[0])))
  }

  // Reading back.

  lemma HeaderReads(file: seq<byte>, off: nat, id: seq<byte>, n: nat)
    requires |id| == 4 && n < 0x1_0000_0000 && At(file, off, id + ToLittleEndian(n, 4))
    ensures ReadAt(file, 8, off).Some?
    ensures ReadAt(file, 8, off).value[0..4] == id && LittleEndian(ReadAt(file, 8, off).value[4..8]) == n
  {
    PowTable();
    LittleEndianRoundTrip(n, 4);
    hide ToLittleEndian, LittleEndian;
    var size := ToLittleEndian(n, 4);
    var h := ReadAt(file, 8, off).value;
    assert h == id + size;
    assert h[4..8] == size;
  }

  lemma ChunkReads(file: seq<byte>, off: nat, end: nat, id: seq<byte>, body: seq<byte>)
    requires |id| == 4 && |body| < 0x1_0000_0000 && At(file, off, EncodeChunk(id, body))
    requires off + |EncodeChunk(id, body)| <= end
    ensures |EncodeChunk(id, body)| == 8 + |body| + |body| % 2
    ensures ReadChunk(file, off, end)
            == Some((Chunk(id, off + 8, off + 8 + |body|), off + |EncodeChunk(id, body)|))
    ensures At(file, off + 8, body)
  {
    hide ReadAt, ToLittleEndian, LittleEndian;
    AtSplit(file, off, id + ToLittleEndian(|body|, 4) + body, Padding(|body|));
    AtSplit(file, off, id + ToLittleEndian(|body|, 4), body);
    HeaderReads(file, off, id, |body|);
  }

  lemma HeadChunk(file: seq<byte>, off: nat, ts: seq<Riff>)
    requires ts != [] && ValidAll(ts) && At(file, off, Encode(ts))
    ensures var size := |EncodeOne(ts[0])|;
            && size >= 8 && off + |Encode(ts)| <= |file|
            && ReadChunk(file, off, off + |Encode(ts)|)
               == Some((Chunk(Id(ts[0]), off + 8, off + 8 + |Body(ts[0])|), off + size))
            && At(file, off + 8, Body(ts[0]))
            && |Encode(ts)| == size + |Encode(ts[1..])| && At(file, off + size, Encode(ts[1..]))
            && ValidChunk(ts[0]) && ValidAll(ts[1..])
  {
    hide Body, EncodeChunk, ReadChunk, At, ValidChunk, Encode;
    var t, rest := ts[0], Encode(ts[1..]);
    assert t in ts;
    EncodeCons(ts);
    AtSplit(file, off, EncodeOne(t), rest);
    AtBound(file, off, Encode(ts));
    IdLength(t);
    ChunkReads(file, off, off + |EncodeOne(t)| + |rest|, Id(t), Body(t));
    assert forall u :: u in ts[1..] ==> u in ts;
  }

  lemma EncodeCons(ts: seq<Riff>)
    requires ts != []
    ensures Encode(ts) == EncodeOne(ts[0]) + Encode(ts[1..])
  {
  }

  lemma IdLength(t: Riff)
    requires ValidChunk(t)
    ensures |Id(t)| == 4 && |Body(t)| < 0x1_0000_0000
  {
    hide Body;
  }

  /** A chunk laid over the payload of a tree, with the bytes after it to the end of the file. */
  predicate Over(file: seq<byte>, c: Chunk, t: Riff, after: seq<byte>) {
    && c.id == Id(t) && c.end == c.start + |Body(t)| && At(file, c.start, Body(t)) && ValidChunk(t)
    && file[c.end..] == after
  }

  predicate AllOver(file: seq<byte>, cs: seq<Chunk>, ts: seq<Riff>, after: seq<byte>) {
    if ts == [] then cs == []
    else cs != [] && Over(file, cs[0], ts[0], Behind(ts, after)) && AllOver(file, cs[1..], ts[1..], after)
  }

  lemma {:induction false} VisitsLayout(file: seq<byte>, off: nat, ts: seq<Riff>)
    requires ValidAll(ts) && At(file, off, Encode(ts)) && off + |Encode(ts)| <= MAX_END
    ensures Visited(file, off, off + |Encode(ts)|) == Layout(ts, off)
    decreases |ts|
  {
    hide Body, Encode, EncodeOne, ReadChunk, ValidAll, At, Visited;
    var end := off + |Encode(ts)|;
    if ts == [] {
      NothingVisited(file, off);
    } else {
      HeadChunk(file, off, ts);
      VisitedCons(file, off, end, ReadChunk(file, off, end).value);
      VisitsLayout(file, off + |EncodeOne(ts[0])|, ts[1..]);
    }
  }

  lemma NothingVisited(file: seq<byte>, off: nat)
    ensures Encode([]) == [] && Visited(file, off, off) == []
  {
  }

  lemma VisitedCons(file: seq<byte>, off: nat, end: nat, r: (Chunk, nat))
    requires off + 8 <= end <= MAX_END && ReadChunk(file, off, end) == Some(r)
    ensures Visited(file, off, end) == [r.0] + Visited(file, r.1, end)
  {
  }

  lemma {:induction false} LayoutIsOver(file: seq<byte>, off: nat, ts: seq<Riff>, after: seq<byte>)
    requires ValidAll(ts) && At(file, off, Encode(ts)) && file[off + |Encode(ts)|..] == after
    ensures AllOver(file, Layout(ts, off), ts, after)
    decreases |ts|
  {
    hide Body, EncodeOne, ReadChunk, ValidChunk, At, Over, Behind, Encode;
    if ts != [] {
      HeadChunk(file, off, ts);
      HeadIsOver(file, off, ts, after);
      LayoutIsOver(file, off + |EncodeOne(ts[0])|, ts[1..], after);
    }
  }

  /**
   * Walking an encoded chunk list visits exactly its chunks, padding skipped,
   * each payload where it was written.
   */
  lemma WalkVisitsList(file: seq<byte>, off: nat, ts: seq<Riff>, after: seq<byte>)
    requires ValidAll(ts) && At(file, off, Encode(ts)) && off + |Encode(ts)| <= MAX_END
    requires file[off + |Encode(ts)|..] == after
    ensures Visited(file, off, off + |Encode(ts)|) == Layout(ts, off)
    ensures AllOver(file, Layout(ts, off), ts, after)
  {
    VisitsLayout(file, off, ts);
    LayoutIsOver(file, off, ts, after);
  }

  lemma HeadIsOver(file: seq<byte>, off: nat, ts: seq<Riff>, after: seq<byte>)
    requires ts != [] && At(file, off, Encode(ts)) && file[off + |Encode(ts)|..] == after
    requires At(file, off + 8, Body(ts[0])) && ValidChunk(ts[0])
    ensures Over(file, Chunk(Id(ts[0]), off + 8, off + 8 + |Body(ts[0])|), ts[0], Behind(ts, after))
  {
    hide Body, Encode, At;
    IdLength(ts[0]);
    EncodeCons(ts);
    var head := Id(ts[0]) + ToLittleEndian(|Body(ts[0])|, 4) + Body(ts[0]);
    var rest := Padding(|Body(ts[0])|) + Encode(ts[1..]);
    assert Encode(ts) == head + rest;
    After(file, off, head, rest, after);
    assert rest + after == Behind(ts, after);
  }

  lemma After(file: seq<byte>, off: nat, a: seq<byte>, b: seq<byte>, after: seq<byte>)
    requires At(file, off, a + b) && file[off + |a + b|..] == after
    ensures file[off + |a|..] == b + after
  {
    AtSplit(file, off, a, b);
    var r := file[off + |a|..];
    assert r == r[..|b|] + r[|b|..];
  }

  lemma OverTail(file: seq<byte>, cs: seq<Chunk>, ts: seq<Riff>, after: seq<byte>)
    requires AllOver(file, cs, ts, after) && ts != []
    ensures cs != [] && Over(file, cs[0], ts[0], Behind(ts, after)) && AllOver(file, cs[1..], ts[1..], after)
  {
  }

  lemma IdOver(file: seq<byte>, c: Chunk, t: Riff, after: seq<byte>)
    requires Over(file, c, t, after)
    ensures c.id == Id(t) && c.end == c.start + |Body(t)| && c.end <= |file|
    ensures (t.Group? ==> Id(t) == LIST) && (t.Data? && t.id == LIST ==> Opaque(t.payload))
  {
    hide Body;
  }

  lemma HeadOver(file: seq<byte>, c: Chunk, t: Riff, after: seq<byte>, n: nat)
    requires Over(file, c, t, after)
    ensures Head(file, c, n) == if |Body(t)| >= n then Body(t)[..n] else []
  {
    hide Body;
    if |Body(t)| >= n {
      AtPrefix(file, c.start, Body(t), n);
    }
  }

  /** A LIST's kind is the first four bytes of its payload, its chunks the rest. */
  lemma GroupOver(file: seq<byte>, c: Chunk, t: Riff, after: seq<byte>)
    requires Over(file, c, t, after) && t.Group?
    ensures FourCC(file, c.start) == t.kind
    ensures At(file, c.start + 4, Encode(t.kids)) && c.end == c.start + 4 + |Encode(t.kids)| && file[c.end..] == after
  {
    hide Encode;
    AtSplit(file, c.start, t.kind, Encode(t.kids));
    AtPrefix(file, c.start, t.kind, 4);
  }

  /** The type of a stream is read through the end of a short header. */
  lemma TypeOver(file: seq<byte>, c: Chunk, t: Riff, after: seq<byte>)
    requires Over(file, c, t, after)
    ensures FourCC(file, c.start) == TypeOf(Body(t), after)
  {
    hide Body;
    var r := file[c.start..];
    assert r == r[..|Body(t)|] + r[|Body(t)|..];
    assert r == Body(t) + after;
    assert |r| >= 4 ==> file[c.start..c.start + 4] == r[..4];
  }

  /** An opaque LIST has no kind the walks look for, or one read past its end, where there is nothing to walk. */
  lemma OpaqueOver(file: seq<byte>, c: Chunk, t: Riff, after: seq<byte>)
    requires Over(file, c, t, after) && t.Data? && t.id == LIST
    ensures Visited(file, c.start + 4, c.end) == [] || (FourCC(file, c.start) != HDRL && FourCC(file, c.start) != STRL)
  {
    TypeOver(file, c, t, after);
    IdOver(file, c, t, after);
    if |t.payload| >= 4 {
      assert (t.payload + after)[..4] == t.payload[..4];
    }
  }

  /** The type depends on the header alone exactly when the header has the four bytes. */
  lemma TypeIsInHeader(payload: seq<byte>)
    ensures (forall after, other :: TypeOf(payload, after) == TypeOf(payload, other)) <==> |payload| >= 4
  {
    if |payload| >= 4 {
      forall after, other
        ensures TypeOf(payload, after) == TypeOf(payload, other)
      {
        assert (payload + after)[..4] == payload[..4] == (payload + other)[..4];
      }
    } else {
      assert TypeOf(payload, []) == [] && TypeOf(payload, VIDS) != [];
    }
  }

  // From chunks to trees, level by level.

  function StreamMeaning(ts: seq<Riff>, after: seq<byte>, s: Stream): Stream {
    var hs, bs := Types(ts, after), Bitmaps(Named(ts, STRF));
    Stream(
      if hs == [] then s.fccType else hs[|hs| - 1],
      if bs == [] then s.size else Some(bs[|bs| - 1]))
  }

  function TreeStreamStep(t: Riff, after: seq<byte>, s: Stream): Stream {
    if Id(t) == STRH then s.(fccType := TypeOf(Body(t), after))
    else if Id(t) == STRF && |Body(t)| >= 12 then s.(size := BitmapSize(Body(t)[..12]))
    else s
  }

  lemma IdsDiffer()
    ensures STRH != STRF && AVIH != LIST && STRH != LIST
  {
    assert STRH[3] != STRF[3] && AVIH[0] != LIST[0] && STRH[0] != LIST[0];
  }

  lemma TypeCons(ts: seq<Riff>, after: seq<byte>, s: Stream)
    requires ts != []
    ensures StreamMeaning(ts, after, s).fccType
            == StreamMeaning(ts[1..], after, TreeStreamStep(ts[0], Behind(ts, after), s)).fccType
  {
    hide Body, Id, BitmapSize, Bitmaps, Behind, TypeOf;
    IdsDiffer();
  }

  lemma SizeCons(ts: seq<Riff>, after: seq<byte>, s: Stream)
    requires ts != []
    ensures StreamMeaning(ts, after, s).size
            == StreamMeaning(ts[1..], after, TreeStreamStep(ts[0], Behind(ts, after), s)).size
  {
    hide Body, Id, Behind, TypeOf, Bitmaps, BitmapSize, Types;
    IdsDiffer();
    var p, rest := Body(ts[0]), Named(ts[1..], STRF);
    if Id(ts[0]) == STRF {
      BitmapsCons(p, rest);
      assert Named(ts, STRF) == [p] + rest;
    } else {
      assert Named(ts, STRF) == rest;
    }
  }

  lemma BitmapsCons(p: seq<byte>, rest: seq<seq<byte>>)
    ensures |p| >= 12 ==> BitmapSize(p[..12]).Some?
    ensures Bitmaps([p] + rest) == (if |p| >= 12 then [BitmapSize(p[..12]).value] else []) + Bitmaps(rest)
  {
    assert ([p] + rest)[1..] == rest;
    assert |p| >= 12 ==> BitmapSize(p[..12]).Some?;
  }

  lemma StreamChild(file: seq<byte>, c: Chunk, t: Riff, after: seq<byte>, s: Stream)
    requires Over(file, c, t, after)
    ensures StreamStep(file, c, s) == TreeStreamStep(t, after, s)
  {
    hide Body, FourCC, Over, Head, Id, TypeOf;
    IdOver(file, c, t, after);
    HeadOver(file, c, t, after, 12);
    TypeOver(file, c, t, after);
  }

  lemma {:induction false} StreamOver(file: seq<byte>, cs: seq<Chunk>, ts: seq<Riff>, after: seq<byte>, s: Stream)
    requires AllOver(file, cs, ts, after)
    ensures StreamFold(file, cs, s) == StreamMeaning(ts, after, s)
    decreases |ts|
  {
    hide Over, StreamStep, TreeStreamStep, StreamMeaning, Body, Id, Behind;
    if ts == [] {
      StreamNil(after, s);
    } else {
      OverTail(file, cs, ts, after);
      StreamChild(file, cs[0], ts[0], Behind(ts, after), s);
      TypeCons(ts, after, s);
      SizeCons(ts, after, s);
      StreamOver(file, cs[1..], ts[1..], after, TreeStreamStep(ts[0], Behind(ts, after), s));
    }
  }

  lemma StreamNil(after: seq<byte>, s: Stream)
    ensures StreamMeaning([], after, s) == s
  {
  }

  function FirstOr<T>(o: Option<T>, s: seq<T>): Option<T> {
    if o.Some? || s == [] then o else Some(s[0])
  }

  function LastOr<T>(o: Option<T>, s: seq<T>): Option<T> {
    if s == [] then o else Some(s[|s| - 1])
  }

  lemma KeepStream(video: Option<(int, int)>, l: Section)
    ensures Keep(video, StreamMeaning(l.kids, l.after, Stream([], None)))
            == if video.None? then StreamSize(l) else video
  {
    hide Named, Bitmaps, Types;
    assert VIDS != [];
  }

  /** Header lists: what one contributes and what several do. */
  function HeaderMeaning(ts: seq<Riff>, after: seq<byte>, st: State): State {
    State(LastOr(st.avih, MainHeaders(Named(ts, AVIH))), FirstOr(st.video, StreamSizes(Groups(ts, STRL, after))))
  }

  function TreeHeaderStep(t: Riff, after: seq<byte>, st: State): State {
    if Id(t) == AVIH then
      if |Body(t)| >= 40 then st.(avih := MainHeader(Body(t)[..40])) else st
    else if t.Group? && t.kind == STRL then
      st.(video := if st.video.None? then StreamSize(Section(t.kids, after)) else st.video)
    else st
  }

  lemma MainHeadersCons(p: seq<byte>, rest: seq<seq<byte>>)
    ensures |p| >= 40 ==> MainHeader(p[..40]).Some?
    ensures MainHeaders([p] + rest) == (if |p| >= 40 then [MainHeader(p[..40]).value] else []) + MainHeaders(rest)
  {
    if |p| >= 40 {
      HeaderOfForty(p[..40]);
    }
    hide MainHeader;
    assert ([p] + rest)[1..] == rest;
  }

  lemma HeadersCons(ts: seq<Riff>, after: seq<byte>, st: State)
    requires ts != []
    ensures HeaderMeaning(ts, after, st).avih
            == HeaderMeaning(ts[1..], after, TreeHeaderStep(ts[0], Behind(ts, after), st)).avih
  {
    hide Body, Behind, StreamSize, MainHeader, MainHeaders, StreamSizes, Groups;
    IdsDiffer();
    var p, rest := Body(ts[0]), Named(ts[1..], AVIH);
    if Id(ts[0]) == AVIH {
      assert Named(ts, AVIH) == [p] + rest;
      MainHeadersCons(p, rest);
    } else {
      assert Named(ts, AVIH) == rest;
    }
  }

  lemma StreamsCons(ts: seq<Riff>, after: seq<byte>, st: State)
    requires ts != []
    ensures HeaderMeaning(ts, after, st).video
            == HeaderMeaning(ts[1..], after, TreeHeaderStep(ts[0], Behind(ts, after), st)).video
  {
    hide Body, Behind, StreamSize, MainHeaders, MainHeader;
    IdsDiffer();
    var rest := Groups(ts[1..], STRL, after);
    if ts[0].Group? && ts[0].kind == STRL {
      assert ([Section(ts[0].kids, Behind(ts, after))] + rest)[1..] == rest;
    } else {
      assert Groups(ts, STRL, after) == rest;
    }
  }

  lemma HeaderChild(file: seq<byte>, c: Chunk, t: Riff, after: seq<byte>, st: State)
    requires Over(file, c, t, after) && (t.Group? ==> ValidAll(t.kids)) && c.end <= MAX_END
    ensures HeaderStep(file, c, st) == TreeHeaderStep(t, after, st)
  {
    hide Body, FourCC, Over, Head, Encode, Keep, Visited, StreamFold, StreamMeaning, StreamSize, MainHeader, ValidAll, At;
    IdsDiffer();
    IdOver(file, c, t, after);
    HeadOver(file, c, t, after, 40);
    HeaderOfNothing();
    if t.Group? {
      GroupOver(file, c, t, after);
      WalkVisitsList(file, c.start + 4, t.kids, after);
      StreamOver(file, Layout(t.kids, c.start + 4), t.kids, after, Stream([], None));
      KeepStream(st.video, Section(t.kids, after));
    } else if t.id == LIST {
      OpaqueOver(file, c, t, after);
      KeepNothing(file, st.video);
    } else if Id(t) == AVIH && |Body(t)| >= 40 {
      HeaderOfForty(Body(t)[..40]);
    }
  }

  lemma KeepNothing(file: seq<byte>, video: Option<(int, int)>)
    ensures Keep(video, StreamFold(file, [], Stream([], None))) == video
  {
    assert VIDS != [];
  }

  lemma HeaderOfNothing()
    ensures MainHeader([]) == None
  {
  }

  lemma HeaderOfForty(b: seq<byte>)
    requires |b| == 40
    ensures MainHeader(b).Some?
  {
  }

  lemma {:induction false} HeaderOver(file: seq<byte>, cs: seq<Chunk>, ts: seq<Riff>, after: seq<byte>, st: State)
    requires AllOver(file, cs, ts, after) && ValidAll(ts) && forall c :: c in cs ==> c.end <= MAX_END
    ensures HeaderFold(file, cs, st) == HeaderMeaning(ts, after, st)
    decreases |ts|
  {
    hide Behind, Over, HeaderStep, TreeHeaderStep, HeaderMeaning, Body, ValidChunk;
    if ts == [] {
      HeaderNil(after, st);
    } else {
      OverTail(file, cs, ts, after);
      assert ts[0] in ts && cs[0] in cs;
      HeaderChild(file, cs[0], ts[0], Behind(ts, after), st);
      HeadersCons(ts, after, st);
      StreamsCons(ts, after, st);
      HeaderOver(file, cs[1..], ts[1..], after, TreeHeaderStep(ts[0], Behind(ts, after), st));
    }
  }

  lemma HeaderNil(after: seq<byte>, st: State)
    ensures HeaderMeaning([], after, st) == st
  {
  }

  function TopMeaning(ts: seq<Riff>, after: seq<byte>, st: State): State {
    State(LastOr(st.avih, AllHeaders(Groups(ts, HDRL, after))), FirstOr(st.video, AllSizes(Groups(ts, HDRL, after))))
  }

  function TreeTopStep(t: Riff, after: seq<byte>, st: State): State {
    if t.Group? && t.kind == HDRL then HeaderMeaning(t.kids, after, st) else st
  }

  lemma TopCons(ts: seq<Riff>, after: seq<byte>, st: State)
    requires ts != []
    ensures TopMeaning(ts, after, st) == TopMeaning(ts[1..], after, TreeTopStep(ts[0], Behind(ts, after), st))
  {
    hide MainHeaders, StreamSizes, Named, Behind;
    var rest := Groups(ts[1..], HDRL, after);
    if ts[0].Group? && ts[0].kind == HDRL {
      assert ([Section(ts[0].kids, Behind(ts, after))] + rest)[1..] == rest;
    } else {
      assert Groups(ts, HDRL, after) == rest;
    }
  }

  lemma TopChild(file: seq<byte>, c: Chunk, t: Riff, after: seq<byte>, st: State)
    requires Over(file, c, t, after) && (t.Group? ==> ValidAll(t.kids)) && c.end <= MAX_END
    ensures TopStep(file, c, st) == TreeTopStep(t, after, st)
  {
    hide Body, FourCC, Over, Encode, Visited, HeaderFold, HeaderMeaning, ValidAll, At;
    IdOver(file, c, t, after);
    if t.Group? {
      GroupOver(file, c, t, after);
      var kids := Visited(file, c.start + 4, c.end);
      WalkVisitsList(file, c.start + 4, t.kids, after);
      assert forall k :: k in kids ==> k.end <= c.end;
      HeaderOver(file, kids, t.kids, after, st);
    } else if t.id == LIST {
      OpaqueOver(file, c, t, after);
      NoHeaders(file, st);
    }
  }

  lemma NoHeaders(file: seq<byte>, st: State)
    ensures HeaderFold(file, [], st) == st
  {
  }

  lemma {:induction false} TopOver(file: seq<byte>, cs: seq<Chunk>, ts: seq<Riff>, after: seq<byte>, st: State)
    requires AllOver(file, cs, ts, after) && ValidAll(ts) && forall c :: c in cs ==> c.end <= MAX_END
    ensures TopFold(file, cs, st) == TopMeaning(ts, after, st)
    decreases |ts|
  {
    hide Over, TopStep, TreeTopStep, TopMeaning, Body, ValidChunk, Behind;
    if ts == [] {
      TopNil(after, st);
    } else {
      OverTail(file, cs, ts, after);
      assert ts[0] in ts && cs[0] in cs;
      TopChild(file, cs[0], ts[0], Behind(ts, after), st);
      TopCons(ts, after, st);
      TopOver(file, cs[1..], ts[1..], after, TreeTopStep(ts[0], Behind(ts, after), st));
    }
  }

  lemma TopNil(after: seq<byte>, st: State)
    ensures TopMeaning([], after, st) == st
  {
  }

  /** The file header: magic, length, form type, and the end the length gives. */
  lemma FileHeader(ts: seq<Riff>)
    requires Valid(ts)
    ensures var file := EncodeFile(ts);
            && |file| == 12 + |Encode(ts)| && ReadAt(file, 12, 0) == Some(file[..12])
            && file[..12][0..4] == RIFF && file[..12][8..12] == AVI
            && RiffEnd(LittleEndian(file[..12][4..8]), |file|) == |file| && At(file, 12, Encode(ts)) && file[|file|..] == []
  {
    hide Encode, ToLittleEndian, LittleEndian, Pow256;
    var file, e := EncodeFile(ts), Encode(ts);
    var size := ToLittleEndian(4 + |e|, 4);
    assert file == (RIFF + size) + (AVI + e);
    assert file[..12][4..8] == size && file[12..] == e;
    assert file[..12][0..4] == RIFF && file[..12][8..12] == AVI;
    assert LittleEndian(size) == 4 + |e| by {
      Below32(4 + |e|);
      LittleEndianRoundTrip(4 + |e|, 4);
    }
  }

  lemma Below32(n: nat)
    requires n < 0x1_0000_0000
    ensures n < Pow256(4)
  {
    PowTable();
  }

  /** Probing the encoding of any chunk tree gives the tree's meaning. */
  lemma ProbeOfEncode(ts: seq<Riff>)
    requires Valid(ts)
    ensures Probe(EncodeFile(ts), |EncodeFile(ts)|) == Meaning(ts)
  {
    hide Encode, Visited, TopFold, Groups, AllHeaders, AllSizes, EncodeFile, RiffEnd, ValidAll, Layout, At;
    var file := EncodeFile(ts);
    FileHeader(ts);
    WalkVisitsList(file, 12, ts, []);
    var cs := Visited(file, 12, |file|);
    assert forall c :: c in cs ==> c.end <= MAX_END;
    TopOver(file, cs, ts, [], State(None, None));
  }

  // A stream header that is too short.

  const BITMAP: seq<byte> := [0, 0, 0, 0, 0x80, 2, 0, 0, 0xE0, 1, 0, 0]

  /** A stream with a bitmap of 640 by 480, a header of two bytes, "vi", and a chunk without content after it. */
  function ShortStream(next: seq<byte>): seq<Riff> {
    [Data(STRF, BITMAP), Data(STRH, VIDS[..2]), Data(next, [])]
  }

  function ShortFile(next: seq<byte>): seq<Riff> {
    [Group(HDRL, [Group(STRL, ShortStream(next))])]
  }

  lemma EncodeLength(t: Riff)
    requires |Id(t)| == 4
    ensures |EncodeOne(t)| <= 9 + |Body(t)| && Encode([t]) == EncodeOne(t)
  {
    hide Body, Id;
    assert [t][1..] == [];
  }

  lemma ShortIsValid(next: seq<byte>)
    requires |next| == 4 && next != LIST
    ensures Valid(ShortFile(next)) && |Encode(ShortStream(next))| <= 60
  {
    hide EncodeOne;
    var ts := ShortStream(next);
    var l := Group(STRL, ts);
    IdsDiffer();
    assert STRF[0] != LIST[0];
    assert ts[1..] == [ts[1], ts[2]] && ts[1..][1..] == [ts[2]];
    EncodeLength(ts[0]);
    EncodeLength(ts[1]);
    EncodeLength(ts[2]);
    assert |Encode(ts)| == |EncodeOne(ts[0])| + |EncodeOne(ts[1])| + |EncodeOne(ts[2])|;
    EncodeLength(l);
    EncodeLength(Group(HDRL, [l]));
    assert ValidAll(ts);
    assert ValidAll([l]);
  }

  /** What stands behind the short header begins with the id of the next chunk. */
  lemma ShortBehind(next: seq<byte>, after: seq<byte>)
    requires |next| == 4
    ensures TypeOf(VIDS[..2], Behind(ShortStream(next)[1..], after)) == VIDS[..2] + next[..2]
  {
    var rest := ShortStream(next)[1..];
    assert rest == [Data(STRH, VIDS[..2]), Data(next, [])] && rest[1..] == [Data(next, [])];
    EncodeLength(Data(next, []));
    var one := EncodeOne(Data(next, []));
    assert one == next + (ToLittleEndian(0, 4) + [] + Padding(0));
    var behind := Behind(rest, after);
    assert behind == one + after;
    assert VIDS[..2] + behind == (VIDS[..2] + next[..2]) + behind[2..];
  }

  lemma ShortStreamType(next: seq<byte>, after: seq<byte>)
    requires |next| == 4 && next != STRH && next != STRF
    ensures Types(ShortStream(next), after) == [VIDS[..2] + next[..2]]
    ensures Named(ShortStream(next), STRF) == [BITMAP]
  {
    hide Behind, TypeOf;
    var ts := ShortStream(next);
    var rest := ts[1..];
    IdsDiffer();
    ShortBehind(next, after);
    assert rest == [ts[1], ts[2]] && rest[1..] == [ts[2]];
    OtherChunk(ts[2], after);
    assert Types(rest, after) == [VIDS[..2] + next[..2]] + [];
    assert Named(rest, STRF) == [] + [];
    assert Types(ts, after) == [] + Types(rest, after);
  }

  lemma OtherChunk(t: Riff, after: seq<byte>)
    requires Id(t) != STRH && Id(t) != STRF
    ensures Types([t], after) == [] && Named([t], STRF) == []
  {
    hide Behind, TypeOf;
    assert [t][1..] == [];
  }

  lemma OneBitmap()
    ensures Bitmaps([BITMAP]) == [(640, 480)]
  {
    Sizes640();
    BitmapsCons(BITMAP, []);
    assert BITMAP[..12] == BITMAP && [BITMAP] + [] == [BITMAP];
  }

  lemma Sizes640()
    ensures BitmapSize(BITMAP) == Some((640, 480))
  {
    assert BITMAP[4..8] == [0x80, 2, 0, 0] && BITMAP[8..12] == [0xE0, 1, 0, 0];
    assert LittleEndian([0x80, 2, 0, 0]) == 0x80 + 256 * LittleEndian([2, 0, 0]);
    assert LittleEndian([0xE0, 1, 0, 0]) == 0xE0 + 256 * LittleEndian([1, 0, 0]);
  }

  /** The same short header makes a video stream or none, as the id of the chunk behind it begins with "ds" or not. */
  lemma ShortHeaderReadsOn(next: seq<byte>)
    requires |next| == 4 && next != LIST && next != STRH && next != STRF
    ensures var file := EncodeFile(ShortFile(next));
            Probe(file, |file|) == if next[..2] == VIDS[2..] then Info(None, 640, 480) else Info(None, 0, 0)
  {
    hide Types, Bitmaps, Encode, EncodeFile, ShortStream, Valid;
    ShortIsValid(next);
    ProbeOfEncode(ShortFile(next));
    var ts := ShortFile(next);
    var after := Behind(ts, []);
    var l := ts[0].kids;
    var inner := Behind(l, after);
    ShortStreamType(next, inner);
    OneBitmap();
    assert ts[1..] == [] && l[1..] == [];
    assert VIDS == VIDS[..2] + VIDS[2..];
    assert (VIDS[..2] + next[..2])[2..] == next[..2];
    assert Groups(l, STRL, after) == [Section(ShortStream(next), inner)];
    assert Groups(ts, HDRL, []) == [Section(l, after)];
    assert StreamSizes(Groups(l, STRL, after)) == if next[..2] == VIDS[2..] then [(640, 480)] else [];
    assert AllSizes(Groups(ts, HDRL, [])) == StreamSizes(Groups(l, STRL, after));
    assert Named(l, AVIH) == [];
    assert AllHeaders([Section(l, after)]) == MainHeaders(Named(l, AVIH)) + AllHeaders([]);
  }
}
