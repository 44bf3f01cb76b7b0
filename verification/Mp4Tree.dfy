/** Box forests, what they mean, and the proof that walking and probing their encoding recovers it. */
module Mp4Tree {
  import opened Bytes
  import opened Mp4Spec

  /** How a box writes its size: 32 bits, 64 bits after the type, or zero for "to the end". */
  datatype Form = Small | Large | ToEnd

  datatype Mp4 =
    | Leaf(typ: seq<byte>, form: Form, payload: seq<byte>)
    | Node(typ: seq<byte>, form: Form, kids: seq<Mp4>)

  function Body(t: Mp4): seq<byte>
    decreases t, 0
  {
    match t
    case Leaf(_, _, payload) => payload
    case Node(_, _, kids) => Encode(kids)
  }

  function HeaderLength(form: Form): nat {
    if form.Large? then 16 else 8
  }

  function EncodeBox(typ: seq<byte>, form: Form, body: seq<byte>): seq<byte> {
    match form
    case Small => ToBigEndian(8 + |body|, 4) + typ + body
    case Large => ToBigEndian(1, 4) + typ + ToBigEndian(16 + |body|, 8) + body
    case ToEnd => ToBigEndian(0, 4) + typ + body
  }

  function EncodeOne(t: Mp4): seq<byte>
    decreases t, 1
  {
    EncodeBox(t.typ, t.form, Body(t))
  }

  function Encode(ts: seq<Mp4>): seq<byte> {
    if ts == [] then [] else EncodeOne(ts[0]) + Encode(ts[1..])
  }

  predicate ValidBox(t: Mp4) {
    && |t.typ| == 4
    && (t.form.Small? ==> 8 + |Body(t)| < 0x1_0000_0000)
    && (t.form.Large? ==> 16 + |Body(t)| <= MAX_INT64)
  }

  /** Boxes side by side; only the last may leave its size open. */
  predicate ValidList(ts: seq<Mp4>) {
    forall i :: 0 <= i < |ts| ==> ValidBox(ts[i]) && (ts[i].form.ToEnd? ==> i == |ts| - 1)
  }

  /** The containers the probe descends into hold boxes. */
  predicate ValidTrak(ts: seq<Mp4>) {
    ValidList(ts) && forall t :: t in ts && t.typ == MDIA ==> t.Node? && ValidList(t.kids)
  }

  predicate ValidMoov(ts: seq<Mp4>) {
    && ValidList(ts)
    && (forall t :: t in ts && t.typ == TRAK ==> t.Node? && ValidTrak(t.kids))
    && (forall t :: t in ts && t.typ == MVEX ==> t.Node? && ValidList(t.kids))
  }

  predicate ValidFile(ts: seq<Mp4>) {
    ValidList(ts) && forall t :: t in ts && t.typ == MOOV ==> t.Node? && ValidMoov(t.kids)
  }

  /** The boxes of a list laid out from off: each starts where the last one ended. */
  function Layout(ts: seq<Mp4>, off: nat): seq<Box> {
    if ts == [] then []
    else [Box(ts[0].typ, off, |EncodeOne(ts[0])|, HeaderLength(ts[0].form))] + Layout(ts[1..], off + |EncodeOne(ts[0])|)
  }

  // What a forest means.

  function Take(p: seq<byte>, n: nat): seq<byte> {
    if |p| <= n then p else p[..n]
  }

  function Kids(t: Mp4): seq<Mp4> {
    if t.Node? then t.kids else []
  }

  function Handlers(ts: seq<Mp4>): seq<seq<byte>> {
    if ts == [] then []
    else (if ts[0].typ == HDLR && |Body(ts[0])| >= 12 then [Body(ts[0])[8..12]] else []) + Handlers(ts[1..])
  }

  function AllHandlers(ts: seq<Mp4>): seq<seq<byte>> {
    if ts == [] then [] else (if ts[0].typ == MDIA then Handlers(Kids(ts[0])) else []) + AllHandlers(ts[1..])
  }

  function Named(ts: seq<Mp4>, typ: seq<byte>): seq<Mp4> {
    if ts == [] then [] else (if ts[0].typ == typ then [ts[0]] else []) + Named(ts[1..], typ)
  }

  /** A track's size: from its last tkhd, when the last handler found in its mdia boxes is "vide". */
  function SizeOfTrack(ts: seq<Mp4>): Option<(nat, nat)> {
    var hs, ks := AllHandlers(ts), Named(ts, TKHD);
    if hs == [] || hs[|hs| - 1] != VIDE || ks == [] then None
    else
      var p := Body(ks[|ks| - 1]);
      TrackSize(if |p| <= 8 then p else p[|p| - 8..])
  }

  function Sizes(ts: seq<Mp4>): seq<(nat, nat)> {
    if ts == [] then []
    else
      var s := if ts[0].typ == TRAK then SizeOfTrack(Kids(ts[0])) else None;
      (if s.Some? then [s.value] else []) + Sizes(ts[1..])
  }

  function Headers(ts: seq<Mp4>): seq<(nat, nat)> {
    if ts == [] then []
    else
      var h := if ts[0].typ == MVHD then MovieHeader(Take(Body(ts[0]), 32)) else None;
      (if h.Some? then [h.value] else []) + Headers(ts[1..])
  }

  function Durations(ts: seq<Mp4>): seq<nat> {
    if ts == [] then []
    else
      var d := if ts[0].typ == MEHD then FragmentDuration(Take(Body(ts[0]), 12)) else None;
      (if d.Some? then [d.value] else []) + Durations(ts[1..])
  }

  function AllDurations(ts: seq<Mp4>): seq<nat> {
    if ts == [] then [] else (if ts[0].typ == MVEX then Durations(Kids(ts[0])) else []) + AllDurations(ts[1..])
  }

  function LastOf<T>(s: seq<T>): Option<T> {
    if s == [] then None else Some(s[|s| - 1])
  }

  /** Of the first moov: the last readable mvhd, the last readable mehd, the first usable video track. */
  function Meaning(ts: seq<Mp4>): Info {
    var moovs := Named(ts, MOOV);
    if moovs == [] then Info(None, 0, 0)
    else
      var kids := Kids(moovs[0]);
      var h, d, s := LastOf(Headers(kids)), LastOf(AllDurations(kids)), Sizes(kids);
      var dims := if s == [] then (0, 0) else s[0];
      Info(
        if h.None? || h.value.0 == 0 then None
        else Some((if h.value.1 == 0 && d.Some? then d.value else h.value.1, h.value.0)),
        dims.0, dims.1)
  }

  // Reading back.

  lemma BoxLength(typ: seq<byte>, form: Form, body: seq<byte>)
    requires |typ| == 4
    ensures |EncodeBox(typ, form, body)| == HeaderLength(form) + |body|
  {
  }

  /** The first eight bytes of a box: its size field and its type. */
  lemma HeadReads(file: seq<byte>, off: nat, size: nat, typ: seq<byte>)
    requires |typ| == 4 && size < 0x1_0000_0000 && At(file, off, ToBigEndian(size, 4) + typ)
    ensures ReadAt(file, 8, off).Some?
    ensures BigEndian(ReadAt(file, 8, off).value[..4]) == size && ReadAt(file, 8, off).value[4..8] == typ
  {
    PowTable();
    BigEndianRoundTrip(size, 4);
    var head := ReadAt(file, 8, off).value;
    assert head == ToBigEndian(size, 4) + typ;
  }

  lemma LargeReads(file: seq<byte>, off: nat, size: nat)
    requires size <= MAX_INT64 && At(file, off, ToBigEndian(size, 8))
    ensures ReadAt(file, 8, off).Some? && BigEndian(ReadAt(file, 8, off).value) == size
  {
    PowTable();
    BigEndianRoundTrip(size, 8);
  }

  lemma ShortReads(file: seq<byte>, off: nat, end: nat, size: nat, typ: seq<byte>, body: seq<byte>)
    requires end <= |file| <= MAX_INT64 && |typ| == 4 && At(file, off, ToBigEndian(size, 4) + typ + body)
    requires off + 8 + |body| <= end && (size == 8 + |body| < 0x1_0000_0000 || (size == 0 && off + 8 + |body| == end))
    ensures ReadBox(file, off, end) == Some(Box(typ, off, 8 + |body|, 8)) && At(file, off + 8, body)
  {
    hide ReadAt, ToBigEndian, Pow256, BigEndian, At;
    AtSplit(file, off, ToBigEndian(size, 4) + typ, body);
    HeadReads(file, off, size, typ);
  }

  lemma LongReads(file: seq<byte>, off: nat, end: nat, typ: seq<byte>, body: seq<byte>)
    requires end <= |file| <= MAX_INT64 && |typ| == 4
    requires At(file, off, ToBigEndian(1, 4) + typ + ToBigEndian(16 + |body|, 8) + body) && off + 16 + |body| <= end
    ensures ReadBox(file, off, end) == Some(Box(typ, off, 16 + |body|, 16)) && At(file, off + 16, body)
  {
    hide ReadAt, ToBigEndian, Pow256, BigEndian, At;
    var head, ext := ToBigEndian(1, 4) + typ, ToBigEndian(16 + |body|, 8);
    AtSplit(file, off, head + ext, body);
    AtSplit(file, off, head, ext);
    HeadReads(file, off, 1, typ);
    LargeReads(file, off + 8, 16 + |body|);
  }

  /** A box reads back with its type, its size and its header length. */
  lemma BoxReads(file: seq<byte>, off: nat, end: nat, typ: seq<byte>, form: Form, body: seq<byte>)
    requires end <= |file| <= MAX_INT64 && |typ| == 4 && At(file, off, EncodeBox(typ, form, body))
    requires form.Small? ==> 8 + |body| < 0x1_0000_0000
    requires off + HeaderLength(form) + |body| <= end && (form.ToEnd? ==> off + 8 + |body| == end)
    ensures ReadBox(file, off, end) == Some(Box(typ, off, HeaderLength(form) + |body|, HeaderLength(form)))
    ensures At(file, off + HeaderLength(form), body)
  {
    hide ReadBox, ToBigEndian, At;
    match form
    case Small => ShortReads(file, off, end, 8 + |body|, typ, body);
    case Large => LongReads(file, off, end, typ, body);
    case ToEnd => ShortReads(file, off, end, 0, typ, body);
  }

  lemma ListTail(ts: seq<Mp4>)
    requires ts != [] && ValidList(ts)
    ensures ValidList(ts[1..]) && ValidBox(ts[0]) && (ts[0].form.ToEnd? ==> ts[1..] == [])
    ensures |EncodeOne(ts[0])| == HeaderLength(ts[0].form) + |Body(ts[0])|
  {
    hide Body, EncodeBox;
    BoxLength(ts[0].typ, ts[0].form, Body(ts[0]));
    assert forall i :: 0 <= i < |ts| - 1 ==> ts[1..][i] == ts[i + 1];
  }

  /** The box at the head of an encoded list. */
  lemma HeadBox(file: seq<byte>, off: nat, ts: seq<Mp4>)
    requires |file| <= MAX_INT64 && ts != [] && ValidList(ts) && At(file, off, Encode(ts))
    ensures var size, hdr := |EncodeOne(ts[0])|, HeaderLength(ts[0].form);
            && ReadBox(file, off, off + |Encode(ts)|) == Some(Box(ts[0].typ, off, size, hdr))
            && At(file, off + hdr, Body(ts[0])) && size == hdr + |Body(ts[0])|
            && |Encode(ts)| == size + |Encode(ts[1..])| && At(file, off + size, Encode(ts[1..]))
  {
    hide Body, EncodeBox, ReadBox, At, ValidList;
    var t, rest := ts[0], Encode(ts[1..]);
    ListTail(ts);
    assert Encode(ts) == EncodeOne(t) + rest;
    AtSplit(file, off, EncodeOne(t), rest);
    AtBound(file, off, Encode(ts));
    BoxReads(file, off, off + |EncodeOne(t)| + |rest|, t.typ, t.form, Body(t));
  }

  /**
   * Tiling: walking an encoded forest visits exactly its boxes, in order, each
   * starting where the last one ended and the last one ending with its parent.
   */
  lemma {:induction false} WalkVisitsForest(file: seq<byte>, off: nat, ts: seq<Mp4>)
    requires |file| <= MAX_INT64 && ValidList(ts) && At(file, off, Encode(ts))
    ensures Visited(file, off, off + |Encode(ts)|) == Layout(ts, off)
    decreases |ts|
  {
    hide Body, EncodeOne, ReadBox;
    if ts == [] {
      NoRoom(file, off);
    } else {
      HeadBox(file, off, ts);
      ListTail(ts);
      WalkVisitsForest(file, off + |EncodeOne(ts[0])|, ts[1..]);
    }
  }

  lemma NoRoom(file: seq<byte>, off: nat)
    requires off <= |file| <= MAX_INT64
    ensures Visited(file, off, off) == []
  {
    if off + 8 > MAX_INT64 {
      assert ReadBox(file, off, off).None?;
    }
  }

  /** A box laid over the bytes of a tree. */
  predicate Over(file: seq<byte>, b: Box, t: Mp4) {
    && b.typ == t.typ && 0 <= b.start && 8 <= b.hdr <= b.size && b.start + b.size <= |file| <= MAX_INT64
    && b.size - b.hdr == |Body(t)| && At(file, b.start + b.hdr, Body(t))
  }

  predicate AllOver(file: seq<byte>, bs: seq<Box>, ts: seq<Mp4>) {
    |bs| == |ts| && forall i :: 0 <= i < |ts| ==> Over(file, bs[i], ts[i])
  }

  lemma {:induction false} LayoutIsOver(file: seq<byte>, off: nat, ts: seq<Mp4>)
    requires |file| <= MAX_INT64 && ValidList(ts) && At(file, off, Encode(ts))
    ensures AllOver(file, Layout(ts, off), ts)
    decreases |ts|
  {
    hide Body, EncodeOne, ReadBox;
    if ts != [] {
      HeadBox(file, off, ts);
      ListTail(ts);
      LayoutIsOver(file, off + |EncodeOne(ts[0])|, ts[1..]);
      var rest := Layout(ts[1..], off + |EncodeOne(ts[0])|);
      forall i | 0 < i < |ts|
        ensures Over(file, Layout(ts, off)[i], ts[i])
      {
        assert Over(file, rest[i - 1], ts[1..][i - 1]);
      }
    }
  }

  /** Descending into a container: the boxes visited lie over its children. */
  lemma KidsOver(file: seq<byte>, b: Box, t: Mp4) returns (boxes: seq<Box>)
    requires Over(file, b, t) && t.Node? && ValidList(t.kids)
    ensures boxes == Visited(file, b.PayloadStart(), b.End()) && AllOver(file, boxes, t.kids)
  {
    hide Visited, Encode, AllOver;
    assert Body(t) == Encode(t.kids);
    WalkVisitsForest(file, b.start + b.hdr, t.kids);
    LayoutIsOver(file, b.start + b.hdr, t.kids);
    boxes := Layout(t.kids, b.start + b.hdr);
  }

  lemma HeadOver(file: seq<byte>, b: Box, t: Mp4, most: nat)
    requires Over(file, b, t)
    ensures PayloadHead(file, b, most) == Take(Body(t), most)
  {
    hide Body;
    var p := Body(t);
    assert file[b.start + b.hdr..b.start + b.hdr + |p|] == p;
    if most < |p| {
      assert file[b.start + b.hdr..b.start + b.hdr + most] == p[..most];
    }
  }

  lemma TailOver(file: seq<byte>, b: Box, t: Mp4)
    requires Over(file, b, t)
    ensures PayloadTail(file, b, 8) == if |Body(t)| <= 8 then Body(t) else Body(t)[|Body(t)| - 8..]
  {
    hide Body;
    var p := Body(t);
    assert file[b.start + b.hdr..b.start + b.hdr + |p|] == p;
    if 8 < |p| {
      assert file[b.start + b.size - 8..b.start + b.size] == p[|p| - 8..];
    }
  }

  lemma OverTail(file: seq<byte>, bs: seq<Box>, ts: seq<Mp4>)
    requires AllOver(file, bs, ts) && ts != []
    ensures Over(file, bs[0], ts[0]) && AllOver(file, bs[1..], ts[1..])
  {
    hide Over;
    assert forall i :: 0 <= i < |ts| - 1 ==> bs[1..][i] == bs[i + 1] && ts[1..][i] == ts[i + 1];
  }

  // From boxes to trees, handler by handler.

  lemma {:induction false} HandlersOver(file: seq<byte>, bs: seq<Box>, ts: seq<Mp4>, handler: seq<byte>)
    requires AllOver(file, bs, ts)
    ensures HandlerFold(file, bs, handler)
            == if Handlers(ts) == [] then handler else Handlers(ts)[|Handlers(ts)| - 1]
    decreases |ts|
  {
    hide Body, Over, PayloadHead;
    if ts != [] {
      OverTail(file, bs, ts);
      HeadOver(file, bs[0], ts[0], 12);
      var p := PayloadHead(file, bs[0], 12);
      assert bs[0].typ == ts[0].typ by {
        TypeOver(file, bs[0], ts[0]);
      }
      assert |p| >= 12 ==> p[8..12] == Body(ts[0])[8..12];
      HandlersOver(file, bs[1..], ts[1..], if bs[0].typ == HDLR && |p| >= 12 then p[8..12] else handler);
    }
  }

  lemma TypeOver(file: seq<byte>, b: Box, t: Mp4)
    requires Over(file, b, t)
    ensures b.typ == t.typ
  {
  }

  function TrackMeaning(ts: seq<Mp4>, handler: seq<byte>): seq<byte> {
    if AllHandlers(ts) == [] then handler else AllHandlers(ts)[|AllHandlers(ts)| - 1]
  }

  /** The last tkhd box, if any, lies over the last tkhd of the tree. */
  ghost predicate TkhdOver(file: seq<byte>, b: Option<Box>, ks: seq<Mp4>) {
    (b.Some? <==> ks != []) && (b.Some? ==> Over(file, b.value, ks[|ks| - 1]))
  }

  function TreeTrackStep(t: Mp4, handler: seq<byte>): seq<byte> {
    if t.typ == MDIA && Handlers(Kids(t)) != [] then Handlers(Kids(t))[|Handlers(Kids(t))| - 1] else handler
  }

  lemma TrackCons(ts: seq<Mp4>, handler: seq<byte>)
    requires ts != []
    ensures TrackMeaning(ts, handler) == TrackMeaning(ts[1..], TreeTrackStep(ts[0], handler))
  {
    hide Handlers, Kids;
  }

  lemma TrackNil(handler: seq<byte>)
    ensures TrackMeaning([], handler) == handler && Named([], TKHD) == []
  {
  }

  lemma OneOfTrak(ts: seq<Mp4>)
    requires ts != [] && ValidTrak(ts)
    ensures ValidTrak(ts[1..]) && (ts[0].typ == MDIA ==> ts[0].Node? && ValidList(ts[0].kids))
  {
    hide ValidList;
    assert ts[0] in ts;
    ListTail(ts);
  }

  lemma TypesDiffer()
    ensures MVHD != TRAK && MVHD != MVEX && TRAK != MVEX && TKHD != MDIA
  {
    assert MVHD[2] != TRAK[2] && MVHD[2] != MVEX[2] && TRAK[0] != MVEX[0] && TKHD[0] != MDIA[0];
  }

  lemma TrackChild(file: seq<byte>, b: Box, t: Mp4, tr: Track)
    requires Over(file, b, t) && (t.typ == MDIA ==> t.Node? && ValidList(t.kids))
    ensures TrackStep(file, b, tr).handler == TreeTrackStep(t, tr.handler)
    ensures TrackStep(file, b, tr).tkhd == if t.typ == TKHD then Some(b) else tr.tkhd
  {
    hide Visited, HandlerFold, Handlers, Over, Body, ValidList;
    TypesDiffer();
    TypeOver(file, b, t);
    if t.typ == MDIA {
      var boxes := KidsOver(file, b, t);
      HandlersOver(file, boxes, t.kids, tr.handler);
    }
  }

  lemma {:induction false} TrackOver(file: seq<byte>, bs: seq<Box>, ts: seq<Mp4>, t: Track, ks: seq<Mp4>)
    requires AllOver(file, bs, ts) && ValidTrak(ts) && TkhdOver(file, t.tkhd, ks)
    ensures var r := TrackFold(file, bs, t);
            r.handler == TrackMeaning(ts, t.handler) && TkhdOver(file, r.tkhd, ks + Named(ts, TKHD))
    decreases |ts|
  {
    hide Body, Over, TrackStep, TreeTrackStep, TrackMeaning, ValidTrak;
    if ts == [] {
      TrackNil(t.handler);
      assert ks + Named(ts, TKHD) == ks;
    } else {
      OverTail(file, bs, ts);
      OneOfTrak(ts);
      TrackChild(file, bs[0], ts[0], t);
      TrackCons(ts, t.handler);
      var ks' := if ts[0].typ == TKHD then ks + [ts[0]] else ks;
      assert ks' + Named(ts[1..], TKHD) == ks + Named(ts, TKHD);
      TrackOver(file, bs[1..], ts[1..], TrackStep(file, bs[0], t), ks');
    }
  }

  lemma TrakReads(file: seq<byte>, b: Box, t: Mp4)
    requires Over(file, b, t) && t.Node? && ValidTrak(t.kids)
    ensures TrakSize(file, b) == SizeOfTrack(t.kids)
  {
    hide Body, Over, Visited, TrackFold, AllHandlers, PayloadTail, TrackSize, ValidList;
    var boxes := KidsOver(file, b, t);
    TrackOver(file, boxes, t.kids, Track([], None), []);
    assert [] + Named(t.kids, TKHD) == Named(t.kids, TKHD);
    var r := TrackFold(file, boxes, Track([], None));
    if r.tkhd.Some? {
      var ks := Named(t.kids, TKHD);
      TailOver(file, r.tkhd.value, ks[|ks| - 1]);
    }
  }

  lemma {:induction false} FragmentsOver(file: seq<byte>, bs: seq<Box>, ts: seq<Mp4>, d: Option<nat>)
    requires AllOver(file, bs, ts)
    ensures FragmentFold(file, bs, d) == if Durations(ts) == [] then d else LastOf(Durations(ts))
    decreases |ts|
  {
    hide Body, Over, PayloadHead, FragmentDuration;
    if ts != [] {
      OverTail(file, bs, ts);
      TypeOver(file, bs[0], ts[0]);
      HeadOver(file, bs[0], ts[0], 12);
      var v := FragmentDuration(PayloadHead(file, bs[0], 12));
      FragmentsOver(file, bs[1..], ts[1..], if bs[0].typ == MEHD && v.Some? then v else d);
    }
  }

  function HeaderMeaning(ts: seq<Mp4>, h: Option<(nat, nat)>): Option<(nat, nat)> {
    if Headers(ts) == [] then h else LastOf(Headers(ts))
  }

  function FragmentMeaning(ts: seq<Mp4>, d: Option<nat>): Option<nat> {
    if AllDurations(ts) == [] then d else LastOf(AllDurations(ts))
  }

  function SizeMeaning(ts: seq<Mp4>, w: nat, h: nat): (nat, nat) {
    if w == 0 && h == 0 && Sizes(ts) != [] then Sizes(ts)[0] else (w, h)
  }

  function MovieMeaning(ts: seq<Mp4>, m: Movie): Movie {
    var dims := SizeMeaning(ts, m.width, m.height);
    Movie(HeaderMeaning(ts, m.header), FragmentMeaning(ts, m.fragment), dims.0, dims.1)
  }

  function TreeStep(t: Mp4, m: Movie): Movie {
    if t.typ == MVHD then
      var h := MovieHeader(Take(Body(t), 32));
      if h.Some? then m.(header := h) else m
    else if t.typ == TRAK then
      var s := SizeOfTrack(Kids(t));
      if s.Some? && m.width == 0 && m.height == 0 then m.(width := s.value.0, height := s.value.1) else m
    else if t.typ == MVEX then
      var ds := Durations(Kids(t));
      if ds == [] then m else m.(fragment := LastOf(ds))
    else m
  }

  lemma SizesPositive(ts: seq<Mp4>)
    ensures SizeOfTrack(ts).Some? ==>
              0 < SizeOfTrack(ts).value.0 <= MAX_DIMENSION && 0 < SizeOfTrack(ts).value.1 <= MAX_DIMENSION
  {
    hide AllHandlers, Named, Body, BigEndian;
  }

  lemma {:induction false} SizesInRange(ts: seq<Mp4>)
    ensures Sizes(ts) != [] ==> 0 < Sizes(ts)[0].0 <= MAX_DIMENSION && 0 < Sizes(ts)[0].1 <= MAX_DIMENSION
  {
    hide SizeOfTrack;
    if ts != [] {
      SizesPositive(Kids(ts[0]));
      SizesInRange(ts[1..]);
    }
  }

  lemma HeaderCons(ts: seq<Mp4>, m: Movie)
    requires ts != []
    ensures HeaderMeaning(ts, m.header) == HeaderMeaning(ts[1..], TreeStep(ts[0], m).header)
  {
    hide Body, SizeOfTrack, Durations, MovieHeader, Take, Kids;
    TypesDiffer();
  }

  lemma FragmentCons(ts: seq<Mp4>, m: Movie)
    requires ts != []
    ensures FragmentMeaning(ts, m.fragment) == FragmentMeaning(ts[1..], TreeStep(ts[0], m).fragment)
  {
    hide Body, SizeOfTrack, Durations, MovieHeader, Take, Kids;
    TypesDiffer();
  }

  lemma SizeCons(ts: seq<Mp4>, m: Movie)
    requires ts != []
    ensures var n := TreeStep(ts[0], m);
            SizeMeaning(ts, m.width, m.height) == SizeMeaning(ts[1..], n.width, n.height)
  {
    hide Body, SizeOfTrack, Durations, MovieHeader, Take, Kids;
    TypesDiffer();
    SizesPositive(Kids(ts[0]));
  }

  lemma MovieCons(ts: seq<Mp4>, m: Movie)
    requires ts != []
    ensures MovieMeaning(ts, m) == MovieMeaning(ts[1..], TreeStep(ts[0], m))
  {
    hide HeaderMeaning, FragmentMeaning, SizeMeaning, TreeStep;
    HeaderCons(ts, m);
    FragmentCons(ts, m);
    SizeCons(ts, m);
  }

  lemma ChildReads(file: seq<byte>, b: Box, t: Mp4, m: Movie)
    requires Over(file, b, t)
    requires t.typ == TRAK ==> t.Node? && ValidTrak(t.kids)
    requires t.typ == MVEX ==> t.Node? && ValidList(t.kids)
    ensures MovieStep(file, b, m) == TreeStep(t, m)
  {
    hide Body, Over, Visited, TrakSize, SizeOfTrack, FragmentFold, Durations, MovieHeader, PayloadHead, ValidList, ValidTrak;
    TypeOver(file, b, t);
    HeadOver(file, b, t, 32);
    if t.typ == TRAK {
      TrakReads(file, b, t);
    } else if t.typ == MVEX {
      var boxes := KidsOver(file, b, t);
      FragmentsOver(file, boxes, t.kids, m.fragment);
    }
  }

  lemma MoovIsList(ts: seq<Mp4>)
    requires ValidMoov(ts)
    ensures ValidList(ts)
  {
  }

  lemma OneOfMoov(ts: seq<Mp4>)
    requires ts != [] && ValidMoov(ts)
    ensures ValidMoov(ts[1..])
    ensures ts[0].typ == TRAK ==> ts[0].Node? && ValidTrak(ts[0].kids)
    ensures ts[0].typ == MVEX ==> ts[0].Node? && ValidList(ts[0].kids)
  {
    hide ValidTrak, ValidList;
    assert ts[0] in ts;
    ListTail(ts);
  }

  lemma {:induction false} MovieOver(file: seq<byte>, bs: seq<Box>, ts: seq<Mp4>, m: Movie)
    requires AllOver(file, bs, ts) && ValidMoov(ts)
    ensures MovieFold(file, bs, m) == MovieMeaning(ts, m)
    decreases |ts|
  {
    hide Body, Over, MovieStep, TreeStep, MovieMeaning, ValidMoov;
    if ts == [] {
      MovieNil(m);
    } else {
      OverTail(file, bs, ts);
      OneOfMoov(ts);
      MovieCons(ts, m);
      ChildReads(file, bs[0], ts[0], m);
      MovieOver(file, bs[1..], ts[1..], TreeStep(ts[0], m));
    }
  }

  lemma MovieNil(m: Movie)
    ensures MovieMeaning([], m) == m
  {
  }

  lemma {:induction false} FirstOver(file: seq<byte>, bs: seq<Box>, ts: seq<Mp4>)
    requires AllOver(file, bs, ts)
    ensures First(bs, MOOV).Some? <==> Named(ts, MOOV) != []
    ensures First(bs, MOOV).Some? ==> Over(file, First(bs, MOOV).value, Named(ts, MOOV)[0]) && Named(ts, MOOV)[0] in ts
    ensures Named(ts, MOOV) != [] ==> Named(ts, MOOV)[0].typ == MOOV
    decreases |ts|
  {
    hide Body, Over;
    if ts != [] {
      OverTail(file, bs, ts);
      TypeOver(file, bs[0], ts[0]);
      FirstOver(file, bs[1..], ts[1..]);
    }
  }

  // The fields of mvhd and mehd, laid out as sections 8.2.2 and 8.8.2 of ISO/IEC 14496-12 have them.

  datatype Version = V0 | V1

  function EncodeVersion(v: Version, flags: seq<byte>): seq<byte> {
    [if v.V0? then 0 else 1] + flags
  }

  /** Times and durations take four bytes in version 0 and eight in version 1. */
  function TimeLength(v: Version): nat {
    if v.V0? then 4 else 8
  }

  function UnknownDuration(v: Version): nat {
    if v.V0? then 0xFFFF_FFFF else 0xFFFF_FFFF_FFFF_FFFF
  }

  function EncodeMovieHeader(v: Version, flags: seq<byte>, created: nat, modified: nat, timescale: nat, duration: nat)
    : seq<byte>
  {
    var n := TimeLength(v);
    var clock := ToBigEndian(timescale, 4) + ToBigEndian(duration, n);
    EncodeVersion(v, flags) + (ToBigEndian(created, n) + (ToBigEndian(modified, n) + clock))
  }

  function EncodeFragmentHeader(v: Version, flags: seq<byte>, duration: nat): seq<byte> {
    EncodeVersion(v, flags) + ToBigEndian(duration, TimeLength(v))
  }

  lemma FieldReads(p: seq<byte>, at: nat, value: nat, n: nat)
    requires value < Pow256(n) && at + n <= |p| && p[at..at + n] == ToBigEndian(value, n)
    ensures BigEndian(p[at..at + n]) == value
  {
    BigEndianRoundTrip(value, n);
  }

  /** Each version of an mvhd reads back to the timescale and the duration it was written with, unknown as zero. */
  lemma MovieHeaderReads(v: Version, flags: seq<byte>, created: nat, modified: nat, timescale: nat, duration: nat,
                         rest: seq<byte>)
    requires |flags| == 3 && timescale < Pow256(4) && duration < Pow256(TimeLength(v))
    ensures MovieHeader(Take(EncodeMovieHeader(v, flags, created, modified, timescale, duration) + rest, 32))
            == Some((timescale, if duration == UnknownDuration(v) then 0 else duration))
  {
    hide BigEndian, ToBigEndian, Pow256, MovieHeader, Take;
    var n := TimeLength(v);
    var p := Take(EncodeMovieHeader(v, flags, created, modified, timescale, duration) + rest, 32);
    HeaderSlices(EncodeVersion(v, flags), ToBigEndian(created, n), ToBigEndian(modified, n), ToBigEndian(timescale, 4),
                 ToBigEndian(duration, n), rest, n);
    FieldReads(p, 4 + 2 * n, timescale, 4);
    FieldReads(p, 8 + 2 * n, duration, n);
    HeaderFields(v, p);
  }

  lemma HeaderSlices(start: seq<byte>, c: seq<byte>, m: seq<byte>, t: seq<byte>, d: seq<byte>, rest: seq<byte>, n: nat)
    requires |start| == 4 == |t| && |c| == |m| == |d| == n && (n == 4 || n == 8)
    ensures var p := Take(start + (c + (m + (t + d))) + rest, 32);
            && |p| >= 8 + 3 * n && p[0] == start[0]
            && p[4 + 2 * n..8 + 2 * n] == t && p[8 + 2 * n..8 + 3 * n] == d
  {
    var p := Take(start + (c + (m + (t + d))) + rest, 32);
    assert forall i :: 0 <= i < 4 ==> p[4 + 2 * n + i] == t[i];
    assert forall i :: 0 <= i < n ==> p[8 + 2 * n + i] == d[i];
  }

  lemma HeaderFields(v: Version, p: seq<byte>)
    requires var n := TimeLength(v);
             |p| >= 8 + 3 * n && p[0] == if v.V0? then 0 else 1
    ensures var n := TimeLength(v);
            var d := BigEndian(p[8 + 2 * n..8 + 3 * n]);
            MovieHeader(p) == Some((BigEndian(p[4 + 2 * n..8 + 2 * n]), if d == UnknownDuration(v) then 0 else d))
  {
    hide BigEndian;
  }

  /** Each version of a mehd reads back to the duration it was written with. */
  lemma FragmentHeaderReads(v: Version, flags: seq<byte>, duration: nat, rest: seq<byte>)
    requires |flags| == 3 && duration < Pow256(TimeLength(v))
    ensures FragmentDuration(Take(EncodeFragmentHeader(v, flags, duration) + rest, 12)) == Some(duration)
  {
    hide BigEndian, ToBigEndian, Pow256;
    var n := TimeLength(v);
    var p := Take(EncodeFragmentHeader(v, flags, duration) + rest, 12);
    assert p[..4 + n] == EncodeVersion(v, flags) + ToBigEndian(duration, n);
    assert p[4..4 + n] == ToBigEndian(duration, n);
    FieldReads(p, 4, duration, n);
  }

  /**
   * Probing the encoding of any forest, with 32-bit sizes, 64-bit sizes or a
   * last box that runs to the end, gives the forest's meaning.
   */
  lemma ProbeOfEncode(ts: seq<Mp4>)
    requires ValidFile(ts) && |Encode(ts)| <= MAX_INT64
    ensures Probe(Encode(ts), |Encode(ts)|) == Meaning(ts)
  {
    if ts == [] {
      NothingEncoded();
    } else {
      SomeEncoded(ts);
      ProbeOfSome(ts);
    }
  }

  lemma SomeEncoded(ts: seq<Mp4>)
    requires ts != [] && ValidFile(ts)
    ensures |Encode(ts)| >= 8
  {
    hide Body, EncodeOne, ValidList;
    ListTail(ts);
  }

  lemma NothingEncoded()
    ensures Encode([]) == [] && Meaning([]) == Info(None, 0, 0)
  {
  }

  lemma ProbeOfSome(ts: seq<Mp4>)
    requires ValidFile(ts) && 8 <= |Encode(ts)| <= MAX_INT64
    ensures Probe(Encode(ts), |Encode(ts)|) == Meaning(ts)
  {
    hide Encode, Visited, MovieFold, Headers, AllDurations, Sizes, ValidMoov, Over, ValidList;
    var file := Encode(ts);
    assert At(file, 0, file);
    WalkVisitsForest(file, 0, ts);
    LayoutIsOver(file, 0, ts);
    var boxes := Layout(ts, 0);
    FirstOver(file, boxes, ts);
    var first := First(boxes, MOOV);
    if first.Some? {
      var moov := Named(ts, MOOV)[0];
      MoovIsList(moov.kids);
      var kids := KidsOver(file, first.value, moov);
      MovieOver(file, kids, moov.kids, Movie(None, None, 0, 0));
      SizesInRange(moov.kids);
    }
  }
}
