/** What a caller of the AVI probe is told: dimensions and duration, in terms of the chunks of the file. */
module AviReport {
  import opened Bytes
  import opened AviSpec
  import opened AviTree
  import opened Picking

  /** A chunk that is no LIST. */
  predicate Chunked(t: Riff, id: seq<byte>) {
    t.Data? && t.id == id
  }

  /** A main header: ten 32-bit fields, of which four are read. */
  ghost predicate MainChunk(t: Riff, period: nat, frames: nat, w: nat, h: nat) {
    && Chunked(t, Ascii("avih")) && period < 0x1_0000_0000 && frames < 0x1_0000_0000 && w < 0x1_0000_0000 && h < 0x1_0000_0000
    && exists rates: seq<byte>, streams: seq<byte>, rest ::
         |rates| == 12 && |streams| == 12 && t.payload == MainFields(period, rates, frames, streams, w, h) + rest
  }

  function MainFields(period: nat, rates: seq<byte>, frames: nat, streams: seq<byte>, w: nat, h: nat): seq<byte> {
    ToLittleEndian(period, 4) + rates + (ToLittleEndian(frames, 4) + streams) + (ToLittleEndian(w, 4) + ToLittleEndian(h, 4))
  }

  /** The last main header that is long enough. */
  ghost predicate LastMain(ts: seq<Riff>, period: nat, frames: nat, w: nat, h: nat) {
    exists i :: 0 <= i < |ts| && MainChunk(ts[i], period, frames, w, h)
                && forall j :: i < j < |ts| && Chunked(ts[j], Ascii("avih")) ==> |ts[j].payload| < 40
  }

  ghost predicate NoMain(ts: seq<Riff>) {
    forall j :: 0 <= j < |ts| && Chunked(ts[j], Ascii("avih")) ==> |ts[j].payload| < 40
  }

  /** A bitmap header: its own size, a width and a height, and more. */
  ghost predicate BitmapChunk(t: Riff, w: nat, h: nat) {
    && Chunked(t, Ascii("strf")) && w < 0x1_0000_0000 && h < 0x1_0000_0000
    && exists size: seq<byte>, rest ::
         |size| == 4 && t.payload == size + (ToLittleEndian(w, 4) + ToLittleEndian(h, 4)) + rest
  }

  /** The last bitmap header that is long enough. */
  ghost predicate LastBitmap(ts: seq<Riff>, w: nat, h: nat) {
    exists i :: 0 <= i < |ts| && BitmapChunk(ts[i], w, h)
                && forall j :: i < j < |ts| && Chunked(ts[j], Ascii("strf")) ==> |ts[j].payload| < 12
  }

  /** The last stream header, read on into what is behind it, begins with this type. */
  ghost predicate LastType(l: Section, fourcc: seq<byte>) {
    exists i :: 0 <= i < |l.kids| && Chunked(l.kids[i], Ascii("strh"))
                && fourcc <= l.kids[i].payload + Behind(l.kids[i..], l.after)
                && forall j :: i < j < |l.kids| ==> !Chunked(l.kids[j], Ascii("strh"))
  }

  /** A video stream of w by h pixels, at most 65536 each way. */
  ghost predicate ShowsVideo(l: Section, w: nat, h: nat) {
    LastType(l, Ascii("vids")) && LastBitmap(l.kids, w, h) && 0 < w <= 65536 && 0 < h <= 65536
  }

  ghost predicate Candidate(l: Section) {
    exists w: nat, h: nat :: ShowsVideo(l, w, h)
  }

  ghost predicate FirstCandidate(ls: seq<Section>, k: nat) {
    k < |ls| && Candidate(ls[k]) && forall j :: 0 <= j < k ==> !Candidate(ls[j])
  }

  /** All chunks of some header lists. */
  function HeaderChunks(ls: seq<Section>): seq<Riff> {
    if ls == [] then [] else ls[0].kids + HeaderChunks(ls[1..])
  }

  /** All stream lists of some header lists. */
  function StreamLists(ls: seq<Section>): seq<Section> {
    if ls == [] then [] else Groups(ls[0].kids, Ascii("strl"), ls[0].after) + StreamLists(ls[1..])
  }

  /** The frame period and the number of frames, when both are there. */
  ghost predicate ReportsDuration(ts: seq<Riff>, duration: Option<(nat, nat)>) {
    && (forall period: nat, frames: nat, w: nat, h: nat :: LastMain(ts, period, frames, w, h) ==>
          duration == if period > 0 && frames > 0 then Some((period, frames)) else None)
    && (NoMain(ts) ==> duration == None)
  }

  /** The first video stream decides; without one the main header does, with its fields read as signed. */
  ghost predicate ReportsSize(ls: seq<Section>, ts: seq<Riff>, width: int, height: int) {
    && (forall k: nat, w: nat, h: nat :: FirstCandidate(ls, k) && ShowsVideo(ls[k], w, h) ==> width == w && height == h)
    && ((forall k :: 0 <= k < |ls| ==> !Candidate(ls[k])) ==> NominalSize(ts, width, height))
  }

  ghost predicate NominalSize(ts: seq<Riff>, width: int, height: int) {
    && (forall period: nat, frames: nat, w: nat, h: nat :: LastMain(ts, period, frames, w, h) ==>
          if 0 < w < 0x8000_0000 && 0 < h < 0x8000_0000 then width == w && height == h else width == height == 0)
    && (NoMain(ts) ==> width == height == 0)
  }

  // Codes are what their letters say.

  lemma FourLetters()
    ensures RIFF == Ascii("RIFF") && AVI == Ascii("AVI ") && LIST == Ascii("LIST") && HDRL == Ascii("hdrl")
    ensures AVIH == Ascii("avih") && STRL == Ascii("strl") && STRH == Ascii("strh") && STRF == Ascii("strf")
    ensures VIDS == Ascii("vids") && STRF != LIST && STRH != LIST && AVIH != LIST
  {
    IdsDiffer();
    assert STRF[0] != LIST[0];
  }

  // Main headers.

  function MainOf(t: Riff): Option<Header> {
    if Id(t) == AVIH && |Body(t)| >= 40 then MainHeader(Body(t)[..40]) else None
  }

  lemma {:induction false} MainHeadersPicked(ts: seq<Riff>)
    ensures MainHeaders(Named(ts, AVIH)) == Picked(ts, MainOf)
  {
    hide Body, Id, MainHeader;
    if ts != [] {
      var p, rest := Body(ts[0]), Named(ts[1..], AVIH);
      MainHeadersPicked(ts[1..]);
      MainHeadersCons(p, rest);
      assert Id(ts[0]) == AVIH ==> Named(ts, AVIH) == [p] + rest;
      assert Id(ts[0]) != AVIH ==> Named(ts, AVIH) == rest;
    }
  }

  lemma {:induction false} AllHeadersPicked(ls: seq<Section>)
    ensures AllHeaders(ls) == Picked(HeaderChunks(ls), MainOf)
  {
    hide MainHeaders, MainOf, Named;
    if ls != [] {
      AllHeadersPicked(ls[1..]);
      MainHeadersPicked(ls[0].kids);
      PickedAppend(ls[0].kids, HeaderChunks(ls[1..]), MainOf);
    }
  }

  lemma FieldReads(p: seq<byte>, at: nat, v: nat)
    requires v < 0x1_0000_0000 && at + 4 <= |p| && p[at..at + 4] == ToLittleEndian(v, 4)
    ensures LittleEndian(p[at..at + 4]) == v
  {
    PowTable();
    LittleEndianRoundTrip(v, 4);
  }

  lemma MainReads(period: nat, rates: seq<byte>, frames: nat, streams: seq<byte>, w: nat, h: nat, rest: seq<byte>)
    requires period < 0x1_0000_0000 && frames < 0x1_0000_0000 && w < 0x1_0000_0000 && h < 0x1_0000_0000
    requires |rates| == |streams| == 12
    ensures var p := MainFields(period, rates, frames, streams, w, h) + rest;
            |p| >= 40 && MainHeader(p[..40]) == Some(Header(period, frames, Signed32(w), Signed32(h)))
  {
    hide LittleEndian, ToLittleEndian, Signed32;
    var p := (MainFields(period, rates, frames, streams, w, h) + rest)[..40];
    assert p == MainFields(period, rates, frames, streams, w, h);
    assert p[0..4] == ToLittleEndian(period, 4) && p[16..20] == ToLittleEndian(frames, 4);
    assert p[32..36] == ToLittleEndian(w, 4) && p[36..40] == ToLittleEndian(h, 4);
    FieldReads(p, 0, period);
    FieldReads(p, 16, frames);
    FieldReads(p, 32, w);
    FieldReads(p, 36, h);
  }

  lemma MainChunkReads(t: Riff, period: nat, frames: nat, w: nat, h: nat)
    requires MainChunk(t, period, frames, w, h)
    ensures MainOf(t) == Some(Header(period, frames, Signed32(w), Signed32(h)))
  {
    FourLetters();
    hide Ascii, MainHeader, Signed32, MainFields;
    var rates: seq<byte>, streams: seq<byte>, rest :|
      |rates| == 12 && |streams| == 12 && t.payload == MainFields(period, rates, frames, streams, w, h) + rest;
    MainReads(period, rates, frames, streams, w, h, rest);
  }

  lemma MainIs(t: Riff)
    ensures MainOf(t).Some? <==> Chunked(t, Ascii("avih")) && |t.payload| >= 40
  {
    FourLetters();
    hide Ascii, LittleEndian;
  }

  lemma LastMainIs(ts: seq<Riff>, period: nat, frames: nat, w: nat, h: nat)
    requires LastMain(ts, period, frames, w, h)
    ensures Picked(ts, MainOf) != []
    ensures Picked(ts, MainOf)[|Picked(ts, MainOf)| - 1] == Header(period, frames, Signed32(w), Signed32(h))
  {
    hide Ascii, MainOf, Picked, MainChunk, Signed32;
    var i :| 0 <= i < |ts| && MainChunk(ts[i], period, frames, w, h)
             && forall j :: i < j < |ts| && Chunked(ts[j], Ascii("avih")) ==> |ts[j].payload| < 40;
    MainChunkReads(ts[i], period, frames, w, h);
    forall j | i < j < |ts|
      ensures MainOf(ts[j]) == None
    {
      MainIs(ts[j]);
    }
    LastPicked(ts, MainOf, Header(period, frames, Signed32(w), Signed32(h)));
  }

  lemma NoMainIs(ts: seq<Riff>)
    requires NoMain(ts)
    ensures Picked(ts, MainOf) == []
  {
    hide Ascii, MainOf, Picked;
    forall j | 0 <= j < |ts|
      ensures MainOf(ts[j]) == None
    {
      MainIs(ts[j]);
    }
    NothingPicked(ts, MainOf);
  }

  // Bitmap headers.

  function BitmapOf(t: Riff): Option<(int, int)> {
    if Id(t) == STRF && |Body(t)| >= 12 then BitmapSize(Body(t)[..12]) else None
  }

  lemma {:induction false} BitmapsPicked(ts: seq<Riff>)
    ensures Bitmaps(Named(ts, STRF)) == Picked(ts, BitmapOf)
  {
    hide Body, Id, BitmapSize;
    if ts != [] {
      var p, rest := Body(ts[0]), Named(ts[1..], STRF);
      BitmapsPicked(ts[1..]);
      BitmapsCons(p, rest);
      assert Id(ts[0]) == STRF ==> Named(ts, STRF) == [p] + rest;
      assert Id(ts[0]) != STRF ==> Named(ts, STRF) == rest;
    }
  }

  lemma BitmapReads(size: seq<byte>, w: nat, h: nat, rest: seq<byte>)
    requires |size| == 4 && w < 0x1_0000_0000 && h < 0x1_0000_0000
    ensures var p := size + (ToLittleEndian(w, 4) + ToLittleEndian(h, 4)) + rest;
            |p| >= 12 && BitmapSize(p[..12]) == Some((Signed32(w), Signed32(h)))
  {
    hide LittleEndian, ToLittleEndian, Signed32;
    var p := (size + (ToLittleEndian(w, 4) + ToLittleEndian(h, 4)) + rest)[..12];
    assert p[4..8] == ToLittleEndian(w, 4) && p[8..12] == ToLittleEndian(h, 4);
    FieldReads(p, 4, w);
    FieldReads(p, 8, h);
  }

  lemma {:induction false} ToLittleEndianRoundTrip(s: seq<byte>)
    ensures ToLittleEndian(LittleEndian(s), |s|) == s && LittleEndian(s) < Pow256(|s|)
  {
    if s != [] {
      ToLittleEndianRoundTrip(s[1..]);
      var v := LittleEndian(s);
      assert v / 256 == LittleEndian(s[1..]) && v % 256 == s[0];
    }
  }

  /** A payload of twelve bytes or more is a bitmap header of some width and height. */
  lemma BitmapSplits(t: Riff) returns (w: nat, h: nat)
    requires Chunked(t, Ascii("strf")) && |t.payload| >= 12
    ensures BitmapChunk(t, w, h) && w < 0x1_0000_0000 && h < 0x1_0000_0000
  {
    hide Ascii, LittleEndian, ToLittleEndian;
    var p := t.payload;
    w, h := LittleEndian(p[4..8]), LittleEndian(p[8..12]);
    PowTable();
    ToLittleEndianRoundTrip(p[4..8]);
    ToLittleEndianRoundTrip(p[8..12]);
    assert p == p[..4] + (p[4..8] + p[8..12]) + p[12..];
  }

  lemma BitmapChunkReads(t: Riff, w: nat, h: nat)
    requires BitmapChunk(t, w, h)
    ensures BitmapOf(t) == Some((Signed32(w), Signed32(h)))
  {
    FourLetters();
    hide Ascii, BitmapSize, Signed32, ToLittleEndian;
    var size: seq<byte>, rest :| |size| == 4 && t.payload == size + (ToLittleEndian(w, 4) + ToLittleEndian(h, 4)) + rest;
    BitmapReads(size, w, h, rest);
  }

  lemma BitmapIs(t: Riff)
    ensures BitmapOf(t).Some? <==> Chunked(t, Ascii("strf")) && |t.payload| >= 12
  {
    FourLetters();
    hide Ascii, LittleEndian;
  }

  lemma LastBitmapIs(ts: seq<Riff>, w: nat, h: nat)
    requires LastBitmap(ts, w, h)
    ensures Picked(ts, BitmapOf) != []
    ensures Picked(ts, BitmapOf)[|Picked(ts, BitmapOf)| - 1] == (Signed32(w), Signed32(h))
  {
    hide Ascii, BitmapOf, Picked, BitmapChunk, Signed32;
    var i :| 0 <= i < |ts| && BitmapChunk(ts[i], w, h)
             && forall j :: i < j < |ts| && Chunked(ts[j], Ascii("strf")) ==> |ts[j].payload| < 12;
    BitmapChunkReads(ts[i], w, h);
    forall j | i < j < |ts|
      ensures BitmapOf(ts[j]) == None
    {
      BitmapIs(ts[j]);
    }
    LastPicked(ts, BitmapOf, (Signed32(w), Signed32(h)));
  }

  lemma LastOfBitmaps(ts: seq<Riff>) returns (w: nat, h: nat)
    requires Picked(ts, BitmapOf) != []
    ensures LastBitmap(ts, w, h) && w < 0x1_0000_0000 && h < 0x1_0000_0000
    ensures Picked(ts, BitmapOf)[|Picked(ts, BitmapOf)| - 1] == (Signed32(w), Signed32(h))
  {
    hide Ascii, BitmapOf, Picked, BitmapChunk, Signed32;
    var last := Picked(ts, BitmapOf)[|Picked(ts, BitmapOf)| - 1];
    LastPicked(ts, BitmapOf, last);
    var i :| 0 <= i < |ts| && BitmapOf(ts[i]) == Some(last) && forall j :: i < j < |ts| ==> BitmapOf(ts[j]) == None;
    forall j | i <= j < |ts|
      ensures BitmapOf(ts[j]).Some? <==> Chunked(ts[j], Ascii("strf")) && |ts[j].payload| >= 12
    {
      BitmapIs(ts[j]);
    }
    w, h := BitmapSplits(ts[i]);
    BitmapChunkReads(ts[i], w, h);
    assert LastBitmap(ts, w, h);
  }

  // Stream headers.

  /** The type read at the k-th chunk of a stream list. */
  function TypeAt(ts: seq<Riff>, k: nat, after: seq<byte>): seq<byte>
    requires k < |ts|
  {
    TypeOf(Body(ts[k]), Behind(ts[k..], after))
  }

  lemma {:induction false} TypesOf(ts: seq<Riff>, after: seq<byte>, i: nat)
    requires i < |ts| && Id(ts[i]) == STRH && forall j :: i < j < |ts| ==> Id(ts[j]) != STRH
    ensures Types(ts, after) != [] && Types(ts, after)[|Types(ts, after)| - 1] == TypeAt(ts, i, after)
    decreases i
  {
    hide Body, Behind, TypeOf, Id;
    var rest := ts[1..];
    assert forall j :: 0 <= j < |rest| ==> rest[j] == ts[j + 1];
    if i == 0 {
      assert ts[0..] == ts;
      NoTypes(rest, after);
    } else {
      assert rest[i - 1..] == ts[i..];
      TypesOf(rest, after, i - 1);
    }
  }

  lemma {:induction false} NoTypes(ts: seq<Riff>, after: seq<byte>)
    ensures Types(ts, after) == [] <==> forall j :: 0 <= j < |ts| ==> Id(ts[j]) != STRH
  {
    hide Body, Behind, TypeOf, Id;
    if ts != [] {
      assert forall j :: 0 <= j < |ts| - 1 ==> ts[1..][j] == ts[j + 1];
      assert forall j :: 0 < j < |ts| ==> ts[j] == ts[1..][j - 1];
      NoTypes(ts[1..], after);
    }
  }

  lemma {:induction false} LastHeader(ts: seq<Riff>, after: seq<byte>) returns (i: nat)
    requires Types(ts, after) != []
    ensures i < |ts| && Id(ts[i]) == STRH && forall j :: i < j < |ts| ==> Id(ts[j]) != STRH
  {
    hide Body, Behind, TypeOf, Id;
    var rest := ts[1..];
    NoTypes(rest, after);
    if Types(rest, after) != [] {
      var k := LastHeader(rest, after);
      i := k + 1;
    } else {
      i := 0;
    }
    assert forall j :: 0 < j < |ts| ==> ts[j] == rest[j - 1];
  }

  lemma TypeIsPrefix(p: seq<byte>, after: seq<byte>, fourcc: seq<byte>)
    requires |fourcc| == 4
    ensures TypeOf(p, after) == fourcc <==> fourcc <= p + after
  {
  }

  lemma ChunkedIs(t: Riff, id: seq<byte>)
    requires id != LIST
    ensures Chunked(t, id) <==> Id(t) == id
    ensures Chunked(t, id) ==> Body(t) == t.payload
  {
  }

  lemma LastTypeIs(l: Section, fourcc: seq<byte>)
    requires |fourcc| == 4
    ensures var hs := Types(l.kids, l.after);
            LastType(l, fourcc) <==> hs != [] && hs[|hs| - 1] == fourcc
  {
    FourLetters();
    hide Ascii, Types, Behind, Body, Id, TypeOf;
    forall j | 0 <= j < |l.kids|
      ensures Chunked(l.kids[j], STRH) <==> Id(l.kids[j]) == STRH
      ensures Chunked(l.kids[j], STRH) ==> Body(l.kids[j]) == l.kids[j].payload
      ensures TypeAt(l.kids, j, l.after) == fourcc <==> fourcc <= Body(l.kids[j]) + Behind(l.kids[j..], l.after)
    {
      ChunkedIs(l.kids[j], STRH);
      TypeIsPrefix(Body(l.kids[j]), Behind(l.kids[j..], l.after), fourcc);
    }
    if LastType(l, fourcc) {
      var i :| 0 <= i < |l.kids| && Chunked(l.kids[i], STRH)
               && fourcc <= l.kids[i].payload + Behind(l.kids[i..], l.after)
               && forall j :: i < j < |l.kids| ==> !Chunked(l.kids[j], STRH);
      TypesOf(l.kids, l.after, i);
    }
    if Types(l.kids, l.after) != [] {
      var i := LastHeader(l.kids, l.after);
      TypesOf(l.kids, l.after, i);
    }
  }

  lemma ShownIsSize(l: Section, w: nat, h: nat)
    requires ShowsVideo(l, w, h)
    ensures StreamSize(l) == Some((w, h))
  {
    FourLetters();
    hide Ascii, Types, Bitmaps, LastType, LastBitmap, Picked;
    LastTypeIs(l, VIDS);
    BitmapsPicked(l.kids);
    LastBitmapIs(l.kids, w, h);
  }

  lemma SizeIsShown(l: Section)
    requires StreamSize(l).Some?
    ensures Candidate(l)
  {
    FourLetters();
    hide Ascii, Types, Bitmaps, LastType, LastBitmap, Picked;
    LastTypeIs(l, VIDS);
    BitmapsPicked(l.kids);
    var w, h := LastOfBitmaps(l.kids);
    assert ShowsVideo(l, w, h);
  }

  lemma CandidateIs(l: Section)
    ensures Candidate(l) <==> StreamSize(l).Some?
  {
    hide ShowsVideo, StreamSize;
    if StreamSize(l).Some? {
      SizeIsShown(l);
    }
    if Candidate(l) {
      var w: nat, h: nat :| ShowsVideo(l, w, h);
      ShownIsSize(l, w, h);
    }
  }

  lemma {:induction false} StreamSizesPicked(ls: seq<Section>)
    ensures StreamSizes(ls) == Picked(ls, StreamSize)
  {
    hide StreamSize;
    if ls != [] {
      StreamSizesPicked(ls[1..]);
    }
  }

  lemma {:induction false} AllSizesPicked(ls: seq<Section>)
    ensures AllSizes(ls) == Picked(StreamLists(ls), StreamSize)
  {
    FourLetters();
    hide Ascii, StreamSize, StreamSizes, Groups;
    if ls != [] {
      var streams := Groups(ls[0].kids, STRL, ls[0].after);
      AllSizesPicked(ls[1..]);
      StreamSizesPicked(streams);
      PickedAppend(streams, StreamLists(ls[1..]), StreamSize);
    }
  }

  lemma VideoDecides(ls: seq<Section>, width: int, height: int)
    requires var s := Picked(ls, StreamSize); s != [] ==> s[0] == (width, height)
    ensures forall k: nat, w: nat, h: nat :: FirstCandidate(ls, k) && ShowsVideo(ls[k], w, h) ==> width == w && height == h
    ensures (forall k :: 0 <= k < |ls| ==> !Candidate(ls[k])) ==> Picked(ls, StreamSize) == []
  {
    hide ShowsVideo, StreamSize, Candidate, Picked;
    NothingPicked(ls, StreamSize);
    forall k | 0 <= k < |ls|
      ensures Candidate(ls[k]) <==> StreamSize(ls[k]).Some?
    {
      CandidateIs(ls[k]);
    }
    forall k: nat, w: nat, h: nat | FirstCandidate(ls, k) && ShowsVideo(ls[k], w, h)
      ensures width == w && height == h
    {
      FirstPicked(ls, StreamSize, k);
      ShownIsSize(ls[k], w, h);
    }
  }

  lemma HeaderDecides(ts: seq<Riff>, duration: Option<(nat, nat)>)
    requires var hs := Picked(ts, MainOf);
             duration == if hs == [] then None
                         else
                           var m := hs[|hs| - 1];
                           if m.microSecPerFrame > 0 && m.totalFrames > 0 then Some((m.microSecPerFrame, m.totalFrames)) else None
    ensures ReportsDuration(ts, duration)
  {
    hide LastMain, NoMain, Picked, MainOf, Signed32;
    forall period: nat, frames: nat, w: nat, h: nat | LastMain(ts, period, frames, w, h)
      ensures duration == if period > 0 && frames > 0 then Some((period, frames)) else None
    {
      LastMainIs(ts, period, frames, w, h);
    }
    if NoMain(ts) {
      NoMainIs(ts);
    }
  }

  lemma NominalDecides(ts: seq<Riff>, width: int, height: int)
    requires var hs := Picked(ts, MainOf);
             if hs != [] && hs[|hs| - 1].width > 0 && hs[|hs| - 1].height > 0 then
               width == hs[|hs| - 1].width && height == hs[|hs| - 1].height
             else width == height == 0
    ensures NominalSize(ts, width, height)
  {
    hide LastMain, NoMain, Picked, MainOf;
    forall period: nat, frames: nat, w: nat, h: nat | LastMain(ts, period, frames, w, h)
      ensures if 0 < w < 0x8000_0000 && 0 < h < 0x8000_0000 then width == w && height == h else width == height == 0
    {
      LastMainIs(ts, period, frames, w, h);
      MainInRange(ts, period, frames, w, h);
    }
    if NoMain(ts) {
      NoMainIs(ts);
    }
  }

  lemma MainInRange(ts: seq<Riff>, period: nat, frames: nat, w: nat, h: nat)
    requires LastMain(ts, period, frames, w, h)
    ensures w < 0x1_0000_0000 && h < 0x1_0000_0000
  {
  }

  /** Probing the encoding of any chunk tree reports the dimensions and the duration of its header lists. */
  lemma ReportOfEncode(ts: seq<Riff>)
    requires Valid(ts)
    ensures var lists, info := Groups(ts, Ascii("hdrl"), []), Probe(EncodeFile(ts), |EncodeFile(ts)|);
            && ReportsSize(StreamLists(lists), HeaderChunks(lists), info.width, info.height)
            && ReportsDuration(HeaderChunks(lists), info.duration)
  {
    FourLetters();
    hide Ascii, Groups, AllHeaders, AllSizes, Probe, EncodeFile, Valid, StreamLists, HeaderChunks, StreamSize, MainOf, Picked,
      NominalSize, ReportsDuration, FirstCandidate, ShowsVideo, Candidate;
    var lists, info := Groups(ts, HDRL, []), Probe(EncodeFile(ts), |EncodeFile(ts)|);
    ProbeOfEncode(ts);
    AllHeadersPicked(lists);
    AllSizesPicked(lists);
    HeaderDecides(HeaderChunks(lists), info.duration);
    VideoDecides(StreamLists(lists), info.width, info.height);
    if Picked(StreamLists(lists), StreamSize) == [] {
      NominalDecides(HeaderChunks(lists), info.width, info.height);
    }
  }
}
