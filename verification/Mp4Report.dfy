/** What a caller of the MP4 probe is told: dimensions and duration, in terms of the boxes of the file. */
module Mp4Report {
  import opened Bytes
  import opened Mp4Spec
  import opened Mp4Tree
  import opened Picking

  /** A handler box: eight bytes, the handler type, and anything after it (section 8.4.3 of ISO/IEC 14496-12). */
  ghost predicate HandlerBox(t: Mp4, h: seq<byte>) {
    t.typ == Ascii("hdlr") && |h| == 4 && exists start: seq<byte>, rest ::
      |start| == 8 && Body(t) == start + h + rest
  }

  /** The last handler box that is long enough has this type. */
  ghost predicate LastHandler(ts: seq<Mp4>, h: seq<byte>) {
    exists i :: 0 <= i < |ts| && HandlerBox(ts[i], h)
                && forall j :: i < j < |ts| && ts[j].typ == Ascii("hdlr") ==> |Body(ts[j])| < 12
  }

  /** A 16.16 number: its whole part and its fraction. */
  function Fixed(whole: nat, fraction: nat): seq<byte> {
    ToBigEndian(65536 * whole + fraction, 4)
  }

  /** A track header ends in two 16.16 numbers, the width before the height (section 8.3.2). */
  ghost predicate SizeBox(t: Mp4, w: nat, h: nat) {
    t.typ == Ascii("tkhd") && w < 65536 && h < 65536 && exists front, wf: nat, hf: nat ::
      wf < 65536 && hf < 65536 && Body(t) == front + (Fixed(w, wf) + Fixed(h, hf))
  }

  /** The boxes in all boxes of a type, in order. */
  function Inside(ts: seq<Mp4>, typ: seq<byte>): seq<Mp4> {
    if ts == [] then [] else (if ts[0].typ == typ then Kids(ts[0]) else []) + Inside(ts[1..], typ)
  }

  /** A video track whose last track header says w by h. */
  ghost predicate ShowsSize(track: seq<Mp4>, w: nat, h: nat) {
    && LastHandler(Inside(track, Ascii("mdia")), Ascii("vide"))
    && exists i :: 0 <= i < |track| && SizeBox(track[i], w, h)
                   && forall j :: i < j < |track| ==> track[j].typ != Ascii("tkhd")
  }

  /** A track box of a video track with positive dimensions. */
  ghost predicate Candidate(t: Mp4) {
    t.typ == Ascii("trak") && exists w: nat, h: nat :: ShowsSize(Kids(t), w, h) && w > 0 && h > 0
  }

  ghost predicate FirstCandidate(movie: seq<Mp4>, k: nat) {
    k < |movie| && Candidate(movie[k]) && forall j :: 0 <= j < k ==> !Candidate(movie[j])
  }

  /** The first candidate decides. Without one, there are no dimensions. */
  ghost predicate ReportsSize(movie: seq<Mp4>, width: nat, height: nat) {
    && (forall k: nat, w: nat, h: nat ::
          FirstCandidate(movie, k) && ShowsSize(Kids(movie[k]), w, h) ==> width == w && height == h)
    && ((forall k :: 0 <= k < |movie| ==> !Candidate(movie[k])) ==> width == height == 0)
  }

  // The types are what their letters say.

  lemma BoxTypes()
    ensures MOOV == Ascii("moov") && MVHD == Ascii("mvhd") && MVEX == Ascii("mvex") && MEHD == Ascii("mehd")
    ensures TRAK == Ascii("trak") && TKHD == Ascii("tkhd") && MDIA == Ascii("mdia") && HDLR == Ascii("hdlr")
    ensures VIDE == Ascii("vide")
  {
  }

  // Handlers.

  function HandlerOf(t: Mp4): Option<seq<byte>> {
    if t.typ == HDLR && |Body(t)| >= 12 then Some(Body(t)[8..12]) else None
  }

  lemma {:induction false} HandlersPicked(ts: seq<Mp4>)
    ensures Handlers(ts) == Picked(ts, HandlerOf)
  {
    hide Body;
    if ts != [] {
      HandlersPicked(ts[1..]);
    }
  }

  lemma {:induction false} AllHandlersPicked(ts: seq<Mp4>)
    ensures AllHandlers(ts) == Picked(Inside(ts, MDIA), HandlerOf)
  {
    hide Handlers, HandlerOf, Kids;
    if ts != [] {
      AllHandlersPicked(ts[1..]);
      HandlersPicked(Kids(ts[0]));
      PickedAppend(if ts[0].typ == MDIA then Kids(ts[0]) else [], Inside(ts[1..], MDIA), HandlerOf);
    }
  }

  lemma HandlerBoxIs(t: Mp4, h: seq<byte>)
    requires HDLR == Ascii("hdlr")
    ensures HandlerBox(t, h) <==> HandlerOf(t) == Some(h)
  {
    hide Body, Ascii;
    var b := Body(t);
    if HandlerOf(t) == Some(h) {
      assert b == b[..8] + b[8..12] + b[12..];
    }
    if HandlerBox(t, h) {
      var start, rest :| |start| == 8 && b == start + h + rest;
      assert b[8..12] == h;
    }
  }

  lemma HandlerIs(ts: seq<Mp4>, h: seq<byte>)
    ensures LastHandler(Inside(ts, Ascii("mdia")), h) <==> AllHandlers(ts) != [] && AllHandlers(ts)[|AllHandlers(ts)| - 1] == h
  {
    BoxTypes();
    hide Ascii, HandlerBox, Picked, Handlers, AllHandlers, Inside, Body;
    var es := Inside(ts, MDIA);
    AllHandlersPicked(ts);
    LastPicked(es, HandlerOf, h);
    forall i | 0 <= i < |es|
      ensures HandlerBox(es[i], h) <==> HandlerOf(es[i]) == Some(h)
    {
      HandlerBoxIs(es[i], h);
    }
  }

  // Track headers.

  /** The size of the payload of a track header. */
  function TailSize(p: seq<byte>): Option<(nat, nat)> {
    TrackSize(if |p| <= 8 then p else p[|p| - 8..])
  }

  lemma FixedReads(whole: nat, fraction: nat)
    requires whole < 65536 && fraction < 65536
    ensures BigEndian(Fixed(whole, fraction)) / 65536 == whole
  {
    PowTable();
    BigEndianRoundTrip(65536 * whole + fraction, 4);
    hide BigEndian, ToBigEndian, Pow256;
  }

  lemma TailReads(front: seq<byte>, a: seq<byte>, b: seq<byte>)
    requires |a| == |b| == 4
    ensures var w, h := BigEndian(a) / 65536, BigEndian(b) / 65536;
            w < 65536 && h < 65536 ==>
              TailSize(front + (a + b)) == if w > 0 && h > 0 then Some((w, h)) else None
  {
    hide BigEndian;
    var p := front + (a + b);
    assert p[|p| - 8..] == a + b && (|p| <= 8 ==> p == a + b);
    assert (a + b)[0..4] == a && (a + b)[4..8] == b;
  }

  lemma SizeReads(front: seq<byte>, w: nat, wf: nat, h: nat, hf: nat)
    requires w < 65536 && h < 65536 && wf < 65536 && hf < 65536
    ensures TailSize(front + (Fixed(w, wf) + Fixed(h, hf))) == if w > 0 && h > 0 then Some((w, h)) else None
  {
    hide TailSize, BigEndian, ToBigEndian;
    FixedReads(w, wf);
    FixedReads(h, hf);
    TailReads(front, Fixed(w, wf), Fixed(h, hf));
  }

  lemma SizeSplits(p: seq<byte>) returns (front: seq<byte>, w: nat, wf: nat, h: nat, hf: nat)
    requires |p| >= 8
    ensures w < 65536 && h < 65536 && wf < 65536 && hf < 65536
    ensures p == front + (Fixed(w, wf) + Fixed(h, hf))
  {
    front := p[..|p| - 8];
    var a, b := p[|p| - 8..|p| - 4], p[|p| - 4..];
    PowTable();
    BigEndianBound(a);
    BigEndianBound(b);
    ToBigEndianRoundTrip(a);
    ToBigEndianRoundTrip(b);
    hide ToBigEndian, BigEndian;
    w, wf, h, hf := BigEndian(a) / 65536, BigEndian(a) % 65536, BigEndian(b) / 65536, BigEndian(b) % 65536;
    assert p == front + (a + b);
  }

  lemma LongEnough(p: seq<byte>)
    requires TailSize(p).Some?
    ensures |p| >= 8
  {
    hide BigEndian;
  }

  lemma SizeBoxIs(t: Mp4, w: nat, h: nat)
    requires TKHD == Ascii("tkhd")
    ensures SizeBox(t, w, h) ==> t.typ == TKHD && TailSize(Body(t)) == if w > 0 && h > 0 then Some((w, h)) else None
    ensures t.typ == TKHD && TailSize(Body(t)) == Some((w, h)) ==> SizeBox(t, w, h) && w > 0 && h > 0
  {
    hide Body, Ascii, BigEndian, Fixed, TailSize;
    var p := Body(t);
    if SizeBox(t, w, h) {
      var front: seq<byte>, wf: nat, hf: nat :| wf < 65536 && hf < 65536
        && p == front + (Fixed(w, wf) + Fixed(h, hf));
      SizeReads(front, w, wf, h, hf);
    }
    if t.typ == TKHD && TailSize(p) == Some((w, h)) {
      LongEnough(p);
      var front, a, wf, b, hf := SizeSplits(p);
      SizeReads(front, a, wf, b, hf);
    }
  }

  lemma {:induction false} LastNamed(ts: seq<Mp4>, typ: seq<byte>, i: nat)
    requires i < |ts| && ts[i].typ == typ && forall j :: i < j < |ts| ==> ts[j].typ != typ
    ensures Named(ts, typ) != [] && Named(ts, typ)[|Named(ts, typ)| - 1] == ts[i]
  {
    var rest := ts[1..];
    assert forall j :: 0 <= j < |rest| ==> rest[j] == ts[j + 1];
    if i == 0 {
      NoneNamed(rest, typ);
    } else {
      LastNamed(rest, typ, i - 1);
    }
  }

  lemma {:induction false} NoneNamed(ts: seq<Mp4>, typ: seq<byte>)
    ensures Named(ts, typ) == [] <==> forall j :: 0 <= j < |ts| ==> ts[j].typ != typ
  {
    if ts != [] {
      assert forall j :: 0 <= j < |ts| - 1 ==> ts[1..][j] == ts[j + 1];
      assert forall j :: 0 < j < |ts| ==> ts[j] == ts[1..][j - 1];
      NoneNamed(ts[1..], typ);
    }
  }

  lemma {:induction false} LastOfNamed(ts: seq<Mp4>, typ: seq<byte>) returns (i: nat)
    requires Named(ts, typ) != []
    ensures i < |ts| && ts[i] == Named(ts, typ)[|Named(ts, typ)| - 1] && ts[i].typ == typ
    ensures forall j :: i < j < |ts| ==> ts[j].typ != typ
  {
    var rest := ts[1..];
    NoneNamed(rest, typ);
    if Named(rest, typ) != [] {
      var k := LastOfNamed(rest, typ);
      i := k + 1;
    } else {
      i := 0;
    }
    assert forall j :: 0 < j < |ts| ==> ts[j] == rest[j - 1];
  }

  lemma ShownIsSize(track: seq<Mp4>, w: nat, h: nat)
    requires ShowsSize(track, w, h)
    ensures SizeOfTrack(track) == if w > 0 && h > 0 then Some((w, h)) else None
  {
    BoxTypes();
    hide Ascii, Body, AllHandlers, TrackSize, SizeBox, LastHandler, Inside, Named;
    HandlerIs(track, VIDE);
    var i :| 0 <= i < |track| && SizeBox(track[i], w, h) && forall j :: i < j < |track| ==> track[j].typ != TKHD;
    SizeBoxIs(track[i], w, h);
    LastNamed(track, TKHD, i);
  }

  lemma SizeIsShown(track: seq<Mp4>)
    requires SizeOfTrack(track).Some?
    ensures var s := SizeOfTrack(track).value; ShowsSize(track, s.0, s.1) && s.0 > 0 && s.1 > 0
  {
    BoxTypes();
    hide Ascii, Body, AllHandlers, TrackSize, SizeBox, LastHandler, Inside, Named;
    HandlerIs(track, VIDE);
    var i := LastOfNamed(track, TKHD);
    var s := SizeOfTrack(track).value;
    SizeBoxIs(track[i], s.0, s.1);
  }

  /** The size a movie's box contributes. */
  function SizeOf(t: Mp4): Option<(nat, nat)> {
    if t.typ == TRAK then SizeOfTrack(Kids(t)) else None
  }

  lemma CandidateIs(t: Mp4)
    ensures Candidate(t) <==> SizeOf(t).Some?
  {
    BoxTypes();
    hide Ascii, ShowsSize, SizeOfTrack;
    if SizeOf(t).Some? {
      var s := SizeOfTrack(Kids(t)).value;
      SizeIsShown(Kids(t));
      assert ShowsSize(Kids(t), s.0, s.1);
    }
    if Candidate(t) {
      var w: nat, h: nat :| ShowsSize(Kids(t), w, h) && w > 0 && h > 0;
      ShownIsSize(Kids(t), w, h);
    }
  }

  lemma {:induction false} SizesPicked(ts: seq<Mp4>)
    ensures Sizes(ts) == Picked(ts, SizeOf)
  {
    hide SizeOfTrack, Kids;
    if ts != [] {
      SizesPicked(ts[1..]);
    }
  }

  lemma SizesReport(movie: seq<Mp4>, width: nat, height: nat)
    requires if Sizes(movie) == [] then width == height == 0 else Sizes(movie)[0] == (width, height)
    ensures ReportsSize(movie, width, height)
  {
    BoxTypes();
    SizesPicked(movie);
    NothingPicked(movie, SizeOf);
    hide Ascii, ShowsSize, SizeOfTrack, SizeOf, Sizes, Candidate, Kids, Picked;
    forall k | 0 <= k < |movie|
      ensures Candidate(movie[k]) <==> SizeOf(movie[k]).Some?
    {
      CandidateIs(movie[k]);
    }
    forall k: nat, w: nat, h: nat | FirstCandidate(movie, k) && ShowsSize(Kids(movie[k]), w, h)
      ensures width == w && height == h
    {
      FirstPicked(movie, SizeOf, k);
      ShownIsCounted(movie[k], w, h);
    }
  }

  lemma ShownIsCounted(t: Mp4, w: nat, h: nat)
    requires Candidate(t) && ShowsSize(Kids(t), w, h)
    ensures SizeOf(t) == Some((w, h))
  {
    BoxTypes();
    hide Ascii, ShowsSize, SizeOfTrack;
    ShownIsSize(Kids(t), w, h);
    var a: nat, b: nat :| ShowsSize(Kids(t), a, b) && a > 0 && b > 0;
    ShownIsSize(Kids(t), a, b);
  }

  // The duration.

  /** A movie header that is read: version 0 with twenty bytes of payload, or version 1 with thirty-two. */
  predicate Readable(p: seq<byte>) {
    (|p| >= 20 && p[0] == 0) || (|p| >= 32 && p[0] == 1)
  }

  /** The last readable movie header says this timescale and this duration (section 8.2.2); all ones mean unknown. */
  ghost predicate LastHeader(movie: seq<Mp4>, timescale: nat, duration: nat) {
    exists i :: 0 <= i < |movie| && HeaderBox(movie[i], timescale, duration)
                && forall j :: i < j < |movie| && movie[j].typ == Ascii("mvhd") ==> !Readable(Body(movie[j]))
  }

  ghost predicate HeaderBox(t: Mp4, timescale: nat, duration: nat) {
    t.typ == Ascii("mvhd") && exists v, flags, created: nat, modified: nat, d: nat, rest ::
      && |flags| == 3 && timescale < 0x1_0000_0000 && d <= UnknownDuration(v)
      && duration == (if d == UnknownDuration(v) then 0 else d)
      && Body(t) == EncodeMovieHeader(v, flags, created, modified, timescale, d) + rest
  }

  /** The last readable fragment header of the movie says this duration (section 8.8.2). */
  ghost predicate LastFragment(ts: seq<Mp4>, duration: nat) {
    exists i :: 0 <= i < |ts| && FragmentBox(ts[i], duration)
                && forall j :: i < j < |ts| && ts[j].typ == Ascii("mehd") ==> !ReadableFragment(Body(ts[j]))
  }

  predicate ReadableFragment(p: seq<byte>) {
    (|p| >= 8 && p[0] == 0) || (|p| >= 12 && p[0] == 1)
  }

  ghost predicate FragmentBox(t: Mp4, duration: nat) {
    t.typ == Ascii("mehd") && exists v, flags, rest ::
      |flags| == 3 && duration <= UnknownDuration(v) && Body(t) == EncodeFragmentHeader(v, flags, duration) + rest
  }

  ghost predicate NoFragment(ts: seq<Mp4>) {
    forall j :: 0 <= j < |ts| && ts[j].typ == Ascii("mehd") ==> !ReadableFragment(Body(ts[j]))
  }

  /** Units of the last readable movie header, or of the fragment header where the movie header has none. */
  ghost predicate ReportsDuration(movie: seq<Mp4>, duration: Option<(nat, nat)>) {
    var fragments := Inside(movie, Ascii("mvex"));
    && (forall timescale: nat, d: nat :: LastHeader(movie, timescale, d) ==>
          if timescale == 0 then duration == None
          else
            && duration.Some? && duration.value.1 == timescale
            && if d > 0 || NoFragment(fragments) then duration.value.0 == d else LastFragment(fragments, duration.value.0))
    && ((forall j :: 0 <= j < |movie| && movie[j].typ == Ascii("mvhd") ==> !Readable(Body(movie[j]))) ==> duration == None)
  }

  function HeaderOf(t: Mp4): Option<(nat, nat)> {
    if t.typ == MVHD then MovieHeader(Take(Body(t), 32)) else None
  }

  function FragmentOf(t: Mp4): Option<nat> {
    if t.typ == MEHD then FragmentDuration(Take(Body(t), 12)) else None
  }

  lemma {:induction false} HeadersPicked(ts: seq<Mp4>)
    ensures Headers(ts) == Picked(ts, HeaderOf)
  {
    hide Body, MovieHeader, Take;
    if ts != [] {
      HeadersPicked(ts[1..]);
    }
  }

  lemma {:induction false} DurationsPicked(ts: seq<Mp4>)
    ensures Durations(ts) == Picked(ts, FragmentOf)
  {
    hide Body, FragmentDuration, Take;
    if ts != [] {
      DurationsPicked(ts[1..]);
    }
  }

  lemma {:induction false} AllDurationsPicked(ts: seq<Mp4>)
    ensures AllDurations(ts) == Picked(Inside(ts, MVEX), FragmentOf)
  {
    hide Durations, FragmentOf, Kids;
    if ts != [] {
      AllDurationsPicked(ts[1..]);
      DurationsPicked(Kids(ts[0]));
      PickedAppend(if ts[0].typ == MVEX then Kids(ts[0]) else [], Inside(ts[1..], MVEX), FragmentOf);
    }
  }

  lemma UnknownIsLargest(v: Version)
    ensures Pow256(TimeLength(v)) == UnknownDuration(v) + 1 && Pow256(4) == 0x1_0000_0000
  {
    PowTable();
  }

  lemma HeaderBoxReads(t: Mp4, timescale: nat, duration: nat)
    requires HeaderBox(t, timescale, duration) && MVHD == Ascii("mvhd")
    ensures HeaderOf(t) == Some((timescale, duration))
  {
    hide Body, Ascii, EncodeMovieHeader, MovieHeader, Take, Pow256, UnknownDuration, TimeLength;
    var v, flags, created: nat, modified: nat, d: nat, rest :|
      && |flags| == 3 && timescale < 0x1_0000_0000 && d <= UnknownDuration(v)
      && duration == (if d == UnknownDuration(v) then 0 else d)
      && Body(t) == EncodeMovieHeader(v, flags, created, modified, timescale, d) + rest;
    UnknownIsLargest(v);
    MovieHeaderReads(v, flags, created, modified, timescale, d, rest);
  }

  lemma ReadableHeaders(t: Mp4)
    requires MVHD == Ascii("mvhd")
    ensures t.typ == Ascii("mvhd") && Readable(Body(t)) <==> HeaderOf(t).Some?
  {
    hide Body, Ascii, BigEndian;
  }

  lemma FragmentReadsBox(t: Mp4)
    requires FragmentOf(t).Some? && MEHD == Ascii("mehd")
    ensures FragmentBox(t, FragmentOf(t).value)
  {
    hide Body, Ascii, BigEndian, ToBigEndian, Pow256;
    var p := Body(t);
    var v := if p[0] == 0 then V0 else V1;
    var n := TimeLength(v);
    var flags, field, rest := p[1..4], p[4..4 + n], p[4 + n..];
    assert Take(p, 12)[4..4 + n] == field;
    UnknownIsLargest(v);
    BigEndianBound(field);
    ToBigEndianRoundTrip(field);
    assert p == EncodeFragmentHeader(v, flags, BigEndian(field)) + rest;
  }

  lemma ReadableFragments(t: Mp4)
    requires MEHD == Ascii("mehd")
    ensures t.typ == Ascii("mehd") && ReadableFragment(Body(t)) <==> FragmentOf(t).Some?
  {
    hide Body, Ascii, BigEndian;
  }

  lemma LastHeaderIs(movie: seq<Mp4>, timescale: nat, duration: nat)
    requires LastHeader(movie, timescale, duration)
    ensures LastOf(Headers(movie)) == Some((timescale, duration))
  {
    BoxTypes();
    hide Ascii, Body, HeaderBox, Readable, Headers, HeaderOf, Picked;
    var i :| 0 <= i < |movie| && HeaderBox(movie[i], timescale, duration)
             && forall j :: i < j < |movie| && movie[j].typ == MVHD ==> !Readable(Body(movie[j]));
    HeaderBoxReads(movie[i], timescale, duration);
    forall j | i < j < |movie|
      ensures HeaderOf(movie[j]) == None
    {
      ReadableHeaders(movie[j]);
    }
    HeadersPicked(movie);
    LastPicked(movie, HeaderOf, (timescale, duration));
  }

  lemma NoHeaderIs(movie: seq<Mp4>)
    requires forall j :: 0 <= j < |movie| && movie[j].typ == Ascii("mvhd") ==> !Readable(Body(movie[j]))
    ensures Headers(movie) == []
  {
    BoxTypes();
    hide Ascii, Body, Readable, Headers, HeaderOf, Picked;
    forall j | 0 <= j < |movie|
      ensures HeaderOf(movie[j]) == None
    {
      ReadableHeaders(movie[j]);
    }
    HeadersPicked(movie);
    NothingPicked(movie, HeaderOf);
  }

  lemma FragmentIs(movie: seq<Mp4>)
    ensures var ts, d := Inside(movie, Ascii("mvex")), LastOf(AllDurations(movie));
            (NoFragment(ts) <==> d == None) && (d.Some? ==> LastFragment(ts, d.value))
  {
    BoxTypes();
    hide Ascii, Body, FragmentBox, ReadableFragment, AllDurations, FragmentOf, Picked, Inside;
    var ts, d := Inside(movie, MVEX), LastOf(AllDurations(movie));
    AllDurationsPicked(movie);
    NothingPicked(ts, FragmentOf);
    forall j | 0 <= j < |ts|
      ensures ts[j].typ == MEHD && ReadableFragment(Body(ts[j])) <==> FragmentOf(ts[j]).Some?
    {
      ReadableFragments(ts[j]);
    }
    if d.Some? {
      LastPicked(ts, FragmentOf, d.value);
      var i :| 0 <= i < |ts| && FragmentOf(ts[i]) == Some(d.value) && forall j :: i < j < |ts| ==> FragmentOf(ts[j]) == None;
      FragmentReadsBox(ts[i]);
    }
  }

  lemma DurationReport(movie: seq<Mp4>, duration: Option<(nat, nat)>)
    requires var h, d := LastOf(Headers(movie)), LastOf(AllDurations(movie));
             duration == if h.None? || h.value.0 == 0 then None
                         else Some((if h.value.1 == 0 && d.Some? then d.value else h.value.1, h.value.0))
    ensures ReportsDuration(movie, duration)
  {
    hide Ascii, Body, Headers, AllDurations, Inside, LastHeader, NoFragment, LastFragment, Readable;
    FragmentIs(movie);
    forall timescale: nat, d: nat | LastHeader(movie, timescale, d)
      ensures LastOf(Headers(movie)) == Some((timescale, d))
    {
      LastHeaderIs(movie, timescale, d);
    }
    if forall j :: 0 <= j < |movie| && movie[j].typ == Ascii("mvhd") ==> !Readable(Body(movie[j])) {
      NoHeaderIs(movie);
    }
  }

  lemma {:induction false} FirstNamed(ts: seq<Mp4>, typ: seq<byte>, i: nat)
    requires i < |ts| && ts[i].typ == typ && forall j :: 0 <= j < i ==> ts[j].typ != typ
    ensures Named(ts, typ) != [] && Named(ts, typ)[0] == ts[i]
    decreases i
  {
    if i > 0 {
      assert forall j :: 0 <= j < |ts| - 1 ==> ts[1..][j] == ts[j + 1];
      FirstNamed(ts[1..], typ, i - 1);
    }
  }

  /** Probing a well-formed file reports the dimensions and the duration of its first moov. */
  lemma ReportOfEncode(ts: seq<Mp4>, i: nat)
    requires ValidFile(ts) && |Encode(ts)| <= MAX_INT64
    requires i < |ts| && ts[i].typ == Ascii("moov") && forall j :: 0 <= j < i ==> ts[j].typ != Ascii("moov")
    ensures var info := Probe(Encode(ts), |Encode(ts)|);
            ReportsSize(Kids(ts[i]), info.width, info.height) && ReportsDuration(Kids(ts[i]), info.duration)
  {
    BoxTypes();
    hide Ascii, ReportsSize, ReportsDuration, Headers, AllDurations, Sizes, ValidFile, Encode, Probe, Named, Kids;
    ProbeOfEncode(ts);
    FirstNamed(ts, MOOV, i);
    SizesReport(Kids(ts[i]), Meaning(ts).width, Meaning(ts).height);
    DurationReport(Kids(ts[i]), Meaning(ts).duration);
  }

  /** Without a moov there is nothing to report. */
  lemma NothingWithoutMovie(ts: seq<Mp4>)
    requires ValidFile(ts) && |Encode(ts)| <= MAX_INT64 && forall j :: 0 <= j < |ts| ==> ts[j].typ != Ascii("moov")
    ensures Probe(Encode(ts), |Encode(ts)|) == Info(None, 0, 0)
  {
    BoxTypes();
    hide Ascii, ValidFile, Encode, Probe, Named, Headers, AllDurations, Sizes;
    ProbeOfEncode(ts);
    NoneNamed(ts, MOOV);
  }

  /** A movie with one track, a video track: its width is the width, its height the height, and none counts without the other. */
  lemma OneTrackIsReported(ts: seq<Mp4>, i: nat, k: nat, w: nat, h: nat)
    requires ValidFile(ts) && |Encode(ts)| <= MAX_INT64
    requires i < |ts| && ts[i].typ == Ascii("moov") && forall j :: 0 <= j < i ==> ts[j].typ != Ascii("moov")
    requires var movie := Kids(ts[i]);
             && k < |movie| && movie[k].typ == Ascii("trak") && ShowsSize(Kids(movie[k]), w, h)
             && forall j :: 0 <= j < |movie| && j != k ==> movie[j].typ != Ascii("trak")
    ensures var info := Probe(Encode(ts), |Encode(ts)|);
            if w > 0 && h > 0 then info.width == w && info.height == h else info.width == info.height == 0
  {
    hide Ascii, ReportsDuration, ShowsSize, ValidFile, Encode, Probe, Kids;
    ReportOfEncode(ts, i);
    var movie := Kids(ts[i]);
    OneSize(Kids(movie[k]), w, h);
    if w > 0 && h > 0 {
      assert FirstCandidate(movie, k);
    }
  }

  /** A track shows at most one size. */
  lemma OneSize(track: seq<Mp4>, w: nat, h: nat)
    requires ShowsSize(track, w, h)
    ensures w == 0 || h == 0 ==> forall a: nat, b: nat :: ShowsSize(track, a, b) ==> a == 0 || b == 0
  {
    hide ShowsSize, SizeOfTrack;
    ShownIsSize(track, w, h);
    forall a: nat, b: nat | ShowsSize(track, a, b)
      ensures w == 0 || h == 0 ==> a == 0 || b == 0
    {
      ShownIsSize(track, a, b);
    }
  }
}
