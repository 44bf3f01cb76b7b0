/**
 * What the Matroska probe depends on. For arbitrary bytes it depends only on the
 * spans listed here: headers, the numbers read, and what is searched for the end of
 * an unknown size, up to the end of the ID found. MkvNesting says when that leaves out
 * every payload passed over.
 */
module MkvIndependence {
  import opened Bytes
  import opened Vints
  import opened MkvSearch
  import opened MkvSpec

  datatype Span = Span(lo: int, hi: int)

  /** Two files agree on every byte of a span. */
  ghost predicate Same(f: seq<byte>, g: seq<byte>, s: Span)
    requires |f| == |g|
  {
    forall p :: s.lo <= p < s.hi && 0 <= p < |f| ==> f[p] == g[p]
  }

  ghost predicate Agree(f: seq<byte>, g: seq<byte>, spans: seq<Span>)
    requires |f| == |g|
  {
    forall s :: s in spans ==> Same(f, g, s)
  }

  lemma AgreeSplit(f: seq<byte>, g: seq<byte>, a: seq<Span>, b: seq<Span>)
    requires |f| == |g|
    ensures Agree(f, g, a + b) <==> Agree(f, g, a) && Agree(f, g, b)
  {
    hide Same;
    forall s | s in a || s in b
      ensures s in a + b
    {
    }
  }

  /** A header's own bytes; when one of its two integers cannot be read, no more than that one's first byte. */
  function HeaderSpan(file: seq<byte>, limit: nat, off: nat): Span
    requires Bounded(file, limit)
  {
    match ReadVintAt(file, limit, off)
    case Err(_) => Span(off, Min(off + 1, limit))
    case Ok(id) =>
      match ReadVintAt(file, limit, off + id.length)
      case Err(_) => Span(off, Min(off + id.length + 1, limit))
      case Ok(size) => Span(off, off + id.length + size.length)
  }

  /** The end of an ID that starts at off, if one does. */
  function IdEnd(file: seq<byte>, limit: nat, off: nat): (e: nat)
    requires Bounded(file, limit)
    ensures off <= e
  {
    match ReadVintAt(file, limit, off) case Ok(id) => off + id.length case Err(_) => off
  }

  /** What is searched for the end of an unknown size: up to the ID found, or as far as the search goes. */
  function SearchSpan(file: seq<byte>, limit: nat, from: nat, siblings: seq<nat>): Span
    requires Bounded(file, limit) && from <= limit <= |file|
  {
    var r := FindNext(file, limit, from, siblings);
    Span(from, if r < limit then IdEnd(file, limit, r) else Reach(limit, from, Patterns(siblings)))
  }

  /** What reading one element looks at: its header, and what an unknown size makes it search. */
  function ElementSpans(file: seq<byte>, limit: nat, off: nat, siblings: seq<nat>): seq<Span>
    requires Bounded(file, limit)
  {
    [HeaderSpan(file, limit, off)]
    + match ReadHeader(file, limit, off)
      case Err(_) => []
      case Ok(h) => if h.size.unknown && h.id != ID_SEGMENT then [SearchSpan(file, limit, h.end, siblings)] else []
  }

  function UintSpan(el: Element): seq<Span> {
    if el.start < el.end <= el.start + 8 then [Span(el.start, el.end)] else []
  }

  function FloatSpan(el: Element): seq<Span> {
    if el.end == el.start + 4 || el.end == el.start + 8 then [Span(el.start, el.end)] else []
  }

  function VideoSpans(file: seq<byte>, limit: nat, off: nat, end: nat): seq<Span>
    requires Bounded(file, limit)
    decreases Left(limit, off)
  {
    if off >= end then []
    else
      ElementSpans(file, limit, off, VIDEO_IDS)
      + match ReadElement(file, limit, off, VIDEO_IDS)
        case Err(_) => []
        case Ok(el) =>
          (if el.id == ID_PIXEL_WIDTH || el.id == ID_PIXEL_HEIGHT then UintSpan(el) else [])
          + VideoSpans(file, limit, el.end, end)
  }

  function EntrySpans(file: seq<byte>, limit: nat, off: nat, end: nat): seq<Span>
    requires Bounded(file, limit)
    decreases Left(limit, off)
  {
    if off >= end then []
    else
      ElementSpans(file, limit, off, ENTRY_IDS)
      + match ReadElement(file, limit, off, ENTRY_IDS)
        case Err(_) => []
        case Ok(el) =>
          (if el.id == ID_TRACK_TYPE then UintSpan(el)
           else if el.id == ID_VIDEO then VideoSpans(file, limit, el.start, el.end)
           else [])
          + EntrySpans(file, limit, el.end, end)
  }

  function TracksSpans(file: seq<byte>, limit: nat, off: nat, end: nat): seq<Span>
    requires Bounded(file, limit)
    decreases Left(limit, off)
  {
    if off >= end then []
    else
      ElementSpans(file, limit, off, TRACK_IDS)
      + match ReadElement(file, limit, off, TRACK_IDS)
        case Err(_) => []
        case Ok(el) =>
          (if el.id == ID_TRACK_ENTRY then EntrySpans(file, limit, el.start, el.end) else [])
          + TracksSpans(file, limit, el.end, end)
  }

  function InfoSpans(file: seq<byte>, limit: nat, off: nat, end: nat): seq<Span>
    requires Bounded(file, limit)
    decreases Left(limit, off)
  {
    if off >= end then []
    else
      ElementSpans(file, limit, off, INFO_IDS)
      + match ReadElement(file, limit, off, INFO_IDS)
        case Err(_) => []
        case Ok(el) =>
          (if el.id == ID_TIMECODE_SCALE then UintSpan(el) else if el.id == ID_DURATION then FloatSpan(el) else [])
          + InfoSpans(file, limit, el.end, end)
  }

  function SegmentChildSpans(file: seq<byte>, limit: nat, el: Element): seq<Span>
    requires Bounded(file, limit)
  {
    if el.id == ID_INFO then InfoSpans(file, limit, el.start, el.end)
    else if el.id == ID_TRACKS then TracksSpans(file, limit, el.start, el.end)
    else []
  }

  function SegmentSpans(file: seq<byte>, limit: nat, off: nat, end: nat, f: Fields): seq<Span>
    requires Bounded(file, limit)
    decreases Left(limit, off)
  {
    if off >= end then []
    else
      ElementSpans(file, limit, off, SEGMENT_IDS)
      + match ReadElement(file, limit, off, SEGMENT_IDS)
        case Err(_) => []
        case Ok(el) =>
          var g := SegmentStep(file, limit, el, f);
          SegmentChildSpans(file, limit, el)
          + if g.Done() then [] else SegmentSpans(file, limit, el.end, end, g)
  }

  function FileSpans(file: seq<byte>, limit: nat, off: nat, f: Fields): seq<Span>
    requires Bounded(file, limit)
    decreases Left(limit, off)
  {
    if off >= limit then []
    else
      ElementSpans(file, limit, off, SEGMENT_IDS)
      + match ReadElement(file, limit, off, SEGMENT_IDS)
        case Err(_) => []
        case Ok(el) =>
          var g := if el.id == ID_SEGMENT then SegmentWalk(file, limit, el.start, el.end, f) else f;
          (if el.id == ID_SEGMENT then SegmentSpans(file, limit, el.start, el.end, f) else [])
          + if g.Done() then [] else FileSpans(file, limit, el.end, g)
  }

  lemma VintAgrees(f: seq<byte>, g: seq<byte>, limit: nat, off: nat, hi: nat)
    requires |f| == |g| && Bounded(f, limit) && Bounded(g, limit) && Same(f, g, Span(off, hi))
    requires match ReadVintAt(f, limit, off) case Ok(v) => off + v.length <= hi case Err(_) => off < limit ==> off < hi
    ensures ReadVintAt(f, limit, off) == ReadVintAt(g, limit, off)
  {
    hide Parse;
    if off < limit && off < |f| {
      if off < hi {
        assert f[off] == g[off];
      }
      if f[off] != 0 {
        var n := LeadingLength(f[off]);
        if off + n <= limit {
          ParseFailsExactly(f[off..off + n]);
          assert f[off..off + n] == g[off..off + n];
        }
      }
    }
  }

  lemma HeaderAgrees(f: seq<byte>, g: seq<byte>, limit: nat, off: nat)
    requires |f| == |g| && Bounded(f, limit) && Bounded(g, limit)
    requires Same(f, g, HeaderSpan(f, limit, off))
    ensures ReadHeader(f, limit, off) == ReadHeader(g, limit, off) && HeaderSpan(f, limit, off) == HeaderSpan(g, limit, off)
    ensures IdEnd(f, limit, off) == IdEnd(g, limit, off)
  {
    hide ReadVintAt;
    var s := HeaderSpan(f, limit, off);
    VintAgrees(f, g, limit, off, s.hi);
    if ReadVintAt(f, limit, off).Ok? {
      var m := ReadVintAt(f, limit, off).value.length;
      assert Same(f, g, Span(off + m, s.hi));
      VintAgrees(f, g, limit, off + m, s.hi);
    }
  }

  lemma FitsAgrees(f: seq<byte>, g: seq<byte>, from: nat, reach: nat, k: nat, ps: seq<seq<byte>>)
    requires |f| == |g| && reach <= |f| && from <= k && Same(f, g, Span(from, reach))
    ensures Fits(f, reach, k, ps) <==> Fits(g, reach, k, ps)
  {
    forall q | q in ps
      ensures MatchAt(f, reach, k, q) <==> MatchAt(g, reach, k, q)
    {
      if k + |q| <= reach {
        assert f[k..k + |q|] == g[k..k + |q|];
      }
    }
  }

  /** A search that finds nothing depends on all it looks at. */
  lemma MissAgrees(f: seq<byte>, g: seq<byte>, limit: nat, from: nat, ps: seq<seq<byte>>, reach: nat)
    requires |f| == |g| && from <= limit <= |f| && ps != [] && NoneInside(ps)
    requires forall q :: q in ps ==> 1 <= |q| <= 8
    requires reach == Reach(limit, from, ps) && Same(f, g, Span(from, reach)) && FindPattern(f, limit, from, ps) == limit
    ensures FindPattern(g, limit, from, ps) == limit
  {
    hide FindPattern, Fits, NoneInside, Reach, Same;
    FindPatternMeaning(f, limit, from, ps, reach);
    FindPatternMeaning(g, limit, from, ps, reach);
    forall k | from <= k < limit
      ensures Fits(f, reach, k, ps) <==> Fits(g, reach, k, ps)
    {
      FitsAgrees(f, g, from, reach, k, ps);
    }
  }

  /** What does not start before a hit in one file does not start there in the other. */
  lemma EarlierMiss(f: seq<byte>, g: seq<byte>, from: nat, ps: seq<seq<byte>>, reach: nat, a: nat, q: seq<byte>,
                    k: nat, p: seq<byte>)
    requires |f| == |g| && reach <= |f| && NoneInside(ps) && p in ps && q in ps && q != []
    requires from <= k < a && MatchAt(g, reach, a, q) && Same(f, g, Span(from, a + |q|)) && !MatchAt(f, reach, k, p)
    ensures !MatchAt(g, reach, k, p)
  {
    hide NoneInside;
    if k + |p| <= a + |q| {
      if k + |p| <= reach {
        SamePart(f, g, from, a + |q|, k, k + |p|);
      }
    } else if MatchAt(g, reach, k, p) {
      HitBeyond(g, k, p, a, q, ps);
    }
  }

  /** A search that finds an ID depends on nothing behind it: what began earlier would have the ID inside. */
  lemma HitAgrees(f: seq<byte>, g: seq<byte>, limit: nat, from: nat, ps: seq<seq<byte>>, reach: nat, q: seq<byte>)
    requires |f| == |g| && from <= limit <= |f| && ps != [] && NoneInside(ps)
    requires forall p :: p in ps ==> 1 <= |p| <= 8
    requires reach == Reach(limit, from, ps) && FindPattern(f, limit, from, ps) < limit && q in ps
    requires var a := FindPattern(f, limit, from, ps);
             MatchAt(f, reach, a, q) && Same(f, g, Span(from, a + |q|))
    ensures FindPattern(g, limit, from, ps) == FindPattern(f, limit, from, ps)
  {
    hide FindPattern, NoneInside, Reach;
    FindPatternMeaning(f, limit, from, ps, reach);
    var a := FindPattern(f, limit, from, ps);
    assert f[a..a + |q|] == g[a..a + |q|];
    assert MatchAt(g, reach, a, q);
    forall k | from <= k < a
      ensures !Fits(g, reach, k, ps)
    {
      assert !Fits(f, reach, k, ps);
      forall p | p in ps
        ensures !MatchAt(g, reach, k, p)
      {
        EarlierMiss(f, g, from, ps, reach, a, q, k, p);
      }
    }
    HitIsResult(g, limit, from, ps, reach, a);
  }

  /** An ID that was found is read back as one. */
  lemma FoundIdEnd(file: seq<byte>, limit: nat, reach: nat, off: nat, q: seq<byte>)
    requires Bounded(file, limit) && reach <= limit <= |file| && MatchAt(file, reach, off, q) && SelfDelimiting(q)
    ensures IdEnd(file, limit, off) == off + |q|
  {
    assert file[off] == file[off..off + |q|][0];
    ParseFailsExactly(file[off..off + |q|]);
  }

  /** The end of the ID that a search found. */
  lemma HitEnds(file: seq<byte>, limit: nat, from: nat, siblings: seq<nat>) returns (q: seq<byte>)
    requires Bounded(file, limit) && from <= limit <= |file| && SiblingTable(siblings)
    requires FindNext(file, limit, from, siblings) < limit
    ensures var a, ps := FindNext(file, limit, from, siblings), Patterns(siblings);
            && q in ps && MatchAt(file, Reach(limit, from, ps), a, q) && SelfDelimiting(q)
            && IdEnd(file, limit, a) == a + |q|
  {
    hide FindPattern, NoneInside, Reach, Patterns, SelfDelimiting, SiblingTable, IdEnd;
    var ps := Patterns(siblings);
    SiblingTablesSafe(siblings);
    SiblingTableIds(siblings);
    PatternsShort(siblings);
    ReachBounds(limit, from, ps);
    var a, reach := FindPattern(file, limit, from, ps), Reach(limit, from, ps);
    FindPatternMeaning(file, limit, from, ps, reach);
    q :| q in ps && MatchAt(file, reach, a, q);
    FoundIdEnd(file, limit, reach, a, q);
  }

  lemma SearchAgrees(f: seq<byte>, g: seq<byte>, limit: nat, from: nat, siblings: seq<nat>)
    requires |f| == |g| && Bounded(f, limit) && Bounded(g, limit) && from <= limit <= |f| && SiblingTable(siblings)
    requires Same(f, g, SearchSpan(f, limit, from, siblings))
    ensures FindNext(f, limit, from, siblings) == FindNext(g, limit, from, siblings)
    ensures SearchSpan(f, limit, from, siblings) == SearchSpan(g, limit, from, siblings)
  {
    hide FindPattern, Reach, Patterns, Same, SiblingTable, IdEnd;
    if FindNext(f, limit, from, siblings) < limit {
      FoundAgrees(f, g, limit, from, siblings);
    } else {
      NotFoundAgrees(f, g, limit, from, siblings);
    }
  }

  lemma FoundAgrees(f: seq<byte>, g: seq<byte>, limit: nat, from: nat, siblings: seq<nat>)
    requires |f| == |g| && Bounded(f, limit) && Bounded(g, limit) && from <= limit <= |f| && SiblingTable(siblings)
    requires FindNext(f, limit, from, siblings) < limit
    requires Same(f, g, Span(from, IdEnd(f, limit, FindNext(f, limit, from, siblings))))
    ensures FindNext(g, limit, from, siblings) == FindNext(f, limit, from, siblings)
    ensures var a := FindNext(f, limit, from, siblings);
            IdEnd(f, limit, a) == IdEnd(g, limit, a)
  {
    hide *;
    var ps := Patterns(siblings);
    var q := HitEnds(f, limit, from, siblings);
    SiblingTablesSafe(siblings);
    SiblingTableIds(siblings);
    PatternsShort(siblings);
    ReachBounds(limit, from, ps);
    IdAgrees(f, g, limit, from, siblings, ps, Reach(limit, from, ps), q);
  }

  lemma IdAgrees(f: seq<byte>, g: seq<byte>, limit: nat, from: nat, siblings: seq<nat>, ps: seq<seq<byte>>, reach: nat,
                 q: seq<byte>)
    requires |f| == |g| && Bounded(f, limit) && Bounded(g, limit) && from <= limit <= |f| && siblings != []
    requires ps == Patterns(siblings) && reach == Reach(limit, from, ps) && NoneInside(ps)
    requires (forall p :: p in ps ==> 1 <= |p| <= 8) && q in ps && SelfDelimiting(q)
    requires var a := FindNext(f, limit, from, siblings);
             && a < limit && MatchAt(f, reach, a, q) && IdEnd(f, limit, a) == a + |q| && Same(f, g, Span(from, a + |q|))
    ensures FindNext(g, limit, from, siblings) == FindNext(f, limit, from, siblings)
    ensures var a := FindNext(f, limit, from, siblings);
            IdEnd(f, limit, a) == IdEnd(g, limit, a)
  {
    hide FindPattern, NoneInside, Reach, Patterns, SelfDelimiting, Same, MatchAt, IdEnd, EncodeId;
    var a := FindNext(f, limit, from, siblings);
    HitAgrees(f, g, limit, from, ps, reach, q);
    MatchMoves(f, g, from, reach, a, q);
    FoundIdEnd(g, limit, reach, a, q);
  }

  lemma NotFoundAgrees(f: seq<byte>, g: seq<byte>, limit: nat, from: nat, siblings: seq<nat>)
    requires |f| == |g| && from <= limit <= |f| && SiblingTable(siblings)
    requires FindNext(f, limit, from, siblings) == limit
    requires Same(f, g, Span(from, Reach(limit, from, Patterns(siblings))))
    ensures FindNext(g, limit, from, siblings) == limit
  {
    hide FindPattern, NoneInside, Reach, Patterns, SelfDelimiting, Same, SiblingTable;
    var ps := Patterns(siblings);
    SiblingTablesSafe(siblings);
    SiblingTableIds(siblings);
    PatternsShort(siblings);
    ReachBounds(limit, from, ps);
    MissAgrees(f, g, limit, from, ps, Reach(limit, from, ps));
  }

  lemma MatchMoves(f: seq<byte>, g: seq<byte>, from: nat, reach: nat, a: nat, q: seq<byte>)
    requires |f| == |g| && reach <= |f| && from <= a && MatchAt(f, reach, a, q) && Same(f, g, Span(from, a + |q|))
    ensures MatchAt(g, reach, a, q)
  {
    SamePart(f, g, from, a + |q|, a, a + |q|);
  }

  lemma SamePart(f: seq<byte>, g: seq<byte>, from: nat, top: nat, lo: nat, hi: nat)
    requires |f| == |g| && from <= lo <= hi <= |f| && Same(f, g, Span(from, top)) && hi <= top
    ensures f[lo..hi] == g[lo..hi]
  {
  }

  lemma ReachBounds(limit: nat, from: nat, ps: seq<seq<byte>>)
    requires from <= limit && LongestOf(ps) <= 4
    ensures 0 <= Reach(limit, from, ps) <= limit
  {
  }

  lemma ElementAgrees(f: seq<byte>, g: seq<byte>, limit: nat, off: nat, siblings: seq<nat>)
    requires |f| == |g| && Bounded(f, limit) && Bounded(g, limit) && SiblingTable(siblings)
    requires Agree(f, g, ElementSpans(f, limit, off, siblings))
    ensures ReadElement(f, limit, off, siblings) == ReadElement(g, limit, off, siblings)
    ensures ElementSpans(f, limit, off, siblings) == ElementSpans(g, limit, off, siblings)
  {
    hide ReadHeader, HeaderSpan, SearchSpan, FindPattern, Same, Patterns, SiblingTable;
    assert HeaderSpan(f, limit, off) in ElementSpans(f, limit, off, siblings);
    HeaderAgrees(f, g, limit, off);
    match ReadHeader(f, limit, off)
    case Err(_) =>
    case Ok(h) =>
      if h.size.unknown && h.id != ID_SEGMENT {
        assert SearchSpan(f, limit, h.end, siblings) in ElementSpans(f, limit, off, siblings);
        SearchAgrees(f, g, limit, h.end, siblings);
      }
  }

  lemma PayloadAgrees(f: seq<byte>, g: seq<byte>, el: Element)
    requires |f| == |g| && el.start <= el.end <= |f|
    ensures Agree(f, g, UintSpan(el)) ==> UintOf(f[el.start..el.end]) == UintOf(g[el.start..el.end])
    ensures Agree(f, g, FloatSpan(el)) ==> FloatOf(f[el.start..el.end]) == FloatOf(g[el.start..el.end])
  {
    hide BigEndian;
    var a, b := f[el.start..el.end], g[el.start..el.end];
    if Same(f, g, Span(el.start, el.end)) {
      assert a == b;
    } else {
      assert Agree(f, g, UintSpan(el)) ==> !(0 < |a| <= 8) by {
        if UintSpan(el) != [] {
          assert UintSpan(el)[0] == Span(el.start, el.end);
        }
      }
      assert Agree(f, g, FloatSpan(el)) ==> |a| != 4 && |a| != 8 by {
        if FloatSpan(el) != [] {
          assert FloatSpan(el)[0] == Span(el.start, el.end);
        }
      }
    }
  }

  lemma {:induction false} VideoAgrees(f: seq<byte>, g: seq<byte>, limit: nat, off: nat, end: nat, dims: (nat, nat))
    requires |f| == |g| && Bounded(f, limit) && Bounded(g, limit)
    requires Agree(f, g, VideoSpans(f, limit, off, end))
    ensures VideoWalk(f, limit, off, end, dims) == VideoWalk(g, limit, off, end, dims)
    ensures VideoSpans(f, limit, off, end) == VideoSpans(g, limit, off, end)
    decreases Left(limit, off)
  {
    hide Agree, ElementSpans, UintSpan, ReadElement, UintOf;
    if off < end {
      var here := ElementSpans(f, limit, off, VIDEO_IDS);
      var rest := VideoSpans(f, limit, off, end)[|here|..];
      assert VideoSpans(f, limit, off, end) == here + rest;
      AgreeSplit(f, g, here, rest);
      ElementAgrees(f, g, limit, off, VIDEO_IDS);
      var r := ReadElement(f, limit, off, VIDEO_IDS);
      if r.Ok? {
        var el := r.value;
        var own := if el.id == ID_PIXEL_WIDTH || el.id == ID_PIXEL_HEIGHT then UintSpan(el) else [];
        assert rest == own + VideoSpans(f, limit, el.end, end);
        AgreeSplit(f, g, own, VideoSpans(f, limit, el.end, end));
        PayloadAgrees(f, g, el);
        VideoAgrees(f, g, limit, el.end, end, VideoStep(el.id, f[el.start..el.end], dims));
      }
    }
  }

  lemma {:induction false} InfoAgrees(f: seq<byte>, g: seq<byte>, limit: nat, off: nat, end: nat, st: Fields)
    requires |f| == |g| && Bounded(f, limit) && Bounded(g, limit)
    requires Agree(f, g, InfoSpans(f, limit, off, end))
    ensures InfoWalk(f, limit, off, end, st) == InfoWalk(g, limit, off, end, st)
    ensures InfoSpans(f, limit, off, end) == InfoSpans(g, limit, off, end)
    decreases Left(limit, off)
  {
    hide Agree, ElementSpans, UintSpan, FloatSpan, ReadElement, UintOf, FloatOf;
    if off < end {
      var here := ElementSpans(f, limit, off, INFO_IDS);
      var rest := InfoSpans(f, limit, off, end)[|here|..];
      assert InfoSpans(f, limit, off, end) == here + rest;
      AgreeSplit(f, g, here, rest);
      ElementAgrees(f, g, limit, off, INFO_IDS);
      var r := ReadElement(f, limit, off, INFO_IDS);
      if r.Ok? {
        var el := r.value;
        var own := if el.id == ID_TIMECODE_SCALE then UintSpan(el)
                   else if el.id == ID_DURATION then FloatSpan(el) else [];
        assert rest == own + InfoSpans(f, limit, el.end, end);
        AgreeSplit(f, g, own, InfoSpans(f, limit, el.end, end));
        PayloadAgrees(f, g, el);
        InfoAgrees(f, g, limit, el.end, end, InfoStep(el.id, f[el.start..el.end], st));
      }
    }
  }

  lemma {:induction false} EntryAgrees(f: seq<byte>, g: seq<byte>, limit: nat, off: nat, end: nat, st: Entry)
    requires |f| == |g| && Bounded(f, limit) && Bounded(g, limit)
    requires Agree(f, g, EntrySpans(f, limit, off, end))
    ensures EntryWalk(f, limit, off, end, st) == EntryWalk(g, limit, off, end, st)
    ensures EntrySpans(f, limit, off, end) == EntrySpans(g, limit, off, end)
    decreases Left(limit, off)
  {
    hide Agree, ElementSpans, UintSpan, ReadElement, UintOf, VideoWalk, VideoSpans;
    if off < end {
      var here := ElementSpans(f, limit, off, ENTRY_IDS);
      var rest := EntrySpans(f, limit, off, end)[|here|..];
      assert EntrySpans(f, limit, off, end) == here + rest;
      AgreeSplit(f, g, here, rest);
      ElementAgrees(f, g, limit, off, ENTRY_IDS);
      var r := ReadElement(f, limit, off, ENTRY_IDS);
      if r.Ok? {
        var el := r.value;
        var own := if el.id == ID_TRACK_TYPE then UintSpan(el)
                   else if el.id == ID_VIDEO then VideoSpans(f, limit, el.start, el.end) else [];
        assert rest == own + EntrySpans(f, limit, el.end, end);
        AgreeSplit(f, g, own, EntrySpans(f, limit, el.end, end));
        PayloadAgrees(f, g, el);
        if el.id == ID_VIDEO {
          VideoAgrees(f, g, limit, el.start, el.end, (0, 0));
        }
        EntryAgrees(f, g, limit, el.end, end, EntryStep(f, limit, el, st));
      }
    }
  }

  lemma {:induction false} TracksAgrees(
    f: seq<byte>, g: seq<byte>, limit: nat, off: nat, end: nat, video: Option<(nat, nat)>)
    requires |f| == |g| && Bounded(f, limit) && Bounded(g, limit)
    requires Agree(f, g, TracksSpans(f, limit, off, end))
    ensures TracksWalk(f, limit, off, end, video) == TracksWalk(g, limit, off, end, video)
    ensures TracksSpans(f, limit, off, end) == TracksSpans(g, limit, off, end)
    decreases Left(limit, off)
  {
    hide Agree, ElementSpans, ReadElement, EntryWalk, EntrySpans, Keep;
    if off < end {
      var here := ElementSpans(f, limit, off, TRACK_IDS);
      var rest := TracksSpans(f, limit, off, end)[|here|..];
      assert TracksSpans(f, limit, off, end) == here + rest;
      AgreeSplit(f, g, here, rest);
      ElementAgrees(f, g, limit, off, TRACK_IDS);
      var r := ReadElement(f, limit, off, TRACK_IDS);
      if r.Ok? {
        var el := r.value;
        var own := if el.id == ID_TRACK_ENTRY then EntrySpans(f, limit, el.start, el.end) else [];
        assert rest == own + TracksSpans(f, limit, el.end, end);
        AgreeSplit(f, g, own, TracksSpans(f, limit, el.end, end));
        if el.id == ID_TRACK_ENTRY {
          EntryAgrees(f, g, limit, el.start, el.end, NO_ENTRY);
        }
        TracksAgrees(f, g, limit, el.end, end,
          if el.id == ID_TRACK_ENTRY then Keep(video, EntryWalk(f, limit, el.start, el.end, NO_ENTRY)) else video);
      }
    }
  }

  lemma SegmentChildAgrees(f: seq<byte>, g: seq<byte>, limit: nat, el: Element, st: Fields)
    requires |f| == |g| && Bounded(f, limit) && Bounded(g, limit)
    requires Agree(f, g, SegmentChildSpans(f, limit, el))
    ensures SegmentStep(f, limit, el, st) == SegmentStep(g, limit, el, st)
    ensures SegmentChildSpans(f, limit, el) == SegmentChildSpans(g, limit, el)
  {
    hide Agree, InfoWalk, TracksWalk, InfoSpans, TracksSpans;
    if el.id == ID_INFO {
      InfoAgrees(f, g, limit, el.start, el.end, st.(haveInfo := true));
    } else if el.id == ID_TRACKS {
      TracksAgrees(f, g, limit, el.start, el.end, st.video);
    }
  }

  lemma {:induction false} SegmentAgrees(f: seq<byte>, g: seq<byte>, limit: nat, off: nat, end: nat, st: Fields)
    requires |f| == |g| && Bounded(f, limit) && Bounded(g, limit)
    requires Agree(f, g, SegmentSpans(f, limit, off, end, st))
    ensures SegmentWalk(f, limit, off, end, st) == SegmentWalk(g, limit, off, end, st)
    ensures SegmentSpans(f, limit, off, end, st) == SegmentSpans(g, limit, off, end, st)
    decreases Left(limit, off)
  {
    hide Agree, ElementSpans, ReadElement, SegmentStep, SegmentChildSpans;
    if off < end {
      var here := ElementSpans(f, limit, off, SEGMENT_IDS);
      var rest := SegmentSpans(f, limit, off, end, st)[|here|..];
      assert SegmentSpans(f, limit, off, end, st) == here + rest;
      AgreeSplit(f, g, here, rest);
      ElementAgrees(f, g, limit, off, SEGMENT_IDS);
      var r := ReadElement(f, limit, off, SEGMENT_IDS);
      if r.Ok? {
        var el := r.value;
        var next := SegmentStep(f, limit, el, st);
        var own := SegmentChildSpans(f, limit, el);
        var more := if next.Done() then [] else SegmentSpans(f, limit, el.end, end, next);
        assert rest == own + more;
        AgreeSplit(f, g, own, more);
        SegmentChildAgrees(f, g, limit, el, st);
        if !next.Done() {
          SegmentAgrees(f, g, limit, el.end, end, next);
        }
      }
    }
  }

  lemma {:induction false} FileAgrees(f: seq<byte>, g: seq<byte>, limit: nat, off: nat, st: Fields)
    requires |f| == |g| && Bounded(f, limit) && Bounded(g, limit)
    requires Agree(f, g, FileSpans(f, limit, off, st))
    ensures FileWalk(f, limit, off, st) == FileWalk(g, limit, off, st)
    ensures FileSpans(f, limit, off, st) == FileSpans(g, limit, off, st)
    decreases Left(limit, off)
  {
    hide Agree, ElementSpans, ReadElement, SegmentWalk, SegmentSpans;
    if off < limit {
      var here := ElementSpans(f, limit, off, SEGMENT_IDS);
      var rest := FileSpans(f, limit, off, st)[|here|..];
      assert FileSpans(f, limit, off, st) == here + rest;
      AgreeSplit(f, g, here, rest);
      ElementAgrees(f, g, limit, off, SEGMENT_IDS);
      var r := ReadElement(f, limit, off, SEGMENT_IDS);
      if r.Ok? {
        var el := r.value;
        var next := if el.id == ID_SEGMENT then SegmentWalk(f, limit, el.start, el.end, st) else st;
        var own := if el.id == ID_SEGMENT then SegmentSpans(f, limit, el.start, el.end, st) else [];
        var more := if next.Done() then [] else FileSpans(f, limit, el.end, next);
        assert rest == own + more;
        AgreeSplit(f, g, own, more);
        if el.id == ID_SEGMENT {
          SegmentAgrees(f, g, limit, el.start, el.end, st);
        }
        if !next.Done() {
          FileAgrees(f, g, limit, el.end, next);
        }
      }
    }
  }

  /** The bytes a probe of this file can depend on. */
  function ProbeSpans(file: seq<byte>): seq<Span>
    requires |file| + CHUNK <= MAX_INT64
  {
    FileSpans(file, Limit(file), 0, NO_FIELDS)
  }

  /**
   * Payload independence for arbitrary bytes: two files of one length that agree
   * on the headers met, the few numbers read and the ranges searched for an
   * unknown size give the same result, whatever every other byte is.
   */
  lemma ProbeDependsOnSpans(f: seq<byte>, g: seq<byte>)
    requires |f| == |g| && |f| + CHUNK <= MAX_INT64 && Agree(f, g, ProbeSpans(f))
    ensures Probe(f) == Probe(g) && ProbeSpans(f) == ProbeSpans(g)
  {
    hide Agree, FileWalk, FileSpans;
    FileAgrees(f, g, Limit(f), 0, NO_FIELDS);
  }
}
