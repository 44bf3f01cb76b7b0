/**
 * For arbitrary bytes: payloads passed over do not matter as long as elements nest. The
 * condition is about the headers and payloads the walk meets, it holds of well-formed
 * files and of recordings that were cut off, and it fails where a child overruns its parent.
 */
module MkvNesting {
  import opened Bytes
  import opened Vints
  import opened MkvSearch
  import opened MkvSpec
  import opened MkvTree
  import opened MkvRoundTrip
  import opened MkvSkipping
  import opened MkvIndependence

  // Nesting.

  /** The header and the payload of the element at off end no later than its parent. */
  predicate Fitting(file: seq<byte>, limit: nat, off: nat, end: nat, siblings: seq<nat>)
    requires Bounded(file, limit)
  {
    && HeaderSpan(file, limit, off).hi <= end
    && match ReadElement(file, limit, off, siblings) case Ok(el) => el.end <= end case Err(_) => true
  }

  predicate VideoNested(file: seq<byte>, limit: nat, off: nat, end: nat)
    requires Bounded(file, limit)
    decreases Left(limit, off)
  {
    off >= end
    || (Fitting(file, limit, off, end, VIDEO_IDS)
        && match ReadElement(file, limit, off, VIDEO_IDS)
           case Err(_) => true
           case Ok(el) => VideoNested(file, limit, el.end, end))
  }

  predicate EntryNested(file: seq<byte>, limit: nat, off: nat, end: nat)
    requires Bounded(file, limit)
    decreases Left(limit, off)
  {
    off >= end
    || (Fitting(file, limit, off, end, ENTRY_IDS)
        && match ReadElement(file, limit, off, ENTRY_IDS)
           case Err(_) => true
           case Ok(el) =>
             && (el.id == ID_VIDEO ==> VideoNested(file, limit, el.start, el.end))
             && EntryNested(file, limit, el.end, end))
  }

  predicate TracksNested(file: seq<byte>, limit: nat, off: nat, end: nat)
    requires Bounded(file, limit)
    decreases Left(limit, off)
  {
    off >= end
    || (Fitting(file, limit, off, end, TRACK_IDS)
        && match ReadElement(file, limit, off, TRACK_IDS)
           case Err(_) => true
           case Ok(el) =>
             && (el.id == ID_TRACK_ENTRY ==> EntryNested(file, limit, el.start, el.end))
             && TracksNested(file, limit, el.end, end))
  }

  predicate InfoNested(file: seq<byte>, limit: nat, off: nat, end: nat)
    requires Bounded(file, limit)
    decreases Left(limit, off)
  {
    off >= end
    || (Fitting(file, limit, off, end, INFO_IDS)
        && match ReadElement(file, limit, off, INFO_IDS)
           case Err(_) => true
           case Ok(el) => InfoNested(file, limit, el.end, end))
  }

  predicate ChildNested(file: seq<byte>, limit: nat, el: Element)
    requires Bounded(file, limit)
  {
    && (el.id == ID_INFO ==> InfoNested(file, limit, el.start, el.end))
    && (el.id == ID_TRACKS ==> TracksNested(file, limit, el.start, el.end))
  }

  predicate SegmentNested(file: seq<byte>, limit: nat, off: nat, end: nat, f: Fields)
    requires Bounded(file, limit)
    decreases Left(limit, off)
  {
    off >= end
    || (Fitting(file, limit, off, end, SEGMENT_IDS)
        && match ReadElement(file, limit, off, SEGMENT_IDS)
           case Err(_) => true
           case Ok(el) =>
             var g := SegmentStep(file, limit, el, f);
             ChildNested(file, limit, el) && (g.Done() || SegmentNested(file, limit, el.end, end, g)))
  }

  predicate FileNested(file: seq<byte>, limit: nat, off: nat, f: Fields)
    requires Bounded(file, limit)
    decreases Left(limit, off)
  {
    off >= limit
    || match ReadElement(file, limit, off, SEGMENT_IDS)
       case Err(_) => true
       case Ok(el) =>
         var g := if el.id == ID_SEGMENT then SegmentWalk(file, limit, el.start, el.end, f) else f;
         && (el.id == ID_SEGMENT ==> SegmentNested(file, limit, el.start, el.end, f))
         && (g.Done() || FileNested(file, limit, el.end, g))
  }

  /** Everything the probe meets inside a Segment ends no later than what it is inside of. */
  predicate Nested(file: seq<byte>)
    requires |file| + CHUNK <= MAX_INT64
  {
    FileNested(file, Limit(file), 0, NO_FIELDS)
  }

  /** A known size keeps a payload inside its parent exactly when it says so, or when the parent ends with the file. */
  lemma KnownSizeFits(file: seq<byte>, limit: nat, off: nat, end: nat, siblings: seq<nat>)
    requires Bounded(file, limit) && off < limit
    requires ReadHeader(file, limit, off).Ok? && !ReadHeader(file, limit, off).value.size.unknown
    ensures ReadElement(file, limit, off, siblings).Ok?
    ensures var h, el := ReadHeader(file, limit, off).value, ReadElement(file, limit, off, siblings).value;
            && (el.end <= end <==> h.end + h.size.value <= end || limit <= end)
            && (Fitting(file, limit, off, end, siblings) <==> h.end + h.size.value <= end || limit <= end)
  {
    hide ReadHeader, ReadElement, HeaderSpan;
    KnownSizeClamps(file, limit, off, siblings);
    HeaderParts(file, limit, off);
  }

  lemma HeaderParts(file: seq<byte>, limit: nat, off: nat)
    requires Bounded(file, limit)
    ensures off < limit ==> IdEnd(file, limit, off) <= HeaderSpan(file, limit, off).hi <= limit
    ensures match ReadHeader(file, limit, off)
            case Ok(h) => HeaderSpan(file, limit, off) == Span(off, h.end) && IdEnd(file, limit, off) < h.end
            case Err(_) => true
    ensures HeaderSpan(file, limit, off).lo == off
  {
    hide Parse;
  }

  // Spans that stay in a range.

  ghost predicate Within(spans: seq<Span>, lo: int, hi: int) {
    forall s :: s in spans ==> lo <= s.lo && s.hi <= hi
  }

  lemma WithinJoin(a: seq<Span>, b: seq<Span>, lo: int, mid: int, hi: int, top: int)
    requires Within(a, lo, mid) && Within(b, hi, top) && lo <= hi && mid <= top
    ensures Within(a + b, lo, top)
  {
  }

  // Where the spans of one walk lie: from its start to the end of the ID that stands where it ends.

  lemma ElementWithin(file: seq<byte>, limit: nat, off: nat, end: nat, siblings: seq<nat>)
    requires Bounded(file, limit) && off < end <= limit && Fitting(file, limit, off, end, siblings)
    ensures match ReadElement(file, limit, off, siblings)
            case Ok(el) =>
              Within(ElementSpans(file, limit, off, siblings), off, IdEnd(file, limit, el.end)) && off < el.start <= el.end <= end
            case Err(_) => Within(ElementSpans(file, limit, off, siblings), off, end)
  {
    hide ReadHeader, HeaderSpan, IdEnd, FindPattern, Reach, Patterns;
    HeaderParts(file, limit, off);
    PowTable();
  }

  /** IDs that stand at two places of one walk. */
  lemma IdEndGrows(file: seq<byte>, limit: nat, off: nat, end: nat)
    requires Bounded(file, limit) && off <= end <= limit && (off < end ==> HeaderSpan(file, limit, off).hi <= end)
    ensures IdEnd(file, limit, off) <= IdEnd(file, limit, end)
  {
    hide HeaderSpan;
    HeaderParts(file, limit, off);
  }

  lemma UintWithin(el: Element)
    requires el.start <= el.end
    ensures Within(UintSpan(el), el.start, el.end) && Within(FloatSpan(el), el.start, el.end)
  {
  }

  /** What is read of one element and below it, then what is read after it. */
  lemma StepWithin(file: seq<byte>, limit: nat, off: nat, el: Element, end: nat,
                   here: seq<Span>, own: seq<Span>, more: seq<Span>)
    requires Bounded(file, limit) && off < el.start <= el.end <= end <= limit
    requires el.end < end ==> HeaderSpan(file, limit, el.end).hi <= end
    requires Within(here, off, IdEnd(file, limit, el.end)) && Within(own, el.start, IdEnd(file, limit, el.end))
    requires Within(more, el.end, IdEnd(file, limit, end))
    ensures Within(here + (own + more), off, IdEnd(file, limit, end))
  {
    hide IdEnd, HeaderSpan, Within;
    IdEndGrows(file, limit, el.end, end);
    WithinJoin(own, more, el.start, IdEnd(file, limit, el.end), el.end, IdEnd(file, limit, end));
    WithinJoin(here, own + more, off, IdEnd(file, limit, el.end), el.start, IdEnd(file, limit, end));
  }

  lemma LooserEnd(spans: seq<Span>, lo: int, hi: int, top: int)
    requires Within(spans, lo, hi) && hi <= top
    ensures Within(spans, lo, top)
  {
  }

  lemma {:induction false} VideoWithin(file: seq<byte>, limit: nat, off: nat, end: nat)
    requires Bounded(file, limit) && off <= end <= limit && VideoNested(file, limit, off, end)
    ensures Within(VideoSpans(file, limit, off, end), off, IdEnd(file, limit, end))
    decreases Left(limit, off)
  {
    hide ReadElement, ElementSpans, IdEnd, Within, UintSpan, HeaderSpan;
    if off >= end {
      NoneWithin(off, IdEnd(file, limit, end));
    } else {
      ElementWithin(file, limit, off, end, VIDEO_IDS);
      var r, here := ReadElement(file, limit, off, VIDEO_IDS), ElementSpans(file, limit, off, VIDEO_IDS);
      if r.Ok? {
        var el := r.value;
        var own := if el.id == ID_PIXEL_WIDTH || el.id == ID_PIXEL_HEIGHT then UintSpan(el) else [];
        OwnWithin(file, limit, el, own);
        VideoWithin(file, limit, el.end, end);
        StepWithin(file, limit, off, el, end, here, own, VideoSpans(file, limit, el.end, end));
      } else {
        LooserEnd(here, off, end, IdEnd(file, limit, end));
        assert VideoSpans(file, limit, off, end) == here;
      }
    }
  }

  lemma NoneWithin(lo: int, hi: int)
    ensures Within([], lo, hi)
  {
  }

  lemma OwnWithin(file: seq<byte>, limit: nat, el: Element, own: seq<Span>)
    requires Bounded(file, limit) && el.start <= el.end && own in {[], UintSpan(el), FloatSpan(el)}
    ensures Within(own, el.start, IdEnd(file, limit, el.end))
  {
    hide IdEnd;
    UintWithin(el);
  }

  lemma {:induction false} InfoWithin(file: seq<byte>, limit: nat, off: nat, end: nat)
    requires Bounded(file, limit) && off <= end <= limit && InfoNested(file, limit, off, end)
    ensures Within(InfoSpans(file, limit, off, end), off, IdEnd(file, limit, end))
    decreases Left(limit, off)
  {
    hide ReadElement, ElementSpans, IdEnd, Within, UintSpan, FloatSpan, HeaderSpan;
    if off >= end {
      NoneWithin(off, IdEnd(file, limit, end));
    } else {
      ElementWithin(file, limit, off, end, INFO_IDS);
      var r, here := ReadElement(file, limit, off, INFO_IDS), ElementSpans(file, limit, off, INFO_IDS);
      if r.Ok? {
        var el := r.value;
        var own := if el.id == ID_TIMECODE_SCALE then UintSpan(el) else if el.id == ID_DURATION then FloatSpan(el) else [];
        OwnWithin(file, limit, el, own);
        InfoWithin(file, limit, el.end, end);
        StepWithin(file, limit, off, el, end, here, own, InfoSpans(file, limit, el.end, end));
      } else {
        LooserEnd(here, off, end, IdEnd(file, limit, end));
        assert InfoSpans(file, limit, off, end) == here;
      }
    }
  }

  lemma {:induction false} EntryWithin(file: seq<byte>, limit: nat, off: nat, end: nat)
    requires Bounded(file, limit) && off <= end <= limit && EntryNested(file, limit, off, end)
    ensures Within(EntrySpans(file, limit, off, end), off, IdEnd(file, limit, end))
    decreases Left(limit, off)
  {
    hide ReadElement, ElementSpans, IdEnd, Within, UintSpan, HeaderSpan, VideoNested, VideoSpans;
    if off >= end {
      NoneWithin(off, IdEnd(file, limit, end));
    } else {
      ElementWithin(file, limit, off, end, ENTRY_IDS);
      var r, here := ReadElement(file, limit, off, ENTRY_IDS), ElementSpans(file, limit, off, ENTRY_IDS);
      if r.Ok? {
        var el := r.value;
        var own := if el.id == ID_TRACK_TYPE then UintSpan(el)
                   else if el.id == ID_VIDEO then VideoSpans(file, limit, el.start, el.end) else [];
        if el.id == ID_VIDEO {
          VideoWithin(file, limit, el.start, el.end);
        } else {
          OwnWithin(file, limit, el, own);
        }
        EntryWithin(file, limit, el.end, end);
        StepWithin(file, limit, off, el, end, here, own, EntrySpans(file, limit, el.end, end));
      } else {
        LooserEnd(here, off, end, IdEnd(file, limit, end));
        assert EntrySpans(file, limit, off, end) == here;
      }
    }
  }

  lemma {:induction false} TracksWithin(file: seq<byte>, limit: nat, off: nat, end: nat)
    requires Bounded(file, limit) && off <= end <= limit && TracksNested(file, limit, off, end)
    ensures Within(TracksSpans(file, limit, off, end), off, IdEnd(file, limit, end))
    decreases Left(limit, off)
  {
    hide ReadElement, ElementSpans, IdEnd, Within, HeaderSpan, EntryNested, EntrySpans;
    if off >= end {
      NoneWithin(off, IdEnd(file, limit, end));
    } else {
      ElementWithin(file, limit, off, end, TRACK_IDS);
      var r, here := ReadElement(file, limit, off, TRACK_IDS), ElementSpans(file, limit, off, TRACK_IDS);
      if r.Ok? {
        var el := r.value;
        var own := if el.id == ID_TRACK_ENTRY then EntrySpans(file, limit, el.start, el.end) else [];
        if el.id == ID_TRACK_ENTRY {
          EntryWithin(file, limit, el.start, el.end);
        } else {
          OwnWithin(file, limit, el, own);
        }
        TracksWithin(file, limit, el.end, end);
        StepWithin(file, limit, off, el, end, here, own, TracksSpans(file, limit, el.end, end));
      } else {
        LooserEnd(here, off, end, IdEnd(file, limit, end));
        assert TracksSpans(file, limit, off, end) == here;
      }
    }
  }

  lemma ChildWithin(file: seq<byte>, limit: nat, el: Element)
    requires Bounded(file, limit) && el.start <= el.end <= limit && ChildNested(file, limit, el)
    ensures Within(SegmentChildSpans(file, limit, el), el.start, IdEnd(file, limit, el.end))
  {
    hide IdEnd, InfoNested, TracksNested, InfoSpans, TracksSpans, Within;
    if el.id == ID_INFO {
      InfoWithin(file, limit, el.start, el.end);
    } else if el.id == ID_TRACKS {
      TracksWithin(file, limit, el.start, el.end);
    } else {
      NoneWithin(el.start, IdEnd(file, limit, el.end));
    }
  }

  /** A walk that still needs more reads no further than the ID at the Segment's end. */
  lemma {:induction false} SegmentWithin(file: seq<byte>, limit: nat, off: nat, end: nat, f: Fields)
    requires Bounded(file, limit) && off <= end <= limit && SegmentNested(file, limit, off, end, f)
    requires !SegmentWalk(file, limit, off, end, f).Done()
    ensures Within(SegmentSpans(file, limit, off, end, f), off, IdEnd(file, limit, end))
    decreases Left(limit, off)
  {
    hide ReadElement, ElementSpans, IdEnd, Within, HeaderSpan, ChildNested, SegmentChildSpans, SegmentStep;
    if off >= end {
      NoneWithin(off, IdEnd(file, limit, end));
    } else {
      ElementWithin(file, limit, off, end, SEGMENT_IDS);
      var r, here := ReadElement(file, limit, off, SEGMENT_IDS), ElementSpans(file, limit, off, SEGMENT_IDS);
      if r.Ok? {
        var el := r.value;
        var g := SegmentStep(file, limit, el, f);
        ChildWithin(file, limit, el);
        SegmentWithin(file, limit, el.end, end, g);
        var own, more := SegmentChildSpans(file, limit, el), SegmentSpans(file, limit, el.end, end, g);
        StepWithin(file, limit, off, el, end, here, own, more);
      } else {
        LooserEnd(here, off, end, IdEnd(file, limit, end));
        assert SegmentSpans(file, limit, off, end, f) == here;
      }
    }
  }

  // No walk looks back.

  ghost predicate From(spans: seq<Span>, lo: int) {
    forall s :: s in spans ==> lo <= s.lo
  }

  lemma FromJoin(here: seq<Span>, own: seq<Span>, more: seq<Span>, off: int, start: int, end: int)
    requires From(here, off) && From(own, start) && From(more, end) && off <= start <= end
    ensures From(here + (own + more), off) && From(here, off)
  {
  }

  lemma WithinFrom(spans: seq<Span>, lo: int, hi: int)
    requires Within(spans, lo, hi)
    ensures From(spans, lo)
  {
  }

  lemma ElementFrom(file: seq<byte>, limit: nat, off: nat, siblings: seq<nat>)
    requires Bounded(file, limit)
    ensures From(ElementSpans(file, limit, off, siblings), off)
  {
    hide ReadHeader, HeaderSpan, FindPattern, Reach, Patterns, IdEnd;
    HeaderParts(file, limit, off);
  }

  lemma {:induction false} SegmentFrom(file: seq<byte>, limit: nat, off: nat, end: nat, f: Fields)
    requires Bounded(file, limit) && off <= end <= limit && SegmentNested(file, limit, off, end, f)
    ensures From(SegmentSpans(file, limit, off, end, f), off)
    decreases Left(limit, off)
  {
    hide ReadElement, ElementSpans, IdEnd, From, HeaderSpan, ChildNested, SegmentChildSpans, SegmentStep;
    if off >= end {
      NoneFrom(off);
    } else {
      ElementFrom(file, limit, off, SEGMENT_IDS);
      var r, here := ReadElement(file, limit, off, SEGMENT_IDS), ElementSpans(file, limit, off, SEGMENT_IDS);
      if r.Ok? {
        var el := r.value;
        var g, own := SegmentStep(file, limit, el, f), SegmentChildSpans(file, limit, el);
        ChildWithin(file, limit, el);
        WithinFrom(own, el.start, IdEnd(file, limit, el.end));
        var more := if g.Done() then [] else SegmentSpans(file, limit, el.end, end, g);
        if g.Done() {
          NoneFrom(el.end);
        } else {
          SegmentFrom(file, limit, el.end, end, g);
        }
        FromJoin(here, own, more, off, el.start, el.end);
      } else {
        assert SegmentSpans(file, limit, off, end, f) == here;
      }
    }
  }

  lemma NoneFrom(lo: int)
    ensures From([], lo)
  {
  }

  lemma {:induction false} FileFrom(file: seq<byte>, limit: nat, off: nat, f: Fields)
    requires Bounded(file, limit) && off <= limit && FileNested(file, limit, off, f)
    ensures From(FileSpans(file, limit, off, f), off)
    decreases Left(limit, off)
  {
    hide ReadElement, ElementSpans, From, SegmentNested, SegmentSpans, SegmentWalk;
    if off >= limit {
      NoneFrom(off);
    } else {
      ElementFrom(file, limit, off, SEGMENT_IDS);
      var r, here := ReadElement(file, limit, off, SEGMENT_IDS), ElementSpans(file, limit, off, SEGMENT_IDS);
      if r.Ok? {
        var el := r.value;
        var g := if el.id == ID_SEGMENT then SegmentWalk(file, limit, el.start, el.end, f) else f;
        var own := if el.id == ID_SEGMENT then SegmentSpans(file, limit, el.start, el.end, f) else [];
        NoneFrom(el.start);
        NoneFrom(el.end);
        if el.id == ID_SEGMENT {
          SegmentFrom(file, limit, el.start, el.end, f);
        }
        var more := if g.Done() then [] else FileSpans(file, limit, el.end, g);
        if !g.Done() {
          FileFrom(file, limit, el.end, g);
        }
        FromJoin(here, own, more, off, el.start, el.end);
      } else {
        assert FileSpans(file, limit, off, f) == here;
      }
    }
  }

  /** The condition fails where independence does: the Duration of this Info ends behind it. */
  lemma OverrunIsNotNested(x: byte, y: byte)
    ensures !Nested(Overrun(x, y))
  {
    hide ReadHeader, HeaderSpan, InfoWalk;
    var file := Overrun(x, y);
    OverrunOuterHeaders(x, y);
    OverrunInnerHeaders(x, y);
    KnownSizeClamps(file, 17, 0, SEGMENT_IDS);
    KnownSizeClamps(file, 17, 5, SEGMENT_IDS);
    KnownSizeClamps(file, 17, 10, INFO_IDS);
    assert !InfoNested(file, 17, 10, 13);
    assert !SegmentNested(file, 17, 5, 17, NO_FIELDS);
  }
  // Well-formed files nest.

  lemma OkFits(file: seq<byte>, limit: nat, off: nat, end: nat, siblings: seq<nat>)
    requires Bounded(file, limit) && ReadElement(file, limit, off, siblings).Ok?
    requires ReadElement(file, limit, off, siblings).value.end <= end
    ensures Fitting(file, limit, off, end, siblings)
  {
    hide HeaderSpan, ReadHeader, FindPattern;
    HeaderParts(file, limit, off);
  }

  lemma {:induction false} VideoNests(file: seq<byte>, limit: nat, off: nat, es: seq<Ebml>)
    requires Bounded(file, limit) && limit == |file| && ValidAll(es) && At(file, off, Encode(es))
    ensures VideoNested(file, limit, off, off + |Encode(es)|)
    decreases |es|
  {
    hide ReadElement, Body, EncodeOne, Fitting, ValidAll;
    if es != [] {
      var el := ListParses(file, limit, off, es, VIDEO_IDS);
      OkFits(file, limit, off, off + |Encode(es)|, VIDEO_IDS);
      VideoNests(file, limit, el.end, es[1..]);
    }
  }

  lemma {:induction false} InfoNests(file: seq<byte>, limit: nat, off: nat, es: seq<Ebml>)
    requires Bounded(file, limit) && limit == |file| && ValidAll(es) && At(file, off, Encode(es))
    ensures InfoNested(file, limit, off, off + |Encode(es)|)
    decreases |es|
  {
    hide ReadElement, Body, EncodeOne, Fitting, ValidAll;
    if es != [] {
      var el := ListParses(file, limit, off, es, INFO_IDS);
      OkFits(file, limit, off, off + |Encode(es)|, INFO_IDS);
      InfoNests(file, limit, el.end, es[1..]);
    }
  }

  lemma {:induction false} EntryNests(file: seq<byte>, limit: nat, off: nat, es: seq<Ebml>)
    requires Bounded(file, limit) && limit == |file| && ValidEntry(es) && At(file, off, Encode(es))
    ensures EntryNested(file, limit, off, off + |Encode(es)|)
    decreases |es|
  {
    hide ReadElement, Body, EncodeOne, Fitting, ValidAll, VideoNested;
    if es != [] {
      var e := es[0];
      assert e in es;
      var el := ListParses(file, limit, off, es, ENTRY_IDS);
      OkFits(file, limit, off, off + |Encode(es)|, ENTRY_IDS);
      if e.id == ID_VIDEO {
        MasterBody(e);
        VideoNests(file, limit, el.start, e.kids);
      }
      EntryNests(file, limit, el.end, es[1..]);
    }
  }

  lemma {:induction false} TracksNests(file: seq<byte>, limit: nat, off: nat, es: seq<Ebml>)
    requires Bounded(file, limit) && limit == |file| && ValidTracks(es) && At(file, off, Encode(es))
    ensures TracksNested(file, limit, off, off + |Encode(es)|)
    decreases |es|
  {
    hide ReadElement, Body, EncodeOne, Fitting, ValidAll, EntryNested, ValidEntry;
    if es != [] {
      var e := es[0];
      assert e in es;
      var el := ListParses(file, limit, off, es, TRACK_IDS);
      OkFits(file, limit, off, off + |Encode(es)|, TRACK_IDS);
      if e.id == ID_TRACK_ENTRY {
        MasterBody(e);
        EntryNests(file, limit, el.start, e.kids);
      }
      TracksNests(file, limit, el.end, es[1..]);
    }
  }

  lemma {:induction false} SegmentNests(file: seq<byte>, limit: nat, off: nat, es: seq<Ebml>, f: Fields)
    requires Bounded(file, limit) && limit == |file| && ValidSegment(es) && At(file, off, Encode(es))
    ensures SegmentNested(file, limit, off, off + |Encode(es)|, f)
    decreases |es|
  {
    hide ReadElement, Body, EncodeOne, Fitting, ValidAll, ValidTracks, InfoNested, TracksNested, SegmentStep;
    if es != [] {
      var e := es[0];
      assert e in es;
      var el := ListParses(file, limit, off, es, SEGMENT_IDS);
      OkFits(file, limit, off, off + |Encode(es)|, SEGMENT_IDS);
      MasterBody(e);
      if e.id == ID_INFO {
        InfoNests(file, limit, el.start, e.kids);
      } else if e.id == ID_TRACKS {
        TracksNests(file, limit, el.start, e.kids);
      }
      SegmentNests(file, limit, el.end, es[1..], SegmentStep(file, limit, el, f));
    }
  }

  lemma {:induction false} RootsNest(file: seq<byte>, limit: nat, off: nat, end: nat, es: seq<Ebml>, f: Fields)
    requires Bounded(file, limit) && limit == |file| && ValidRoots(es) && At(file, off, Encode(es))
    requires end == off + |Encode(es)| && forall g :: FileNested(file, limit, end, g)
    ensures FileNested(file, limit, off, f)
    decreases |es|
  {
    hide ReadElement, Body, EncodeOne, ValidAll, ValidSegment, SegmentNested, SegmentWalk;
    if es != [] {
      var e := es[0];
      assert e in es;
      var el := ListParses(file, limit, off, es, SEGMENT_IDS);
      MasterBody(e);
      var g := f;
      if e.id == ID_SEGMENT {
        SegmentNests(file, limit, el.start, e.kids, f);
        g := SegmentWalk(file, limit, el.start, el.end, f);
      }
      RootsNest(file, limit, el.end, end, es[1..], g);
    }
  }

  lemma StreamingNests(file: seq<byte>, limit: nat, off: nat, n: nat, es: seq<Ebml>, f: Fields)
    requires Bounded(file, limit) && limit == |file| && 1 <= n <= 8 && ValidSegment(es)
    requires At(file, off, EncodeId(ID_SEGMENT) + EncodeVint(Pow128(n) - 1, n) + Encode(es))
    requires limit == off + |EncodeId(ID_SEGMENT) + EncodeVint(Pow128(n) - 1, n) + Encode(es)|
    ensures FileNested(file, limit, off, f)
  {
    hide ReadHeader, SegmentNested, SegmentWalk, Encode, EncodeVint, EncodeId, Pow128;
    var id, size := EncodeId(ID_SEGMENT), EncodeVint(Pow128(n) - 1, n);
    AtSplit(file, off, id + size, Encode(es));
    AtSplit(file, off, id, size);
    SegmentIdValid();
    HeaderParses(file, limit, off, ID_SEGMENT, Pow128(n) - 1, n);
    SegmentNests(file, limit, off + |id| + n, es, f);
  }

  /** What follows the known-size elements nests. */
  lemma TailNests(f: File, g: Fields)
    requires Valid(f) && EncodeFile(f) != [] && |EncodeFile(f)| + CHUNK <= MAX_INT64
    ensures FileNested(EncodeFile(f), |EncodeFile(f)|, |Encode(f.roots)|, g)
  {
    hide Encode, EncodeVint, EncodeId, Pow128, FileNested, ValidRoots, ValidSegment;
    var file, off := EncodeFile(f), |Encode(f.roots)|;
    match f.streaming
    case None =>
      PastEndNests(file, |file|, off, g);
    case Some((n, kids)) =>
      assert At(file, off, file[off..]);
      StreamingNests(file, |file|, off, n, kids, g);
  }

  /** Every well-formed file nests, with a last Segment of known or unknown size. */
  lemma WellFormedFilesNest(f: File)
    requires Valid(f) && |EncodeFile(f)| + CHUNK <= MAX_INT64
    ensures Nested(EncodeFile(f))
  {
    hide Encode, EncodeVint, EncodeId, Pow128, ValidRoots, ValidSegment, SegmentNested, ReadElement;
    var file := EncodeFile(f);
    if file == [] {
      EmptyNests();
    } else {
      forall g: Fields
        ensures FileNested(file, |file|, |Encode(f.roots)|, g)
      {
        TailNests(f, g);
      }
      assert At(file, 0, Encode(f.roots));
      RootsNest(file, |file|, 0, |Encode(f.roots)|, f.roots, NO_FIELDS);
    }
  }

  lemma EmptyNests()
    ensures Nested([])
  {
  }

  lemma PastEndNests(file: seq<byte>, limit: nat, off: nat, f: Fields)
    requires Bounded(file, limit) && off >= limit
    ensures FileNested(file, limit, off, f)
  {
  }
}
