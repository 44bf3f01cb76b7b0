/**
 * The payloads of known size that a probe passes over, at every level of the walk, and
 * the proof that in nested bytes nothing the probe can depend on lies in them. An element
 * of unknown size is searched for its end, so what is inside it is not passed over.
 */
module MkvPassedOver {
  import opened Bytes
  import opened Vints
  import opened MkvSearch
  import opened MkvSpec
  import opened MkvSkipping
  import opened MkvIndependence
  import opened MkvNesting

  /** The element at off says how long it is. */
  predicate Known(file: seq<byte>, limit: nat, off: nat)
    requires Bounded(file, limit)
  {
    ReadHeader(file, limit, off).Ok? && !ReadHeader(file, limit, off).value.size.unknown
  }

  function Payload(file: seq<byte>, limit: nat, off: nat, el: Element): seq<Span>
    requires Bounded(file, limit)
  {
    if Known(file, limit, off) then [Span(el.start, el.end)] else []
  }

  // What is passed over of one element, level by level: all of it, unless it is read or entered.

  function VideoSkip(file: seq<byte>, limit: nat, off: nat, el: Element): seq<Span>
    requires Bounded(file, limit)
  {
    if (el.id == ID_PIXEL_WIDTH || el.id == ID_PIXEL_HEIGHT) && UintSpan(el) != [] then []
    else Payload(file, limit, off, el)
  }

  function VideoSkipped(file: seq<byte>, limit: nat, off: nat, end: nat): seq<Span>
    requires Bounded(file, limit)
    decreases Left(limit, off)
  {
    if off >= end then []
    else
      match ReadElement(file, limit, off, VIDEO_IDS)
      case Err(_) => []
      case Ok(el) => VideoSkip(file, limit, off, el) + VideoSkipped(file, limit, el.end, end)
  }

  function InfoSkip(file: seq<byte>, limit: nat, off: nat, el: Element): seq<Span>
    requires Bounded(file, limit)
  {
    if (el.id == ID_TIMECODE_SCALE && UintSpan(el) != []) || (el.id == ID_DURATION && FloatSpan(el) != []) then []
    else Payload(file, limit, off, el)
  }

  function InfoSkipped(file: seq<byte>, limit: nat, off: nat, end: nat): seq<Span>
    requires Bounded(file, limit)
    decreases Left(limit, off)
  {
    if off >= end then []
    else
      match ReadElement(file, limit, off, INFO_IDS)
      case Err(_) => []
      case Ok(el) => InfoSkip(file, limit, off, el) + InfoSkipped(file, limit, el.end, end)
  }

  function EntrySkip(file: seq<byte>, limit: nat, off: nat, el: Element): seq<Span>
    requires Bounded(file, limit)
  {
    if el.id == ID_TRACK_TYPE && UintSpan(el) != [] then []
    else if el.id != ID_VIDEO then Payload(file, limit, off, el)
    else if Known(file, limit, off) then VideoSkipped(file, limit, el.start, el.end)
    else []
  }

  function EntrySkipped(file: seq<byte>, limit: nat, off: nat, end: nat): seq<Span>
    requires Bounded(file, limit)
    decreases Left(limit, off)
  {
    if off >= end then []
    else
      match ReadElement(file, limit, off, ENTRY_IDS)
      case Err(_) => []
      case Ok(el) => EntrySkip(file, limit, off, el) + EntrySkipped(file, limit, el.end, end)
  }

  function TracksSkip(file: seq<byte>, limit: nat, off: nat, el: Element): seq<Span>
    requires Bounded(file, limit)
  {
    if el.id != ID_TRACK_ENTRY then Payload(file, limit, off, el)
    else if Known(file, limit, off) then EntrySkipped(file, limit, el.start, el.end)
    else []
  }

  function TracksSkipped(file: seq<byte>, limit: nat, off: nat, end: nat): seq<Span>
    requires Bounded(file, limit)
    decreases Left(limit, off)
  {
    if off >= end then []
    else
      match ReadElement(file, limit, off, TRACK_IDS)
      case Err(_) => []
      case Ok(el) => TracksSkip(file, limit, off, el) + TracksSkipped(file, limit, el.end, end)
  }

  function ChildSkip(file: seq<byte>, limit: nat, off: nat, el: Element): seq<Span>
    requires Bounded(file, limit)
  {
    if el.id != ID_INFO && el.id != ID_TRACKS then Payload(file, limit, off, el)
    else if !Known(file, limit, off) then []
    else if el.id == ID_INFO then InfoSkipped(file, limit, el.start, el.end)
    else TracksSkipped(file, limit, el.start, el.end)
  }

  /** What the walk of a Segment passes over, down to the level of a track's dimensions. */
  function SegmentSkipped(file: seq<byte>, limit: nat, off: nat, end: nat, f: Fields): seq<Span>
    requires Bounded(file, limit)
    decreases Left(limit, off)
  {
    if off >= end then []
    else
      match ReadElement(file, limit, off, SEGMENT_IDS)
      case Err(_) => []
      case Ok(el) =>
        var g := SegmentStep(file, limit, el, f);
        ChildSkip(file, limit, off, el) + if g.Done() then [] else SegmentSkipped(file, limit, el.end, end, g)
  }

  /** Nothing is searched for the end of a Segment, so its size need not be known. */
  function RootSkip(file: seq<byte>, limit: nat, off: nat, el: Element, f: Fields): seq<Span>
    requires Bounded(file, limit)
  {
    if el.id == ID_SEGMENT then SegmentSkipped(file, limit, el.start, el.end, f) else Payload(file, limit, off, el)
  }

  function FileSkipped(file: seq<byte>, limit: nat, off: nat, f: Fields): seq<Span>
    requires Bounded(file, limit)
    decreases Left(limit, off)
  {
    if off >= limit then []
    else
      match ReadElement(file, limit, off, SEGMENT_IDS)
      case Err(_) => []
      case Ok(el) =>
        var g := if el.id == ID_SEGMENT then SegmentWalk(file, limit, el.start, el.end, f) else f;
        RootSkip(file, limit, off, el, f) + if g.Done() then [] else FileSkipped(file, limit, el.end, g)
  }

  /** The payloads of known size that a probe passes over, at every level. */
  function SkippedPayloads(file: seq<byte>): seq<Span>
    requires |file| + CHUNK <= MAX_INT64
  {
    FileSkipped(file, Limit(file), 0, NO_FIELDS)
  }

  // Spans that stay apart.

  ghost predicate Apart(spans: seq<Span>, skipped: seq<Span>) {
    forall s, t :: s in spans && t in skipped ==> s.hi <= t.lo || t.hi <= s.lo
  }

  /** Spans that end before the others begin. */
  lemma ApartAt(a: seq<Span>, b: seq<Span>, lo: int, at: int, hi: int)
    requires Within(a, lo, at) && Within(b, at, hi)
    ensures Apart(a, b) && Apart(b, a)
  {
  }

  /** Spans that end before others begin. */
  lemma ApartFrom(a: seq<Span>, b: seq<Span>, lo: int, at: int)
    requires Within(a, lo, at) && From(b, at)
    ensures Apart(a, b) && Apart(b, a)
  {
  }

  lemma ApartNone(a: seq<Span>)
    ensures Apart(a, []) && Apart([], a)
  {
  }

  lemma ApartParts(here: seq<Span>, own: seq<Span>, more: seq<Span>, skip: seq<Span>, moreSkip: seq<Span>)
    requires Apart(here, skip) && Apart(here, moreSkip) && Apart(own, skip) && Apart(own, moreSkip)
    requires Apart(more, skip) && Apart(more, moreSkip)
    ensures Apart(here + (own + more), skip + moreSkip)
  {
    hide Apart;
    ApartLeft(own, more, skip);
    ApartLeft(own, more, moreSkip);
    ApartLeft(here, own + more, skip);
    ApartLeft(here, own + more, moreSkip);
    ApartRight(here + (own + more), skip, moreSkip);
  }

  lemma ApartLeft(a: seq<Span>, b: seq<Span>, c: seq<Span>)
    requires Apart(a, c) && Apart(b, c)
    ensures Apart(a + b, c)
  {
  }

  lemma ApartRight(a: seq<Span>, b: seq<Span>, c: seq<Span>)
    requires Apart(a, b) && Apart(a, c)
    ensures Apart(a, b + c)
  {
  }

  lemma LooserStart(spans: seq<Span>, lo: int, hi: int, bottom: int)
    requires Within(spans, lo, hi) && bottom <= lo
    ensures Within(spans, bottom, hi)
  {
  }

  // One walk: what it looks at lies before the ID behind it, what it passes over behind the ID at its start, and the two
  // are apart.

  ghost predicate Separates(file: seq<byte>, limit: nat, off: nat, end: nat, spans: seq<Span>, skipped: seq<Span>)
    requires Bounded(file, limit)
  {
    Within(skipped, IdEnd(file, limit, off), end) && Apart(spans, skipped)
  }

  lemma NothingSkipped(file: seq<byte>, limit: nat, off: nat, end: nat, spans: seq<Span>)
    requires Bounded(file, limit)
    ensures Separates(file, limit, off, end, spans, [])
  {
  }

  /** What is looked at below one element is apart from what is passed over of it, which is looked for nowhere else. */
  ghost predicate Split(file: seq<byte>, limit: nat, off: nat, el: Element, own: seq<Span>, skip: seq<Span>)
    requires Bounded(file, limit)
  {
    && Within(own, el.start, IdEnd(file, limit, el.end)) && Within(skip, el.start, el.end) && Apart(own, skip)
    && (skip != [] ==> Known(file, limit, off))
  }

  /** Of an element of known size only the header is looked at on its own level. */
  lemma KnownWithin(file: seq<byte>, limit: nat, off: nat, el: Element, siblings: seq<nat>)
    requires Bounded(file, limit) && off < limit && ReadElement(file, limit, off, siblings) == Ok(el)
    ensures Known(file, limit, off) ==> Within(ElementSpans(file, limit, off, siblings), off, el.start)
    ensures IdEnd(file, limit, off) < el.start <= el.end <= limit
  {
    hide ReadHeader, HeaderSpan, FindPattern, Reach, Patterns, IdEnd;
    HeaderParts(file, limit, off);
  }

  lemma StepSeparates(file: seq<byte>, limit: nat, off: nat, el: Element, end: nat, siblings: seq<nat>,
                      own: seq<Span>, more: seq<Span>, skip: seq<Span>, moreSkip: seq<Span>)
    requires Bounded(file, limit) && off < end <= limit && ReadElement(file, limit, off, siblings) == Ok(el)
    requires Fitting(file, limit, off, end, siblings) && Split(file, limit, off, el, own, skip)
    requires From(more, el.end) && Separates(file, limit, el.end, end, more, moreSkip)
    ensures Separates(file, limit, off, end, ElementSpans(file, limit, off, siblings) + (own + more), skip + moreSkip)
  {
    hide IdEnd, HeaderSpan, Within, From, Apart, ElementSpans, ReadHeader, ReadElement, Known, Fitting;
    var here, at := ElementSpans(file, limit, off, siblings), IdEnd(file, limit, el.end);
    ElementWithin(file, limit, off, end, siblings);
    KnownWithin(file, limit, off, el, siblings);
    WithinJoin(skip, moreSkip, el.start, el.end, at, end);
    LooserStart(skip + moreSkip, el.start, end, IdEnd(file, limit, off));
    if skip == [] {
      ApartNone(here);
    } else {
      ApartAt(here, skip, off, el.start, el.end);
    }
    ApartAt(here, moreSkip, off, at, end);
    ApartAt(own, moreSkip, el.start, at, end);
    ApartFrom(skip, more, el.start, el.end);
    ApartParts(here, own, more, skip, moreSkip);
  }

  /** An element that is read is not passed over, and one that is passed over is not read. */
  lemma PlainSplit(file: seq<byte>, limit: nat, off: nat, el: Element, own: seq<Span>, skip: seq<Span>)
    requires Bounded(file, limit) && el.start <= el.end && own in {[], UintSpan(el), FloatSpan(el)}
    requires skip == [] || (own == [] && skip == Payload(file, limit, off, el))
    ensures Split(file, limit, off, el, own, skip)
  {
    hide IdEnd;
    OwnWithin(file, limit, el, own);
  }

  /** An element of known size that is entered is passed over where its children are. */
  lemma EnteredSplit(file: seq<byte>, limit: nat, off: nat, el: Element, own: seq<Span>, inner: seq<Span>, skip: seq<Span>)
    requires Bounded(file, limit) && Within(own, el.start, IdEnd(file, limit, el.end))
    requires el.start <= el.end && Separates(file, limit, el.start, el.end, own, inner)
    requires skip == if Known(file, limit, off) then inner else []
    ensures Split(file, limit, off, el, own, skip)
  {
    hide IdEnd, Known;
    IdEndAfter(file, limit, el.start);
  }

  lemma IdEndAfter(file: seq<byte>, limit: nat, off: nat)
    requires Bounded(file, limit)
    ensures off <= IdEnd(file, limit, off)
  {
  }

  lemma VideoOwnSplit(file: seq<byte>, limit: nat, off: nat, el: Element, own: seq<Span>)
    requires Bounded(file, limit) && el.start <= el.end
    requires own == if el.id == ID_PIXEL_WIDTH || el.id == ID_PIXEL_HEIGHT then UintSpan(el) else []
    ensures Split(file, limit, off, el, own, VideoSkip(file, limit, off, el))
  {
    hide Split, UintSpan, Payload;
    PlainSplit(file, limit, off, el, own, VideoSkip(file, limit, off, el));
  }

  lemma {:induction false} VideoSeparates(file: seq<byte>, limit: nat, off: nat, end: nat)
    requires Bounded(file, limit) && off <= end <= limit && VideoNested(file, limit, off, end)
    ensures Separates(file, limit, off, end, VideoSpans(file, limit, off, end), VideoSkipped(file, limit, off, end))
    decreases Left(limit, off)
  {
    hide ReadElement, ElementSpans, IdEnd, Within, From, Split, Separates, HeaderSpan, UintSpan, FloatSpan, VideoSkip;
    var r := ReadElement(file, limit, off, VIDEO_IDS);
    if off >= end || r.Err? {
      NothingSkipped(file, limit, off, end, VideoSpans(file, limit, off, end));
    } else {
      var el := r.value;
      var own := if el.id == ID_PIXEL_WIDTH || el.id == ID_PIXEL_HEIGHT then UintSpan(el) else [];
      VideoOwnSplit(file, limit, off, el, own);
      VideoWithin(file, limit, el.end, end);
      WithinFrom(VideoSpans(file, limit, el.end, end), el.end, IdEnd(file, limit, end));
      VideoSeparates(file, limit, el.end, end);
      StepSeparates(file, limit, off, el, end, VIDEO_IDS, own, VideoSpans(file, limit, el.end, end),
                    VideoSkip(file, limit, off, el), VideoSkipped(file, limit, el.end, end));
    }
  }

  lemma InfoOwnSplit(file: seq<byte>, limit: nat, off: nat, el: Element, own: seq<Span>)
    requires Bounded(file, limit) && el.start <= el.end
    requires own == if el.id == ID_TIMECODE_SCALE then UintSpan(el) else if el.id == ID_DURATION then FloatSpan(el) else []
    ensures Split(file, limit, off, el, own, InfoSkip(file, limit, off, el))
  {
    hide Split, UintSpan, FloatSpan, Payload;
    PlainSplit(file, limit, off, el, own, InfoSkip(file, limit, off, el));
  }

  lemma {:induction false} InfoSeparates(file: seq<byte>, limit: nat, off: nat, end: nat)
    requires Bounded(file, limit) && off <= end <= limit && InfoNested(file, limit, off, end)
    ensures Separates(file, limit, off, end, InfoSpans(file, limit, off, end), InfoSkipped(file, limit, off, end))
    decreases Left(limit, off)
  {
    hide ReadElement, ElementSpans, IdEnd, Within, From, Split, Separates, HeaderSpan, UintSpan, FloatSpan, InfoSkip;
    var r := ReadElement(file, limit, off, INFO_IDS);
    if off >= end || r.Err? {
      NothingSkipped(file, limit, off, end, InfoSpans(file, limit, off, end));
    } else {
      var el := r.value;
      var own := if el.id == ID_TIMECODE_SCALE then UintSpan(el) else if el.id == ID_DURATION then FloatSpan(el) else [];
      InfoOwnSplit(file, limit, off, el, own);
      InfoWithin(file, limit, el.end, end);
      WithinFrom(InfoSpans(file, limit, el.end, end), el.end, IdEnd(file, limit, end));
      InfoSeparates(file, limit, el.end, end);
      StepSeparates(file, limit, off, el, end, INFO_IDS, own, InfoSpans(file, limit, el.end, end),
                    InfoSkip(file, limit, off, el), InfoSkipped(file, limit, el.end, end));
    }
  }

  lemma EntryOwnSplit(file: seq<byte>, limit: nat, off: nat, el: Element, own: seq<Span>)
    requires Bounded(file, limit) && el.start <= el.end <= limit
    requires el.id == ID_VIDEO ==> VideoNested(file, limit, el.start, el.end)
    requires own == if el.id == ID_TRACK_TYPE then UintSpan(el)
                    else if el.id == ID_VIDEO then VideoSpans(file, limit, el.start, el.end) else []
    ensures Split(file, limit, off, el, own, EntrySkip(file, limit, off, el))
  {
    hide Split, UintSpan, Payload, Known, VideoSpans, VideoSkipped, VideoNested, Separates, Within;
    if el.id == ID_VIDEO {
      VideoWithin(file, limit, el.start, el.end);
      VideoSeparates(file, limit, el.start, el.end);
      EnteredSplit(file, limit, off, el, own, VideoSkipped(file, limit, el.start, el.end), EntrySkip(file, limit, off, el));
    } else {
      PlainSplit(file, limit, off, el, own, EntrySkip(file, limit, off, el));
    }
  }

  lemma {:induction false} EntrySeparates(file: seq<byte>, limit: nat, off: nat, end: nat)
    requires Bounded(file, limit) && off <= end <= limit && EntryNested(file, limit, off, end)
    ensures Separates(file, limit, off, end, EntrySpans(file, limit, off, end), EntrySkipped(file, limit, off, end))
    decreases Left(limit, off)
  {
    hide ReadElement, ElementSpans, IdEnd, Within, From, Split, Separates, HeaderSpan, UintSpan, FloatSpan, EntrySkip, VideoNested, VideoSpans;
    var r := ReadElement(file, limit, off, ENTRY_IDS);
    if off >= end || r.Err? {
      NothingSkipped(file, limit, off, end, EntrySpans(file, limit, off, end));
    } else {
      var el := r.value;
      var own := if el.id == ID_TRACK_TYPE then UintSpan(el)
                 else if el.id == ID_VIDEO then VideoSpans(file, limit, el.start, el.end) else [];
      EntryOwnSplit(file, limit, off, el, own);
      EntryWithin(file, limit, el.end, end);
      WithinFrom(EntrySpans(file, limit, el.end, end), el.end, IdEnd(file, limit, end));
      EntrySeparates(file, limit, el.end, end);
      StepSeparates(file, limit, off, el, end, ENTRY_IDS, own, EntrySpans(file, limit, el.end, end),
                    EntrySkip(file, limit, off, el), EntrySkipped(file, limit, el.end, end));
    }
  }

  lemma TracksOwnSplit(file: seq<byte>, limit: nat, off: nat, el: Element, own: seq<Span>)
    requires Bounded(file, limit) && el.start <= el.end <= limit
    requires el.id == ID_TRACK_ENTRY ==> EntryNested(file, limit, el.start, el.end)
    requires own == if el.id == ID_TRACK_ENTRY then EntrySpans(file, limit, el.start, el.end) else []
    ensures Split(file, limit, off, el, own, TracksSkip(file, limit, off, el))
  {
    hide Split, Payload, Known, EntrySpans, EntrySkipped, EntryNested, Separates, Within;
    if el.id == ID_TRACK_ENTRY {
      EntryWithin(file, limit, el.start, el.end);
      EntrySeparates(file, limit, el.start, el.end);
      EnteredSplit(file, limit, off, el, own, EntrySkipped(file, limit, el.start, el.end), TracksSkip(file, limit, off, el));
    } else {
      PlainSplit(file, limit, off, el, own, TracksSkip(file, limit, off, el));
    }
  }

  lemma {:induction false} TracksSeparates(file: seq<byte>, limit: nat, off: nat, end: nat)
    requires Bounded(file, limit) && off <= end <= limit && TracksNested(file, limit, off, end)
    ensures Separates(file, limit, off, end, TracksSpans(file, limit, off, end), TracksSkipped(file, limit, off, end))
    decreases Left(limit, off)
  {
    hide ReadElement, ElementSpans, IdEnd, Within, From, Split, Separates, HeaderSpan, UintSpan, FloatSpan, TracksSkip, EntryNested, EntrySpans;
    var r := ReadElement(file, limit, off, TRACK_IDS);
    if off >= end || r.Err? {
      NothingSkipped(file, limit, off, end, TracksSpans(file, limit, off, end));
    } else {
      var el := r.value;
      var own := if el.id == ID_TRACK_ENTRY then EntrySpans(file, limit, el.start, el.end) else [];
      TracksOwnSplit(file, limit, off, el, own);
      TracksWithin(file, limit, el.end, end);
      WithinFrom(TracksSpans(file, limit, el.end, end), el.end, IdEnd(file, limit, end));
      TracksSeparates(file, limit, el.end, end);
      StepSeparates(file, limit, off, el, end, TRACK_IDS, own, TracksSpans(file, limit, el.end, end),
                    TracksSkip(file, limit, off, el), TracksSkipped(file, limit, el.end, end));
    }
  }

  lemma ChildSplit(file: seq<byte>, limit: nat, off: nat, el: Element)
    requires Bounded(file, limit) && el.start <= el.end <= limit && ChildNested(file, limit, el)
    ensures Split(file, limit, off, el, SegmentChildSpans(file, limit, el), ChildSkip(file, limit, off, el))
  {
    hide Split, Payload, Known, InfoSpans, TracksSpans, InfoSkipped, TracksSkipped, InfoNested, TracksNested, Separates, Within;
    var own, skip := SegmentChildSpans(file, limit, el), ChildSkip(file, limit, off, el);
    if el.id == ID_INFO {
      InfoWithin(file, limit, el.start, el.end);
      InfoSeparates(file, limit, el.start, el.end);
      EnteredSplit(file, limit, off, el, own, InfoSkipped(file, limit, el.start, el.end), skip);
    } else if el.id == ID_TRACKS {
      TracksWithin(file, limit, el.start, el.end);
      TracksSeparates(file, limit, el.start, el.end);
      EnteredSplit(file, limit, off, el, own, TracksSkipped(file, limit, el.start, el.end), skip);
    } else {
      PlainSplit(file, limit, off, el, own, skip);
    }
  }

  lemma {:induction false} SegmentSeparates(file: seq<byte>, limit: nat, off: nat, end: nat, f: Fields)
    requires Bounded(file, limit) && off <= end <= limit && SegmentNested(file, limit, off, end, f)
    ensures Separates(file, limit, off, end, SegmentSpans(file, limit, off, end, f), SegmentSkipped(file, limit, off, end, f))
    decreases Left(limit, off)
  {
    hide ReadElement, ElementSpans, IdEnd, From, Split, Separates, HeaderSpan, ChildNested, SegmentChildSpans, SegmentStep,
      ChildSkip;
    var r := ReadElement(file, limit, off, SEGMENT_IDS);
    if off >= end || r.Err? {
      NothingSkipped(file, limit, off, end, SegmentSpans(file, limit, off, end, f));
    } else {
      var el := r.value;
      var g := SegmentStep(file, limit, el, f);
      var more := if g.Done() then [] else SegmentSpans(file, limit, el.end, end, g);
      var moreSkip := if g.Done() then [] else SegmentSkipped(file, limit, el.end, end, g);
      ChildSplit(file, limit, off, el);
      if g.Done() {
        NoneFrom(el.end);
        NothingSkipped(file, limit, el.end, end, []);
      } else {
        SegmentFrom(file, limit, el.end, end, g);
        SegmentSeparates(file, limit, el.end, end, g);
      }
      StepSeparates(file, limit, off, el, end, SEGMENT_IDS, SegmentChildSpans(file, limit, el), more,
                    ChildSkip(file, limit, off, el), moreSkip);
    }
  }

  // The whole file.

  /** What is looked at below one top-level element. */
  function RootSpans(file: seq<byte>, limit: nat, el: Element, f: Fields): seq<Span>
    requires Bounded(file, limit)
  {
    if el.id == ID_SEGMENT then SegmentSpans(file, limit, el.start, el.end, f) else []
  }

  /** Nothing is searched for the end of a Segment. */
  lemma SegmentHeaderWithin(file: seq<byte>, limit: nat, off: nat, el: Element)
    requires Bounded(file, limit) && off < limit && ReadElement(file, limit, off, SEGMENT_IDS) == Ok(el) && el.id == ID_SEGMENT
    ensures Within(ElementSpans(file, limit, off, SEGMENT_IDS), off, el.start)
  {
    hide ReadHeader, HeaderSpan, FindPattern;
    HeaderParts(file, limit, off);
  }

  /** One top-level element: what is looked at, in it or below it, is apart from what is passed over of it. */
  lemma RootSplit(file: seq<byte>, limit: nat, off: nat, el: Element, f: Fields)
    requires Bounded(file, limit) && off < limit && ReadElement(file, limit, off, SEGMENT_IDS) == Ok(el)
    requires el.id == ID_SEGMENT ==> SegmentNested(file, limit, el.start, el.end, f)
    ensures IdEnd(file, limit, off) < el.start <= el.end <= limit
    ensures var skip := RootSkip(file, limit, off, el, f);
            && Within(skip, el.start, el.end) && Apart(RootSpans(file, limit, el, f), skip)
            && Apart(ElementSpans(file, limit, off, SEGMENT_IDS), skip)
  {
    hide IdEnd, Apart, Within, SegmentNested, SegmentSpans, SegmentSkipped, ElementSpans, ReadElement, Known;
    var skip := RootSkip(file, limit, off, el, f);
    KnownWithin(file, limit, off, el, SEGMENT_IDS);
    if el.id == ID_SEGMENT {
      SegmentSeparates(file, limit, el.start, el.end, f);
      IdEndAfter(file, limit, el.start);
      LooserStart(skip, IdEnd(file, limit, el.start), el.end, el.start);
      SegmentHeaderWithin(file, limit, off, el);
    } else {
      ApartNone(skip);
      PayloadWithin(file, limit, off, el);
    }
    if skip == [] {
      ApartNone(ElementSpans(file, limit, off, SEGMENT_IDS));
    } else {
      ApartAt(ElementSpans(file, limit, off, SEGMENT_IDS), skip, off, el.start, el.end);
    }
  }

  lemma PayloadWithin(file: seq<byte>, limit: nat, off: nat, el: Element)
    requires Bounded(file, limit) && el.start <= el.end
    ensures Within(Payload(file, limit, off, el), el.start, el.end)
    ensures Payload(file, limit, off, el) != [] ==> Known(file, limit, off)
  {
    hide ReadHeader;
  }

  lemma {:induction false} FileSkippedFrom(file: seq<byte>, limit: nat, off: nat, f: Fields)
    requires Bounded(file, limit) && off <= limit && FileNested(file, limit, off, f)
    ensures From(FileSkipped(file, limit, off, f), IdEnd(file, limit, off))
    decreases Left(limit, off)
  {
    hide ReadElement, IdEnd, From, Within, Apart, SegmentNested, SegmentWalk, RootSkip, RootSpans, ElementSpans;
    NoneFrom(IdEnd(file, limit, off));
    if off < limit {
      var r := ReadElement(file, limit, off, SEGMENT_IDS);
      if r.Ok? {
        var el := r.value;
        var g := if el.id == ID_SEGMENT then SegmentWalk(file, limit, el.start, el.end, f) else f;
        var skip := RootSkip(file, limit, off, el, f);
        var more := if g.Done() then [] else FileSkipped(file, limit, el.end, g);
        RootSplit(file, limit, off, el, f);
        WithinFrom(skip, el.start, el.end);
        NoneFrom(IdEnd(file, limit, el.end));
        if !g.Done() {
          FileSkippedFrom(file, limit, el.end, g);
        }
        IdEndAfter(file, limit, el.end);
        BothFrom(skip, more, el.start, IdEnd(file, limit, el.end), IdEnd(file, limit, off));
      }
    }
  }

  lemma BothFrom(a: seq<Span>, b: seq<Span>, lo: int, hi: int, bottom: int)
    requires From(a, lo) && From(b, hi) && bottom <= lo && bottom <= hi
    ensures From(a + b, bottom)
  {
  }

  lemma {:induction false} FileApart(file: seq<byte>, limit: nat, off: nat, f: Fields)
    requires Bounded(file, limit) && off <= limit && FileNested(file, limit, off, f)
    ensures Apart(FileSpans(file, limit, off, f), FileSkipped(file, limit, off, f))
    decreases Left(limit, off)
  {
    hide ReadElement, ElementSpans, IdEnd, Within, From, Apart, HeaderSpan, SegmentNested, SegmentSpans, RootSkip, SegmentWalk;
    var r := ReadElement(file, limit, off, SEGMENT_IDS);
    if off >= limit || r.Err? {
      ApartNone(FileSpans(file, limit, off, f));
    } else {
      var el, here := r.value, ElementSpans(file, limit, off, SEGMENT_IDS);
      var g := if el.id == ID_SEGMENT then SegmentWalk(file, limit, el.start, el.end, f) else f;
      var own, skip := RootSpans(file, limit, el, f), RootSkip(file, limit, off, el, f);
      var more := if g.Done() then [] else FileSpans(file, limit, el.end, g);
      var moreSkip := if g.Done() then [] else FileSkipped(file, limit, el.end, g);
      RootSplit(file, limit, off, el, f);
      ApartNone(here);
      ApartNone(own);
      ApartNone(skip);
      ApartNone([]);
      if !g.Done() {
        RootsApart(file, limit, off, el, f, g);
        FileApart(file, limit, el.end, g);
      }
      ApartParts(here, own, more, skip, moreSkip);
    }
  }

  /** What one top-level element reads or skips is apart from what those after it skip or read. */
  lemma RootsApart(file: seq<byte>, limit: nat, off: nat, el: Element, f: Fields, g: Fields)
    requires Bounded(file, limit) && off < limit && ReadElement(file, limit, off, SEGMENT_IDS) == Ok(el)
    requires g == if el.id == ID_SEGMENT then SegmentWalk(file, limit, el.start, el.end, f) else f
    requires el.id == ID_SEGMENT ==> SegmentNested(file, limit, el.start, el.end, f)
    requires FileNested(file, limit, el.end, g) && !g.Done()
    ensures var moreSkip := FileSkipped(file, limit, el.end, g);
            && Apart(ElementSpans(file, limit, off, SEGMENT_IDS), moreSkip) && Apart(RootSpans(file, limit, el, f), moreSkip)
            && Apart(FileSpans(file, limit, el.end, g), RootSkip(file, limit, off, el, f))
  {
    hide IdEnd, Within, From, Apart, SegmentNested, SegmentSpans, SegmentWalk, ElementSpans, FileSpans, FileSkipped,
      FileNested, RootSkip;
    var at, moreSkip := IdEnd(file, limit, el.end), FileSkipped(file, limit, el.end, g);
    FileSkippedFrom(file, limit, el.end, g);
    FileFrom(file, limit, el.end, g);
    TopFits(file, limit, off);
    ElementWithin(file, limit, off, limit, SEGMENT_IDS);
    ApartFrom(ElementSpans(file, limit, off, SEGMENT_IDS), moreSkip, off, at);
    RootSplit(file, limit, off, el, f);
    ApartFrom(RootSkip(file, limit, off, el, f), FileSpans(file, limit, el.end, g), el.start, el.end);
    if el.id == ID_SEGMENT {
      SegmentWithin(file, limit, el.start, el.end, f);
      ApartFrom(RootSpans(file, limit, el, f), moreSkip, el.start, at);
    } else {
      ApartNone(moreSkip);
    }
  }

  /** Where the parent ends with the file, every element fits: sizes that run past the end are cut there. */
  lemma TopFits(file: seq<byte>, limit: nat, off: nat)
    requires Bounded(file, limit) && off < limit
    ensures Fitting(file, limit, off, limit, SEGMENT_IDS)
  {
    hide HeaderSpan, ReadHeader;
    HeaderParts(file, limit, off);
  }

  /**
   * For arbitrary bytes in which everything met inside a Segment ends no later than what it is inside of: no byte the
   * probe can depend on lies in a payload of known size that it passes over, at any level.
   */
  lemma NestedReadsNothingSkipped(file: seq<byte>)
    requires |file| + CHUNK <= MAX_INT64 && Nested(file)
    ensures Apart(ProbeSpans(file), SkippedPayloads(file))
  {
    hide FileSpans, FileSkipped, FileNested;
    FileApart(file, Limit(file), 0, NO_FIELDS);
  }

  /** The bytes of f that differ in g all lie in payloads passed over. */
  ghost predicate DifferInside(f: seq<byte>, g: seq<byte>, skipped: seq<Span>) {
    |f| == |g| && forall p :: 0 <= p < |f| && f[p] != g[p] ==> exists t :: t in skipped && t.lo <= p < t.hi
  }

  /** Payload independence for nested bytes, truncated recordings included. */
  lemma NestedPayloadsDoNotMatter(f: seq<byte>, g: seq<byte>)
    requires |f| + CHUNK <= MAX_INT64 && Nested(f) && DifferInside(f, g, SkippedPayloads(f))
    ensures Probe(f) == Probe(g)
  {
    hide ProbeSpans, SkippedPayloads, Probe, Nested;
    var spans, skipped := ProbeSpans(f), SkippedPayloads(f);
    NestedReadsNothingSkipped(f);
    forall s | s in spans
      ensures Same(f, g, s)
    {
      forall p | s.lo <= p < s.hi && 0 <= p < |f|
        ensures f[p] == g[p]
      {
        forall t | t in skipped
          ensures !(t.lo <= p < t.hi)
        {
          assert s.hi <= t.lo || t.hi <= s.lo;
        }
      }
    }
    ProbeDependsOnSpans(f, g);
  }

  /** A recording cut off inside a Cluster: the Segment and the Cluster both declare more than there is. */
  function CutOff(x: byte, y: byte): seq<byte> {
    [0x18, 0x53, 0x80, 0x67, 0xA0, 0x1F, 0x43, 0xB6, 0x75, 0x8A, x, y]
  }

  lemma CutOffHeaders(x: byte, y: byte)
    ensures var file := CutOff(x, y);
            && ReadHeader(file, 12, 0) == Ok(Header(ID_SEGMENT, Vint(0xA0, 32, 1, false), 5))
            && ReadHeader(file, 12, 5) == Ok(Header(ID_CLUSTER, Vint(0x8A, 10, 1, false), 10))
  {
    hide ReadHeader, EncodeId, ByteLength;
    var file := CutOff(x, y);
    FourByteId(0x18, 0x53, 0x80, 0x67);
    assert file[0..5] == EncodeId(ID_SEGMENT) + [0xA0];
    ShortHeader(file, 0, ID_SEGMENT, 32);
    FourByteId(0x1F, 0x43, 0xB6, 0x75);
    assert file[5..10] == EncodeId(ID_CLUSTER) + [0x8A];
    ShortHeader(file, 5, ID_CLUSTER, 10);
  }

  /** It nests all the same, and what is left of the Cluster is passed over. */
  lemma CutOffIsNested(x: byte, y: byte)
    ensures Nested(CutOff(x, y)) && SkippedPayloads(CutOff(x, y)) == [Span(10, 12)]
  {
    hide ReadHeader, HeaderSpan, ReadElement;
    var file := CutOff(x, y);
    CutOffHeaders(x, y);
    KnownSizeClamps(file, 12, 0, SEGMENT_IDS);
    KnownSizeClamps(file, 12, 5, SEGMENT_IDS);
    KnownSizeFits(file, 12, 5, 12, SEGMENT_IDS);
    assert SegmentNested(file, 12, 12, 12, NO_FIELDS) && SegmentSkipped(file, 12, 12, 12, NO_FIELDS) == [];
    assert SegmentNested(file, 12, 5, 12, NO_FIELDS);
    assert SegmentSkipped(file, 12, 5, 12, NO_FIELDS) == [Span(10, 12)];
    assert SegmentWalk(file, 12, 12, 12, NO_FIELDS) == SegmentWalk(file, 12, 5, 12, NO_FIELDS) == NO_FIELDS;
    assert FileNested(file, 12, 12, NO_FIELDS) && FileSkipped(file, 12, 12, NO_FIELDS) == [];
  }
}
