/** The Matroska walk as functions of the file's bytes alone: no position, no buffer. */
module MkvSpec {
  import opened Bytes
  import opened Vints
  import opened MkvSearch

  const DEFAULT_TIMECODE_SCALE := 1_000_000
  const MAX_DIMENSION := 65536

  datatype Element = Element(id: nat, start: nat, end: nat)

  /** IEEE bits of a 4- or 8-byte float, uninterpreted. */
  datatype Float = Float(bits: nat, wide: bool)

  datatype Fields = Fields(
    scale: nat, duration: Option<Float>, video: Option<(nat, nat)>, haveInfo: bool, haveTracks: bool)
  {
    predicate Done() { haveInfo && haveTracks }
  }

  const NO_FIELDS := Fields(DEFAULT_TIMECODE_SCALE, None, None, false, false)

  /** Duration as float bits times a scale in nanoseconds; zero dimensions mean unknown. */
  datatype Info = Info(duration: Option<(Float, nat)>, width: nat, height: nat)

  function InfoOf(f: Fields): Info {
    var d := if f.duration.Some? then Some((f.duration.value, if f.scale == 0 then DEFAULT_TIMECODE_SCALE else f.scale))
             else None;
    if f.video.Some? && 0 < f.video.value.0 <= MAX_DIMENSION && 0 < f.video.value.1 <= MAX_DIMENSION then
      Info(d, f.video.value.0, f.video.value.1)
    else
      Info(d, 0, 0)
  }

  /**
   * The walk's limit is the file length, kept one search window below 2^63; a
   * file of length zero is walked with the largest int64 as its limit.
   */
  predicate Bounded(file: seq<byte>, limit: nat) {
    limit <= MAX_INT64 && (file != [] ==> limit <= |file| && limit + CHUNK <= MAX_INT64)
  }

  function ReadVintAt(file: seq<byte>, limit: nat, pos: nat): (r: Result<Vint, Error>)
    requires Bounded(file, limit)
    ensures r.Ok? ==> file != [] && 1 <= r.value.length <= 8 && pos + r.value.length <= limit
    ensures r.Ok? ==> r.value.value < Pow128(8)
  {
    if pos >= limit || pos >= |file| then Err(EndOfFile)
    else if file[pos] == 0 then Err(InvalidVint)
    else
      var n := LeadingLength(file[pos]);
      if n > 1 && n - 1 > limit - (pos + 1) then Err(UnexpectedEOF)
      else
        ParseFailsExactly(file[pos..pos + n]);
        Parse(file[pos..pos + n])
  }

  /** Reading at a position is parsing the bytes from there up to the limit. */
  lemma ReadVintIsParse(file: seq<byte>, limit: nat, pos: nat)
    requires Bounded(file, limit) && pos < limit && file != []
    ensures ReadVintAt(file, limit, pos) == Parse(file[pos..limit])
  {
    var b := file[pos..limit];
    if b[0] != 0 && LeadingLength(b[0]) <= |b| {
      var n := LeadingLength(b[0]);
      assert file[pos..pos + n] == b[..n] == b[..n][..n];
    }
  }

  /** Where a payload that starts at headerEnd ends: the declared size, clamped, or the next sibling. */
  function EndOf(file: seq<byte>, limit: nat, headerEnd: nat, id: nat, size: Vint, siblings: seq<nat>): (end: nat)
    requires headerEnd <= limit <= |file| && size.value <= MAX_INT64
    ensures headerEnd <= end <= limit
  {
    if size.unknown && id == ID_SEGMENT then limit
    else if size.unknown then FindNext(file, limit, headerEnd, siblings)
    else
      var e := Add64(headerEnd, size.value);
      if e < headerEnd || e > limit then limit else e
  }

  /** An element header: raw ID, size, and the offset just past both. */
  datatype Header = Header(id: nat, size: Vint, end: nat)

  function ReadHeader(file: seq<byte>, limit: nat, off: nat): (r: Result<Header, Error>)
    requires Bounded(file, limit)
    ensures r.Ok? ==> off + 2 <= r.value.end <= limit <= |file|
    ensures r.Ok? ==> r.value.size.value < 0x100_0000_0000_0000
  {
    PowTable();
    var id :- ReadVintAt(file, limit, off);
    var size :- ReadVintAt(file, limit, off + id.length);
    Ok(Header(id.raw, size, off + id.length + size.length))
  }

  /**
   * readElement: a header, then an end that is clamped to the limit whatever
   * size is declared. The bounds hold for arbitrary bytes; with them every walk
   * below makes progress and stays inside the file.
   */
  function ReadElement(file: seq<byte>, limit: nat, off: int, siblings: seq<nat>): (r: Result<Element, Error>)
    requires Bounded(file, limit)
    ensures r.Ok? ==> off >= 0 && off + 2 <= r.value.start <= r.value.end <= limit <= |file|
  {
    if off < 0 || off >= limit then Err(EndOfFile)
    else
      var h :- ReadHeader(file, limit, off);
      if h.size.value > MAX_INT64 then Err(BadSize)
      else
        var end := EndOf(file, limit, h.end, h.id, h.size, siblings);
        if end <= off || end > limit then Err(BadSize) else Ok(Element(h.id, h.end, end))
  }

  /** A known size ends the payload at min(header end + size, limit): the int64 sum cannot mislead. */
  lemma KnownSizeClamps(file: seq<byte>, limit: nat, off: nat, siblings: seq<nat>)
    requires Bounded(file, limit) && off < limit
    requires ReadHeader(file, limit, off).Ok? && !ReadHeader(file, limit, off).value.size.unknown
    ensures var h := ReadHeader(file, limit, off).value;
            ReadElement(file, limit, off, siblings) == Ok(Element(h.id, h.end, Min(h.end + h.size.value, limit)))
  {
  }

  function UintOf(p: seq<byte>): Option<nat> {
    if 0 < |p| <= 8 then Some(BigEndian(p)) else None
  }

  /** The payload's float bits, unless the length is odd or the exponent says NaN or infinity. */
  function FloatOf(p: seq<byte>): Option<Float> {
    if |p| == 4 && (BigEndian(p) / 0x80_0000) % 0x100 != 0xFF then Some(Float(BigEndian(p), false))
    else if |p| == 8 && (BigEndian(p) / 0x10_0000_0000_0000) % 0x800 != 0x7FF then Some(Float(BigEndian(p), true))
    else None
  }

  function Left(limit: nat, off: nat): nat {
    if off < limit then limit - off else 0
  }

  function VideoStep(id: nat, p: seq<byte>, dims: (nat, nat)): (nat, nat) {
    if id == ID_PIXEL_WIDTH && UintOf(p).Some? then (UintOf(p).value, dims.1)
    else if id == ID_PIXEL_HEIGHT && UintOf(p).Some? then (dims.0, UintOf(p).value)
    else dims
  }

  function VideoWalk(file: seq<byte>, limit: nat, off: nat, end: nat, dims: (nat, nat)): (nat, nat)
    requires Bounded(file, limit)
    decreases Left(limit, off)
  {
    if off >= end then dims
    else
      match ReadElement(file, limit, off, VIDEO_IDS)
      case Err(_) => dims
      case Ok(el) => VideoWalk(file, limit, el.end, end, VideoStep(el.id, file[el.start..el.end], dims))
  }

  datatype Entry = Entry(trackType: Option<nat>, dims: (nat, nat))

  const NO_ENTRY := Entry(None, (0, 0))

  function EntryStep(file: seq<byte>, limit: nat, el: Element, st: Entry): Entry
    requires Bounded(file, limit) && el.start <= el.end <= |file|
  {
    var v := UintOf(file[el.start..el.end]);
    if el.id == ID_TRACK_TYPE && v.Some? then st.(trackType := v)
    else if el.id == ID_VIDEO then st.(dims := VideoWalk(file, limit, el.start, el.end, (0, 0)))
    else st
  }

  function EntryWalk(file: seq<byte>, limit: nat, off: nat, end: nat, st: Entry): Entry
    requires Bounded(file, limit)
    decreases Left(limit, off)
  {
    if off >= end then st
    else
      match ReadElement(file, limit, off, ENTRY_IDS)
      case Err(_) => st
      case Ok(el) => EntryWalk(file, limit, el.end, end, EntryStep(file, limit, el, st))
  }

  /** Track type 1 is video; the first usable video track is kept. */
  function Keep(video: Option<(nat, nat)>, e: Entry): Option<(nat, nat)> {
    if e.trackType == Some(1) && video.None? && e.dims.0 > 0 && e.dims.1 > 0 then Some(e.dims) else video
  }

  function TracksWalk(file: seq<byte>, limit: nat, off: nat, end: nat, video: Option<(nat, nat)>): Option<(nat, nat)>
    requires Bounded(file, limit)
    decreases Left(limit, off)
  {
    if off >= end then video
    else
      match ReadElement(file, limit, off, TRACK_IDS)
      case Err(_) => video
      case Ok(el) =>
        TracksWalk(file, limit, el.end, end,
          if el.id == ID_TRACK_ENTRY then Keep(video, EntryWalk(file, limit, el.start, el.end, NO_ENTRY)) else video)
  }

  function InfoStep(id: nat, p: seq<byte>, f: Fields): Fields {
    if id == ID_TIMECODE_SCALE && UintOf(p).Some? && UintOf(p).value > 0 then f.(scale := UintOf(p).value)
    else if id == ID_DURATION && FloatOf(p).Some? then f.(duration := FloatOf(p))
    else f
  }

  function InfoWalk(file: seq<byte>, limit: nat, off: nat, end: nat, f: Fields): (g: Fields)
    requires Bounded(file, limit)
    ensures g.haveInfo == f.haveInfo && g.haveTracks == f.haveTracks && g.video == f.video
    decreases Left(limit, off)
  {
    if off >= end then f
    else
      match ReadElement(file, limit, off, INFO_IDS)
      case Err(_) => f
      case Ok(el) => InfoWalk(file, limit, el.end, end, InfoStep(el.id, file[el.start..el.end], f))
  }

  function SegmentStep(file: seq<byte>, limit: nat, el: Element, f: Fields): Fields
    requires Bounded(file, limit)
  {
    if el.id == ID_INFO then InfoWalk(file, limit, el.start, el.end, f.(haveInfo := true))
    else if el.id == ID_TRACKS then
      f.(haveTracks := true, video := TracksWalk(file, limit, el.start, el.end, f.video))
    else f
  }

  function SegmentWalk(file: seq<byte>, limit: nat, off: nat, end: nat, f: Fields): Fields
    requires Bounded(file, limit)
    decreases Left(limit, off)
  {
    if off >= end then f
    else
      match ReadElement(file, limit, off, SEGMENT_IDS)
      case Err(_) => f
      case Ok(el) =>
        var g := SegmentStep(file, limit, el, f);
        if g.Done() then g else SegmentWalk(file, limit, el.end, end, g)
  }

  function FileWalk(file: seq<byte>, limit: nat, off: nat, f: Fields): Fields
    requires Bounded(file, limit)
    decreases Left(limit, off)
  {
    if off >= limit then f
    else
      match ReadElement(file, limit, off, SEGMENT_IDS)
      case Err(_) => f
      case Ok(el) =>
        var g := if el.id == ID_SEGMENT then SegmentWalk(file, limit, el.start, el.end, f) else f;
        if g.Done() then g else FileWalk(file, limit, el.end, g)
  }

  function Limit(file: seq<byte>): nat {
    if file == [] then MAX_INT64 else |file|
  }

  function Probe(file: seq<byte>): Info
    requires |file| + CHUNK <= MAX_INT64
  {
    InfoOf(FileWalk(file, Limit(file), 0, NO_FIELDS))
  }

  /** With a reported size: nothing is read past it, and a negative one is refused. */
  function ProbeUpTo(file: seq<byte>, size: int): Info
    requires size <= |file| && |file| + CHUNK <= MAX_INT64 && (size == 0 ==> file == [])
  {
    if size < 0 then InfoOf(NO_FIELDS) else InfoOf(FileWalk(file, if size == 0 then MAX_INT64 else size, 0, NO_FIELDS))
  }
}
