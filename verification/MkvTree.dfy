/**
 * Matroska files as trees of elements, what a tree means, and the proof that
 * the walk over the encoded bytes recovers that meaning.
 */
module MkvTree {
  import opened Bytes
  import opened Vints
  import opened MkvSearch
  import opened MkvSpec

  /** An element with its size written in sizeLen bytes; a Master's payload is its children. */
  datatype Ebml =
    | Data(id: nat, sizeLen: nat, payload: seq<byte>)
    | Master(id: nat, sizeLen: nat, kids: seq<Ebml>)

  /** Known-size top-level elements, then possibly one Segment of unknown size that runs to the end. */
  datatype File = File(roots: seq<Ebml>, streaming: Option<(nat, seq<Ebml>)>)

  function Body(e: Ebml): seq<byte>
    decreases e, 0
  {
    match e
    case Data(_, _, payload) => payload
    case Master(_, _, kids) => Encode(kids)
  }

  function HeaderLength(e: Ebml): nat {
    ByteLength(e.id) + e.sizeLen
  }

  predicate ValidId(id: nat) {
    var n := ByteLength(id);
    n <= 8 && Pow128(n) <= id < 2 * Pow128(n)
  }

  predicate ValidHeader(e: Ebml)
    decreases e, 1
  {
    ValidId(e.id) && 1 <= e.sizeLen <= 8 && |Body(e)| < Pow128(e.sizeLen) - 1
  }

  /** ID, size and payload; an element without a valid header has no encoding and yields nothing. */
  function EncodeOne(e: Ebml): seq<byte>
    decreases e, 2
  {
    if ValidHeader(e) then EncodeElement(e.id, e.sizeLen, Body(e)) else []
  }

  function EncodeElement(id: nat, n: nat, body: seq<byte>): (s: seq<byte>)
    requires 1 <= n <= 8 && |body| < Pow128(n)
    ensures |s| == ByteLength(id) + n + |body|
  {
    EncodeId(id) + EncodeVint(|body|, n) + body
  }

  function Encode(es: seq<Ebml>): seq<byte>
    decreases es
  {
    if es == [] then [] else EncodeOne(es[0]) + Encode(es[1..])
  }

  function EncodeFile(f: File): seq<byte> {
    Encode(f.roots)
    + match f.streaming
      case None => []
      case Some((n, kids)) =>
        if 1 <= n <= 8 then EncodeId(ID_SEGMENT) + EncodeVint(Pow128(n) - 1, n) + Encode(kids) else []
  }

  predicate ValidAll(es: seq<Ebml>) {
    forall e :: e in es ==> ValidHeader(e)
  }

  /** Where the format nests, the tree nests: a Video element inside a TrackEntry is a Master, and so on. */
  predicate ValidEntry(es: seq<Ebml>) {
    ValidAll(es) && forall e :: e in es && e.id == ID_VIDEO ==> e.Master? && ValidAll(e.kids)
  }

  predicate ValidTracks(es: seq<Ebml>) {
    ValidAll(es) && forall e :: e in es && e.id == ID_TRACK_ENTRY ==> e.Master? && ValidEntry(e.kids)
  }

  predicate ValidSegment(es: seq<Ebml>) {
    && ValidAll(es)
    && (forall e :: e in es && e.id == ID_INFO ==> e.Master? && ValidAll(e.kids))
    && (forall e :: e in es && e.id == ID_TRACKS ==> e.Master? && ValidTracks(e.kids))
  }

  predicate ValidRoots(es: seq<Ebml>) {
    ValidAll(es) && forall e :: e in es && e.id == ID_SEGMENT ==> e.Master? && ValidSegment(e.kids)
  }

  predicate Valid(f: File) {
    && ValidRoots(f.roots)
    && (f.streaming.Some? ==> 1 <= f.streaming.value.0 <= 8 && ValidSegment(f.streaming.value.1))
  }

  // What a tree means, without reference to bytes, offsets or the order of the walk.

  function Last<T>(s: seq<T>, default: T): T {
    if s == [] then default else s[|s| - 1]
  }

  /** Values of the children called id that are readable numbers, in order. */
  function Numbers(es: seq<Ebml>, id: nat): seq<nat> {
    if es == [] then []
    else
      var v := UintOf(Body(es[0]));
      (if es[0].id == id && v.Some? then [v.value] else []) + Numbers(es[1..], id)
  }

  function Positive(s: seq<nat>): seq<nat> {
    if s == [] then [] else (if s[0] > 0 then [s[0]] else []) + Positive(s[1..])
  }

  function Floats(es: seq<Ebml>): seq<Float> {
    if es == [] then []
    else
      var v := FloatOf(Body(es[0]));
      (if es[0].id == ID_DURATION && v.Some? then [v.value] else []) + Floats(es[1..])
  }

  function Named(es: seq<Ebml>, id: nat): (r: seq<Ebml>)
    ensures forall e :: e in r ==> e in es && e.id == id
  {
    if es == [] then [] else (if es[0].id == id then [es[0]] else []) + Named(es[1..], id)
  }

  function Kids(e: Ebml): seq<Ebml> {
    if e.Master? then e.kids else []
  }

  /** The last PixelWidth and PixelHeight of a Video element. */
  function VideoSize(es: seq<Ebml>): (nat, nat) {
    (Last(Numbers(es, ID_PIXEL_WIDTH), 0), Last(Numbers(es, ID_PIXEL_HEIGHT), 0))
  }

  /** The size of the entry's last Video element. */
  function EntrySize(es: seq<Ebml>): (nat, nat) {
    var videos := Named(es, ID_VIDEO);
    if videos == [] then (0, 0) else VideoSize(Kids(videos[|videos| - 1]))
  }

  /** A video track whose dimensions are both positive. */
  predicate Usable(es: seq<Ebml>) {
    var types := Numbers(es, ID_TRACK_TYPE);
    types != [] && types[|types| - 1] == 1 && EntrySize(es).0 > 0 && EntrySize(es).1 > 0
  }

  function UsableSizes(entries: seq<Ebml>): seq<(nat, nat)> {
    if entries == [] then []
    else
      var kids := Kids(entries[0]);
      (if Usable(kids) then [EntrySize(kids)] else []) + UsableSizes(entries[1..])
  }

  /** The Info and Tracks elements of every Segment, in file order. */
  function Metadata(es: seq<Ebml>): seq<Ebml> {
    if es == [] then []
    else (if es[0].id == ID_INFO || es[0].id == ID_TRACKS then [es[0]] else []) + Metadata(es[1..])
  }

  function RootMetadata(roots: seq<Ebml>): seq<Ebml> {
    if roots == [] then []
    else (if roots[0].id == ID_SEGMENT then Metadata(Kids(roots[0])) else []) + RootMetadata(roots[1..])
  }

  function FileMetadata(f: File): seq<Ebml> {
    RootMetadata(f.roots) + if f.streaming.Some? then Metadata(f.streaming.value.1) else []
  }

  /** The elements up to the point where both an Info and a Tracks have been seen. */
  function UntilBoth(ms: seq<Ebml>, info: bool, tracks: bool): seq<Ebml> {
    if ms == [] || (info && tracks) then []
    else [ms[0]] + UntilBoth(ms[1..], info || ms[0].id == ID_INFO, tracks || ms[0].id == ID_TRACKS)
  }

  function AllScales(infos: seq<Ebml>): seq<nat> {
    if infos == [] then [] else Positive(Numbers(Kids(infos[0]), ID_TIMECODE_SCALE)) + AllScales(infos[1..])
  }

  function AllDurations(infos: seq<Ebml>): seq<Float> {
    if infos == [] then [] else Floats(Kids(infos[0])) + AllDurations(infos[1..])
  }

  function AllSizes(tracks: seq<Ebml>): seq<(nat, nat)> {
    if tracks == [] then [] else UsableSizes(Named(Kids(tracks[0]), ID_TRACK_ENTRY)) + AllSizes(tracks[1..])
  }

  /**
   * The last positive TimecodeScale and the last Duration seen before both Info
   * and Tracks have been found, and the first usable video track.
   */
  function Meaning(f: File): Fields {
    var used := UntilBoth(FileMetadata(f), false, false);
    var infos, tracks := Named(used, ID_INFO), Named(used, ID_TRACKS);
    var ds, sizes := AllDurations(infos), AllSizes(tracks);
    Fields(
      Last(AllScales(infos), DEFAULT_TIMECODE_SCALE),
      if ds == [] then None else Some(ds[|ds| - 1]),
      if sizes == [] then None else Some(sizes[0]),
      infos != [],
      tracks != [])
  }
}
