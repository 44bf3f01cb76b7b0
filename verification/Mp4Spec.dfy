/** ISO base media boxes (section 4.2 of ISO/IEC 14496-12): reading one, walking many, probing a movie. */
module Mp4Spec {
  import opened Bytes

  const MOOV: seq<byte> := [0x6D, 0x6F, 0x6F, 0x76]
  const MVHD: seq<byte> := [0x6D, 0x76, 0x68, 0x64]
  const MVEX: seq<byte> := [0x6D, 0x76, 0x65, 0x78]
  const MEHD: seq<byte> := [0x6D, 0x65, 0x68, 0x64]
  const TRAK: seq<byte> := [0x74, 0x72, 0x61, 0x6B]
  const TKHD: seq<byte> := [0x74, 0x6B, 0x68, 0x64]
  const MDIA: seq<byte> := [0x6D, 0x64, 0x69, 0x61]
  const HDLR: seq<byte> := [0x68, 0x64, 0x6C, 0x72]
  const VIDE: seq<byte> := [0x76, 0x69, 0x64, 0x65]

  const MAX_DIMENSION := 65536

  /** One box: its header at start, hdr header bytes, size bytes in all. Offsets are int64. */
  datatype Box = Box(typ: seq<byte>, start: int, size: int, hdr: int) {
    function PayloadStart(): int { Add64(start, hdr) }

    function End(): int { Add64(start, size) }

    function PayloadSize(): int { size - hdr }
  }

  /** Reading n bytes at off: all of them or nothing. */
  function ReadAt(file: seq<byte>, n: nat, off: int): Option<seq<byte>> {
    if 0 <= off && off + n <= |file| then Some(file[off..off + n]) else None
  }

  /** What readMP4Box accepts at off inside limit, with its int64 sums as they are. */
  function ReadBox(file: seq<byte>, off: int, limit: int): (r: Option<Box>)
    requires limit <= MAX_INT64
    ensures r.Some? ==> 0 <= off == r.value.start && 8 <= r.value.hdr <= r.value.size <= MAX_INT64
    ensures r.Some? ==> off + 8 <= |file| && r.value.End() <= limit
  {
    if off < 0 || limit < 0 || Add64(off, 8) > limit then None
    else
      match ReadAt(file, 8, off)
      case None => None
      case Some(head) =>
        var size := BigEndian(head[..4]);
        var typ := head[4..8];
        if size == 0 then Bounded(Box(typ, off, limit - off, 8), limit)
        else if size == 1 then
          if Add64(off, 16) > limit then None
          else
            match ReadAt(file, 8, Add64(off, 8))
            case None => None
            case Some(ext) =>
              var large := BigEndian(ext);
              if large > MAX_INT64 then None else Bounded(Box(typ, off, large, 16), limit)
        else
          BigEndianBound(head[..4]);
          PowTable();
          Bounded(Box(typ, off, size, 8), limit)
  }

  function Bounded(b: Box, limit: int): Option<Box> {
    if b.size < b.hdr || b.End() > limit then None else Some(b)
  }

  /** The boxes a walk of [off, end) visits, one after another. */
  function Visited(file: seq<byte>, off: int, end: int): (v: seq<Box>)
    requires off <= MAX_INT64 && end <= MAX_INT64
    decreases MAX_INT64 - off
  {
    if Add64(off, 8) > end then []
    else
      match ReadBox(file, off, end)
      case None => []
      case Some(b) => [b] + if b.End() <= off then [] else Visited(file, b.End(), end)
  }

  /** The first box of a type, where a walk that looks for it stops. */
  function First(boxes: seq<Box>, typ: seq<byte>): Option<Box> {
    if boxes == [] then None else if boxes[0].typ == typ then Some(boxes[0]) else First(boxes[1..], typ)
  }

  /** At most most bytes from the start of the payload; nothing when they cannot all be read. */
  function PayloadHead(file: seq<byte>, b: Box, most: nat): seq<byte> {
    var n := Min(b.PayloadSize(), most);
    if n <= 0 then [] else match ReadAt(file, n, b.PayloadStart()) case None => [] case Some(p) => p
  }

  /** At most n bytes from the end of the payload. */
  function PayloadTail(file: seq<byte>, b: Box, n: nat): seq<byte> {
    var m := Min(b.PayloadSize(), n);
    if m <= 0 then [] else match ReadAt(file, m, Add64(b.End(), -m)) case None => [] case Some(p) => p
  }

  /** Timescale and duration of an mvhd payload; the all-ones duration means unknown. */
  function MovieHeader(p: seq<byte>): Option<(nat, nat)> {
    if |p| < 4 then None
    else if p[0] == 0 && |p| >= 20 then
      var d := BigEndian(p[16..20]);
      Some((BigEndian(p[12..16]), if d == 0xFFFF_FFFF then 0 else d))
    else if p[0] == 1 && |p| >= 32 then
      var d := BigEndian(p[24..32]);
      Some((BigEndian(p[20..24]), if d == 0xFFFF_FFFF_FFFF_FFFF then 0 else d))
    else None
  }

  function FragmentDuration(p: seq<byte>): Option<nat> {
    if |p| < 4 then None
    else if p[0] == 0 && |p| >= 8 then Some(BigEndian(p[4..8]))
    else if p[0] == 1 && |p| >= 12 then Some(BigEndian(p[4..12]))
    else None
  }

  /** Width and height: the integer parts of the last two 16.16 numbers of a tkhd. */
  function TrackSize(tail: seq<byte>): Option<(nat, nat)> {
    if |tail| < 8 then None
    else
      var w, h := BigEndian(tail[0..4]) / 65536, BigEndian(tail[4..8]) / 65536;
      if w <= 0 || h <= 0 || w > MAX_DIMENSION || h > MAX_DIMENSION then None else Some((w, h))
  }

  datatype Track = Track(handler: seq<byte>, tkhd: Option<Box>)

  function HandlerFold(file: seq<byte>, boxes: seq<Box>, handler: seq<byte>): seq<byte> {
    if boxes == [] then handler
    else
      var p := PayloadHead(file, boxes[0], 12);
      HandlerFold(file, boxes[1..], if boxes[0].typ == HDLR && |p| >= 12 then p[8..12] else handler)
  }

  function TrackStep(file: seq<byte>, b: Box, t: Track): Track {
    if b.typ == TKHD then t.(tkhd := Some(b))
    else if b.typ == MDIA then t.(handler := HandlerFold(file, Visited(file, b.PayloadStart(), b.End()), t.handler))
    else t
  }

  function TrackFold(file: seq<byte>, boxes: seq<Box>, t: Track): Track {
    if boxes == [] then t else TrackFold(file, boxes[1..], TrackStep(file, boxes[0], t))
  }

  /** parseTrak: the dimensions of a track, when it is a video track and has usable ones. */
  function TrakSize(file: seq<byte>, trak: Box): Option<(nat, nat)> {
    var t := TrackFold(file, Visited(file, trak.PayloadStart(), trak.End()), Track([], None));
    if t.handler != VIDE || t.tkhd.None? then None else TrackSize(PayloadTail(file, t.tkhd.value, 8))
  }

  datatype Movie = Movie(header: Option<(nat, nat)>, fragment: Option<nat>, width: nat, height: nat)

  function FragmentFold(file: seq<byte>, boxes: seq<Box>, d: Option<nat>): Option<nat> {
    if boxes == [] then d
    else
      var v := FragmentDuration(PayloadHead(file, boxes[0], 12));
      FragmentFold(file, boxes[1..], if boxes[0].typ == MEHD && v.Some? then v else d)
  }

  function MovieStep(file: seq<byte>, b: Box, m: Movie): Movie {
    if b.typ == MVHD then
      var h := MovieHeader(PayloadHead(file, b, 32));
      if h.Some? then m.(header := h) else m
    else if b.typ == TRAK then
      var s := TrakSize(file, b);
      if s.Some? && m.width == 0 && m.height == 0 then m.(width := s.value.0, height := s.value.1) else m
    else if b.typ == MVEX then
      m.(fragment := FragmentFold(file, Visited(file, b.PayloadStart(), b.End()), m.fragment))
    else m
  }

  function MovieFold(file: seq<byte>, boxes: seq<Box>, m: Movie): Movie {
    if boxes == [] then m else MovieFold(file, boxes[1..], MovieStep(file, boxes[0], m))
  }

  /** Duration in units of a timescale; zero dimensions mean unknown. */
  datatype Info = Info(duration: Option<(nat, nat)>, width: nat, height: nat)

  function InfoOf(m: Movie): Info {
    var d :=
      if m.header.None? || m.header.value.0 == 0 then None
      else
        var units := if m.header.value.1 == 0 && m.fragment.Some? then m.fragment.value else m.header.value.1;
        Some((units, m.header.value.0));
    if 0 < m.width <= MAX_DIMENSION && 0 < m.height <= MAX_DIMENSION then Info(d, m.width, m.height)
    else Info(d, 0, 0)
  }

  /** The size is the one reported for the file; reading past the end of the file fails whatever it says. */
  function Probe(file: seq<byte>, size: int): Info
    requires size <= MAX_INT64
  {
    if size < 8 then Info(None, 0, 0)
    else
      match First(Visited(file, 0, size), MOOV)
      case None => Info(None, 0, 0)
      case Some(moov) =>
        InfoOf(MovieFold(file, Visited(file, moov.PayloadStart(), moov.End()), Movie(None, None, 0, 0)))
  }
}
