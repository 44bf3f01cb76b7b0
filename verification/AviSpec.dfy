/** RIFF/AVI chunks: walking them and probing an AVI header. */
module AviSpec {
  import opened Bytes
  import Mp4Spec

  const RIFF: seq<byte> := [0x52, 0x49, 0x46, 0x46]
  const AVI: seq<byte> := [0x41, 0x56, 0x49, 0x20]
  const LIST: seq<byte> := [0x4C, 0x49, 0x53, 0x54]
  const HDRL: seq<byte> := [0x68, 0x64, 0x72, 0x6C]
  const AVIH: seq<byte> := [0x61, 0x76, 0x69, 0x68]
  const STRL: seq<byte> := [0x73, 0x74, 0x72, 0x6C]
  const STRH: seq<byte> := [0x73, 0x74, 0x72, 0x68]
  const STRF: seq<byte> := [0x73, 0x74, 0x72, 0x66]
  const VIDS: seq<byte> := [0x76, 0x69, 0x64, 0x73]

  const MAX_END := 0x4000_0000_0000_0000
  const MAX_DIMENSION := 65536

  /** A chunk's id and the extent of its payload. */
  datatype Chunk = Chunk(id: seq<byte>, start: nat, end: nat)

  function ReadAt(file: seq<byte>, n: nat, off: int): Option<seq<byte>> {
    Mp4Spec.ReadAt(file, n, off)
  }

  /** The chunk whose header is at off, clamped to end, and where the next header is. */
  function ReadChunk(file: seq<byte>, off: nat, end: nat): (r: Option<(Chunk, nat)>)
    requires off + 8 <= end
    ensures r.Some? ==> off + 8 == r.value.0.start <= r.value.0.end <= end && r.value.0.end <= r.value.1
  {
    match ReadAt(file, 8, off)
    case None => None
    case Some(h) =>
      var declared := LittleEndian(h[4..8]);
      var start := off + 8;
      var stop := if start + declared > end then end else start + declared;
      Some((Chunk(h[0..4], start, stop), stop + declared % 2))
  }

  /** The chunks visited in [off, end). Every step advances by at least eight bytes. */
  function Visited(file: seq<byte>, off: nat, end: nat): (v: seq<Chunk>)
    ensures forall i :: 0 <= i < |v| ==> off + 8 <= v[i].start <= v[i].end <= end
    ensures forall i :: 0 < i < |v| ==> v[i - 1].end + 8 <= v[i].start
    decreases if off < end then end - off else 0
  {
    if end > MAX_END || off + 8 > end then []
    else
      match ReadChunk(file, off, end)
      case None => []
      case Some((c, next)) =>
        var rest := Visited(file, next, end);
        assert forall i :: 0 < i < |[c] + rest| ==> ([c] + rest)[i] == rest[i - 1];
        [c] + rest
  }

  /** Four bytes at off, or nothing. */
  function FourCC(file: seq<byte>, off: int): seq<byte> {
    match ReadAt(file, 4, off) case None => [] case Some(b) => b
  }

  function Signed32(v: nat): int {
    if v >= 0x8000_0000 then v - 0x1_0000_0000 else v
  }

  datatype Header = Header(microSecPerFrame: nat, totalFrames: nat, width: int, height: int)

  datatype State = State(avih: Option<Header>, video: Option<(int, int)>)

  /** The main header: frame period, frame count and nominal size. */
  function MainHeader(b: seq<byte>): Option<Header> {
    if |b| < 40 then None
    else
      Some(Header(LittleEndian(b[0..4]), LittleEndian(b[16..20]),
                  Signed32(LittleEndian(b[32..36])), Signed32(LittleEndian(b[36..40]))))
  }

  function BitmapSize(b: seq<byte>): Option<(int, int)> {
    if |b| < 12 then None else Some((Signed32(LittleEndian(b[4..8])), Signed32(LittleEndian(b[8..12]))))
  }

  /** The first n bytes of a chunk that has that many, when they can be read. */
  function Head(file: seq<byte>, c: Chunk, n: nat): seq<byte> {
    if c.end - c.start < n then [] else match ReadAt(file, n, c.start) case None => [] case Some(b) => b
  }

  datatype Stream = Stream(fccType: seq<byte>, size: Option<(int, int)>)

  function StreamStep(file: seq<byte>, c: Chunk, s: Stream): Stream {
    if c.id == STRH then s.(fccType := FourCC(file, c.start))
    else if c.id == STRF && BitmapSize(Head(file, c, 12)).Some? then s.(size := BitmapSize(Head(file, c, 12)))
    else s
  }

  function StreamFold(file: seq<byte>, cs: seq<Chunk>, s: Stream): Stream {
    if cs == [] then s else StreamFold(file, cs[1..], StreamStep(file, cs[0], s))
  }

  /** The first video stream with dimensions in range is kept. */
  function Keep(video: Option<(int, int)>, s: Stream): Option<(int, int)> {
    if s.fccType == VIDS && s.size.Some? && video.None?
       && 0 < s.size.value.0 <= MAX_DIMENSION && 0 < s.size.value.1 <= MAX_DIMENSION then s.size
    else video
  }

  function HeaderStep(file: seq<byte>, c: Chunk, st: State): State {
    if c.id == AVIH then
      var h := MainHeader(Head(file, c, 40));
      if h.Some? then st.(avih := h) else st
    else if c.id == LIST && FourCC(file, c.start) == STRL then
      st.(video := Keep(st.video, StreamFold(file, Visited(file, c.start + 4, c.end), Stream([], None))))
    else st
  }

  function HeaderFold(file: seq<byte>, cs: seq<Chunk>, st: State): State {
    if cs == [] then st else HeaderFold(file, cs[1..], HeaderStep(file, cs[0], st))
  }

  function TopStep(file: seq<byte>, c: Chunk, st: State): State {
    if c.id == LIST && FourCC(file, c.start) == HDRL then
      HeaderFold(file, Visited(file, c.start + 4, c.end), st)
    else st
  }

  function TopFold(file: seq<byte>, cs: seq<Chunk>, st: State): State {
    if cs == [] then st else TopFold(file, cs[1..], TopStep(file, cs[0], st))
  }

  /** Duration as frame period times frame count; zero dimensions mean unknown. */
  datatype Info = Info(duration: Option<(nat, nat)>, width: int, height: int)

  function InfoOf(st: State): Info {
    var d :=
      if st.avih.Some? && st.avih.value.microSecPerFrame > 0 && st.avih.value.totalFrames > 0 then
        Some((st.avih.value.microSecPerFrame, st.avih.value.totalFrames))
      else None;
    if st.video.Some? then Info(d, st.video.value.0, st.video.value.1)
    else if st.avih.Some? && st.avih.value.width > 0 && st.avih.value.height > 0 then
      Info(d, st.avih.value.width, st.avih.value.height)
    else Info(d, 0, 0)
  }

  function RiffEnd(declared: nat, size: nat): nat {
    if declared + 8 > size || declared + 8 < 12 then size else declared + 8
  }

  /** The size is the one reported for the file; reading past the end of the file fails whatever it says. */
  function Probe(file: seq<byte>, size: int): Info {
    if size < 12 then Info(None, 0, 0)
    else
      match ReadAt(file, 12, 0)
      case None => Info(None, 0, 0)
      case Some(h) =>
        if h[0..4] != RIFF || h[8..12] != AVI then Info(None, 0, 0)
        else InfoOf(TopFold(file, Visited(file, 12, RiffEnd(LittleEndian(h[4..8]), size)), State(None, None)))
  }
}
