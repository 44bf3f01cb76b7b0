/** probeAVI as it runs: a chunk walk driven by an offset, filling in a shared state. */
module AviProbe {
  import opened Bytes
  import opened AviSpec

  /** aviState: what the walks have found so far. */
  class AviState {
    var avih: Option<Header>
    var video: Option<(int, int)>

    function Value(): State
      reads this
    {
      State(avih, video)
    }

    constructor ()
      ensures Value() == State(None, None)
    {
      avih, video := None, None;
    }
  }

  const MAX_DEPTH := 4

  /** aviWalkChunks, whose visitors never stop it: the chunks they are called on. */
  method WalkChunks(file: seq<byte>, start: int, end: int, depth: nat) returns (chunks: seq<Chunk>)
    requires 0 <= start && 0 <= end && depth <= MAX_DEPTH
    ensures chunks == Visited(file, start, end)
  {
    hide ReadChunk;
    chunks := [];
    if depth > MAX_DEPTH || start < 0 || end > MAX_END {
      return;
    }
    var off: nat := start;
    while off + 8 <= end
      invariant chunks + Visited(file, off, end) == Visited(file, start, end)
      decreases end - off
    {
      var r := ReadChunk(file, off, end);
      if r.None? {
        return;
      }
      var (c, next) := r.value;
      assert chunks + ([c] + Visited(file, next, end)) == (chunks + [c]) + Visited(file, next, end);
      chunks := chunks + [c];
      if next <= off {
        assert false;
      }
      off := next;
    }
  }

  method WalkStrl(file: seq<byte>, start: nat, end: nat, st: AviState)
    modifies st`video
    ensures st.video == Keep(old(st.video), StreamFold(file, Visited(file, start, end), Stream([], None)))
  {
    hide Visited, FourCC, Head, BitmapSize;
    var fccType: seq<byte>, size: Option<(int, int)> := [], None;
    var chunks := WalkChunks(file, start, end, 2);
    for i := 0 to |chunks|
      invariant StreamFold(file, chunks[i..], Stream(fccType, size)) == StreamFold(file, chunks, Stream([], None))
      invariant st.video == old(st.video)
    {
      assert chunks[i..][1..] == chunks[i + 1..];
      if chunks[i].id == STRH {
        fccType := FourCC(file, chunks[i].start);
      } else if chunks[i].id == STRF {
        var s := BitmapSize(Head(file, chunks[i], 12));
        if s.Some? {
          size := s;
        }
      }
    }
    if fccType == VIDS && size.Some? && st.video.None?
       && size.value.0 > 0 && size.value.1 > 0
       && size.value.0 <= MAX_DIMENSION && size.value.1 <= MAX_DIMENSION {
      st.video := size;
    }
  }

  method WalkHdrl(file: seq<byte>, start: nat, end: nat, st: AviState)
    modifies st
    ensures st.Value() == HeaderFold(file, Visited(file, start, end), old(st.Value()))
  {
    hide Visited, FourCC, Head, MainHeader, StreamFold, Keep;
    var chunks := WalkChunks(file, start, end, 1);
    for i := 0 to |chunks|
      invariant HeaderFold(file, chunks[i..], st.Value()) == HeaderFold(file, chunks, old(st.Value()))
    {
      assert chunks[i..][1..] == chunks[i + 1..];
      if chunks[i].id == AVIH {
        var h := MainHeader(Head(file, chunks[i], 40));
        if h.Some? {
          st.avih := h;
        }
      } else if chunks[i].id == LIST {
        if FourCC(file, chunks[i].start) == STRL {
          WalkStrl(file, chunks[i].start + 4, chunks[i].end, st);
        }
      }
    }
  }

  method ProbeAVI(file: seq<byte>, size: int) returns (info: Info)
    ensures info == Probe(file, size)
  {
    hide Visited, FourCC, HeaderFold;
    if size < 12 {
      return Info(None, 0, 0);
    }
    var hdr := ReadAt(file, 12, 0);
    if hdr.None? || hdr.value[0..4] != RIFF || hdr.value[8..12] != AVI {
      return Info(None, 0, 0);
    }
    var riffEnd := LittleEndian(hdr.value[4..8]) + 8;
    if riffEnd > size || riffEnd < 12 {
      riffEnd := size;
    }
    var st := new AviState();
    var chunks := WalkChunks(file, 12, riffEnd, 0);
    for i := 0 to |chunks|
      invariant fresh(st)
      invariant TopFold(file, chunks[i..], st.Value()) == TopFold(file, chunks, State(None, None))
    {
      assert chunks[i..][1..] == chunks[i + 1..];
      if chunks[i].id == LIST {
        if FourCC(file, chunks[i].start) == HDRL {
          WalkHdrl(file, chunks[i].start + 4, chunks[i].end, st);
        }
      }
    }
    info := InfoOf(st.Value());
  }
}
