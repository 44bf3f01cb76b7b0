/** probeMKV and its nested walks over the scanner, each proved against its walk over the bytes. */
module MkvProbe {
  import opened Bytes
  import opened MkvSearch
  import opened MkvSpec
  import opened MkvScanner

  /** mkvFields: what the walks have found so far. */
  class Found {
    var timecodeScale: nat
    var duration: Option<Float>
    var video: Option<(nat, nat)>
    var haveInfo: bool
    var haveTracks: bool

    ghost function Value(): Fields
      reads this
    {
      Fields(timecodeScale, duration, video, haveInfo, haveTracks)
    }

    constructor ()
      ensures Value() == NO_FIELDS
    {
      timecodeScale, duration, video := DEFAULT_TIMECODE_SCALE, None, None;
      haveInfo, haveTracks := false, false;
    }

    method ToInfo() returns (info: Info)
      ensures info == InfoOf(Value())
    {
      var d := None;
      if duration.Some? {
        var scale := timecodeScale;
        if scale == 0 {
          scale := DEFAULT_TIMECODE_SCALE;
        }
        d := Some((duration.value, scale));
      }
      info := Info(d, 0, 0);
      if video.Some? && video.value.0 > 0 && video.value.1 > 0
         && video.value.0 <= MAX_DIMENSION && video.value.1 <= MAX_DIMENSION {
        info := Info(d, video.value.0, video.value.1);
      }
    }
  }

  method ParseVideo(s: Scanner, el: Element) returns (width: nat, height: nat)
    requires s.Valid() && s.file != []
    modifies s
    ensures s.Valid() && (width, height) == VideoWalk(s.file, s.limit, el.start, el.end, (0, 0))
  {
    width, height := 0, 0;
    var off: nat := el.start;
    while off < el.end
      invariant s.Valid()
      invariant VideoWalk(s.file, s.limit, off, el.end, (width, height))
                == VideoWalk(s.file, s.limit, el.start, el.end, (0, 0))
      decreases Left(s.limit, off)
    {
      var r := s.ReadElementAt(off, VIDEO_IDS);
      if r.Err? {
        return;
      }
      var child := r.value;
      if child.id == ID_PIXEL_WIDTH {
        var v := s.ReadUint(child);
        if v.Some? {
          width := v.value;
        }
      } else if child.id == ID_PIXEL_HEIGHT {
        var v := s.ReadUint(child);
        if v.Some? {
          height := v.value;
        }
      }
      if child.end <= off {
        assert false;
      }
      off := child.end;
    }
  }

  method ParseTrackEntry(s: Scanner, el: Element, f: Found)
    requires s.Valid() && s.file != []
    modifies s, f`video
    ensures s.Valid()
    ensures f.video == Keep(old(f.video), EntryWalk(s.file, s.limit, el.start, el.end, NO_ENTRY))
  {
    var trackType: Option<nat>, width: nat, height: nat := None, 0, 0;
    var off: nat := el.start;
    while off < el.end
      invariant s.Valid() && f.video == old(f.video)
      invariant EntryWalk(s.file, s.limit, off, el.end, Entry(trackType, (width, height)))
                == EntryWalk(s.file, s.limit, el.start, el.end, NO_ENTRY)
      decreases Left(s.limit, off)
    {
      var r := s.ReadElementAt(off, ENTRY_IDS);
      if r.Err? {
        break;
      }
      var child := r.value;
      if child.id == ID_TRACK_TYPE {
        var v := s.ReadUint(child);
        if v.Some? {
          trackType := v;
        }
      } else if child.id == ID_VIDEO {
        width, height := ParseVideo(s, child);
      }
      if child.end <= off {
        assert false;
      }
      off := child.end;
    }
    assert EntryWalk(s.file, s.limit, el.start, el.end, NO_ENTRY) == Entry(trackType, (width, height));
    if trackType == Some(1) && f.video.None? && width > 0 && height > 0 {
      f.video := Some((width, height));
    }
  }

  method ParseTracks(s: Scanner, el: Element, f: Found)
    requires s.Valid() && s.file != []
    modifies s, f`video
    ensures s.Valid() && f.video == TracksWalk(s.file, s.limit, el.start, el.end, old(f.video))
  {
    var off: nat := el.start;
    while off < el.end
      invariant s.Valid()
      invariant TracksWalk(s.file, s.limit, off, el.end, f.video)
                == TracksWalk(s.file, s.limit, el.start, el.end, old(f.video))
      decreases Left(s.limit, off)
    {
      var r := s.ReadElementAt(off, TRACK_IDS);
      if r.Err? {
        return;
      }
      var child := r.value;
      if child.id == ID_TRACK_ENTRY {
        ParseTrackEntry(s, child, f);
      }
      if child.end <= off {
        assert false;
      }
      off := child.end;
    }
  }

  method ParseInfo(s: Scanner, el: Element, f: Found)
    requires s.Valid() && s.file != []
    modifies s, f`timecodeScale, f`duration
    ensures s.Valid() && f.Value() == InfoWalk(s.file, s.limit, el.start, el.end, old(f.Value()))
  {
    var off: nat := el.start;
    while off < el.end
      invariant s.Valid()
      invariant InfoWalk(s.file, s.limit, off, el.end, f.Value())
                == InfoWalk(s.file, s.limit, el.start, el.end, old(f.Value()))
      decreases Left(s.limit, off)
    {
      var r := s.ReadElementAt(off, INFO_IDS);
      if r.Err? {
        return;
      }
      var child := r.value;
      if child.id == ID_TIMECODE_SCALE {
        var v := s.ReadUint(child);
        if v.Some? && v.value > 0 {
          f.timecodeScale := v.value;
        }
      } else if child.id == ID_DURATION {
        var v := s.ReadFloat(child);
        if v.Some? {
          f.duration := v;
        }
      }
      if child.end <= off {
        assert false;
      }
      off := child.end;
    }
  }

  /** Walk the Segment's children, passing over everything but Info and Tracks. */
  method ParseSegment(s: Scanner, seg: Element, f: Found)
    requires s.Valid() && s.file != []
    modifies s, f
    ensures s.Valid() && f.Value() == SegmentWalk(s.file, s.limit, seg.start, seg.end, old(f.Value()))
  {
    var off: nat := seg.start;
    while off < seg.end
      invariant s.Valid()
      invariant SegmentWalk(s.file, s.limit, off, seg.end, f.Value())
                == SegmentWalk(s.file, s.limit, seg.start, seg.end, old(f.Value()))
      decreases Left(s.limit, off)
    {
      var r := s.ReadElementAt(off, SEGMENT_IDS);
      if r.Err? {
        return;
      }
      var el := r.value;
      ghost var before := f.Value();
      if el.id == ID_INFO {
        f.haveInfo := true;
        ParseInfo(s, el, f);
      } else if el.id == ID_TRACKS {
        f.haveTracks := true;
        ParseTracks(s, el, f);
      }
      assert f.Value() == SegmentStep(s.file, s.limit, el, before);
      if f.haveInfo && f.haveTracks {
        return;
      }
      if el.end <= off {
        assert false;
      }
      off := el.end;
    }
  }

  /** The whole probe; a size of zero means that it is not known. */
  method ProbeMKV(file: seq<byte>, size: int) returns (info: Info)
    requires size <= |file| && |file| + CHUNK <= MAX_INT64 && (size == 0 ==> file == [])
    ensures info == ProbeUpTo(file, size)
    ensures size == |file| ==> info == Probe(file)
  {
    if size < 0 {
      return Info(None, 0, 0);
    }
    var limit: nat := size;
    if limit == 0 {
      limit := MAX_INT64;
    }
    var s := new Scanner(file, limit);
    var f := new Found();
    var off: nat := 0;
    while off < limit
      invariant s.Valid() && s.file == file && s.limit == limit
      invariant fresh(s) && fresh(f)
      invariant FileWalk(file, limit, off, f.Value()) == FileWalk(file, limit, 0, NO_FIELDS)
      decreases Left(limit, off)
    {
      var r := s.ReadElementAt(off, SEGMENT_IDS);
      if r.Err? {
        break;
      }
      var el := r.value;
      if el.id == ID_SEGMENT {
        ParseSegment(s, el, f);
      }
      if f.haveInfo && f.haveTracks {
        break;
      }
      if el.end <= off || el.end > limit {
        assert false;
      }
      off := el.end;
    }
    assert f.Value() == FileWalk(file, limit, 0, NO_FIELDS);
    info := f.ToInfo();
  }
}
