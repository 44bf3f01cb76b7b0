/** probeMP4 as it runs: a box walk driven by an offset, and handlers that fill in what they find. */
module Mp4Probe {
  import opened Bytes
  import opened Mp4Spec

  method ReadMP4Box(file: seq<byte>, off: int, limit: int) returns (r: Option<Box>)
    requires limit <= MAX_INT64
    ensures r == ReadBox(file, off, limit)
  {
    if off < 0 || limit < 0 || Add64(off, 8) > limit {
      return None;
    }
    var head := ReadAt(file, 8, off);
    if head.None? {
      return None;
    }
    var size: int := BigEndian(head.value[..4]);
    var typ, hdr := head.value[4..8], 8;
    if size == 0 {
      size := limit - off;
    } else if size == 1 {
      if Add64(off, 16) > limit {
        return None;
      }
      var ext := ReadAt(file, 8, Add64(off, 8));
      if ext.None? {
        return None;
      }
      var large := BigEndian(ext.value);
      if large > MAX_INT64 {
        return None;
      }
      size, hdr := large, 16;
    }
    if size < hdr {
      return None;
    }
    if Add64(off, size) > limit {
      return None;
    }
    return Some(Box(typ, off, size, hdr));
  }

  /** The boxes handed to a visitor that stops the walk at the first box of type stop. */
  function UpTo(boxes: seq<Box>, stop: seq<byte>): seq<Box> {
    if boxes == [] || boxes[0].typ == stop then boxes[..Min(|boxes|, 1)]
    else [boxes[0]] + UpTo(boxes[1..], stop)
  }

  /**
   * walkMP4Boxes, with the boxes its visitor is called on as the result. A
   * visitor that never stops is given a stop type no box can have.
   */
  method WalkMP4Boxes(file: seq<byte>, start: int, end: int, stop: seq<byte>) returns (boxes: seq<Box>)
    requires start <= MAX_INT64 && end <= MAX_INT64
    ensures boxes == UpTo(Visited(file, start, end), stop)
  {
    hide ReadBox, UpTo, Add64;
    boxes := [];
    var off := start;
    UpToNil(stop);
    while Add64(off, 8) <= end
      invariant off <= MAX_INT64
      invariant boxes + UpTo(Visited(file, off, end), stop) == UpTo(Visited(file, start, end), stop)
      decreases MAX_INT64 - off
    {
      var r := ReadMP4Box(file, off, end);
      if r.None? {
        return;
      }
      var b := r.value;
      ghost var rest := if b.End() <= off then [] else Visited(file, b.End(), end);
      assert Visited(file, off, end) == [b] + rest;
      UpToCons(b, rest, stop);
      ghost var was := boxes;
      boxes := boxes + [b];
      if b.typ == stop {
        return;
      }
      assert was + ([b] + UpTo(rest, stop)) == boxes + UpTo(rest, stop);
      if b.End() <= off {
        return;
      }
      off := b.End();
    }
  }

  lemma UpToNil(stop: seq<byte>)
    ensures UpTo([], stop) == []
  {
  }

  lemma UpToCons(b: Box, rest: seq<Box>, stop: seq<byte>)
    ensures UpTo([b] + rest, stop) == if b.typ == stop then [b] else [b] + UpTo(rest, stop)
  {
    assert ([b] + rest)[1..] == rest;
  }

  const NO_STOP: seq<byte> := []

  lemma {:induction false} UpToAll(boxes: seq<Box>, stop: seq<byte>)
    requires forall b :: b in boxes ==> b.typ != stop
    ensures UpTo(boxes, stop) == boxes
  {
    if boxes != [] {
      UpToAll(boxes[1..], stop);
    }
  }

  lemma {:induction false} VisitedTypes(file: seq<byte>, off: int, end: int)
    requires off <= MAX_INT64 && end <= MAX_INT64
    ensures forall b :: b in Visited(file, off, end) ==> |b.typ| == 4
    decreases MAX_INT64 - off
  {
    if Add64(off, 8) <= end {
      var r := ReadBox(file, off, end);
      TypeLength(file, off, end);
      hide ReadBox;
      if r.Some? && r.value.End() > off {
        VisitedTypes(file, r.value.End(), end);
      }
    }
  }

  lemma TypeLength(file: seq<byte>, off: int, end: int)
    requires end <= MAX_INT64
    ensures ReadBox(file, off, end).Some? ==> |ReadBox(file, off, end).value.typ| == 4
  {
  }

  lemma {:induction false} UpToFirst(boxes: seq<Box>, stop: seq<byte>)
    ensures First(UpTo(boxes, stop), stop) == First(boxes, stop)
    ensures First(boxes, stop).Some? ==>
              UpTo(boxes, stop) != [] && First(boxes, stop).value.typ == stop
              && First(boxes, stop).value == UpTo(boxes, stop)[|UpTo(boxes, stop)| - 1]
    ensures First(boxes, stop).None? ==> forall b :: b in UpTo(boxes, stop) ==> b.typ != stop
  {
    if boxes != [] && boxes[0].typ != stop {
      UpToFirst(boxes[1..], stop);
      assert ([boxes[0]] + UpTo(boxes[1..], stop))[1..] == UpTo(boxes[1..], stop);
    }
  }

  method WalkAll(file: seq<byte>, start: int, end: int) returns (boxes: seq<Box>)
    requires start <= MAX_INT64 && end <= MAX_INT64
    ensures boxes == Visited(file, start, end)
  {
    boxes := WalkMP4Boxes(file, start, end, NO_STOP);
    VisitedTypes(file, start, end);
    UpToAll(Visited(file, start, end), NO_STOP);
  }

  method ParseMVHD(file: seq<byte>, b: Box) returns (ok: bool, timescale: nat, duration: nat)
    ensures ok ==> MovieHeader(PayloadHead(file, b, 32)) == Some((timescale, duration))
    ensures !ok ==> MovieHeader(PayloadHead(file, b, 32)) == None
  {
    ok, timescale, duration := false, 0, 0;
    var buf := PayloadHead(file, b, 32);
    if |buf| < 4 {
      return;
    }
    if buf[0] == 0 {
      if |buf| < 20 {
        return;
      }
      timescale, duration := BigEndian(buf[12..16]), BigEndian(buf[16..20]);
      if duration == 0xFFFF_FFFF {
        duration := 0;
      }
      ok := true;
    } else if buf[0] == 1 {
      if |buf| < 32 {
        return;
      }
      timescale, duration := BigEndian(buf[20..24]), BigEndian(buf[24..32]);
      if duration == 0xFFFF_FFFF_FFFF_FFFF {
        duration := 0;
      }
      ok := true;
    }
  }

  method ParseTrak(file: seq<byte>, trak: Box) returns (r: Option<(nat, nat)>)
    ensures r == TrakSize(file, trak)
  {
    hide Visited, PayloadHead, PayloadTail;
    var handler: seq<byte>, tkhd: Option<Box> := [], None;
    var boxes := WalkAll(file, trak.PayloadStart(), trak.End());
    for i := 0 to |boxes|
      invariant TrackFold(file, boxes[i..], Track(handler, tkhd)) == TrackFold(file, boxes, Track([], None))
    {
      var b := boxes[i];
      assert boxes[i..][1..] == boxes[i + 1..];
      if b.typ == TKHD {
        tkhd := Some(b);
      } else if b.typ == MDIA {
        handler := ReadHandler(file, b, handler);
      }
    }
    if handler != VIDE || tkhd.None? {
      return None;
    }
    var tail := PayloadTail(file, tkhd.value, 8);
    if |tail| < 8 {
      return None;
    }
    var w, h := BigEndian(tail[0..4]) / 65536, BigEndian(tail[4..8]) / 65536;
    if w <= 0 || h <= 0 || w > MAX_DIMENSION || h > MAX_DIMENSION {
      return None;
    }
    return Some((w, h));
  }

  /** The handler type of an mdia box's last readable hdlr. */
  method ReadHandler(file: seq<byte>, mdia: Box, was: seq<byte>) returns (handler: seq<byte>)
    ensures handler == HandlerFold(file, Visited(file, mdia.PayloadStart(), mdia.End()), was)
  {
    hide Visited, PayloadHead;
    handler := was;
    var boxes := WalkAll(file, mdia.PayloadStart(), mdia.End());
    for i := 0 to |boxes|
      invariant HandlerFold(file, boxes[i..], handler) == HandlerFold(file, boxes, was)
    {
      assert boxes[i..][1..] == boxes[i + 1..];
      if boxes[i].typ == HDLR {
        var buf := PayloadHead(file, boxes[i], 12);
        if |buf| >= 12 {
          handler := buf[8..12];
        }
      }
    }
  }

  /** The last readable mehd of an mvex box. */
  method ReadFragment(file: seq<byte>, mvex: Box, was: Option<nat>) returns (d: Option<nat>)
    ensures d == FragmentFold(file, Visited(file, mvex.PayloadStart(), mvex.End()), was)
  {
    hide Visited, PayloadHead;
    d := was;
    var boxes := WalkAll(file, mvex.PayloadStart(), mvex.End());
    for i := 0 to |boxes|
      invariant FragmentFold(file, boxes[i..], d) == FragmentFold(file, boxes, was)
    {
      assert boxes[i..][1..] == boxes[i + 1..];
      if boxes[i].typ == MEHD {
        var v := FragmentDuration(PayloadHead(file, boxes[i], 12));
        if v.Some? {
          d := v;
        }
      }
    }
  }

  method ProbeMP4(file: seq<byte>, size: int) returns (info: Info)
    requires size <= MAX_INT64
    ensures info == Probe(file, size)
  {
    hide Visited, MovieStep;
    info := Info(None, 0, 0);
    if size < 8 {
      return;
    }
    var top := WalkMP4Boxes(file, 0, size, MOOV);
    UpToFirst(Visited(file, 0, size), MOOV);
    if |top| == 0 || top[|top| - 1].typ != MOOV {
      return;
    }
    var moov := top[|top| - 1];
    var header: Option<(nat, nat)>, fragment: Option<nat>, width: nat, height: nat := None, None, 0, 0;
    var boxes := WalkAll(file, moov.PayloadStart(), moov.End());
    for i := 0 to |boxes|
      invariant MovieFold(file, boxes[i..], Movie(header, fragment, width, height))
                == MovieFold(file, boxes, Movie(None, None, 0, 0))
    {
      assert boxes[i..][1..] == boxes[i + 1..];
      header, fragment, width, height := VisitChild(file, boxes[i], header, fragment, width, height);
    }
    info := InfoOf(Movie(header, fragment, width, height));
  }

  /** One child of moov: what it changes of the movie found so far. */
  method VisitChild(
    file: seq<byte>, b: Box, header: Option<(nat, nat)>, fragment: Option<nat>, width: nat, height: nat)
    returns (header': Option<(nat, nat)>, fragment': Option<nat>, width': nat, height': nat)
    ensures Movie(header', fragment', width', height') == MovieStep(file, b, Movie(header, fragment, width, height))
  {
    header', fragment', width', height' := header, fragment, width, height;
    if b.typ == MVHD {
      var ok, ts, d := ParseMVHD(file, b);
      if ok {
        header' := Some((ts, d));
      }
    } else if b.typ == TRAK {
      var s := ParseTrak(file, b);
      if s.Some? && width == 0 && height == 0 {
        width', height' := s.value.0, s.value.1;
      }
    } else if b.typ == MVEX {
      fragment' := ReadFragment(file, b, fragment);
    }
  }
}
