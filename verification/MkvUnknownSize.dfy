/** Elements of unknown size inside a Segment: where one is taken to end, and exactly when that is its true end. */
module MkvUnknownSize {
  import opened Bytes
  import opened Vints
  import opened MkvSearch
  import opened MkvSpec
  import opened MkvTree
  import opened MkvRoundTrip
  import opened MkvSkipping

  /** The range searched for the end of an element whose header ends at from. */
  function Searched(limit: nat, from: nat, siblings: seq<nat>): int {
    Reach(limit, from, Patterns(siblings))
  }

  lemma SearchedInFile(limit: nat, from: nat, siblings: seq<nat>)
    requires from <= limit && SiblingTable(siblings)
    ensures 0 <= Searched(limit, from, siblings) <= limit
  {
    hide Patterns, NoneInside, FirstBytesApart, SelfDelimiting, SiblingTable;
    SiblingTablesSafe(siblings);
  }

  /**
   * For arbitrary bytes: an element of unknown size other than a Segment is taken to end at a given place exactly when
   * a sibling ID fits there within reach, unless it is the limit, and none fits earlier.
   */
  lemma UnknownSizeEnds(file: seq<byte>, limit: nat, off: nat, siblings: seq<nat>, end: nat)
    requires Bounded(file, limit) && off < limit && SiblingTable(siblings)
    requires ReadHeader(file, limit, off).Ok?
    requires var h := ReadHeader(file, limit, off).value;
             h.size.unknown && h.id != ID_SEGMENT && h.end <= end <= limit
    ensures var h := ReadHeader(file, limit, off).value;
            && ReadElement(file, limit, off, siblings).Ok?
            && 0 <= Searched(limit, h.end, siblings) <= limit
            && (ReadElement(file, limit, off, siblings) == Ok(Element(h.id, h.end, end)) <==>
                  && (end < limit ==> Fits(file, Searched(limit, h.end, siblings), end, Patterns(siblings)))
                  && NoFitBefore(file, Searched(limit, h.end, siblings), h.end, end, Patterns(siblings)))
  {
    hide ReadHeader, FindPattern, Fits, NoneInside, Reach, FirstBytesApart, SelfDelimiting, SiblingTable;
    var h := ReadHeader(file, limit, off).value;
    SearchedInFile(limit, h.end, siblings);
    PowTable();
    SearchEndsAt(file, limit, h.end, siblings, end);
  }

  lemma SearchEndsAt(file: seq<byte>, limit: nat, from: nat, siblings: seq<nat>, end: nat)
    requires from <= end <= limit <= |file| && SiblingTable(siblings)
    requires 0 <= Searched(limit, from, siblings) <= limit
    ensures FindNext(file, limit, from, siblings) == end <==>
              && (end < limit ==> Fits(file, Searched(limit, from, siblings), end, Patterns(siblings)))
              && NoFitBefore(file, Searched(limit, from, siblings), from, end, Patterns(siblings))
  {
    hide FindPattern, Fits, NoneInside, Reach, FirstBytesApart, SelfDelimiting, SiblingTable, Patterns;
    var ps, reach := Patterns(siblings), Searched(limit, from, siblings);
    SiblingTablesSafe(siblings);
    SiblingTableIds(siblings);
    PatternsShort(siblings);
    assert ps != [];
    FindPatternMeaning(file, limit, from, ps, reach);
    if end < limit && Fits(file, reach, end, ps) && NoFitBefore(file, reach, from, end, ps) {
      HitIsResult(file, limit, from, ps, reach, end);
    }
  }

  // In a list of children.

  /** No sibling ID lies in these bytes. */
  ghost predicate FreeOfIds(body: seq<byte>, siblings: seq<nat>) {
    forall k :: 0 <= k < |body| ==> !Fits(body, |body|, k, Patterns(siblings))
  }

  function EncodeUnknown(id: nat, n: nat, body: seq<byte>): seq<byte>
    requires 1 <= n <= 8
  {
    EncodeId(id) + EncodeVint(Pow128(n) - 1, n) + body
  }

  lemma UnknownHeader(file: seq<byte>, limit: nat, off: nat, id: nat, n: nat, body: seq<byte>)
    requires Bounded(file, limit) && limit == |file| && ValidId(id) && 1 <= n <= 8
    requires At(file, off, EncodeUnknown(id, n, body))
    ensures var h := ReadHeader(file, limit, off);
            h.Ok? && h.value.id == id && h.value.size.unknown && h.value.end == off + ByteLength(id) + n
    ensures At(file, off + ByteLength(id) + n, body)
  {
    hide ReadHeader, EncodeVint, EncodeId, ByteLength, Pow128;
    var i, s := EncodeId(id), EncodeVint(Pow128(n) - 1, n);
    AtSplit(file, off, i + s, body);
    AtSplit(file, off, i, s);
    HeaderParses(file, limit, off, id, Pow128(n) - 1, n);
  }

  /** Before an ID that follows the body, what fits lies in the body whole: no ID runs into another. */
  lemma FitsInBody(file: seq<byte>, reach: nat, from: nat, body: seq<byte>, q: seq<byte>, ps: seq<seq<byte>>, k: nat)
    requires reach <= |file| && FirstBytesApart(ps) && q in ps && from <= k < from + |body|
    requires At(file, from, body) && MatchAt(file, reach, from + |body|, q)
    ensures Fits(file, reach, k, ps) <==> Fits(body, |body|, k - from, ps)
  {
    var end := from + |body|;
    forall p | p in ps
      ensures MatchAt(file, reach, k, p) <==> MatchAt(body, |body|, k - from, p)
    {
      if k + |p| <= end {
        SliceOfSlice(file, from, end, k - from, k - from + |p|);
      } else {
        RunsInto(file, reach, k, p, end, q, ps);
      }
    }
  }

  lemma RunsInto(file: seq<byte>, reach: nat, k: nat, p: seq<byte>, end: nat, q: seq<byte>, ps: seq<seq<byte>>)
    requires reach <= |file| && FirstBytesApart(ps) && p in ps && q in ps
    requires k < end < k + |p| && MatchAt(file, reach, end, q)
    ensures !MatchAt(file, reach, k, p)
  {
    if k + |p| <= reach {
      assert file[k..k + |p|][end - k] == file[end] == file[end..end + |q|][0] == q[0];
      assert p[end - k] != q[0];
    }
  }

  /**
   * A child of unknown size, whatever bytes it holds, that is followed within reach by a sibling is read to its true
   * end exactly when no sibling ID lies in it.
   */
  lemma UnknownChildParses(file: seq<byte>, limit: nat, off: nat, id: nat, n: nat, body: seq<byte>, siblings: seq<nat>, next: nat)
    requires Bounded(file, limit) && limit == |file| && ValidId(id) && id != ID_SEGMENT && 1 <= n <= 8
    requires SiblingTable(siblings) && next in siblings && At(file, off, EncodeUnknown(id, n, body) + EncodeId(next))
    requires var start := off + ByteLength(id) + n;
             start + |body| + |EncodeId(next)| <= Searched(limit, start, siblings)
    ensures var start := off + ByteLength(id) + n;
            ReadElement(file, limit, off, siblings) == Ok(Element(id, start, start + |body|)) <==> FreeOfIds(body, siblings)
  {
    hide ReadElement, ReadHeader, EncodeId, ByteLength, EncodeUnknown, Reach, Patterns, SiblingTable, ValidId;
    AtSplit(file, off, EncodeUnknown(id, n, body), EncodeId(next));
    UnknownHeader(file, limit, off, id, n, body);
    UnknownLength(id, n, body);
    NextIsPattern(siblings, next);
    EndsBefore(file, limit, off, siblings, ReadHeader(file, limit, off).value, body, EncodeId(next));
  }

  /** The same for arbitrary bytes, with any ID of the table standing behind the body. */
  lemma EndsBefore(file: seq<byte>, limit: nat, off: nat, siblings: seq<nat>, h: Header, body: seq<byte>, q: seq<byte>)
    requires Bounded(file, limit) && off < limit && SiblingTable(siblings) && ReadHeader(file, limit, off) == Ok(h)
    requires h.size.unknown && h.id != ID_SEGMENT && h.end <= limit && q in Patterns(siblings)
    requires At(file, h.end, body) && At(file, h.end + |body|, q)
    requires h.end + |body| + |q| <= Searched(limit, h.end, siblings)
    ensures ReadElement(file, limit, off, siblings) == Ok(Element(h.id, h.end, h.end + |body|)) <==> FreeOfIds(body, siblings)
  {
    hide *;
    SearchedInFile(limit, h.end, siblings);
    SiblingTablesSafe(siblings);
    UnknownSizeEnds(file, limit, off, siblings, h.end + |body|);
    FitsHere(file, Searched(limit, h.end, siblings), h.end + |body|, q, Patterns(siblings));
    FreeExactly(file, Searched(limit, h.end, siblings), h.end, body, q, siblings);
  }

  lemma UnknownLength(id: nat, n: nat, body: seq<byte>)
    requires 1 <= n <= 8
    ensures |EncodeUnknown(id, n, body)| == ByteLength(id) + n + |body| && ByteLength(id) >= 1
  {
  }

  lemma NextIsPattern(siblings: seq<nat>, next: nat)
    requires next in siblings
    ensures EncodeId(next) in Patterns(siblings)
  {
    hide EncodeId;
    var i :| 0 <= i < |siblings| && siblings[i] == next;
    assert Patterns(siblings)[i] == EncodeId(next);
  }

  lemma FitsHere(file: seq<byte>, reach: nat, p: nat, q: seq<byte>, ps: seq<seq<byte>>)
    requires q in ps && At(file, p, q) && p + |q| <= reach <= |file|
    ensures MatchAt(file, reach, p, q) && Fits(file, reach, p, ps)
  {
  }

  lemma FreeExactly(file: seq<byte>, reach: nat, from: nat, body: seq<byte>, q: seq<byte>, siblings: seq<nat>)
    requires reach <= |file| && FirstBytesApart(Patterns(siblings)) && q in Patterns(siblings)
    requires At(file, from, body) && MatchAt(file, reach, from + |body|, q)
    ensures NoFitBefore(file, reach, from, from + |body|, Patterns(siblings)) <==> FreeOfIds(body, siblings)
  {
    hide Fits, Patterns, FirstBytesApart;
    var ps := Patterns(siblings);
    forall k | from <= k < from + |body|
      ensures Fits(file, reach, k, ps) <==> Fits(body, |body|, k - from, ps)
    {
      FitsInBody(file, reach, from, body, q, ps, k);
    }
    forall k | 0 <= k < |body|
      ensures Fits(file, reach, from + k, ps) <==> Fits(body, |body|, k, ps)
    {
      FitsInBody(file, reach, from, body, q, ps, from + k);
    }
  }
  // Live recordings: Clusters and other children of unknown size among the rest.

  datatype Child =
    | Sized(e: Ebml)
    | Unsized(id: nat, n: nat, body: seq<byte>)

  function IdOf(c: Child): nat {
    if c.Sized? then c.e.id else c.id
  }

  function EncodeChild(c: Child): seq<byte> {
    match c
    case Sized(e) => EncodeOne(e)
    case Unsized(id, n, body) => if 1 <= n <= 8 then EncodeUnknown(id, n, body) else []
  }

  function EncodeChildren(cs: seq<Child>): seq<byte> {
    if cs == [] then [] else EncodeChild(cs[0]) + EncodeChildren(cs[1..])
  }

  /** How far the search for the end of a child gets, whatever its table. */
  const FAR := 1023 * (CHUNK - 3) + CHUNK

  /** What a child of unknown size needs: another ID than Info and Tracks have, and no sibling ID in it. */
  ghost predicate ValidUnsized(c: Child)
    requires c.Unsized?
  {
    && ValidId(c.id) && c.id != ID_SEGMENT && c.id != ID_INFO && c.id != ID_TRACKS && 1 <= c.n <= 8
    && FreeOfIds(c.body, SEGMENT_IDS)
  }

  /** A child of unknown size is the last one, or a sibling whose ID is in the table follows before the search gives up. */
  ghost predicate ValidChild(cs: seq<Child>, i: nat)
    requires i < |cs|
  {
    match cs[i]
    case Sized(e) => ValidSegment([e])
    case Unsized(_, _, body) =>
      ValidUnsized(cs[i]) && (i + 1 < |cs| ==> IdOf(cs[i + 1]) in SEGMENT_IDS && |body| + 4 <= FAR)
  }

  ghost predicate ValidChildren(cs: seq<Child>) {
    forall i :: 0 <= i < |cs| ==> ValidChild(cs, i)
  }

  function SizedOf(cs: seq<Child>): seq<Ebml> {
    if cs == [] then [] else (if cs[0].Sized? then [cs[0].e] else []) + SizedOf(cs[1..])
  }

  lemma ChildrenTail(cs: seq<Child>)
    requires cs != [] && ValidChildren(cs)
    ensures ValidChildren(cs[1..])
    ensures cs[0].Sized? ==> ValidSegment([cs[0].e])
    ensures cs[0].Unsized? ==> ValidUnsized(cs[0])
    ensures cs[0].Unsized? && |cs| > 1 ==> IdOf(cs[1]) in SEGMENT_IDS && |cs[0].body| + 4 <= FAR
  {
    hide ValidUnsized, ValidSegment;
    assert ValidChild(cs, 0);
    forall i | 0 <= i < |cs| - 1
      ensures ValidChild(cs[1..], i)
    {
      assert ValidChild(cs, i + 1) && cs[1..][i] == cs[i + 1];
    }
  }

  lemma FarEnough(limit: nat, from: nat)
    requires from <= limit
    ensures Searched(limit, from, SEGMENT_IDS) >= Min(limit, from + FAR)
  {
    hide Patterns, NoneInside, FirstBytesApart, SelfDelimiting;
    SiblingTablesSafe(SEGMENT_IDS);
  }

  /** A child starts with its ID. */
  lemma ChildStarts(file: seq<byte>, off: nat, cs: seq<Child>)
    requires cs != [] && ValidChildren(cs) && At(file, off, EncodeChildren(cs))
    ensures At(file, off, EncodeId(IdOf(cs[0])))
  {
    hide EncodeId, EncodeVint, Body, Pow128, ByteLength, FreeOfIds, EncodeChildren, At;
    ChildrenTail(cs);
    var c := cs[0];
    ChildrenCons(cs);
    AtSplit(file, off, EncodeChild(c), EncodeChildren(cs[1..]));
    if c.Sized? {
      assert c.e in [c.e];
      AtSplit(file, off, EncodeId(c.e.id) + EncodeVint(|Body(c.e)|, c.e.sizeLen), Body(c.e));
      AtSplit(file, off, EncodeId(c.e.id), EncodeVint(|Body(c.e)|, c.e.sizeLen));
    } else {
      AtSplit(file, off, EncodeId(c.id) + EncodeVint(Pow128(c.n) - 1, c.n), c.body);
      AtSplit(file, off, EncodeId(c.id), EncodeVint(Pow128(c.n) - 1, c.n));
    }
  }

  lemma ChildrenCons(cs: seq<Child>)
    requires cs != []
    ensures EncodeChildren(cs) == EncodeChild(cs[0]) + EncodeChildren(cs[1..])
  {
  }

  lemma FitsInLast(file: seq<byte>, reach: nat, from: nat, body: seq<byte>, ps: seq<seq<byte>>, k: nat)
    requires At(file, from, body) && reach <= from + |body| == |file| && from <= k && Fits(file, reach, k, ps)
    requires forall p :: p in ps ==> 1 <= |p|
    ensures k < |file| && Fits(body, |body|, k - from, ps)
  {
    var p :| p in ps && MatchAt(file, reach, k, p);
    SliceOfSlice(file, from, |file|, k - from, k - from + |p|);
    assert MatchAt(body, |body|, k - from, p);
  }

  /** A body that ends with the file is searched in vain when no ID lies in it. */
  lemma LastBodyIsFree(file: seq<byte>, limit: nat, from: nat, body: seq<byte>)
    requires limit == |file| && At(file, from, body) && from + |body| == limit && FreeOfIds(body, SEGMENT_IDS)
    requires 0 <= Searched(limit, from, SEGMENT_IDS) <= limit
    ensures NoFitBefore(file, Searched(limit, from, SEGMENT_IDS), from, limit, Patterns(SEGMENT_IDS))
  {
    hide Patterns, Reach, Fits;
    var ps, reach := Patterns(SEGMENT_IDS), Searched(limit, from, SEGMENT_IDS);
    SiblingTableIds(SEGMENT_IDS);
    PatternsShort(SEGMENT_IDS);
    forall k | from <= k < limit
      ensures !Fits(file, reach, k, ps)
    {
      assert !Fits(body, |body|, k - from, ps);
      if Fits(file, reach, k, ps) {
        FitsInLast(file, reach, from, body, ps, k);
      }
    }
  }

  lemma UnsizedReads(file: seq<byte>, limit: nat, off: nat, cs: seq<Child>)
    requires Bounded(file, limit) && limit == |file| && cs != [] && cs[0].Unsized? && ValidChildren(cs)
    requires At(file, off, EncodeChildren(cs)) && (|cs| == 1 ==> off + |EncodeChildren(cs)| == limit)
    ensures var start := off + ByteLength(cs[0].id) + cs[0].n;
            && ReadElement(file, limit, off, SEGMENT_IDS) == Ok(Element(cs[0].id, start, start + |cs[0].body|))
            && start + |cs[0].body| == off + |EncodeChild(cs[0])| <= limit && off < start
  {
    hide ReadElement, ReadHeader, EncodeId, ByteLength, Reach, Patterns, ValidId, FreeOfIds, EncodeChildren, EncodeUnknown,
      ValidChildren, Fits, NoFitBefore, At;
    var c, rest := cs[0], EncodeChildren(cs[1..]);
    ChildrenTail(cs);
    ChildrenCons(cs);
    AtSplit(file, off, EncodeUnknown(c.id, c.n, c.body), rest);
    AtBound(file, off, EncodeChildren(cs));
    UnknownHeader(file, limit, off, c.id, c.n, c.body);
    UnknownLength(c.id, c.n, c.body);
    var h := ReadHeader(file, limit, off).value;
    if |cs| == 1 {
      assert cs[1..] == [] && rest == [] by { NoChildren(); }
      SearchedInFile(limit, h.end, SEGMENT_IDS);
      LastBodyIsFree(file, limit, h.end, c.body);
      UnknownSizeEnds(file, limit, off, SEGMENT_IDS, limit);
    } else {
      var q := EncodeId(IdOf(cs[1]));
      assert cs[1..][0] == cs[1];
      ChildStarts(file, h.end + |c.body|, cs[1..]);
      AtBound(file, h.end + |c.body|, q);
      NextIsPattern(SEGMENT_IDS, IdOf(cs[1]));
      FarEnough(limit, h.end);
      SegmentIdShort(IdOf(cs[1]));
      EndsBefore(file, limit, off, SEGMENT_IDS, h, c.body, q);
    }
  }

  lemma NoChildren()
    ensures EncodeChildren([]) == [] && SizedOf([]) == [] && Metadata([]) == []
  {
  }

  lemma SegmentIdShort(id: nat)
    requires id in SEGMENT_IDS
    ensures |EncodeId(id)| <= 4
  {
    hide Patterns, NoneInside, FirstBytesApart, SelfDelimiting, EncodeId;
    SiblingTablesSafe(SEGMENT_IDS);
    NextIsPattern(SEGMENT_IDS, id);
  }

  lemma SizedReads(file: seq<byte>, limit: nat, off: nat, cs: seq<Child>) returns (el: Element)
    requires Bounded(file, limit) && limit == |file| && cs != [] && cs[0].Sized? && ValidChildren(cs)
    requires At(file, off, EncodeChildren(cs))
    ensures Reads(file, limit, off, cs[0].e, el, SEGMENT_IDS) && At(file, el.start, Body(cs[0].e))
    ensures el.start + |Body(cs[0].e)| == el.end == off + |EncodeChild(cs[0])|
  {
    hide ReadElement, Body, EncodeOne, EncodeChildren, ValidChildren, At;
    var e := cs[0].e;
    ChildrenTail(cs);
    ChildrenCons(cs);
    AtSplit(file, off, EncodeOne(e), EncodeChildren(cs[1..]));
    OneEncoded(e);
    el := ListParses(file, limit, off, [e], SEGMENT_IDS);
  }

  lemma OneEncoded(e: Ebml)
    ensures Encode([e]) == EncodeOne(e) && Encode([e][1..]) == []
  {
    hide EncodeOne;
    assert [e][1..] == [];
  }

  /** The walk of a Segment passes over its children of unknown size as over those of known size. */
  lemma {:induction false} ChildrenLevel(file: seq<byte>, limit: nat, off: nat, cs: seq<Child>, f: Fields)
    requires Bounded(file, limit) && limit == |file| && ValidChildren(cs) && At(file, off, EncodeChildren(cs)) && !f.Done()
    requires off + |EncodeChildren(cs)| == limit
    ensures SegmentWalk(file, limit, off, limit, f) == FoldAll(Metadata(SizedOf(cs)), f)
    decreases |cs|
  {
    hide ReadElement, Body, EncodeChild, SegmentStep, FoldOne, FoldAll, EncodeChildren, ValidChildren, FreeOfIds, ValidId, Metadata;
    if cs == [] {
      NoChildren();
      FoldAllNil(Metadata(SizedOf(cs)), f);
    } else {
      var c, next := cs[0], off + |EncodeChild(cs[0])|;
      ChildrenTail(cs);
      ChildrenCons(cs);
      AtSplit(file, off, EncodeChild(c), EncodeChildren(cs[1..]));
      if c.Sized? {
        var el := SizedReads(file, limit, off, cs);
        var es := SizedOf(cs);
        assert es == [c.e] + SizedOf(cs[1..]) && es[1..] == SizedOf(cs[1..]);
        assert c.e in [c.e];
        SegmentChild(file, limit, el, c.e, f);
        FoldMetadataCons(es, f);
        if !FoldOne(c.e, f).Done() {
          ChildrenLevel(file, limit, next, cs[1..], FoldOne(c.e, f));
        }
      } else {
        UnsizedReads(file, limit, off, cs);
        NothingRead(file, limit, ReadElement(file, limit, off, SEGMENT_IDS).value, f);
        assert SizedOf(cs) == SizedOf(cs[1..]);
        ChildrenLevel(file, limit, next, cs[1..], f);
      }
    }
  }

  lemma NothingRead(file: seq<byte>, limit: nat, el: Element, f: Fields)
    requires Bounded(file, limit) && el.id != ID_INFO && el.id != ID_TRACKS
    ensures SegmentStep(file, limit, el, f) == f
  {
  }

  /** A recording as it is streamed: a Segment of unknown size with such children. */
  function Live(n: nat, cs: seq<Child>): seq<byte>
    requires 1 <= n <= 8
  {
    EncodeId(ID_SEGMENT) + EncodeVint(Pow128(n) - 1, n) + EncodeChildren(cs)
  }

  /** Probing it gives what its children of known size mean. */
  lemma ProbeOfLive(n: nat, cs: seq<Child>)
    requires 1 <= n <= 8 && ValidChildren(cs) && |Live(n, cs)| + CHUNK <= MAX_INT64
    ensures Probe(Live(n, cs)) == InfoOf(FoldAll(Metadata(SizedOf(cs)), NO_FIELDS))
  {
    hide ReadHeader, SegmentWalk, Metadata, FoldAll, EncodeChildren, EncodeVint, EncodeId, Pow128, InfoOf, ValidChildren;
    var file, limit := Live(n, cs), |Live(n, cs)|;
    var id, size := EncodeId(ID_SEGMENT), EncodeVint(Pow128(n) - 1, n);
    assert At(file, 0, id + size + EncodeChildren(cs));
    AtSplit(file, 0, id + size, EncodeChildren(cs));
    AtSplit(file, 0, id, size);
    SegmentIdValid();
    HeaderParses(file, limit, 0, ID_SEGMENT, Pow128(n) - 1, n);
    var f := FoldAll(Metadata(SizedOf(cs)), NO_FIELDS);
    ChildrenLevel(file, limit, |id| + n, cs, NO_FIELDS);
    WalkPastEnd(file, limit, limit, f);
  }
  // One byte inside a Cluster that reads as a Void element.

  /** A streamed recording: a Cluster of unknown size that holds one byte, and an Info with a Duration behind it. */
  function OneByteCluster(b: byte): seq<byte> {
    [0x18, 0x53, 0x80, 0x67, 0xFF, 0x1F, 0x43, 0xB6, 0x75, 0xFF, b,
     0x15, 0x49, 0xA9, 0x66, 0x87, 0x44, 0x89, 0x84, 0x40, 0, 0, 0]
  }

  lemma ItsBytes(b: byte)
    ensures var f := OneByteCluster(b);
            && |f| == 23 && f[0] == 0x18 && f[1] == 0x53 && f[2] == 0x80 && f[3] == 0x67 && f[4] == 0xFF
            && f[5] == 0x1F && f[6] == 0x43 && f[7] == 0xB6 && f[8] == 0x75 && f[9] == 0xFF && f[10] == b
            && f[11] == 0x15 && f[12] == 0x49 && f[13] == 0xA9 && f[14] == 0x66 && f[15] == 0x87
            && f[16] == 0x44 && f[17] == 0x89 && f[18] == 0x84 && f[19] == 0x40 && f[20] == f[21] == f[22] == 0
  {
  }

  lemma OuterHeaders(b: byte)
    ensures var file := OneByteCluster(b);
            && ReadHeader(file, 23, 0) == Ok(Header(ID_SEGMENT, Vint(0xFF, 127, 1, true), 5))
            && ReadHeader(file, 23, 5) == Ok(Header(ID_CLUSTER, Vint(0xFF, 127, 1, true), 10))
  {
    hide ReadHeader, EncodeId, ByteLength, OneByteCluster;
    var file := OneByteCluster(b);
    ItsBytes(b);
    FourByteId(0x18, 0x53, 0x80, 0x67);
    assert file[0..4] == [0x18, 0x53, 0x80, 0x67] && file[4..5] == [0xFF];
    OpenHeader(file, 0, ID_SEGMENT);
    FourByteId(0x1F, 0x43, 0xB6, 0x75);
    assert file[5..9] == [0x1F, 0x43, 0xB6, 0x75] && file[9..10] == [0xFF];
    OpenHeader(file, 5, ID_CLUSTER);
  }

  lemma OpenHeader(file: seq<byte>, off: nat, id: nat)
    requires |file| + CHUNK <= MAX_INT64 && ValidId(id)
    requires At(file, off, EncodeId(id)) && At(file, off + ByteLength(id), [0xFF])
    ensures ReadHeader(file, |file|, off) == Ok(Header(id, Vint(0xFF, 127, 1, true), off + ByteLength(id) + 1))
  {
    PowTable();
    assert EncodeVint(127, 1) == [0xFF] by {
      assert ToBigEndian(0xFF / 256, 0) == [];
    }
    hide EncodeVint, EncodeId, ReadHeader, ByteLength;
    HeaderParses(file, |file|, off, id, 127, 1);
  }

  /** The Void element the byte makes takes its size from the ID of the Info behind it, and swallows the rest. */
  lemma VoidSwallows()
    ensures ReadHeader(OneByteCluster(0xEC), 23, 10) == Ok(Header(ID_VOID, Vint(0x1549A966, 0x549A966, 4, false), 15))
  {
    hide ReadHeader, EncodeId, ByteLength, OneByteCluster, EncodeVint;
    OneByteId(0xEC);
    BehindByte(0xEC);
    PowTable();
    FourByteId(0x15, 0x49, 0xA9, 0x66);
    IdIsVint(ID_INFO);
    hide Pow128;
    HeaderParses(OneByteCluster(0xEC), 23, 10, ID_VOID, 0x549A966, 4);
  }

  lemma InfoHeaders()
    ensures var file := OneByteCluster(0);
            && ReadHeader(file, 23, 11) == Ok(Header(ID_INFO, Vint(0x87, 7, 1, false), 16))
            && ReadHeader(file, 23, 16) == Ok(Header(ID_DURATION, Vint(0x84, 4, 1, false), 19))
  {
    hide ReadHeader, EncodeId, ByteLength, OneByteCluster;
    var file := OneByteCluster(0);
    ItsBytes(0);
    FourByteId(0x15, 0x49, 0xA9, 0x66);
    assert file[11..16] == [0x15, 0x49, 0xA9, 0x66] + [0x87];
    ShortHeader(file, 11, ID_INFO, 7);
    TwoByteId(0x44, 0x89);
    assert file[16..19] == [0x44, 0x89] + [0x84];
    ShortHeader(file, 16, ID_DURATION, 4);
  }

  /** A byte that no ID of the table begins with is free of them. */
  lemma ZeroIsFree()
    ensures FreeOfIds([0], SEGMENT_IDS)
  {
    hide NoneInside, FirstBytesApart, Patterns;
    SiblingTablesSafe(SEGMENT_IDS);
    forall p | p in Patterns(SEGMENT_IDS)
      ensures !MatchAt([0], 1, 0, p)
    {
      assert SelfDelimiting(p);
    }
  }

  /** What stands behind the byte. */
  lemma BehindByte(b: byte)
    ensures var file := OneByteCluster(b);
            |file| == 23 && At(file, 10, [b]) && At(file, 11, EncodeId(ID_INFO)) && |EncodeId(ID_INFO)| == 4
  {
    FourByteId(0x15, 0x49, 0xA9, 0x66);
    ItsBytes(b);
    hide EncodeId, OneByteCluster;
    var file := OneByteCluster(b);
    assert file[11..15] == [0x15, 0x49, 0xA9, 0x66] && file[10..11] == [b];
  }

  lemma ClusterEndsBehind()
    ensures ReadElement(OneByteCluster(0), 23, 5, SEGMENT_IDS) == Ok(Element(ID_CLUSTER, 10, 11))
  {
    hide ReadHeader, ReadElement, EncodeId, Patterns, FreeOfIds, OneByteCluster, Searched, At;
    OuterHeaders(0);
    BehindByte(0);
    ZeroIsFree();
    NextIsPattern(SEGMENT_IDS, ID_INFO);
    FarEnough(23, 10);
    EndsBefore(OneByteCluster(0), 23, 5, SEGMENT_IDS, Header(ID_CLUSTER, Vint(0xFF, 127, 1, true), 10), [0], EncodeId(ID_INFO));
  }

  lemma ClusterEndsAtByte()
    ensures ReadElement(OneByteCluster(0xEC), 23, 5, SEGMENT_IDS) == Ok(Element(ID_CLUSTER, 10, 10))
  {
    hide ReadHeader, ReadElement, EncodeId, Patterns, Fits, OneByteCluster, Searched, At;
    var file := OneByteCluster(0xEC);
    OuterHeaders(0xEC);
    BehindByte(0xEC);
    OneByteId(0xEC);
    NextIsPattern(SEGMENT_IDS, ID_VOID);
    FarEnough(23, 10);
    SearchedInFile(23, 10, SEGMENT_IDS);
    FitsHere(file, Searched(23, 10, SEGMENT_IDS), 10, EncodeId(ID_VOID), Patterns(SEGMENT_IDS));
    UnknownSizeEnds(file, 23, 5, SEGMENT_IDS, 10);
  }

  lemma SegmentOpens(b: byte)
    ensures ReadElement(OneByteCluster(b), 23, 0, SEGMENT_IDS) == Ok(Element(ID_SEGMENT, 5, 23))
  {
    ItsBytes(b);
    hide ReadHeader, OneByteCluster;
    OuterHeaders(b);
  }

  lemma TwoIsFloat()
    ensures FloatOf([0x40, 0, 0, 0]) == Some(Float(0x4000_0000, false))
  {
    Id3(0x40, 0, 0);
    BigEndianSnoc([0x40, 0, 0], 0);
    assert [0x40, 0, 0] + [0] == [0x40, 0, 0, 0];
  }

  /** With a zero byte in the Cluster the Duration behind it is found; with the one byte 0xEC it is lost. */
  lemma VoidByteLosesInfo()
    ensures Probe(OneByteCluster(0)).duration == Some((Float(0x4000_0000, false), DEFAULT_TIMECODE_SCALE))
    ensures Probe(OneByteCluster(0xEC)).duration == None
  {
    hide FileWalk, OneByteCluster;
    ItsBytes(0);
    ItsBytes(0xEC);
    FoundBehind();
    LostBehind();
  }

  lemma FoundBehind()
    ensures FileWalk(OneByteCluster(0), 23, 0, NO_FIELDS)
            == NO_FIELDS.(haveInfo := true, duration := Some(Float(0x4000_0000, false)))
  {
    hide ReadHeader, ReadElement, FloatOf, UintOf, OneByteCluster;
    var file := OneByteCluster(0);
    ItsBytes(0);
    SegmentOpens(0);
    ClusterEndsBehind();
    InfoHeaders();
    KnownSizeClamps(file, 23, 11, SEGMENT_IDS);
    KnownSizeClamps(file, 23, 16, INFO_IDS);
    TwoIsFloat();
    assert file[19..23] == [0x40, 0, 0, 0];
    var f := NO_FIELDS.(haveInfo := true);
    var g := f.(duration := Some(Float(0x4000_0000, false)));
    assert InfoWalk(file, 23, 23, 23, g) == g;
    assert InfoWalk(file, 23, 16, 23, f) == g;
    assert SegmentWalk(file, 23, 23, 23, g) == g;
    assert SegmentWalk(file, 23, 11, 23, NO_FIELDS) == g;
    assert SegmentWalk(file, 23, 5, 23, NO_FIELDS) == g;
    assert FileWalk(file, 23, 23, g) == g;
  }

  lemma LostBehind()
    ensures FileWalk(OneByteCluster(0xEC), 23, 0, NO_FIELDS) == NO_FIELDS
  {
    hide ReadHeader, ReadElement, OneByteCluster;
    var file := OneByteCluster(0xEC);
    ItsBytes(0xEC);
    SegmentOpens(0xEC);
    ClusterEndsAtByte();
    VoidSwallows();
    KnownSizeClamps(file, 23, 10, SEGMENT_IDS);
    assert SegmentWalk(file, 23, 23, 23, NO_FIELDS) == NO_FIELDS;
    assert SegmentWalk(file, 23, 10, 23, NO_FIELDS) == NO_FIELDS;
    assert SegmentWalk(file, 23, 5, 23, NO_FIELDS) == NO_FIELDS;
    assert FileWalk(file, 23, 23, NO_FIELDS) == NO_FIELDS;
  }
}
