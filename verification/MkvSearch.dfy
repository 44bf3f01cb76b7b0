/**
 * The search that resolves an unknown-size element (section 6.2 of RFC 8794):
 * what it finds, stated without windows, chunks or overlaps.
 */
module MkvSearch {
  import opened Bytes
  import opened Vints

  const ID_SEGMENT := 0x18538067
  const ID_SEEK_HEAD := 0x114D9B74
  const ID_INFO := 0x1549A966
  const ID_TRACKS := 0x1654AE6B
  const ID_CLUSTER := 0x1F43B675
  const ID_CUES := 0x1C53BB6B
  const ID_CHAPTERS := 0x1043A770
  const ID_ATTACHMENTS := 0x1941A469
  const ID_TAGS := 0x1254C367
  const ID_VOID := 0xEC
  const ID_TIMECODE_SCALE := 0x2AD7B1
  const ID_DURATION := 0x4489
  const ID_TRACK_ENTRY := 0xAE
  const ID_TRACK_TYPE := 0x83
  const ID_VIDEO := 0xE0
  const ID_PIXEL_WIDTH := 0xB0
  const ID_PIXEL_HEIGHT := 0xBA

  /** Sibling element IDs by level, as the original lists them. */
  const SEGMENT_IDS: seq<nat> := [
    ID_SEEK_HEAD, ID_INFO, ID_TRACKS, ID_CLUSTER, ID_CUES, ID_CHAPTERS, ID_ATTACHMENTS, ID_TAGS, ID_VOID]
  const INFO_IDS: seq<nat> := [ID_TIMECODE_SCALE, ID_DURATION, ID_VOID]
  const TRACK_IDS: seq<nat> := [ID_TRACK_ENTRY, ID_VOID]
  const ENTRY_IDS: seq<nat> := [ID_TRACK_TYPE, ID_VIDEO, ID_VOID]
  const VIDEO_IDS: seq<nat> := [ID_PIXEL_WIDTH, ID_PIXEL_HEIGHT, ID_VOID]

  const CHUNK := 65536
  const MAX_ELEMENT_SCAN := 67_108_864

  /** Windows searched at most: MAX_ELEMENT_SCAN / CHUNK of them, numbered from zero. */
  const LAST_WINDOW: nat := 1023

  /** Bytes needed for v, at least one. */
  function ByteLength(v: nat): (n: nat)
    ensures n >= 1 && v < Pow256(n) && (n > 1 ==> Pow256(n - 1) <= v)
  {
    if v < 256 then assert Pow256(1) == 256; 1 else 1 + ByteLength(v / 256)
  }

  /** A raw ID as its minimal big-endian bytes. */
  function EncodeId(id: nat): (p: seq<byte>)
    ensures |p| == ByteLength(id)
  {
    ToBigEndian(id, ByteLength(id))
  }

  lemma {:induction false} LeadingZero(v: nat, n: nat)
    requires v < Pow256(n)
    ensures ToBigEndian(v, n + 1) == [0] + ToBigEndian(v, n)
  {
    if n > 0 {
      LeadingZero(v / 256, n - 1);
    }
  }

  lemma {:induction false} LeadingNonZero(v: nat, n: nat)
    requires Pow256(n) <= v < Pow256(n + 1)
    ensures ToBigEndian(v, n + 1)[0] != 0
  {
    if n > 0 {
      LeadingNonZero(v / 256, n - 1);
    }
  }

  /** Dropping one leading zero byte. */
  lemma StripZero(v: nat, n: nat)
    requires v < Pow256(n + 1)
    ensures ToBigEndian(v, n + 1)[0] == 0 <==> v < Pow256(n)
    ensures v < Pow256(n) ==> ToBigEndian(v, n + 1)[1..] == ToBigEndian(v, n)
  {
    if v < Pow256(n) {
      LeadingZero(v, n);
    } else {
      LeadingNonZero(v, n);
    }
  }

  /** The form of the original: write eight bytes, drop the leading zero ones. */
  method EncodeEBMLID(id: nat) returns (p: seq<byte>)
    requires id < Pow256(8)
    ensures p == EncodeId(id)
  {
    hide ToBigEndian, Pow256;
    var tmp := ToBigEndian(id, 8);
    var i := 0;
    StripZero(id, 7);
    while i < 7 && tmp[i] == 0
      invariant 0 <= i <= 7
      invariant id < Pow256(8 - i)
      invariant tmp[i..] == ToBigEndian(id, 8 - i)
      invariant tmp[i] == 0 <==> id < Pow256(7 - i)
    {
      StripZero(id, 7 - i);
      assert tmp[i + 1..] == tmp[i..][1..];
      i := i + 1;
      StripZero(id, 7 - i);
      assert tmp[i] == tmp[i..][0];
    }
    p := tmp[i..];
    ByteLengthUnique(id, 8 - i);
  }

  lemma ByteLengthUnique(v: nat, n: nat)
    requires n >= 1 && v < Pow256(n) && (n > 1 ==> v >= Pow256(n - 1))
    ensures ByteLength(v) == n
  {
    if n == 1 {
      assert Pow256(1) == 256;
    } else {
      ByteLengthBetween(v, n);
    }
  }

  lemma {:induction false} ByteLengthBetween(v: nat, n: nat)
    requires n > 1 && Pow256(n - 1) <= v < Pow256(n)
    ensures ByteLength(v) == n
  {
    assert Pow256(n - 1) == 256 * Pow256(n - 2);
    if n > 2 {
      assert Pow256(n) == 256 * Pow256(n - 1);
      ByteLengthBetween(v / 256, n - 1);
    } else {
      assert Pow256(2) == 256 * Pow256(1) && Pow256(1) == 256 * Pow256(0);
    }
  }

  function Patterns(ids: seq<nat>): (ps: seq<seq<byte>>)
    ensures |ps| == |ids| && forall i :: 0 <= i < |ids| ==> ps[i] == EncodeId(ids[i])
  {
    seq(|ids|, i requires 0 <= i < |ids| => EncodeId(ids[i]))
  }

  function LongestOf(ps: seq<seq<byte>>): (n: nat)
    ensures forall q :: q in ps ==> |q| <= n
    ensures ps != [] ==> exists q :: q in ps && |q| == n
  {
    if ps == [] then 0
    else
      var m := LongestOf(ps[..|ps| - 1]);
      var last := ps[|ps| - 1];
      if |last| > m || |ps| == 1 then
        assert ps[|ps| - 1] in ps; |last|
      else
        var q :| q in ps[..|ps| - 1] && |q| == m;
        assert q in ps;
        m
  }

  predicate MatchAt(file: seq<byte>, limit: nat, p: nat, q: seq<byte>)
    requires limit <= |file|
  {
    p + |q| <= limit && file[p..p + |q|] == q
  }

  /** Some sibling ID starts at p and fits before limit. */
  predicate Fits(file: seq<byte>, limit: nat, p: nat, ps: seq<seq<byte>>)
    requires limit <= |file|
  {
    exists q :: q in ps && MatchAt(file, limit, p, q)
  }

  /** Least offset from p on at which a sibling ID fits before limit; limit when there is none. */
  function FirstFit(file: seq<byte>, limit: nat, p: nat, ps: seq<seq<byte>>): (r: nat)
    requires p <= limit <= |file|
    ensures p <= r <= limit
    ensures r < limit ==> Fits(file, limit, r, ps)
    ensures forall k :: p <= k < r ==> !Fits(file, limit, k, ps)
    decreases limit - p
  {
    if p == limit || Fits(file, limit, p, ps) then p else FirstFit(file, limit, p + 1, ps)
  }

  /** End of the last of the 1024 windows the search may look at. */
  function Reach(limit: nat, from: nat, ps: seq<seq<byte>>): (r: int)
    ensures r <= limit
  {
    var overlap := if LongestOf(ps) > 0 then LongestOf(ps) - 1 else 0;
    Min(limit, from + 1023 * (CHUNK - overlap) + CHUNK)
  }

  /**
   * What findNextElement is for: the least offset at which a sibling ID fits
   * before limit, provided it lies within reach; limit otherwise.
   */
  function FindNext(file: seq<byte>, limit: nat, from: nat, ids: seq<nat>): (r: nat)
    requires limit <= |file|
    requires from <= limit
    ensures from <= r <= limit
  {
    FindPattern(file, limit, from, Patterns(ids))
  }

  function FindPattern(file: seq<byte>, limit: nat, from: nat, ps: seq<seq<byte>>): (r: nat)
    requires limit <= |file|
    requires from <= limit
    ensures from <= r <= limit
  {
    var p := FirstFit(file, limit, from, ps);
    var reach := Reach(limit, from, ps);
    if p < limit && p <= reach && Fits(file, reach, p, ps) then p else limit
  }

  /** No ID occurs inside another one except at its start. */
  predicate NoneInside(ps: seq<seq<byte>>) {
    forall q, r :: q in ps && r in ps ==> forall k :: 0 < k < |q| ==> !OccursAt(q, r, k)
  }

  predicate OccursAt(q: seq<byte>, r: seq<byte>, k: nat) {
    k + |r| <= |q| && q[k..k + |r|] == r
  }

  predicate FirstBytesApart(ps: seq<seq<byte>>) {
    && (forall r :: r in ps ==> r != [])
    && (forall q, r :: q in ps && r in ps ==> forall k :: 0 < k < |q| ==> q[k] != r[0])
  }

  lemma ApartMeansNoneInside(ps: seq<seq<byte>>)
    requires FirstBytesApart(ps)
    ensures NoneInside(ps)
  {
    forall q, r, k | q in ps && r in ps && 0 < k < |q|
      ensures !OccursAt(q, r, k)
    {
      assert q[k] != r[0];
      if k + |r| <= |q| {
        assert q[k..k + |r|][0] == q[k];
      }
    }
  }

  /** The first byte announces the length, as it does in every vint. */
  predicate SelfDelimiting(p: seq<byte>) {
    p != [] && p[0] != 0 && |p| == LeadingLength(p[0])
  }

  /** The first byte of an ID is in heads, the others are not, and it has at most four. */
  predicate HeadOnly(p: seq<byte>, heads: set<byte>) {
    SelfDelimiting(p) && |p| <= 4 && p[0] in heads && forall k :: 0 < k < |p| ==> p[k] !in heads
  }

  lemma HeadsApart(ids: seq<nat>, heads: set<byte>)
    requires forall i :: 0 <= i < |ids| ==> HeadOnly(EncodeId(ids[i]), heads)
    ensures NoneInside(Patterns(ids)) && LongestOf(Patterns(ids)) <= 4
    ensures FirstBytesApart(Patterns(ids)) && forall q :: q in Patterns(ids) ==> SelfDelimiting(q)
  {
    var ps := Patterns(ids);
    forall q | q in ps
      ensures HeadOnly(q, heads)
    {
      var i :| 0 <= i < |ps| && ps[i] == q;
    }
    ApartMeansNoneInside(ps);
  }

  lemma BigEndianSnoc(s: seq<byte>, b: byte)
    ensures BigEndian(s + [b]) == 256 * BigEndian(s) + b
  {
    assert (s + [b])[..|s|] == s;
  }

  lemma TimesAtLeast(a: nat, b: nat)
    requires a > 0
    ensures a * b >= b
  {
  }

  lemma IdBytes(s: seq<byte>)
    requires s != [] && s[0] != 0
    ensures EncodeId(BigEndian(s)) == s
  {
    assert BigEndian(s) >= Pow256(|s| - 1) by {
      BigEndianHead(s);
      TimesAtLeast(s[0], Pow256(|s| - 1));
    }
    BigEndianBound(s);
    ByteLengthUnique(BigEndian(s), |s|);
    ToBigEndianRoundTrip(s);
  }

  lemma Id1(a: byte)
    requires a != 0
    ensures BigEndian([a]) == a && EncodeId(a) == [a]
  {
    IdBytes([a]);
  }

  lemma Id2(a: byte, b: byte)
    requires a != 0
    ensures BigEndian([a, b]) == a * 256 + b && EncodeId(a * 256 + b) == [a, b]
  {
    Id1(a);
    BigEndianSnoc([a], b);
    IdBytes([a] + [b]);
  }

  lemma Id3(a: byte, b: byte, c: byte)
    requires a != 0
    ensures BigEndian([a, b, c]) == (a * 256 + b) * 256 + c && EncodeId((a * 256 + b) * 256 + c) == [a, b, c]
  {
    Id2(a, b);
    BigEndianSnoc([a, b], c);
    assert [a, b] + [c] == [a, b, c];
    IdBytes([a, b] + [c]);
  }

  lemma Id4(a: byte, b: byte, c: byte, d: byte)
    requires a != 0
    ensures EncodeId(((a * 256 + b) * 256 + c) * 256 + d) == [a, b, c, d]
  {
    Id3(a, b, c);
    BigEndianSnoc([a, b, c], d);
    assert [a, b, c] + [d] == [a, b, c, d];
    IdBytes([a, b, c] + [d]);
  }

  const SEGMENT_HEADS: set<byte> := {0x11, 0x15, 0x16, 0x1F, 0x1C, 0x10, 0x19, 0x12, 0xEC}
  const INFO_HEADS: set<byte> := {0x2A, 0x44, 0xEC}
  const ONE_BYTE_HEADS: set<byte> := {0xAE, 0x83, 0xE0, 0xB0, 0xBA, 0xEC}

  lemma SegmentId(a: byte, b: byte, c: byte, d: byte)
    requires 0x10 <= a < 0x20 && a in SEGMENT_HEADS && b !in SEGMENT_HEADS && c !in SEGMENT_HEADS && d !in SEGMENT_HEADS
    ensures HeadOnly(EncodeId(((a * 256 + b) * 256 + c) * 256 + d), SEGMENT_HEADS)
  {
    Id4(a, b, c, d);
  }

  lemma VoidHead()
    ensures HeadOnly(EncodeId(ID_VOID), SEGMENT_HEADS)
  {
    Id1(0xEC);
  }

  lemma FirstSegmentHeads()
    ensures HeadOnly(EncodeId(ID_SEEK_HEAD), SEGMENT_HEADS) && HeadOnly(EncodeId(ID_INFO), SEGMENT_HEADS)
    ensures HeadOnly(EncodeId(ID_TRACKS), SEGMENT_HEADS) && HeadOnly(EncodeId(ID_CLUSTER), SEGMENT_HEADS)
  {
    hide HeadOnly, EncodeId;
    SegmentId(0x11, 0x4D, 0x9B, 0x74);
    SegmentId(0x15, 0x49, 0xA9, 0x66);
    SegmentId(0x16, 0x54, 0xAE, 0x6B);
    SegmentId(0x1F, 0x43, 0xB6, 0x75);
  }

  lemma LastSegmentHeads()
    ensures HeadOnly(EncodeId(ID_CUES), SEGMENT_HEADS) && HeadOnly(EncodeId(ID_CHAPTERS), SEGMENT_HEADS)
    ensures HeadOnly(EncodeId(ID_ATTACHMENTS), SEGMENT_HEADS) && HeadOnly(EncodeId(ID_TAGS), SEGMENT_HEADS)
    ensures HeadOnly(EncodeId(ID_VOID), SEGMENT_HEADS)
  {
    VoidHead();
    hide HeadOnly, EncodeId;
    SegmentId(0x1C, 0x53, 0xBB, 0x6B);
    SegmentId(0x10, 0x43, 0xA7, 0x70);
    SegmentId(0x19, 0x41, 0xA4, 0x69);
    SegmentId(0x12, 0x54, 0xC3, 0x67);
  }

  lemma SegmentIdsSafe()
    ensures NoneInside(Patterns(SEGMENT_IDS)) && LongestOf(Patterns(SEGMENT_IDS)) <= 4
    ensures FirstBytesApart(Patterns(SEGMENT_IDS)) && forall q :: q in Patterns(SEGMENT_IDS) ==> SelfDelimiting(q)
  {
    hide Patterns, LongestOf, NoneInside, FirstBytesApart, HeadOnly, EncodeId;
    FirstSegmentHeads();
    LastSegmentHeads();
    HeadsApart(SEGMENT_IDS, SEGMENT_HEADS);
  }

  lemma InfoIdsSafe()
    ensures NoneInside(Patterns(INFO_IDS)) && LongestOf(Patterns(INFO_IDS)) <= 4
    ensures FirstBytesApart(Patterns(INFO_IDS)) && forall q :: q in Patterns(INFO_IDS) ==> SelfDelimiting(q)
  {
    hide Patterns, LongestOf, NoneInside, FirstBytesApart;
    Id3(0x2A, 0xD7, 0xB1);
    Id2(0x44, 0x89);
    Id1(0xEC);
    HeadsApart(INFO_IDS, INFO_HEADS);
  }

  lemma OneByteIdsSafe(ids: seq<nat>)
    requires forall i :: 0 <= i < |ids| ==> ids[i] < 256 && ids[i] in ONE_BYTE_HEADS
    ensures NoneInside(Patterns(ids)) && LongestOf(Patterns(ids)) <= 4
    ensures FirstBytesApart(Patterns(ids)) && forall q :: q in Patterns(ids) ==> SelfDelimiting(q)
  {
    hide Patterns, LongestOf, NoneInside, FirstBytesApart;
    forall i | 0 <= i < |ids|
      ensures HeadOnly(EncodeId(ids[i]), ONE_BYTE_HEADS)
    {
      Id1(ids[i]);
    }
    HeadsApart(ids, ONE_BYTE_HEADS);
  }

  /** The table of sibling IDs used at one level of the walk. */
  predicate SiblingTable(ids: seq<nat>) {
    ids == SEGMENT_IDS || ids == INFO_IDS || ids == TRACK_IDS || ids == ENTRY_IDS || ids == VIDEO_IDS
  }

  /** None of the five sibling tables lets one ID begin inside another, and every ID in them is a vint. */
  lemma SiblingTablesSafe(ids: seq<nat>)
    requires SiblingTable(ids)
    ensures NoneInside(Patterns(ids)) && LongestOf(Patterns(ids)) <= 4
    ensures FirstBytesApart(Patterns(ids)) && forall q :: q in Patterns(ids) ==> SelfDelimiting(q)
  {
    hide Patterns, LongestOf, NoneInside, FirstBytesApart, SelfDelimiting;
    if ids == SEGMENT_IDS {
      SegmentIdsSafe();
    } else if ids == INFO_IDS {
      InfoIdsSafe();
    } else {
      OneByteIdsSafe(ids);
    }
  }

  lemma SiblingTableIds(ids: seq<nat>)
    requires SiblingTable(ids)
    ensures ids != [] && forall i :: 0 <= i < |ids| ==> 0 < ids[i] < Pow256(8)
  {
    PowTable();
  }

  lemma {:induction false} Pow256Grows(m: nat, n: nat)
    requires m <= n
    ensures Pow256(m) <= Pow256(n)
  {
    if m < n {
      Pow256Grows(m, n - 1);
    }
  }

  lemma PatternsShort(ids: seq<nat>)
    requires forall i :: 0 <= i < |ids| ==> ids[i] < Pow256(8)
    ensures forall q :: q in Patterns(ids) ==> 1 <= |q| <= 8
  {
    forall i | 0 <= i < |ids|
      ensures ByteLength(ids[i]) <= 8
    {
      if ByteLength(ids[i]) > 8 {
        Pow256Grows(8, ByteLength(ids[i]) - 1);
      }
    }
  }

  /** No sibling ID lies inside file[from..w]. */
  predicate Clear(file: seq<byte>, from: nat, w: nat, ps: seq<seq<byte>>)
    requires w <= |file|
  {
    forall p :: from <= p <= w ==> !Fits(file, w, p, ps)
  }

  /** No ID fits in file[at..w] from any offset before hit on. */
  ghost predicate NoFitBefore(file: seq<byte>, w: nat, at: nat, hit: nat, ps: seq<seq<byte>>)
    requires w <= |file|
  {
    forall p :: at <= p < hit ==> !Fits(file, w, p, ps)
  }

  /** One more window: what starts before it and still fits was already ruled out. */
  lemma ExtendClear(file: seq<byte>, from: nat, w: nat, at: nat, w': nat, ps: seq<seq<byte>>)
    requires from <= at && w <= w' <= |file| && Clear(file, from, w, ps)
    requires at == from || at + LongestOf(ps) <= w + 1
    requires NoFitBefore(file, w', at, w' + 1, ps)
    ensures Clear(file, from, w', ps)
  {
    forall p | from <= p <= w'
      ensures !Fits(file, w', p, ps)
    {
      if p < at {
        assert !Fits(file, w, p, ps);
        forall q | q in ps
          ensures !MatchAt(file, w', p, q)
        {
          assert !MatchAt(file, w, p, q);
        }
      }
    }
  }

  /** A place where r starts inside a would-be q, against the table's rule, rules q out. */
  lemma NotAround(file: seq<byte>, p: nat, q: seq<byte>, hit: nat, r: seq<byte>)
    requires p < hit && hit + |r| <= p + |q| <= |file|
    requires file[hit..hit + |r|] == r && !OccursAt(q, r, hit - p)
    ensures file[p..p + |q|] != q
  {
    var k := hit - p;
    SliceOfSlice(file, p, p + |q|, k, k + |r|);
  }

  /** What would have to start before the first hit of a window cannot fit at all. */
  lemma NothingBefore(
    file: seq<byte>, limit: nat, from: nat, w: nat, at: nat, w': nat, hit: nat, r: seq<byte>, ps: seq<seq<byte>>,
    p: nat, q: seq<byte>)
    requires w <= w' <= limit <= |file| && Clear(file, from, w, ps) && NoneInside(ps)
    requires at == from || at + LongestOf(ps) <= w + 1
    requires NoFitBefore(file, w', at, hit, ps)
    requires r in ps && MatchAt(file, w', hit, r)
    requires from <= p < hit && q in ps
    ensures !MatchAt(file, limit, p, q)
  {
    if p < at {
      assert |q| <= LongestOf(ps);
      assert !Fits(file, w, p, ps);
      assert !MatchAt(file, w, p, q);
    } else if p + |q| <= w' {
      assert !Fits(file, w', p, ps);
      assert !MatchAt(file, w', p, q);
    } else if p + |q| <= limit {
      assert !OccursAt(q, r, hit - p);
      NotAround(file, p, q, hit, r);
    }
  }

  /** The first hit of a window is the least hit of the whole range. */
  lemma WindowHitIsLeast(
    file: seq<byte>, limit: nat, from: nat, w: nat, at: nat, w': nat, hit: nat, ps: seq<seq<byte>>)
    requires w <= w' <= limit <= |file| && from <= at <= hit && Clear(file, from, w, ps) && NoneInside(ps)
    requires at == from || at + LongestOf(ps) <= w + 1
    requires NoFitBefore(file, w', at, hit, ps)
    requires Fits(file, w', hit, ps) && hit < limit
    ensures FirstFit(file, limit, from, ps) == hit
  {
    FitsIsMonotone(file, w', limit, hit, ps);
    var first := FirstFit(file, limit, from, ps);
    if first < hit {
      var q :| q in ps && MatchAt(file, limit, first, q);
      var r :| r in ps && MatchAt(file, w', hit, r);
      NothingBefore(file, limit, from, w, at, w', hit, r, ps, first, q);
    }
  }

  lemma FitsIsMonotone(file: seq<byte>, w: nat, limit: nat, p: nat, ps: seq<seq<byte>>)
    requires w <= limit <= |file| && Fits(file, w, p, ps)
    ensures Fits(file, limit, p, ps)
  {
    var q :| q in ps && MatchAt(file, w, p, q);
    assert MatchAt(file, limit, p, q);
  }

  lemma NothingToFind(file: seq<byte>, limit: nat, from: nat, ids: seq<nat>)
    requires from <= limit <= |file| && (from == limit || ids == [])
    ensures FindNext(file, limit, from, ids) == limit
  {
  }

  lemma HitIsFound(file: seq<byte>, limit: nat, from: nat, ps: seq<seq<byte>>, w: nat, hit: nat)
    requires from <= limit <= |file| && hit < limit && FirstFit(file, limit, from, ps) == hit
    requires w <= Reach(limit, from, ps) && Fits(file, w, hit, ps)
    ensures FindPattern(file, limit, from, ps) == hit
  {
    FitsIsMonotone(file, w, Reach(limit, from, ps), hit, ps);
  }

  lemma ClearMeansLimit(file: seq<byte>, limit: nat, from: nat, ps: seq<seq<byte>>, w: nat)
    requires from <= limit <= |file| && w <= limit && Clear(file, from, w, ps)
    requires Reach(limit, from, ps) <= w
    ensures FindPattern(file, limit, from, ps) == limit
  {
    var p := FirstFit(file, limit, from, ps);
    var reach := Reach(limit, from, ps);
    if p < limit && p <= reach && Fits(file, reach, p, ps) {
      FitsIsMonotone(file, reach, w, p, ps);
    }
  }

  /** k steps of c. */
  function Times(k: nat, c: nat): nat {
    if k == 0 then 0 else Times(k - 1, c) + c
  }

  /** The search after k windows: everything before w is ruled out, window k starts at at. */
  ghost predicate Searched(file: seq<byte>, limit: nat, from: nat, ps: seq<seq<byte>>, k: nat, at: nat, w: nat) {
    && from < limit <= |file| && 1 <= LongestOf(ps) <= 8 && NoneInside(ps)
    && k <= LAST_WINDOW + 1 && at == from + Times(k, CHUNK + 1 - LongestOf(ps))
    && from <= w <= limit
    && from <= at
    && ((k == 0 && at == w == from) || (w + 1 == at + LongestOf(ps) && w < limit))
    && Clear(file, from, w, ps)
  }

  lemma TimesAtMost(k: nat, c: nat)
    ensures k <= 1023 ==> Times(k, c) <= 1023 * c
    ensures k == 1024 ==> Times(k, c) == 1024 * c
  {
    TimesClosed(k, c);
    if k <= 1023 {
      TimesGrows(k, 1023, c);
    }
  }

  lemma {:induction false} TimesClosed(k: nat, c: nat)
    ensures Times(k, c) == k * c
  {
    if k > 0 {
      TimesClosed(k - 1, c);
    }
  }

  lemma TimesGrows(a: nat, b: nat, c: nat)
    requires a <= b
    ensures a * c <= b * c
  {
  }

  lemma SearchBegins(file: seq<byte>, limit: nat, from: nat, ps: seq<seq<byte>>)
    requires from < limit <= |file| && ps != [] && NoneInside(ps)
    requires forall q :: q in ps ==> 1 <= |q| <= 8
    ensures Searched(file, limit, from, ps, 0, from, from)
  {
    assert ps[0] in ps;
  }

  lemma SearchReach(file: seq<byte>, limit: nat, from: nat, ps: seq<seq<byte>>, k: nat, at: nat, w: nat, w': nat)
    requires Searched(file, limit, from, ps, k, at, w) && k <= LAST_WINDOW
    requires w' <= at + CHUNK && w' <= limit
    ensures w' <= Reach(limit, from, ps)
  {
    TimesAtMost(k, CHUNK + 1 - LongestOf(ps));
  }

  lemma SearchHits(
    file: seq<byte>, limit: nat, from: nat, ps: seq<seq<byte>>, k: nat, at: nat, w: nat, w': nat, hit: nat)
    requires Searched(file, limit, from, ps, k, at, w) && k <= LAST_WINDOW
    requires w <= w' <= at + CHUNK && w' <= limit && at <= hit < limit
    requires Fits(file, w', hit, ps) && NoFitBefore(file, w', at, hit, ps)
    ensures FindPattern(file, limit, from, ps) == hit
  {
    WindowHitIsLeast(file, limit, from, w, at, w', hit, ps);
    SearchReach(file, limit, from, ps, k, at, w, w');
    HitIsFound(file, limit, from, ps, w', hit);
  }

  lemma SearchEnds(file: seq<byte>, limit: nat, from: nat, ps: seq<seq<byte>>, k: nat, at: nat, w: nat)
    requires Searched(file, limit, from, ps, k, at, w)
    requires NoFitBefore(file, limit, at, limit + 1, ps)
    ensures FindPattern(file, limit, from, ps) == limit
  {
    ExtendClear(file, from, w, at, limit, ps);
    ClearMeansLimit(file, limit, from, ps, limit);
  }

  lemma SearchGoesOn(file: seq<byte>, limit: nat, from: nat, ps: seq<seq<byte>>, k: nat, at: nat, w: nat, w': nat)
    requires Searched(file, limit, from, ps, k, at, w) && k <= LAST_WINDOW
    requires w' == at + CHUNK < limit && NoFitBefore(file, w', at, w' + 1, ps)
    ensures Searched(file, limit, from, ps, k + 1, w' + 1 - LongestOf(ps), w')
  {
    ExtendClear(file, from, w, at, w', ps);
  }

  lemma SearchGivesUp(file: seq<byte>, limit: nat, from: nat, ps: seq<seq<byte>>, k: nat, at: nat, w: nat)
    requires Searched(file, limit, from, ps, k, at, w) && k == LAST_WINDOW + 1
    ensures FindPattern(file, limit, from, ps) == limit
  {
    TimesAtMost(k, CHUNK + 1 - LongestOf(ps));
    ClearMeansLimit(file, limit, from, ps, w);
  }

  /**
   * What the search returns: hit is the result exactly when an ID fits at hit
   * within reach and none fits earlier within reach; the limit is returned
   * exactly when none fits within reach at all.
   */
  lemma FindPatternMeaning(file: seq<byte>, limit: nat, from: nat, ps: seq<seq<byte>>, reach: nat)
    requires from <= limit <= |file| && NoneInside(ps) && forall q :: q in ps ==> 1 <= |q| <= 8
    requires reach == Reach(limit, from, ps)
    ensures var r := FindPattern(file, limit, from, ps);
            && (r < limit ==> Fits(file, reach, r, ps) && NoFitBefore(file, reach, from, r, ps))
            && (r == limit ==> NoFitBefore(file, reach, from, limit, ps))
  {
    hide LongestOf, Reach, NoneInside, FirstFit;
    var p := FirstFit(file, limit, from, ps);
    forall k | from <= k < p
      ensures !Fits(file, reach, k, ps)
    {
      if Fits(file, reach, k, ps) {
        FitsIsMonotone(file, reach, limit, k, ps);
      }
    }
    assert NoFitBefore(file, reach, from, p, ps);
    if p < limit && !(p <= reach && Fits(file, reach, p, ps)) {
      var q :| q in ps && MatchAt(file, limit, p, q);
      forall k | from <= k < limit
        ensures !Fits(file, reach, k, ps)
      {
        if k > p && Fits(file, reach, k, ps) {
          var r :| r in ps && MatchAt(file, reach, k, r);
          assert !MatchAt(file, reach, p, q);
          HitBeyond(file, p, q, k, r, ps);
        }
      }
    }
  }

  lemma HitBeyond(file: seq<byte>, p: nat, q: seq<byte>, k: nat, r: seq<byte>, ps: seq<seq<byte>>)
    requires NoneInside(ps) && q in ps && r in ps && r != []
    requires p < k && p + |q| <= |file| && k + |r| <= |file|
    requires file[k..k + |r|] == r && file[p..p + |q|] == q
    ensures p + |q| < k + |r|
  {
    if k + |r| <= p + |q| {
      assert !OccursAt(q, r, k - p);
      NotAround(file, p, q, k, r);
    }
  }

  lemma HitIsResult(file: seq<byte>, limit: nat, from: nat, ps: seq<seq<byte>>, reach: nat, hit: nat)
    requires from <= hit < limit <= |file| && ps != [] && NoneInside(ps)
    requires forall q :: q in ps ==> 1 <= |q| <= 8
    requires reach == Reach(limit, from, ps)
    requires Fits(file, reach, hit, ps) && NoFitBefore(file, reach, from, hit, ps)
    ensures FindPattern(file, limit, from, ps) == hit
  {
    hide FindPattern, FirstFit;
    SearchBegins(file, limit, from, ps);
    WindowHitIsLeast(file, limit, from, from, from, reach, hit, ps);
    HitIsFound(file, limit, from, ps, reach, hit);
  }
}
