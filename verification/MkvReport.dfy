/** What a caller of the Matroska probe is told: dimensions and duration, in terms of the elements of the file. */
module MkvReport {
  import opened Bytes
  import opened Picking
  import opened Vints
  import opened MkvSearch
  import opened MkvSpec
  import opened MkvTree
  import opened MkvRoundTrip
  import opened MkvSkipping
  import opened MkvUnknownSize

  /** The payload of an element that is read as a number has one to eight bytes. */
  predicate Readable(e: Ebml) {
    1 <= |Body(e)| <= 8
  }

  /** The last readable number that the children called id hold. */
  ghost predicate LastNumber(es: seq<Ebml>, id: nat, v: nat) {
    exists i :: 0 <= i < |es| && es[i].id == id && Readable(es[i]) && BigEndian(Body(es[i])) == v
                && forall j :: i < j < |es| && es[j].id == id ==> !Readable(es[j])
  }

  lemma {:induction false} LastOfNumbers(es: seq<Ebml>, id: nat)
    requires Numbers(es, id) != []
    ensures LastNumber(es, id, Numbers(es, id)[|Numbers(es, id)| - 1])
  {
    hide Body;
    var rest, n := es[1..], Numbers(es, id);
    if Numbers(rest, id) != [] {
      LastOfNumbers(rest, id);
      var v := n[|n| - 1];
      var i :| 0 <= i < |rest| && rest[i].id == id && Readable(rest[i]) && BigEndian(Body(rest[i])) == v
               && forall j :: i < j < |rest| && rest[j].id == id ==> !Readable(rest[j]);
      assert es[i + 1] == rest[i] && forall j :: i + 1 < j < |es| ==> es[j] == rest[j - 1];
    } else {
      NoNumbers(rest, id);
      assert es[0].id == id && Readable(es[0]) && forall j :: 0 < j < |es| ==> es[j] == rest[j - 1];
    }
  }

  lemma {:induction false} NoNumbers(es: seq<Ebml>, id: nat)
    requires Numbers(es, id) == []
    ensures forall j :: 0 <= j < |es| && es[j].id == id ==> !Readable(es[j])
  {
    hide Body;
    if es != [] {
      NoNumbers(es[1..], id);
      assert forall j :: 0 < j < |es| ==> es[j] == es[1..][j - 1];
    }
  }

  /** A TrackEntry that says it is a video track, and in its last Video element shows these pixels. */
  ghost predicate ShowsPixels(entry: seq<Ebml>, w: nat, h: nat) {
    && LastNumber(entry, 0x83, 1)
    && exists i :: 0 <= i < |entry| && entry[i].id == 0xE0 && (forall j :: i < j < |entry| ==> entry[j].id != 0xE0)
                   && LastNumber(Kids(entry[i]), 0xB0, w) && LastNumber(Kids(entry[i]), 0xBA, h)
  }

  lemma {:induction false} LastNamed(es: seq<Ebml>, id: nat) returns (i: nat)
    requires Named(es, id) != []
    ensures i < |es| && es[i] == Named(es, id)[|Named(es, id)| - 1] && es[i].id == id
    ensures forall j :: i < j < |es| ==> es[j].id != id
  {
    var rest, n := es[1..], Named(es[1..], id);
    NamedCons(es, id);
    hide Named;
    if n != [] {
      var k := LastNamed(rest, id);
      i := k + 1;
      forall j | i < j < |es|
        ensures es[j].id != id
      {
        assert es[j] == rest[j - 1];
      }
    } else {
      i := 0;
      NoneNamed(rest, id);
      forall j | 0 < j < |es|
        ensures es[j].id != id
      {
        assert es[j] == rest[j - 1];
      }
    }
  }

  lemma NamedCons(es: seq<Ebml>, id: nat)
    requires es != []
    ensures Named(es, id) == (if es[0].id == id then [es[0]] else []) + Named(es[1..], id)
  {
  }

  lemma {:induction false} NoneNamed(es: seq<Ebml>, id: nat)
    requires Named(es, id) == []
    ensures forall j :: 0 <= j < |es| ==> es[j].id != id
  {
    if es != [] {
      NoneNamed(es[1..], id);
      assert forall j :: 0 < j < |es| ==> es[j] == es[1..][j - 1];
    }
  }

  lemma VideoShows(video: Ebml, w: nat, h: nat)
    requires VideoSize(Kids(video)) == (w, h) && w > 0 && h > 0
    ensures LastNumber(Kids(video), 0xB0, w) && LastNumber(Kids(video), 0xBA, h)
  {
    hide Numbers, LastNumber, Kids;
    LastOfNumbers(Kids(video), 0xB0);
    LastOfNumbers(Kids(video), 0xBA);
  }

  lemma UsableShows(entry: seq<Ebml>)
    requires Usable(entry)
    ensures ShowsPixels(entry, EntrySize(entry).0, EntrySize(entry).1) && EntrySize(entry).0 > 0 && EntrySize(entry).1 > 0
  {
    hide Numbers, LastNumber, Kids, VideoSize, Named;
    LastOfNumbers(entry, 0x83);
    var i := LastNamed(entry, 0xE0);
    VideoShows(entry[i], EntrySize(entry).0, EntrySize(entry).1);
  }

  /** The first TrackEntry among these that shows positive pixels. */
  lemma {:induction false} FirstUsable(entries: seq<Ebml>) returns (i: nat)
    requires UsableSizes(entries) != []
    ensures i < |entries| && Usable(Kids(entries[i])) && UsableSizes(entries)[0] == EntrySize(Kids(entries[i]))
    ensures forall j :: 0 <= j < i ==> !Usable(Kids(entries[j]))
  {
    hide Usable, EntrySize, Kids;
    if Usable(Kids(entries[0])) {
      i := 0;
    } else {
      var k := FirstUsable(entries[1..]);
      i := k + 1;
      assert forall j :: 0 < j < i ==> entries[j] == entries[1..][j - 1];
    }
  }

  /** The TrackEntry elements of some Tracks elements, in order. */
  function Entries(tracks: seq<Ebml>): seq<Ebml> {
    if tracks == [] then [] else Named(Kids(tracks[0]), ID_TRACK_ENTRY) + Entries(tracks[1..])
  }

  lemma {:induction false} SizesAppend(a: seq<Ebml>, b: seq<Ebml>)
    ensures UsableSizes(a + b) == UsableSizes(a) + UsableSizes(b)
  {
    hide UsableSizes;
    if a == [] {
      assert a + b == b;
      NoSizes();
    } else {
      assert (a + b)[0] == a[0] && (a + b)[1..] == a[1..] + b;
      SizesAppend(a[1..], b);
      UsableCons(a);
      UsableCons(a + b);
    }
  }

  lemma UsableCons(es: seq<Ebml>)
    requires es != []
    ensures UsableSizes(es) == UsableSizes([es[0]]) + UsableSizes(es[1..])
  {
    hide Usable, EntrySize, Kids;
    assert [es[0]][1..] == [];
  }

  lemma NoSizes()
    ensures UsableSizes([]) == []
  {
  }

  lemma {:induction false} SizesOfEntries(tracks: seq<Ebml>)
    ensures AllSizes(tracks) == UsableSizes(Entries(tracks))
  {
    hide UsableSizes, Kids, Named;
    if tracks == [] {
      NoSizes();
    } else {
      SizesOfEntries(tracks[1..]);
      SizesAppend(Named(Kids(tracks[0]), ID_TRACK_ENTRY), Entries(tracks[1..]));
    }
  }

  // The converse: what an entry shows is all it shows.

  lemma {:induction false} NumberIsLast(es: seq<Ebml>, id: nat, v: nat)
    requires LastNumber(es, id, v)
    ensures Numbers(es, id) != [] && Numbers(es, id)[|Numbers(es, id)| - 1] == v
  {
    hide Body;
    var i :| 0 <= i < |es| && es[i].id == id && Readable(es[i]) && BigEndian(Body(es[i])) == v
             && forall j :: i < j < |es| && es[j].id == id ==> !Readable(es[j]);
    var rest := es[1..];
    if i == 0 {
      assert forall j :: 0 <= j < |rest| ==> rest[j] == es[j + 1];
      NothingReadable(rest, id);
    } else {
      assert rest[i - 1] == es[i] && forall j :: 0 <= j < |rest| ==> rest[j] == es[j + 1];
      assert LastNumber(rest, id, v);
      NumberIsLast(rest, id, v);
    }
  }

  lemma {:induction false} NothingReadable(es: seq<Ebml>, id: nat)
    requires forall j :: 0 <= j < |es| && es[j].id == id ==> !Readable(es[j])
    ensures Numbers(es, id) == []
  {
    hide Body;
    if es != [] {
      assert forall j :: 0 <= j < |es| - 1 ==> es[1..][j] == es[j + 1];
      NothingReadable(es[1..], id);
    }
  }

  lemma {:induction false} NamedIsLast(es: seq<Ebml>, id: nat, i: nat)
    requires i < |es| && es[i].id == id && forall j :: i < j < |es| ==> es[j].id != id
    ensures Named(es, id) != [] && Named(es, id)[|Named(es, id)| - 1] == es[i]
  {
    var rest := es[1..];
    assert forall j :: 0 <= j < |rest| ==> rest[j] == es[j + 1];
    if i == 0 {
      NothingNamed(rest, id);
    } else {
      NamedIsLast(rest, id, i - 1);
    }
  }

  lemma {:induction false} NothingNamed(es: seq<Ebml>, id: nat)
    requires forall j :: 0 <= j < |es| ==> es[j].id != id
    ensures Named(es, id) == []
  {
    if es != [] {
      assert forall j :: 0 <= j < |es| - 1 ==> es[1..][j] == es[j + 1];
      NothingNamed(es[1..], id);
    }
  }

  lemma ShownIsUsable(entry: seq<Ebml>, w: nat, h: nat)
    requires ShowsPixels(entry, w, h)
    ensures EntrySize(entry) == (w, h) && (w > 0 && h > 0 ==> Usable(entry))
  {
    hide LastNumber, Numbers, Named;
    NumberIsLast(entry, 0x83, 1);
    var i :| 0 <= i < |entry| && entry[i].id == 0xE0 && (forall j :: i < j < |entry| ==> entry[j].id != 0xE0)
             && LastNumber(Kids(entry[i]), 0xB0, w) && LastNumber(Kids(entry[i]), 0xBA, h);
    NamedIsLast(entry, 0xE0, i);
    NumberIsLast(Kids(entry[i]), 0xB0, w);
    NumberIsLast(Kids(entry[i]), 0xBA, h);
  }

  /** A track entry that is a video track with positive dimensions. */
  ghost predicate Candidate(entry: seq<Ebml>) {
    exists w: nat, h: nat :: ShowsPixels(entry, w, h) && w > 0 && h > 0
  }

  lemma CandidateIsUsable(entry: seq<Ebml>)
    ensures Candidate(entry) <==> Usable(entry)
  {
    hide ShowsPixels, Usable, EntrySize;
    if Usable(entry) {
      UsableShows(entry);
    }
    if w: nat, h: nat :| ShowsPixels(entry, w, h) && w > 0 && h > 0 {
      ShownIsUsable(entry, w, h);
    }
  }

  /** The k-th entry is the first candidate. */
  ghost predicate FirstCandidate(entries: seq<Ebml>, k: nat) {
    k < |entries| && Candidate(Kids(entries[k])) && forall j :: 0 <= j < k ==> !Candidate(Kids(entries[j]))
  }

  /** The first candidate decides: its pixels are reported if they are in range. Without one, nothing is. */
  ghost predicate ReportsPixels(entries: seq<Ebml>, width: nat, height: nat) {
    && (forall k: nat, w: nat, h: nat :: FirstCandidate(entries, k) && ShowsPixels(Kids(entries[k]), w, h) ==>
          if w <= 65536 && h <= 65536 then width == w && height == h else width == height == 0)
    && ((forall k :: 0 <= k < |entries| ==> !Candidate(Kids(entries[k]))) ==> width == height == 0)
  }

  lemma {:induction false} SizesOfFirst(entries: seq<Ebml>, k: nat)
    requires FirstCandidate(entries, k)
    ensures UsableSizes(entries) != [] && UsableSizes(entries)[0] == EntrySize(Kids(entries[k]))
    decreases k
  {
    hide Usable, EntrySize, Kids, Candidate;
    CandidateIsUsable(Kids(entries[0]));
    if k > 0 {
      assert forall j :: 0 <= j < |entries| - 1 ==> entries[1..][j] == entries[j + 1];
      SizesOfFirst(entries[1..], k - 1);
    }
  }

  lemma {:induction false} SizesOfNone(entries: seq<Ebml>)
    requires forall k :: 0 <= k < |entries| ==> !Candidate(Kids(entries[k]))
    ensures UsableSizes(entries) == []
  {
    hide Usable, EntrySize, Kids, Candidate;
    if entries != [] {
      CandidateIsUsable(Kids(entries[0]));
      assert forall j :: 0 <= j < |entries| - 1 ==> entries[1..][j] == entries[j + 1];
      SizesOfNone(entries[1..]);
    }
  }

  lemma PixelsOfSizes(entries: seq<Ebml>, width: nat, height: nat)
    requires var sizes := UsableSizes(entries);
             if sizes != [] && sizes[0].0 <= 65536 && sizes[0].1 <= 65536 then (width, height) == sizes[0]
             else width == height == 0
    ensures ReportsPixels(entries, width, height)
  {
    hide UsableSizes, Candidate, ShowsPixels, EntrySize;
    forall k: nat, w: nat, h: nat | FirstCandidate(entries, k) && ShowsPixels(Kids(entries[k]), w, h)
      ensures if w <= 65536 && h <= 65536 then width == w && height == h else width == height == 0
    {
      SizesOfFirst(entries, k);
      ShownIsUsable(Kids(entries[k]), w, h);
    }
    if forall k :: 0 <= k < |entries| ==> !Candidate(Kids(entries[k])) {
      SizesOfNone(entries);
    }
  }

  // The duration.

  /** The children of some Info elements, in order. */
  function InfoKids(infos: seq<Ebml>): seq<Ebml> {
    if infos == [] then [] else Kids(infos[0]) + InfoKids(infos[1..])
  }

  /** The last Duration that holds a finite float. */
  ghost predicate LastDuration(es: seq<Ebml>, v: Float) {
    exists i :: 0 <= i < |es| && es[i].id == 0x4489 && FloatOf(Body(es[i])) == Some(v)
                && forall j :: i < j < |es| && es[j].id == 0x4489 ==> FloatOf(Body(es[j])) == None
  }

  ghost predicate NoDuration(es: seq<Ebml>) {
    forall j :: 0 <= j < |es| && es[j].id == 0x4489 ==> FloatOf(Body(es[j])) == None
  }

  /** A TimecodeScale of use. */
  predicate Scaling(e: Ebml) {
    e.id == 0x2AD7B1 && Readable(e) && BigEndian(Body(e)) > 0
  }

  /** The last positive TimecodeScale, or a million nanoseconds where there is none. */
  ghost predicate LastScale(es: seq<Ebml>, s: nat) {
    if exists i :: 0 <= i < |es| && Scaling(es[i]) then
      exists i :: 0 <= i < |es| && Scaling(es[i]) && BigEndian(Body(es[i])) == s && forall j :: i < j < |es| ==> !Scaling(es[j])
    else s == 1_000_000
  }

  lemma {:induction false} FloatsAppend(a: seq<Ebml>, b: seq<Ebml>)
    ensures Floats(a + b) == Floats(a) + Floats(b)
  {
    hide FloatOf, Body;
    if a == [] {
      assert a + b == b;
    } else {
      assert (a + b)[0] == a[0] && (a + b)[1..] == a[1..] + b;
      FloatsAppend(a[1..], b);
      assert Floats(a + b) == Floats([a[0]]) + Floats((a + b)[1..]) && Floats(a) == Floats([a[0]]) + Floats(a[1..]) by {
        FloatsCons(a);
        FloatsCons(a + b);
      }
    }
  }

  lemma FloatsCons(es: seq<Ebml>)
    requires es != []
    ensures Floats(es) == Floats([es[0]]) + Floats(es[1..])
  {
    hide FloatOf, Body;
    assert [es[0]][1..] == [];
  }

  lemma {:induction false} ScalesAppend(a: seq<Ebml>, b: seq<Ebml>)
    ensures Positive(Numbers(a + b, ID_TIMECODE_SCALE))
            == Positive(Numbers(a, ID_TIMECODE_SCALE)) + Positive(Numbers(b, ID_TIMECODE_SCALE))
  {
    hide UintOf, Body, Positive, Numbers;
    if a == [] {
      assert a + b == b;
      NoPositive();
    } else {
      assert (a + b)[0] == a[0] && (a + b)[1..] == a[1..] + b;
      ScalesAppend(a[1..], b);
      PositiveCons(a);
      PositiveCons(a + b);
    }
  }

  lemma NoPositive()
    ensures Positive(Numbers([], ID_TIMECODE_SCALE)) == [] && Floats([]) == []
  {
  }

  lemma {:induction false} InfosFlat(infos: seq<Ebml>)
    ensures AllDurations(infos) == Floats(InfoKids(infos))
    ensures AllScales(infos) == Positive(Numbers(InfoKids(infos), ID_TIMECODE_SCALE))
  {
    hide Floats, Positive, Numbers, Kids;
    if infos == [] {
      NoPositive();
    } else {
      InfosFlat(infos[1..]);
      FloatsAppend(Kids(infos[0]), InfoKids(infos[1..]));
      ScalesAppend(Kids(infos[0]), InfoKids(infos[1..]));
    }
  }

  lemma {:induction false} LastOfFloats(es: seq<Ebml>)
    ensures Floats(es) == [] ==> NoDuration(es)
    ensures Floats(es) != [] ==> LastDuration(es, Floats(es)[|Floats(es)| - 1])
  {
    hide FloatOf, Body;
    if es != [] {
      var rest, d := es[1..], Floats(es);
      assert forall j :: 0 <= j < |rest| ==> rest[j] == es[j + 1];
      LastOfFloats(rest);
      if Floats(rest) != [] {
        var v := d[|d| - 1];
        var i :| 0 <= i < |rest| && rest[i].id == 0x4489 && FloatOf(Body(rest[i])) == Some(v)
                 && forall j :: i < j < |rest| && rest[j].id == 0x4489 ==> FloatOf(Body(rest[j])) == None;
        assert es[i + 1] == rest[i] && forall j :: i + 1 < j < |es| ==> es[j] == rest[j - 1];
      } else {
        assert forall j :: 0 < j < |es| ==> es[j] == rest[j - 1];
      }
    }
  }

  lemma {:induction false} LastOfScales(es: seq<Ebml>)
    ensures LastScale(es, Last(Positive(Numbers(es, ID_TIMECODE_SCALE)), DEFAULT_TIMECODE_SCALE))
  {
    hide UintOf, Body, Positive, Numbers, BigEndian;
    var p := Positive(Numbers(es, ID_TIMECODE_SCALE));
    if es == [] {
      NoPositive();
    } else {
      var rest := es[1..];
      var q := Positive(Numbers(rest, ID_TIMECODE_SCALE));
      assert forall j :: 0 <= j < |rest| ==> rest[j] == es[j + 1];
      assert forall j :: 0 < j < |es| ==> es[j] == rest[j - 1];
      LastOfScales(rest);
      PositiveCons(es);
      ScalingIs(es[0]);
      ScalesOfNone(rest);
      if q != [] {
        var s := Last(q, DEFAULT_TIMECODE_SCALE);
        var i :| 0 <= i < |rest| && Scaling(rest[i]) && BigEndian(Body(rest[i])) == s && forall j :: i < j < |rest| ==> !Scaling(rest[j]);
        assert es[i + 1] == rest[i];
      }
    }
  }

  lemma ScalingIs(e: Ebml)
    ensures Scaling(e) <==> e.id == ID_TIMECODE_SCALE && UintOf(Body(e)).Some? && UintOf(Body(e)).value > 0
    ensures Scaling(e) ==> UintOf(Body(e)) == Some(BigEndian(Body(e)))
  {
    hide Body;
  }

  lemma {:induction false} ScalesOfNone(es: seq<Ebml>)
    ensures Positive(Numbers(es, ID_TIMECODE_SCALE)) == [] <==> forall i :: 0 <= i < |es| ==> !Scaling(es[i])
  {
    hide UintOf, Body, Positive, Numbers, BigEndian, Scaling;
    if es == [] {
      NoPositive();
    } else {
      assert forall j :: 0 <= j < |es| - 1 ==> es[1..][j] == es[j + 1];
      ScalesOfNone(es[1..]);
      PositiveCons(es);
      ScalingIs(es[0]);
    }
  }

  /** The Info and Tracks elements that are looked at: those up to where one of each has been seen. */
  function Used(f: File): seq<Ebml> {
    UntilBoth(FileMetadata(f), false, false)
  }

  /** An Info element and a Tracks element are among these. */
  ghost predicate HasBoth(es: seq<Ebml>) {
    (exists i :: 0 <= i < |es| && es[i].id == 0x1549A966) && exists i :: 0 <= i < |es| && es[i].id == 0x1654AE6B
  }

  /** The children of all Segments, in file order. */
  function SegmentKids(roots: seq<Ebml>): seq<Ebml> {
    if roots == [] then [] else (if roots[0].id == 0x18538067 then Kids(roots[0]) else []) + SegmentKids(roots[1..])
  }

  function AllKids(f: File): seq<Ebml> {
    SegmentKids(f.roots) + if f.streaming.Some? then f.streaming.value.1 else []
  }

  function MetadataOf(e: Ebml): Option<Ebml> {
    if e.id == 0x1549A966 || e.id == 0x1654AE6B then Some(e) else None
  }

  lemma {:induction false} MetadataPicked(es: seq<Ebml>)
    ensures Metadata(es) == Picked(es, MetadataOf)
  {
    if es != [] {
      MetadataPicked(es[1..]);
    }
  }

  lemma {:induction false} RootMetadataPicked(roots: seq<Ebml>)
    ensures RootMetadata(roots) == Picked(SegmentKids(roots), MetadataOf)
  {
    hide Metadata, Picked, Kids;
    PickedNil(MetadataOf);
    if roots != [] {
      RootMetadataPicked(roots[1..]);
      MetadataPicked(Kids(roots[0]));
      PickedAppend(if roots[0].id == 0x18538067 then Kids(roots[0]) else [], SegmentKids(roots[1..]), MetadataOf);
    }
  }

  /** Some elements of which an Info and a Tracks may have been seen before. */
  ghost predicate Enough(es: seq<Ebml>, info: bool, tracks: bool) {
    && (info || exists i :: 0 <= i < |es| && es[i].id == 0x1549A966)
    && (tracks || exists i :: 0 <= i < |es| && es[i].id == 0x1654AE6B)
  }

  lemma {:induction false} UntilBothIsPrefix(ms: seq<Ebml>, info: bool, tracks: bool) returns (n: nat)
    ensures n <= |ms| && UntilBoth(ms, info, tracks) == ms[..n] && (n == |ms| || Enough(ms[..n], info, tracks))
    ensures forall k :: 0 <= k < n ==> !Enough(ms[..k], info, tracks)
  {
    if ms == [] || (info && tracks) {
      n := 0;
    } else {
      var i, t := info || ms[0].id == ID_INFO, tracks || ms[0].id == ID_TRACKS;
      var m := UntilBothIsPrefix(ms[1..], i, t);
      n := m + 1;
      assert ms[..n] == [ms[0]] + ms[1..][..m];
      EnoughCons(ms[0], ms[1..][..m], info, tracks);
      forall k | 0 <= k < n
        ensures !Enough(ms[..k], info, tracks)
      {
        if k > 0 {
          assert ms[..k] == [ms[0]] + ms[1..][..k - 1];
          EnoughCons(ms[0], ms[1..][..k - 1], info, tracks);
        }
      }
    }
  }

  lemma EnoughCons(e: Ebml, es: seq<Ebml>, info: bool, tracks: bool)
    ensures Enough([e] + es, info, tracks) <==> Enough(es, info || e.id == ID_INFO, tracks || e.id == ID_TRACKS)
  {
    var all := [e] + es;
    assert all[0] == e && (forall i :: 0 <= i < |es| ==> all[i + 1] == es[i]) && forall i :: 0 < i < |all| ==> all[i] == es[i - 1];
  }

  /** What is looked at are the Info and Tracks elements of all Segments up to the first point where one of each has been seen. */
  lemma UsedMeans(f: File) returns (n: nat)
    ensures var all := Picked(AllKids(f), MetadataOf);
            && n <= |all| && Used(f) == all[..n] && (n == |all| || HasBoth(all[..n]))
            && forall k :: 0 <= k < n ==> !HasBoth(all[..k])
  {
    hide UntilBoth, Picked, Metadata, RootMetadata, SegmentKids;
    var live := if f.streaming.Some? then f.streaming.value.1 else [];
    RootMetadataPicked(f.roots);
    MetadataPicked(live);
    PickedNil(MetadataOf);
    PickedAppend(SegmentKids(f.roots), live, MetadataOf);
    assert FileMetadata(f) == Picked(AllKids(f), MetadataOf);
    n := UntilBothIsPrefix(FileMetadata(f), false, false);
  }

  /** No duration without a readable Duration; otherwise the last one's bits and the last positive TimecodeScale. */
  ghost predicate ReportsDuration(es: seq<Ebml>, duration: Option<(Float, nat)>) {
    && (duration.None? ==> NoDuration(es))
    && (duration.Some? ==> LastDuration(es, duration.value.0) && LastScale(es, duration.value.1))
  }

  lemma InfoReports(f: File, i: Info)
    requires i == InfoOf(Meaning(f))
    ensures ReportsPixels(Entries(Named(Used(f), ID_TRACKS)), i.width, i.height)
    ensures ReportsDuration(InfoKids(Named(Used(f), ID_INFO)), i.duration)
  {
    hide Named, AllSizes, AllDurations, AllScales, UsableSizes, ReportsPixels, LastDuration, LastScale, NoDuration, UntilBoth,
      FileMetadata, Entries, InfoKids, Floats, Positive, Numbers;
    var infos, tracks := Named(Used(f), ID_INFO), Named(Used(f), ID_TRACKS);
    SizesOfEntries(tracks);
    SizesArePositive(Entries(tracks));
    PixelsOfSizes(Entries(tracks), i.width, i.height);
    InfosFlat(infos);
    LastOfFloats(InfoKids(infos));
    LastOfScales(InfoKids(infos));
    ScalesArePositive(InfoKids(infos));
    var scale := Last(AllScales(infos), DEFAULT_TIMECODE_SCALE);
    assert scale > 0;
    if i.duration.Some? {
      assert i.duration.value.1 == scale;
    }
  }

  lemma {:induction false} SizesArePositive(entries: seq<Ebml>)
    ensures forall s :: s in UsableSizes(entries) ==> s.0 > 0 && s.1 > 0
  {
    hide EntrySize, Kids, Numbers;
    if entries != [] {
      SizesArePositive(entries[1..]);
    }
  }

  lemma ScalesArePositive(es: seq<Ebml>)
    ensures Last(Positive(Numbers(es, ID_TIMECODE_SCALE)), DEFAULT_TIMECODE_SCALE) > 0
  {
    hide Numbers;
    var p := Positive(Numbers(es, ID_TIMECODE_SCALE));
    OnlyPositive(Numbers(es, ID_TIMECODE_SCALE));
    assert p != [] ==> p[|p| - 1] in p;
  }

  lemma {:induction false} OnlyPositive(s: seq<nat>)
    ensures forall v :: v in Positive(s) ==> v > 0
  {
    if s != [] {
      OnlyPositive(s[1..]);
    }
  }

  /**
   * Probing a well-formed file reports the pixels of the first TrackEntry that is a video track with positive ones,
   * width as width and height as height, and the last readable Duration with the last positive TimecodeScale.
   */
  lemma ReportOfEncode(f: File)
    requires Valid(f) && |EncodeFile(f)| + CHUNK <= MAX_INT64
    ensures var i := Probe(EncodeFile(f));
            && ReportsPixels(Entries(Named(Used(f), ID_TRACKS)), i.width, i.height)
            && ReportsDuration(InfoKids(Named(Used(f), ID_INFO)), i.duration)
  {
    hide ReportsPixels, ReportsDuration, Meaning, InfoOf, Probe, EncodeFile;
    ProbeOfEncode(f);
    InfoReports(f, Probe(EncodeFile(f)));
  }

  /** The same of a streamed recording. */
  lemma ReportOfLive(n: nat, cs: seq<Child>)
    requires 1 <= n <= 8 && ValidChildren(cs) && |Live(n, cs)| + CHUNK <= MAX_INT64
    ensures var i, f := Probe(Live(n, cs)), File([], Some((n, SizedOf(cs))));
            && ReportsPixels(Entries(Named(Used(f), ID_TRACKS)), i.width, i.height)
            && ReportsDuration(InfoKids(Named(Used(f), ID_INFO)), i.duration)
  {
    hide ReportsPixels, ReportsDuration, Meaning, InfoOf, Probe, Live, ValidChildren, FoldAll, Metadata;
    var f := File([], Some((n, SizedOf(cs))));
    ProbeOfLive(n, cs);
    FileMetadataIs(f);
    MeaningIsFold(f);
    InfoReports(f, Probe(Live(n, cs)));
  }

  lemma FileMetadataIs(f: File)
    requires f.roots == [] && f.streaming.Some?
    ensures FileMetadata(f) == Metadata(f.streaming.value.1)
  {
    var ms := Metadata(f.streaming.value.1);
    assert RootMetadata(f.roots) == [] && [] + ms == ms;
    assert FileMetadata(f) == RootMetadata(f.roots) + ms;
  }

  // One file, byte by byte.

  const PIXELS: seq<byte> := [0xB0, 0x82, 0x07, 0x80, 0xBA, 0x82, 0x04, 0x38]
  const ENTRY: seq<byte> := [0xAE, 0x8D, 0x83, 0x81, 0x01, 0xE0, 0x88]
  const TRACKS: seq<byte> := [0x16, 0x54, 0xAE, 0x6B, 0x8F]
  const INFO: seq<byte> := [
    0x15, 0x49, 0xA9, 0x66, 0x8E, 0x2A, 0xD7, 0xB1, 0x83, 0x0F, 0x42, 0x40, 0x44, 0x89, 0x84, 0x45, 0x1C, 0x40, 0x00]
  const SEGMENT: seq<byte> := [0x18, 0x53, 0x80, 0x67, 0xA7]

  /** 2500 milliseconds of video, 1920 pixels wide and 1080 high. */
  const FULL_HD: seq<byte> := SEGMENT + (INFO + (TRACKS + (ENTRY + PIXELS)))

  function Info4(): Ebml {
    Master(ID_INFO, 1, [Data(ID_TIMECODE_SCALE, 1, [0x0F, 0x42, 0x40]), Data(ID_DURATION, 1, [0x45, 0x1C, 0x40, 0x00])])
  }

  function Video3(): Ebml {
    Master(ID_VIDEO, 1, [Data(ID_PIXEL_WIDTH, 1, [0x07, 0x80]), Data(ID_PIXEL_HEIGHT, 1, [0x04, 0x38])])
  }

  function Entry2(): Ebml {
    Master(ID_TRACK_ENTRY, 1, [Data(ID_TRACK_TYPE, 1, [0x01]), Video3()])
  }

  function Tracks2(): Ebml {
    Master(ID_TRACKS, 1, [Entry2()])
  }

  /** An element whose size is written in one byte. */
  lemma ShortElement(e: Ebml, id: seq<byte>, body: seq<byte>)
    requires ValidId(e.id) && EncodeId(e.id) == id && e.sizeLen == 1 && Body(e) == body && |body| < 127
    ensures ValidHeader(e) && EncodeOne(e) == id + [0x80 + |body|] + body
  {
    hide EncodeId, ValidId, Body;
    PowTable();
    assert EncodeVint(|body|, 1) == [0x80 + |body|] by {
      assert ToBigEndian((0x80 + |body|) / 256, 0) == [];
    }
  }

  lemma TwoElements(a: Ebml, b: Ebml)
    ensures Encode([a, b]) == EncodeOne(a) + EncodeOne(b) && Encode([a]) == EncodeOne(a)
  {
    hide EncodeOne;
    assert [a, b][1..] == [b] && [b][1..] == [] && [a][1..] == [];
    assert Encode([b]) == EncodeOne(b) + [] && Encode([a]) == EncodeOne(a) + [];
  }

  lemma ThreeByteId(a: byte, b: byte, c: byte)
    requires 0x20 <= a < 0x40
    ensures var id := (a * 256 + b) * 256 + c;
            ValidId(id) && ByteLength(id) == 3 && EncodeId(id) == [a, b, c]
  {
    Id3(a, b, c);
    PowTable();
    ByteLengthUnique((a * 256 + b) * 256 + c, 3);
  }

  lemma VideoBytes()
    ensures Body(Video3()) == PIXELS && ValidAll(Video3().kids)
  {
    hide EncodeId, ValidId, EncodeOne, ValidHeader;
    OneByteId(0xB0);
    OneByteId(0xBA);
    var w, h := Data(ID_PIXEL_WIDTH, 1, [0x07, 0x80]), Data(ID_PIXEL_HEIGHT, 1, [0x04, 0x38]);
    ShortElement(w, [0xB0], [0x07, 0x80]);
    ShortElement(h, [0xBA], [0x04, 0x38]);
    TwoElements(w, h);
    assert Body(Video3()) == ([0xB0] + [0x82] + [0x07, 0x80]) + ([0xBA] + [0x82] + [0x04, 0x38]);
  }

  lemma EntryBytes()
    ensures Body(Tracks2()) == ENTRY + PIXELS && ValidTracks(Tracks2().kids)
  {
    hide EncodeId, ValidId, EncodeOne, ValidHeader;
    OneByteId(0xAE);
    OneByteId(0x83);
    OneByteId(0xE0);
    VideoBytes();
    var t, v := Data(ID_TRACK_TYPE, 1, [0x01]), Video3();
    var e := Entry2();
    ShortElement(t, [0x83], [0x01]);
    ShortElement(v, [0xE0], PIXELS);
    TwoElements(t, v);
    var body := ([0x83] + [0x81] + [0x01]) + ([0xE0] + [0x88] + PIXELS);
    assert Body(e) == body;
    ShortElement(e, [0xAE], body);
    TwoElements(e, e);
    assert Body(Tracks2()) == [0xAE] + [0x8D] + body;
    assert [0xAE] + [0x8D] + body == ENTRY + PIXELS;
  }

  lemma InfoBytes()
    ensures EncodeOne(Info4()) == INFO && ValidHeader(Info4()) && ValidAll(Info4().kids)
  {
    hide EncodeId, ValidId, EncodeOne, ValidHeader;
    ThreeByteId(0x2A, 0xD7, 0xB1);
    TwoByteId(0x44, 0x89);
    FourByteId(0x15, 0x49, 0xA9, 0x66);
    var s, d := Data(ID_TIMECODE_SCALE, 1, [0x0F, 0x42, 0x40]), Data(ID_DURATION, 1, [0x45, 0x1C, 0x40, 0x00]);
    ShortElement(s, [0x2A, 0xD7, 0xB1], [0x0F, 0x42, 0x40]);
    ShortElement(d, [0x44, 0x89], [0x45, 0x1C, 0x40, 0x00]);
    TwoElements(s, d);
    var body := ([0x2A, 0xD7, 0xB1] + [0x83] + [0x0F, 0x42, 0x40]) + ([0x44, 0x89] + [0x84] + [0x45, 0x1C, 0x40, 0x00]);
    assert Body(Info4()) == body;
    ShortElement(Info4(), [0x15, 0x49, 0xA9, 0x66], body);
    assert [0x15, 0x49, 0xA9, 0x66] + [0x8E] + body == INFO;
  }

  lemma FileBytes()
    ensures var f := File([Master(ID_SEGMENT, 1, [Info4(), Tracks2()])], None);
            Valid(f) && EncodeFile(f) == FULL_HD
  {
    hide EncodeId, ValidId, EncodeOne, ValidHeader, Body, ValidTracks, Info4, Tracks2;
    FourByteId(0x16, 0x54, 0xAE, 0x6B);
    FourByteId(0x18, 0x53, 0x80, 0x67);
    InfoBytes();
    EntryBytes();
    KindsOfTwo();
    ShortElement(Tracks2(), [0x16, 0x54, 0xAE, 0x6B], ENTRY + PIXELS);
    TwoElements(Info4(), Tracks2());
    var seg := Master(ID_SEGMENT, 1, [Info4(), Tracks2()]);
    MasterBody(seg);
    var body := INFO + ([0x16, 0x54, 0xAE, 0x6B] + [0x8F] + (ENTRY + PIXELS));
    assert Body(seg) == body;
    ShortElement(seg, [0x18, 0x53, 0x80, 0x67], body);
    TwoElements(seg, seg);
    assert [0x18, 0x53, 0x80, 0x67] + [0xA7] + body == FULL_HD;
    assert EncodeFile(File([seg], None)) == EncodeOne(seg) + [];
  }

  lemma KindsOfTwo()
    ensures Info4().id == ID_INFO && Info4().Master? && Info4().sizeLen == 1
    ensures Tracks2().id == ID_TRACKS && Tracks2().Master? && Tracks2().sizeLen == 1
  {
  }

  lemma {:induction false} ListSteps(a: Ebml, b: Ebml)
    ensures [a, b][1..] == [b] && [b][1..] == [] && [a][1..] == []
    ensures Numbers([], a.id) == [] && Floats([]) == [] && Metadata([]) == []
  {
  }

  /** Of two elements one holds the number asked for. */
  lemma NumberOfTwo(a: Ebml, b: Ebml, id: nat, v: nat)
    requires if a.id == id then b.id != id && UintOf(Body(a)) == Some(v) else b.id == id && UintOf(Body(b)) == Some(v)
    ensures Numbers([a, b], id) == [v]
  {
    hide UintOf, Body;
    ListSteps(a, b);
    assert Numbers([b], id) == if b.id == id then [v] else [];
  }

  lemma PixelsMean()
    ensures VideoSize(Video3().kids) == (1920, 1080)
  {
    Id2(0x07, 0x80);
    Id2(0x04, 0x38);
    hide BigEndian, Numbers;
    var w, h := Data(ID_PIXEL_WIDTH, 1, [0x07, 0x80]), Data(ID_PIXEL_HEIGHT, 1, [0x04, 0x38]);
    NumberOfTwo(w, h, ID_PIXEL_WIDTH, 1920);
    NumberOfTwo(w, h, ID_PIXEL_HEIGHT, 1080);
  }

  lemma EntryMeans()
    ensures Usable(Entry2().kids) && EntrySize(Entry2().kids) == (1920, 1080)
  {
    Id1(0x01);
    PixelsMean();
    hide BigEndian, VideoSize;
    var t, v := Data(ID_TRACK_TYPE, 1, [0x01]), Video3();
    ListSteps(t, v);
    assert Numbers([v], ID_TRACK_TYPE) == [];
    assert Numbers([t, v], ID_TRACK_TYPE) == [1];
    assert Named([v], ID_VIDEO) == [v];
    assert Named([t, v], ID_VIDEO) == [v];
  }

  lemma TracksMean()
    ensures AllSizes([Tracks2()]) == [(1920, 1080)]
  {
    EntryMeans();
    hide Usable, EntrySize;
    ListSteps(Entry2(), Tracks2());
    assert Named([Entry2()], ID_TRACK_ENTRY) == [Entry2()];
    assert UsableSizes([Entry2()]) == [(1920, 1080)];
  }

  lemma InfoMeans()
    ensures AllDurations([Info4()]) == [Float(0x451C4000, false)] && AllScales([Info4()]) == [1_000_000]
  {
    Id3(0x0F, 0x42, 0x40);
    Id3(0x45, 0x1C, 0x40);
    BigEndianSnoc([0x45, 0x1C, 0x40], 0);
    assert [0x45, 0x1C, 0x40] + [0] == [0x45, 0x1C, 0x40, 0x00];
    hide BigEndian;
    var s, d := Data(ID_TIMECODE_SCALE, 1, [0x0F, 0x42, 0x40]), Data(ID_DURATION, 1, [0x45, 0x1C, 0x40, 0x00]);
    ListSteps(s, d);
    ListSteps(Info4(), d);
    assert Floats([d]) == [Float(0x451C4000, false)];
    assert Floats([s, d]) == [Float(0x451C4000, false)];
    assert Numbers([d], ID_TIMECODE_SCALE) == [];
    assert Numbers([s, d], ID_TIMECODE_SCALE) == [1_000_000];
    assert [1_000_000][1..] == [];
    assert Positive([1_000_000]) == [1_000_000];
  }

  lemma FullHdElements()
    ensures var f := File([Master(ID_SEGMENT, 1, [Info4(), Tracks2()])], None);
            Used(f) == [Info4(), Tracks2()] && Named(Used(f), ID_INFO) == [Info4()] && Named(Used(f), ID_TRACKS) == [Tracks2()]
  {
    KindsOfTwo();
    hide Info4, Tracks2;
    var i, t := Info4(), Tracks2();
    var seg := Master(ID_SEGMENT, 1, [i, t]);
    ListSteps(i, t);
    ListSteps(seg, t);
    assert Metadata([t]) == [t] && Metadata([i, t]) == [i, t];
    assert RootMetadata([seg]) == [i, t] + RootMetadata([]);
    assert FileMetadata(File([seg], None)) == [i, t];
    assert UntilBoth([t], true, false) == [t] && UntilBoth([i, t], false, false) == [i, t];
    assert Named([t], ID_INFO) == [] && Named([t], ID_TRACKS) == [t];
  }

  lemma FullHdMeans()
    ensures Meaning(File([Master(ID_SEGMENT, 1, [Info4(), Tracks2()])], None))
            == Fields(1_000_000, Some(Float(0x451C4000, false)), Some((1920, 1080)), true, true)
  {
    hide AllDurations, AllScales, AllSizes, Info4, Tracks2, Named, UntilBoth, FileMetadata;
    FullHdElements();
    InfoMeans();
    TracksMean();
  }

  /** These bytes are reported as 1920 by 1080, and as 2500.0 units of a million nanoseconds. */
  lemma FullHdIsReported()
    ensures Probe(FULL_HD) == Info(Some((Float(0x451C4000, false), 1_000_000)), 1920, 1080)
  {
    hide EncodeFile, Meaning, Probe, Valid;
    FileBytes();
    FullHdMeans();
    ProbeOfEncode(File([Master(ID_SEGMENT, 1, [Info4(), Tracks2()])], None));
  }
}
