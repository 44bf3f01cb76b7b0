/** The Matroska reader as it runs: a buffered scanner and the walks that drive it. */
module MkvScanner {
  import opened Bytes
  import opened Vints
  import opened MkvSearch
  import opened MkvSpec

  /**
   * mkvScanner over a bufio.Reader over a file. readerPos is the file's own
   * position, held is what the buffered reader fetched and has not delivered,
   * and pos is the position the scanner keeps for itself.
   */
  class Scanner {
    const file: seq<byte>
    const limit: nat
    var readerPos: nat
    var held: seq<byte>
    var pos: nat

    const BUFFER := 32 * 1024

    /** The next byte to be delivered is file[pos]. */
    ghost predicate Valid()
      reads this
    {
      && Bounded(file, limit)
      && readerPos == pos + |held|
      && (held != [] ==> readerPos <= |file| && held == file[pos..readerPos])
    }

    constructor (file: seq<byte>, limit: nat)
      requires Bounded(file, limit)
      ensures Valid() && this.file == file && this.limit == limit && pos == 0
    {
      this.file := file;
      this.limit := limit;
      readerPos, held, pos := 0, [], 0;
    }

    method Seek(off: nat)
      requires Valid()
      modifies this
      ensures Valid() && pos == off
    {
      if off == pos {
        return;
      }
      readerPos := off;
      held := [];
      pos := off;
    }

    /** One Read of the file: between one and room bytes, as many as the system cares to give. */
    method Fetch(room: nat) returns (chunk: seq<byte>)
      requires Valid() && held == [] && room > 0
      modifies this`readerPos
      ensures |chunk| <= room && readerPos == old(readerPos) + |chunk|
      ensures chunk == [] <==> pos >= |file|
      ensures chunk != [] ==> readerPos <= |file| && chunk == file[pos..readerPos]
    {
      if readerPos >= |file| {
        return [];
      }
      var most := Min(room, |file| - readerPos);
      var k :| 1 <= k <= most;
      chunk := file[readerPos..readerPos + k];
      readerPos := readerPos + k;
    }

    method ReadByte() returns (r: Result<byte, Error>)
      requires Valid()
      modifies this
      ensures Valid()
      ensures r.Ok? <==> old(pos) < limit && old(pos) < |file|
      ensures r.Ok? ==> pos == old(pos) + 1 && r.value == file[old(pos)]
      ensures r.Err? ==> pos == old(pos) && r.error == EndOfFile
    {
      if pos >= limit {
        return Err(EndOfFile);
      }
      if held == [] {
        held := Fetch(BUFFER);
        if held == [] {
          return Err(EndOfFile);
        }
      }
      var b := held[0];
      held := held[1..];
      pos := pos + 1;
      return Ok(b);
    }

    /** bufio.Reader.Read: large reads bypass the buffer, small ones drain it. */
    method Read(room: nat) returns (chunk: seq<byte>)
      requires Valid() && room > 0
      modifies this
      ensures Valid()
      ensures |chunk| <= room && pos == old(pos) + |chunk|
      ensures chunk == [] <==> old(pos) >= |file|
      ensures chunk != [] ==> pos <= |file| && chunk == file[old(pos)..pos]
    {
      if held == [] {
        if room >= BUFFER {
          chunk := Fetch(room);
          pos := pos + |chunk|;
          return;
        }
        held := Fetch(BUFFER);
      }
      var k := Min(|held|, room);
      chunk := held[..k];
      held := held[k..];
      pos := pos + k;
    }

    /** io.ReadFull into buf[lo..hi]. */
    method ReadFull(buf: array<byte>, lo: nat, hi: nat) returns (ok: bool)
      requires Valid() && lo < hi <= buf.Length
      modifies this, buf
      ensures Valid()
      ensures ok <==> hi - lo <= limit - old(pos) && file != []
      ensures ok ==> pos == old(pos) + (hi - lo) <= |file| && buf[..hi] == old(buf[..lo]) + file[old(pos)..pos]
      ensures !ok ==> pos == old(pos) && buf[..] == old(buf[..])
      ensures buf[hi..] == old(buf[hi..])
    {
      if hi - lo > limit - pos {
        return false;
      }
      if |file| == 0 {
        return false;
      }
      ghost var start, before := pos, buf[..lo];
      var at := lo;
      while at < hi
        invariant lo <= at <= hi
        invariant Valid() && pos == start + (at - lo) <= |file|
        invariant hi - lo <= limit - start
        invariant buf[..at] == before + file[start..pos]
        invariant buf[hi..] == old(buf[hi..])
      {
        ghost var was := pos;
        var chunk := Read(hi - at);
        assert file[start..was] + chunk == file[start..pos];
        CopyInto(buf, at, chunk);
        at := at + |chunk|;
      }
      return true;
    }

    method ReadVint() returns (r: Result<Vint, Error>)
      requires Valid()
      modifies this
      ensures Valid() && r == ReadVintAt(file, limit, old(pos))
      ensures r.Ok? ==> pos == old(pos) + r.value.length
    {
      hide Parse;
      ghost var start := pos;
      var buf := new byte[8];
      var first := ReadByte();
      if first.Err? {
        return Err(first.error);
      }
      var b := first.value;
      var length := VintLength(b);
      if length.Err? {
        return Err(length.error);
      }
      var n := length.value;
      buf[0] := b;
      assert buf[..1] == [b];
      assert file[start..start + 1] == [b];
      if n > 1 {
        var ok := ReadFull(buf, 1, n);
        if !ok {
          return Err(UnexpectedEOF);
        }
        SliceJoin(file, start, start + 1, start + n);
      }
      var bytes := buf[..n];
      ParseFailsExactly(bytes);
      r := ParseVint(bytes);
    }

    /** Load one window and find the first pattern in it; n when there is none. */
    method SearchWindow(buf: array<byte>, at: nat, n: nat, patterns: seq<seq<byte>>, ghost w: nat) returns (i: nat)
      requires Valid() && file != [] && 0 < n <= buf.Length && w == at + n <= limit
      requires forall q :: q in patterns ==> q != []
      modifies this, buf
      ensures Valid() && i <= n
      ensures i < n ==> Fits(file, w, at + i, patterns) && NoFitBefore(file, w, at, at + i, patterns)
      ensures i == n ==> NoFitBefore(file, w, at, w + 1, patterns)
    {
      Seek(at);
      var ok := ReadFull(buf, 0, n);
      if !ok {
        assert false;
      }
      assert buf[..n] == file[at..w];
      i := FirstMatch(buf, n, patterns, file, at, w);
    }

    /**
     * The windowed search: 64 KiB at a time, each window overlapping the last
     * by one byte less than the longest ID, at most 64 MiB in all.
     */
    method FindNextElement(from: nat, ids: seq<nat>) returns (r: nat)
      requires Valid() && from <= limit && file != []
      requires forall i :: 0 <= i < |ids| ==> ids[i] < Pow256(8)
      requires NoneInside(Patterns(ids))
      modifies this
      ensures Valid() && r == FindNext(file, limit, from, ids)
    {
      if from >= limit || |ids| == 0 {
        NothingToFind(file, limit, from, ids);
        return limit;
      }
      PatternsShort(ids);
      var patterns, maxLen := EncodeAll(ids);
      r := SearchWindows(from, patterns, maxLen);
    }

    method ResolveEnd(headerEnd: nat, id: nat, size: Vint, siblings: seq<nat>) returns (end: int)
      requires Valid() && headerEnd <= limit && file != [] && size.value <= MAX_INT64
      requires SiblingTable(siblings)
      modifies this
      ensures Valid() && end == EndOf(file, limit, headerEnd, id, size, siblings)
    {
      if size.unknown && id == ID_SEGMENT {
        end := limit;
      } else if size.unknown {
        SiblingTablesSafe(siblings);
        SiblingTableIds(siblings);
        end := FindNextElement(headerEnd, siblings);
      } else {
        end := Add64(headerEnd, size.value);
        if end < headerEnd || end > limit {
          end := limit;
        }
      }
    }

    method ReadHeaderHere() returns (r: Result<Header, Error>)
      requires Valid()
      modifies this
      ensures Valid() && r == ReadHeader(file, limit, old(pos))
    {
      hide ReadVintAt;
      var id := ReadVint();
      if id.Err? {
        return Err(id.error);
      }
      var size := ReadVint();
      if size.Err? {
        return Err(size.error);
      }
      return Ok(Header(id.value.raw, size.value, pos));
    }

    /** Parse the header at off and resolve where its payload ends. */
    method ReadElementAt(off: nat, siblings: seq<nat>) returns (r: Result<Element, Error>)
      requires Valid() && SiblingTable(siblings)
      modifies this
      ensures Valid() && r == ReadElement(file, limit, off, siblings)
    {
      if off >= limit {
        return Err(EndOfFile);
      }
      Seek(off);
      var header := ReadHeaderHere();
      if header.Err? {
        return Err(header.error);
      }
      var h := header.value;
      if h.size.value > MAX_INT64 {
        assert false;
      }
      var end := ResolveEnd(h.end, h.id, h.size, siblings);
      if end <= off || end > limit {
        assert false;
      }
      return Ok(Element(h.id, h.end, end));
    }

    method ReadPayload(el: Element) returns (p: seq<byte>)
      requires Valid() && el.start < el.end <= limit && file != [] && el.end - el.start <= 8
      modifies this
      ensures Valid() && p == file[el.start..el.end]
    {
      var n := el.end - el.start;
      var buf := new byte[8];
      Seek(el.start);
      var ok := ReadFull(buf, 0, n);
      if !ok {
        assert false;
      }
      p := buf[..n];
    }

    /** The payload of an element of at most eight bytes, as a big-endian number. */
    method ReadUint(el: Element) returns (v: Option<nat>)
      requires Valid() && el.start <= el.end <= limit && file != []
      modifies this
      ensures Valid() && v == UintOf(file[el.start..el.end])
    {
      var n := el.end - el.start;
      if n <= 0 || n > 8 {
        return None;
      }
      var p := ReadPayload(el);
      var x := Accumulate(p);
      return Some(x);
    }

    /** A 4- or 8-byte float payload; NaN and infinities are refused. */
    method ReadFloat(el: Element) returns (v: Option<Float>)
      requires Valid() && el.start <= el.end <= limit && file != []
      modifies this
      ensures Valid() && v == FloatOf(file[el.start..el.end])
    {
      var n := el.end - el.start;
      if n != 4 && n != 8 {
        return None;
      }
      var p := ReadPayload(el);
      var bits := Accumulate(p);
      if n == 4 {
        return if (bits / 0x80_0000) % 0x100 == 0xFF then None else Some(Float(bits, false));
      }
      return if (bits / 0x10_0000_0000_0000) % 0x800 == 0x7FF then None else Some(Float(bits, true));
    }

    method SearchWindows(from: nat, patterns: seq<seq<byte>>, maxLen: nat) returns (r: nat)
      requires Valid() && from < limit && file != []
      requires patterns != [] && NoneInside(patterns) && maxLen == LongestOf(patterns)
      requires forall q :: q in patterns ==> 1 <= |q| <= 8
      modifies this
      ensures Valid() && r == FindPattern(file, limit, from, patterns)
    {
      hide LongestOf, FindPattern;
      SearchBegins(file, limit, from, patterns);
      var overlap := maxLen - 1;
      if overlap < 0 {
        overlap := 0;
      }
      var buf := new byte[CHUNK];
      var at: nat, scanned: nat := from, 0;
      ghost var w: nat, k: nat := from, 0;
      while at < limit && scanned < MAX_ELEMENT_SCAN
        invariant Valid() && scanned == k * 65536
        invariant Searched(file, limit, from, patterns, k, at, w)
        decreases MAX_ELEMENT_SCAN - scanned
      {
        var n := CHUNK;
        if Add64(at, n) > limit {
          n := limit - at;
        }
        ghost var w' := at + n;
        var i := SearchWindow(buf, at, n, patterns, w');
        if i < n {
          SearchHits(file, limit, from, patterns, k, at, w, w', at + i);
          return at + i;
        }
        scanned := scanned + n;
        if at + n >= limit {
          SearchEnds(file, limit, from, patterns, k, at, w);
          return limit;
        }
        var step := n - overlap;
        if step <= 0 {
          step := 1;
        }
        SearchGoesOn(file, limit, from, patterns, k, at, w, w');
        w, k := w', k + 1;
        at := at + step;
      }
      SearchGivesUp(file, limit, from, patterns, k, at, w);
      return limit;
    }
  }

  /** Shift in one byte after another. */
  method Accumulate(p: seq<byte>) returns (x: nat)
    ensures x == BigEndian(p)
  {
    x := 0;
    for i := 0 to |p|
      invariant x == BigEndian(p[..i])
    {
      assert p[..i + 1][..i] == p[..i];
      x := x * 256 + p[i];
    }
    assert p[..|p|] == p;
  }

  method EncodeAll(ids: seq<nat>) returns (patterns: seq<seq<byte>>, maxLen: nat)
    requires forall i :: 0 <= i < |ids| ==> ids[i] < Pow256(8)
    ensures patterns == Patterns(ids) && maxLen == LongestOf(patterns)
  {
    hide *;
    patterns, maxLen := [], 0;
    LongestOfNone(patterns);
    for i := 0 to |ids|
      invariant |patterns| == i && forall k :: 0 <= k < i ==> patterns[k] == EncodeId(ids[k])
      invariant maxLen == LongestOf(patterns)
    {
      var p := EncodeEBMLID(ids[i]);
      LongestOfSnoc(patterns, p, |p|, maxLen);
      patterns := patterns + [p];
      if |p| > maxLen {
        maxLen := |p|;
      }
    }
    PatternsAre(ids, patterns);
  }

  lemma PatternsAre(ids: seq<nat>, ps: seq<seq<byte>>)
    requires |ps| == |ids| && forall i :: 0 <= i < |ids| ==> ps[i] == EncodeId(ids[i])
    ensures ps == Patterns(ids)
  {
    hide EncodeId;
  }

  lemma LongestOfNone(ps: seq<seq<byte>>)
    requires ps == []
    ensures LongestOf(ps) == 0
  {
  }

  lemma LongestOfSnoc(ps: seq<seq<byte>>, p: seq<byte>, n: nat, m: nat)
    requires p != [] && n == |p| && m == LongestOf(ps)
    ensures n > m ==> LongestOf(ps + [p]) == n
    ensures n <= m ==> LongestOf(ps + [p]) == m
  {
    assert (ps + [p])[..|ps|] == ps;
  }

  /** Some pattern is a prefix of the window. */
  predicate Starts(window: seq<byte>, patterns: seq<seq<byte>>) {
    exists q :: q in patterns && q <= window
  }

  lemma StartsIsFits(window: seq<byte>, file: seq<byte>, p: nat, w: nat, patterns: seq<seq<byte>>)
    requires p <= w <= |file| && window == file[p..w]
    ensures Starts(window, patterns) <==> Fits(file, w, p, patterns)
  {
    forall q | q in patterns
      ensures q <= window <==> MatchAt(file, w, p, q)
    {
      if |q| <= |window| {
        SliceOfSlice(file, p, w, 0, |q|);
        assert window[..|q|] == window[0..|q|];
      }
    }
  }

  method HasPrefixIn(window: seq<byte>, patterns: seq<seq<byte>>) returns (b: bool)
    ensures b <==> Starts(window, patterns)
  {
    for j := 0 to |patterns|
      invariant forall k :: 0 <= k < j ==> !(patterns[k] <= window)
    {
      if |patterns[j]| <= |window| && patterns[j] <= window {
        assert patterns[j] in patterns;
        return true;
      }
    }
    return false;
  }

  /** First index of the window at which a pattern fits whole; n when there is none. */
  method FirstMatch(
    buf: array<byte>, n: nat, patterns: seq<seq<byte>>, ghost file: seq<byte>, ghost at: nat, ghost w: nat)
    returns (i: nat)
    requires n <= buf.Length && w == at + n <= |file| && buf[..n] == file[at..w]
    requires forall q :: q in patterns ==> q != []
    ensures i <= n
    ensures i < n ==> Fits(file, w, at + i, patterns)
    ensures NoFitBefore(file, w, at, at + i, patterns)
    ensures i == n ==> NoFitBefore(file, w, at, w + 1, patterns)
  {
    hide Fits, Starts;
    i := 0;
    while i < n
      invariant i <= n
      invariant NoFitBefore(file, w, at, at + i, patterns)
    {
      assert buf[i..n] == file[at + i..w] by {
        assert buf[i..n] == buf[..n][i..n];
        SliceOfSlice(file, at, w, i, n);
      }
      var hit := HasPrefixIn(buf[i..n], patterns);
      StartsIsFits(buf[i..n], file, at + i, w, patterns);
      if hit {
        return;
      }
      i := i + 1;
    }
    NothingFitsAtEnd(file, w, patterns);
  }

  lemma NothingFitsAtEnd(file: seq<byte>, w: nat, patterns: seq<seq<byte>>)
    requires w <= |file| && forall q :: q in patterns ==> q != []
    ensures !Fits(file, w, w, patterns)
  {
  }

  method CopyInto(buf: array<byte>, at: nat, chunk: seq<byte>)
    requires at + |chunk| <= buf.Length
    modifies buf
    ensures buf[..at + |chunk|] == old(buf[..at]) + chunk
    ensures buf[at + |chunk|..] == old(buf[at + |chunk|..])
    ensures forall hi :: at + |chunk| <= hi <= buf.Length ==> buf[hi..] == old(buf[hi..])
  {
    for i := 0 to |chunk|
      invariant buf[..at + i] == old(buf[..at]) + chunk[..i]
      invariant buf[at + i..] == old(buf[at + i..])
    {
      buf[at + i] := chunk[i];
    }
    assert forall hi :: at + |chunk| <= hi <= buf.Length ==> buf[hi..] == buf[at + |chunk|..][hi - at - |chunk|..];
  }
}
