/** What the box walk guarantees on arbitrary bytes, int64 wrap included. */
module Mp4Walk {
  import opened Bytes
  import opened Mp4Spec
  import opened Mp4Tree

  /** The mathematical end of a box does not fit an int64. */
  predicate Wraps(b: Box) {
    b.start + b.size > MAX_INT64
  }

  lemma BoxIsInside(file: seq<byte>, off: int, end: int)
    requires off <= MAX_INT64 && end <= MAX_INT64 && ReadBox(file, off, end).Some?
    ensures var b := ReadBox(file, off, end).value;
            && b.start == off && b.size >= 8
            && (Wraps(b) ==> b.End() < off)
            && (!Wraps(b) ==> b.End() == b.start + b.size <= end && off + 8 <= b.End())
  {
    hide BigEndian;
    var b := ReadBox(file, off, end).value;
    assert 0 <= off + b.size <= 2 * MAX_INT64;
  }

  /**
   * For arbitrary bytes: offsets strictly increase, each box starts where the
   * one before ends, and a box leaves its parent exactly when its end wraps,
   * which only the last box visited can do.
   */
  lemma {:induction false} WalkTiles(file: seq<byte>, off: int, end: int)
    requires 0 <= off <= MAX_INT64 && end <= MAX_INT64
    ensures var v := Visited(file, off, end);
            && (v != [] ==> v[0].start == off)
            && (forall i :: 0 <= i < |v| ==> off <= v[i].start && v[i].size >= 8)
            && (forall i :: 0 < i < |v| ==> v[i].start == v[i - 1].start + v[i - 1].size)
            && (forall i :: 0 <= i < |v| ==> (v[i].start + v[i].size <= end <==> !Wraps(v[i])))
            && (forall i :: 0 <= i < |v| - 1 ==> !Wraps(v[i]))
    decreases MAX_INT64 - off
  {
    hide ReadBox;
    if Add64(off, 8) <= end && ReadBox(file, off, end).Some? {
      var b := ReadBox(file, off, end).value;
      BoxIsInside(file, off, end);
      if b.End() > off {
        WalkTiles(file, b.End(), end);
        var rest := Visited(file, b.End(), end);
        assert Visited(file, off, end) == [b] + rest;
      }
    }
  }

  const FREE: seq<byte> := [0x66, 0x72, 0x65, 0x65]

  /** An empty "free" box, then an mvhd header whose 64-bit size is the largest int64. */
  function Wrapping(): seq<byte> {
    (ToBigEndian(8, 4) + FREE) + ((ToBigEndian(1, 4) + MVHD) + ToBigEndian(MAX_INT64, 8))
  }

  /** A wrapped box is handed to the visitor although it ends far outside its 24-byte parent. */
  lemma WrappedBoxIsVisited()
    ensures |Wrapping()| == 24
    ensures Visited(Wrapping(), 0, 24) == [Box(FREE, 0, 8, 8), Box(MVHD, 8, MAX_INT64, 16)]
    ensures Wraps(Box(MVHD, 8, MAX_INT64, 16))
  {
    hide BigEndian, ToBigEndian, ReadAt;
    var f := Wrapping();
    var second := Box(MVHD, 8, MAX_INT64, 16);
    assert At(f, 0, f);
    AtSplit(f, 0, ToBigEndian(8, 4) + FREE, (ToBigEndian(1, 4) + MVHD) + ToBigEndian(MAX_INT64, 8));
    AtSplit(f, 8, ToBigEndian(1, 4) + MVHD, ToBigEndian(MAX_INT64, 8));
    HeadReads(f, 0, 8, FREE);
    HeadReads(f, 8, 1, MVHD);
    LargeReads(f, 16, MAX_INT64);
    assert ReadBox(f, 0, 24) == Some(Box(FREE, 0, 8, 8));
    assert ReadBox(f, 8, 24) == Some(second);
    assert second.End() <= 8;
    assert Visited(f, 8, 24) == [second];
  }
}
