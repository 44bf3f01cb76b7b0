/** UTF-8 (RFC 3629) and UTF-16 (RFC 2781) encoding forms over Unicode scalar values. */
module Utf {
  import opened Bytes

  /** A Unicode scalar value: a code point that is not a surrogate. */
  type Scalar = x: int | 0 <= x <= 0x10FFFF && !(0xD800 <= x <= 0xDFFF)

  const REPLACEMENT: Scalar := 0xFFFD

  /** The UTF-8 octets of one scalar value, section 3 of RFC 3629. */
  function EncodeRune(r: Scalar): (s: seq<byte>)
    ensures 1 <= |s| <= 4
  {
    if r < 0x80 then [r]
    else if r < 0x800 then [0xC0 + r / 64, 0x80 + r % 64]
    else if r < 0x10000 then [0xE0 + r / 4096, 0x80 + r / 64 % 64, 0x80 + r % 64]
    else [0xF0 + r / 262144, 0x80 + r / 4096 % 64, 0x80 + r / 64 % 64, 0x80 + r % 64]
  }

  function Encode(s: seq<Scalar>): seq<byte> {
    if s == [] then [] else EncodeRune(s[0]) + Encode(s[1..])
  }

  predicate Tail(b: byte) {
    0x80 <= b <= 0xBF
  }

  /** Length of the well-formed character a byte string starts with; zero when there is none (section 4 of RFC 3629). */
  function RuneLength(b: seq<byte>): (n: nat)
    ensures n <= 4 && n <= |b|
  {
    if b == [] then 0
    else if b[0] < 0x80 then 1
    else if |b| >= 2 && 0xC2 <= b[0] <= 0xDF && Tail(b[1]) then 2
    else if |b| >= 3 && Tail(b[2])
            && ((b[0] == 0xE0 && 0xA0 <= b[1] <= 0xBF) || (0xE1 <= b[0] <= 0xEC && Tail(b[1]))
                || (b[0] == 0xED && 0x80 <= b[1] <= 0x9F) || (0xEE <= b[0] <= 0xEF && Tail(b[1]))) then 3
    else if |b| >= 4 && Tail(b[2]) && Tail(b[3])
            && ((b[0] == 0xF0 && 0x90 <= b[1] <= 0xBF) || (0xF1 <= b[0] <= 0xF3 && Tail(b[1]))
                || (b[0] == 0xF4 && 0x80 <= b[1] <= 0x8F)) then 4
    else 0
  }

  predicate Valid(b: seq<byte>) {
    b == [] || (RuneLength(b) > 0 && Valid(b[RuneLength(b)..]))
  }

  function DecodeRune(b: seq<byte>): (r: Scalar)
    requires RuneLength(b) > 0
  {
    var n := RuneLength(b);
    if n == 1 then b[0]
    else if n == 2 then Join(0, 0, b[0] - 0xC0, b[1] - 0x80)
    else if n == 3 then Join(0, b[0] - 0xE0, b[1] - 0x80, b[2] - 0x80)
    else Join(b[0] - 0xF0, b[1] - 0x80, b[2] - 0x80, b[3] - 0x80)
  }

  /** Four groups of six bits. */
  function Join(w: int, x: int, y: int, z: int): int {
    w * 262144 + x * 4096 + y * 64 + z
  }

  /** A surrogate pair's code point. */
  function Pair(high: int, low: int): int {
    (high - 0xD800) * 1024 + (low - 0xDC00) + 0x10000
  }

  function Word(high: int, low: int): int {
    high * 256 + low
  }

  function Decode(b: seq<byte>): seq<Scalar>
    requires Valid(b)
  {
    if b == [] then [] else [DecodeRune(b)] + Decode(b[RuneLength(b)..])
  }

  lemma RuneRoundTrip(r: Scalar, rest: seq<byte>)
    ensures RuneLength(EncodeRune(r) + rest) == |EncodeRune(r)|
    ensures DecodeRune(EncodeRune(r) + rest) == r
  {
    hide RuneLength, DecodeRune;
    if r < 0x800 {
      ShortRune(r, rest);
    } else if r < 0x10000 {
      ThreeByteRune(r, rest);
    } else {
      FourByteRune(r, rest);
    }
  }

  lemma ShortRune(r: Scalar, rest: seq<byte>)
    requires r < 0x800
    ensures RuneLength(EncodeRune(r) + rest) == |EncodeRune(r)| && DecodeRune(EncodeRune(r) + rest) == r
  {
    var b := EncodeRune(r) + rest;
    if r < 0x80 {
      assert b[0] == r;
    } else {
      assert b[0] == 0xC0 + r / 64 && b[1] == 0x80 + r % 64;
    }
  }

  lemma ThreeByteRune(r: Scalar, rest: seq<byte>)
    requires 0x800 <= r < 0x10000
    ensures RuneLength(EncodeRune(r) + rest) == |EncodeRune(r)| && DecodeRune(EncodeRune(r) + rest) == r
  {
    var b := EncodeRune(r) + rest;
    assert b[0] == 0xE0 + r / 4096 && b[1] == 0x80 + r / 64 % 64 && b[2] == 0x80 + r % 64;
    Digits3(r);
  }

  lemma FourByteRune(r: Scalar, rest: seq<byte>)
    requires 0x10000 <= r
    ensures RuneLength(EncodeRune(r) + rest) == |EncodeRune(r)| && DecodeRune(EncodeRune(r) + rest) == r
  {
    var b := EncodeRune(r) + rest;
    assert b[0] == 0xF0 + r / 262144 && b[1] == 0x80 + r / 4096 % 64 && b[2] == 0x80 + r / 64 % 64 && b[3] == 0x80 + r % 64;
    Digits4(r);
  }

  lemma Digits3(r: nat)
    ensures r == r / 4096 * 4096 + r / 64 % 64 * 64 + r % 64
    ensures r / 4096 == r / 64 / 64
  {
  }

  lemma Digits4(r: nat)
    ensures r == r / 262144 * 262144 + r / 4096 % 64 * 4096 + r / 64 % 64 * 64 + r % 64
  {
    Digits3(r);
    assert r / 4096 == r / 262144 * 64 + r / 4096 % 64;
  }

  lemma DecodedRune(b: seq<byte>)
    requires RuneLength(b) > 0
    ensures EncodeRune(DecodeRune(b)) == b[..RuneLength(b)]
  {
    var n := RuneLength(b);
    if n == 1 {
      assert EncodeRune(b[0]) == [b[0]];
    } else if n == 2 {
      Encode2(b[0], b[1]);
    } else if n == 3 {
      Encode3(b[0], b[1], b[2]);
    } else {
      Encode4(b[0], b[1], b[2], b[3]);
    }
  }

  lemma Encode2(x: byte, y: byte)
    requires 0xC2 <= x <= 0xDF && Tail(y)
    ensures EncodeRune(Join(0, 0, x - 0xC0, y - 0x80)) == [x, y]
  {
    var r := Join(0, 0, x - 0xC0, y - 0x80);
    assert r / 64 == x - 0xC0 && r % 64 == y - 0x80;
  }

  lemma Encode3(x: byte, y: byte, z: byte)
    requires 0xE0 <= x <= 0xEF && Tail(y) && Tail(z) && (x == 0xE0 ==> y >= 0xA0) && (x == 0xED ==> y <= 0x9F)
    ensures EncodeRune(Join(0, x - 0xE0, y - 0x80, z - 0x80)) == [x, y, z]
  {
    Split3(x - 0xE0, y - 0x80, z - 0x80);
  }

  lemma Encode4(w: byte, x: byte, y: byte, z: byte)
    requires 0xF0 <= w <= 0xF4 && Tail(x) && Tail(y) && Tail(z)
    requires (w == 0xF0 ==> x >= 0x90) && (w == 0xF4 ==> x <= 0x8F)
    ensures EncodeRune(Join(w - 0xF0, x - 0x80, y - 0x80, z - 0x80)) == [w, x, y, z]
  {
    Split4(w - 0xF0, x - 0x80, y - 0x80, z - 0x80);
  }

  lemma Split3(x: nat, y: nat, z: nat)
    requires y < 64 && z < 64
    ensures var r := x * 4096 + y * 64 + z;
            r / 4096 == x && r / 64 % 64 == y && r % 64 == z
  {
    var r := x * 4096 + y * 64 + z;
    assert r / 64 == x * 64 + y;
  }

  lemma Split4(w: nat, x: nat, y: nat, z: nat)
    requires x < 64 && y < 64 && z < 64
    ensures var r := w * 262144 + x * 4096 + y * 64 + z;
            r / 262144 == w && r / 4096 % 64 == x && r / 64 % 64 == y && r % 64 == z
  {
    var r := w * 262144 + x * 4096 + y * 64 + z;
    assert r / 4096 == w * 64 + x;
    assert r / 64 == w * 4096 + x * 64 + y;
  }

  /** Encoded text is valid, and decodes to itself. */
  lemma {:induction false} EncodedIsValid(s: seq<Scalar>)
    ensures Valid(Encode(s)) && Decode(Encode(s)) == s
  {
    hide EncodeRune, DecodeRune, RuneLength;
    if s != [] {
      var rest := Encode(s[1..]);
      RuneRoundTrip(s[0], rest);
      EncodedIsValid(s[1..]);
      assert (EncodeRune(s[0]) + rest)[|EncodeRune(s[0])|..] == rest;
    }
  }

  /** Valid bytes are the encoding of what they decode to, so validity is exactly being an encoding. */
  lemma {:induction false} ValidIsEncoded(b: seq<byte>)
    requires Valid(b)
    ensures Encode(Decode(b)) == b
  {
    hide EncodeRune, DecodeRune, RuneLength;
    if b != [] {
      DecodedRune(b);
      ValidIsEncoded(b[RuneLength(b)..]);
      assert ([DecodeRune(b)] + Decode(b[RuneLength(b)..]))[1..] == Decode(b[RuneLength(b)..]);
    }
  }

  // UTF-16.

  type Unit = x: int | 0 <= x < 0x10000

  predicate High(u: Unit) { 0xD800 <= u < 0xDC00 }

  predicate Low(u: Unit) { 0xDC00 <= u < 0xE000 }

  /** Section 2.1 of RFC 2781. */
  function UnitsOf(r: Scalar): seq<Unit> {
    if r < 0x10000 then [r] else [0xD800 + (r - 0x10000) / 1024, 0xDC00 + (r - 0x10000) % 1024]
  }

  function Units(s: seq<Scalar>): seq<Unit> {
    if s == [] then [] else UnitsOf(s[0]) + Units(s[1..])
  }

  /** The first scalar of a unit string and how many units it takes; a stray surrogate is replaced. */
  function FirstScalar(u: seq<Unit>): (r: (Scalar, nat))
    requires u != []
    ensures 1 <= r.1 <= 2 && r.1 <= |u|
  {
    if !(0xD800 <= u[0] < 0xE000) then (u[0], 1)
    else if High(u[0]) && |u| > 1 && Low(u[1]) then
      (Pair(u[0], u[1]), 2)
    else (REPLACEMENT, 1)
  }

  function DecodeUnits(u: seq<Unit>): seq<Scalar> {
    if u == [] then [] else [FirstScalar(u).0] + DecodeUnits(u[FirstScalar(u).1..])
  }

  lemma UnitsRead(r: Scalar, rest: seq<Unit>)
    ensures UnitsOf(r) + rest != [] && FirstScalar(UnitsOf(r) + rest) == (r, |UnitsOf(r)|)
  {
    var u := UnitsOf(r) + rest;
    if r >= 0x10000 {
      assert u[0] == 0xD800 + (r - 0x10000) / 1024 && u[1] == 0xDC00 + (r - 0x10000) % 1024;
    } else {
      assert u[0] == r;
    }
  }

  /** Decoding undoes encoding for every scalar sequence, surrogate pairs included. */
  lemma {:induction false} UnitsRoundTrip(s: seq<Scalar>)
    ensures DecodeUnits(Units(s)) == s
  {
    hide UnitsOf, FirstScalar;
    if s != [] {
      var rest := Units(s[1..]);
      UnitsRead(s[0], rest);
      UnitsRoundTrip(s[1..]);
      assert (UnitsOf(s[0]) + rest)[|UnitsOf(s[0])|..] == rest;
    }
  }

  /** Two bytes a unit, in either order; a last odd byte is dropped. */
  function UnitsFromBytes(b: seq<byte>, bigEndian: bool): (u: seq<Unit>)
    ensures |u| == |b| / 2
    ensures forall i :: 0 <= i < |u| ==>
              u[i] == if bigEndian then Word(b[2 * i], b[2 * i + 1]) else Word(b[2 * i + 1], b[2 * i])
  {
    seq(|b| / 2, i requires 0 <= i < |b| / 2 =>
          if bigEndian then Word(b[2 * i], b[2 * i + 1]) else Word(b[2 * i + 1], b[2 * i]))
  }

  function BytesOfUnit(u: Unit, bigEndian: bool): seq<byte> {
    if bigEndian then [u / 256, u % 256] else [u % 256, u / 256]
  }

  function BytesFromUnits(u: seq<Unit>, bigEndian: bool): (b: seq<byte>)
    ensures |b| == 2 * |u|
  {
    if u == [] then [] else BytesOfUnit(u[0], bigEndian) + BytesFromUnits(u[1..], bigEndian)
  }

  lemma UnitBytes(u: Unit, rest: seq<byte>, bigEndian: bool)
    ensures var b := BytesOfUnit(u, bigEndian) + rest;
            u == if bigEndian then Word(b[0], b[1]) else Word(b[1], b[0])
  {
    assert u == u / 256 * 256 + u % 256;
  }

  lemma UnitsCons(two: seq<byte>, rest: seq<byte>, bigEndian: bool)
    requires |two| == 2
    ensures UnitsFromBytes(two + rest, bigEndian)
            == [if bigEndian then Word(two[0], two[1]) else Word(two[1], two[0])] + UnitsFromBytes(rest, bigEndian)
  {
    hide Word;
    var b := two + rest;
    forall i | 0 < i < |b| / 2
      ensures UnitsFromBytes(b, bigEndian)[i] == UnitsFromBytes(rest, bigEndian)[i - 1]
    {
      assert b[2 * i] == rest[2 * (i - 1)] && b[2 * i + 1] == rest[2 * (i - 1) + 1];
    }
  }

  lemma {:induction false} UnitBytesRoundTrip(u: seq<Unit>, bigEndian: bool)
    ensures UnitsFromBytes(BytesFromUnits(u, bigEndian), bigEndian) == u
  {
    hide Word, BytesOfUnit, UnitsFromBytes;
    if u != [] {
      UnitBytesRoundTrip(u[1..], bigEndian);
      var rest := BytesFromUnits(u[1..], bigEndian);
      TwoBytes(u[0], bigEndian);
      UnitBytes(u[0], [], bigEndian);
      assert BytesOfUnit(u[0], bigEndian) + [] == BytesOfUnit(u[0], bigEndian);
      UnitsCons(BytesOfUnit(u[0], bigEndian), rest, bigEndian);
    }
  }

  lemma TwoBytes(u: Unit, bigEndian: bool)
    ensures |BytesOfUnit(u, bigEndian)| == 2
  {
  }
}
