/** Subtitle bytes to UTF-8: byte order marks, charset names, Windows-1252 and UTF-16. */
module Charset {
  import opened Bytes
  import opened Utf

  /** Windows-1252 for 0x80..0x9F; the five undefined positions map to themselves. */
  const CP1252_HIGH: seq<Scalar> := [
    0x20AC, 0x0081, 0x201A, 0x0192, 0x201E, 0x2026, 0x2020, 0x2021,
    0x02C6, 0x2030, 0x0160, 0x2039, 0x0152, 0x008D, 0x017D, 0x008F,
    0x0090, 0x2018, 0x2019, 0x201C, 0x201D, 0x2022, 0x2013, 0x2014,
    0x02DC, 0x2122, 0x0161, 0x203A, 0x0153, 0x009D, 0x017E, 0x0178]

  function RuneOfByte(c: byte): Scalar {
    if c < 0x80 then c else if c < 0xA0 then CP1252_HIGH[c - 0x80] else c
  }

  function RunesOfBytes(b: seq<byte>): (s: seq<Scalar>)
    ensures |s| == |b|
  {
    if b == [] then [] else [RuneOfByte(b[0])] + RunesOfBytes(b[1..])
  }

  /** Where a rune stands in the table; 32 when it does not. */
  function TableIndex(r: Scalar, i: nat := 0): (k: nat)
    requires i <= 32
    ensures i <= k <= 32
    decreases 32 - i
  {
    if i == 32 || CP1252_HIGH[i] == r then i else TableIndex(r, i + 1)
  }

  /** The byte a rune came from. */
  function ByteOfRune(r: Scalar): Option<byte> {
    if r < 0x80 || 0xA0 <= r <= 0xFF then Some(r)
    else if TableIndex(r) < 32 then Some(0x80 + TableIndex(r))
    else None
  }

  function BytesOfRunes(s: seq<Scalar>): Option<seq<byte>> {
    if s == [] then Some([])
    else if ByteOfRune(s[0]).None? || BytesOfRunes(s[1..]).None? then None
    else Some([ByteOfRune(s[0]).value] + BytesOfRunes(s[1..]).value)
  }

  lemma {:induction false} TableFinds(k: nat, i: nat)
    requires i <= k < 32
    requires forall j :: i <= j < k ==> CP1252_HIGH[j] != CP1252_HIGH[k]
    ensures TableIndex(CP1252_HIGH[k], i) == k
    decreases k - i
  {
    if i < k {
      TableFinds(k, i + 1);
    }
  }

  /** The table stays clear of the ranges that map to themselves. */
  lemma TableIsApart(k: nat)
    requires k < 32
    ensures 0x80 <= CP1252_HIGH[k] && !(0xA0 <= CP1252_HIGH[k] <= 0xFF)
  {
  }

  lemma FirstHalfDiffers(j: nat, k: nat)
    requires j < k < 16
    ensures CP1252_HIGH[j] != CP1252_HIGH[k]
  {
  }

  lemma SecondHalfDiffers(j: nat, k: nat)
    requires 16 <= j < k < 32
    ensures CP1252_HIGH[j] != CP1252_HIGH[k]
  {
  }

  lemma HalvesDiffer(j: nat, k: nat)
    requires j < 16 <= k < 32
    ensures CP1252_HIGH[j] != CP1252_HIGH[k]
  {
  }

  /** The table repeats nothing. */
  lemma TableIsInjective(k: nat)
    requires k < 32
    ensures forall j :: 0 <= j < k ==> CP1252_HIGH[j] != CP1252_HIGH[k]
  {
    forall j | 0 <= j < k
      ensures CP1252_HIGH[j] != CP1252_HIGH[k]
    {
      if k < 16 {
        FirstHalfDiffers(j, k);
      } else if j < 16 {
        HalvesDiffer(j, k);
      } else {
        SecondHalfDiffers(j, k);
      }
    }
  }

  lemma ByteRoundTrip(c: byte)
    ensures ByteOfRune(RuneOfByte(c)) == Some(c)
  {
    if 0x80 <= c < 0xA0 {
      TableIsApart(c - 0x80);
      TableIsInjective(c - 0x80);
      TableFinds(c - 0x80, 0);
    }
  }

  lemma {:induction false} BytesRoundTrip(b: seq<byte>)
    ensures BytesOfRunes(RunesOfBytes(b)) == Some(b)
  {
    hide ByteOfRune, RuneOfByte;
    if b != [] {
      ByteRoundTrip(b[0]);
      BytesRoundTrip(b[1..]);
      var s := RunesOfBytes(b);
      assert s[1..] == RunesOfBytes(b[1..]) && [b[0]] + b[1..] == b;
    }
  }

  lemma {:induction false} EncodeSnoc(s: seq<Scalar>, r: Scalar)
    ensures Encode(s + [r]) == Encode(s) + EncodeRune(r)
  {
    hide EncodeRune;
    if s == [] {
      assert [] + [r] == [r];
      assert Encode([r]) == EncodeRune(r) + Encode([]);
    } else {
      EncodeSnoc(s[1..], r);
      assert (s + [r])[1..] == s[1..] + [r];
    }
  }

  lemma RunesSnoc(b: seq<byte>, c: byte)
    ensures RunesOfBytes(b + [c]) == RunesOfBytes(b) + [RuneOfByte(c)]
  {
    hide RuneOfByte;
    if b != [] {
      RunesSnoc(b[1..], c);
      assert (b + [c])[1..] == b[1..] + [c];
    }
  }

  /** cp1252ToUTF8: ASCII bytes are copied, the others appended as their rune's octets. */
  method Cp1252ToUTF8(b: seq<byte>) returns (out: seq<byte>)
    ensures out == Encode(RunesOfBytes(b))
  {
    out := [];
    for i := 0 to |b|
      invariant out == Encode(RunesOfBytes(b[..i]))
    {
      var c := b[i];
      assert b[..i + 1] == b[..i] + [c];
      RunesSnoc(b[..i], c);
      EncodeSnoc(RunesOfBytes(b[..i]), RuneOfByte(c));
      if c < 0x80 {
        out := out + [c];
      } else if c < 0xA0 {
        out := out + EncodeRune(CP1252_HIGH[c - 0x80]);
      } else {
        out := out + EncodeRune(c);
      }
    }
    assert b[..|b|] == b;
  }

  /** utf16ToUTF8: pair the bytes into units, decode, append each rune's octets. */
  method Utf16ToUTF8(data: seq<byte>, bigEndian: bool) returns (out: seq<byte>)
    ensures out == Encode(DecodeUnits(UnitsFromBytes(data, bigEndian)))
  {
    var b := data;
    if |b| % 2 != 0 {
      b := b[..|b| - 1];
    }
    var units: seq<Unit> := [];
    var i := 0;
    while i + 1 < |b|
      invariant 0 <= i <= |b| && i % 2 == 0 && |units| == i / 2
      invariant forall k :: 0 <= k < |units| ==>
                  units[k] == if bigEndian then Word(data[2 * k], data[2 * k + 1]) else Word(data[2 * k + 1], data[2 * k])
    {
      if bigEndian {
        units := units + [Word(b[i], b[i + 1])];
      } else {
        units := units + [Word(b[i + 1], b[i])];
      }
      i := i + 2;
    }
    assert units == UnitsFromBytes(data, bigEndian);
    var runes := DecodeUnits(units);
    out := [];
    for k := 0 to |runes|
      invariant out == Encode(runes[..k])
    {
      assert runes[..k + 1] == runes[..k] + [runes[k]];
      EncodeSnoc(runes[..k], runes[k]);
      out := out + EncodeRune(runes[k]);
    }
    assert runes[..|runes|] == runes;
  }

  function Lower(c: char): char {
    if 'A' <= c <= 'Z' then c - 'A' + 'a' else c
  }

  function LowerAll(s: string): (t: string)
    ensures |t| == |s| && forall i :: 0 <= i < |s| ==> t[i] == Lower(s[i])
  {
    seq(|s|, i requires 0 <= i < |s| => Lower(s[i]))
  }

  /** lowerASCII: a copy whose upper-case letters are replaced in place. */
  method LowerASCII(s: string) returns (t: string)
    ensures t == LowerAll(s)
  {
    var b := new char[|s|](i requires 0 <= i < |s| => s[i]);
    for i := 0 to |s|
      invariant forall k :: 0 <= k < i ==> b[k] == Lower(s[k])
      invariant forall k :: i <= k < |s| ==> b[k] == s[k]
    {
      if 'A' <= b[i] <= 'Z' {
        b[i] := b[i] - 'A' + 'a';
      }
    }
    t := b[..];
  }

  datatype Name = Auto | Utf8 | Cp1252 | Latin1

  /** normalizeCharsetName; anything unknown means auto. */
  function CharsetName(name: string): Name {
    var n := LowerAll(name);
    if n == "" || n == "auto" then Auto
    else if n == "utf8" || n == "utf-8" then Utf8
    else if n == "cp1252" || n == "windows-1252" || n == "win1252" then Cp1252
    else if n == "latin1" || n == "latin-1" || n == "iso8859-1" || n == "iso-8859-1" then Latin1
    else Auto
  }

  const BOM_BE: seq<byte> := [0xFE, 0xFF]
  const BOM_LE: seq<byte> := [0xFF, 0xFE]
  const BOM_UTF8: seq<byte> := [0xEF, 0xBB, 0xBF]

  predicate HasUtf16Mark(data: seq<byte>) {
    BOM_BE <= data || BOM_LE <= data
  }

  function StripMark(data: seq<byte>): seq<byte> {
    if BOM_UTF8 <= data then data[3..] else data
  }

  /** Without a UTF-16 mark: what each charset makes of the bytes. */
  function Convert(data: seq<byte>, name: Name): seq<byte> {
    match name
    case Utf8 => data
    case Cp1252 => Encode(RunesOfBytes(data))
    case Latin1 => Encode(RunesOfBytes(data))
    case Auto => if Valid(data) then data else Encode(RunesOfBytes(data))
  }

  function Normalized(data: seq<byte>, charset: string): seq<byte> {
    if BOM_BE <= data then Encode(DecodeUnits(UnitsFromBytes(data[2..], true)))
    else if BOM_LE <= data then Encode(DecodeUnits(UnitsFromBytes(data[2..], false)))
    else Convert(StripMark(data), CharsetName(charset))
  }

  method NormalizeSubtitle(input: seq<byte>, charset: string) returns (out: seq<byte>)
    ensures out == Normalized(input, charset)
  {
    var data := input;
    if |data| >= 2 {
      if data[0] == 0xFE && data[1] == 0xFF {
        out := Utf16ToUTF8(data[2..], true);
        return;
      } else if data[0] == 0xFF && data[1] == 0xFE {
        out := Utf16ToUTF8(data[2..], false);
        return;
      }
    }
    if |data| >= 3 && data[0] == 0xEF && data[1] == 0xBB && data[2] == 0xBF {
      data := data[3..];
    }
    match CharsetName(charset) {
      case Utf8 => out := data;
      case Cp1252 => out := Cp1252ToUTF8(data);
      case Latin1 => out := Cp1252ToUTF8(data);
      case Auto =>
        if Valid(data) {
          out := data;
        } else {
          out := Cp1252ToUTF8(data);
        }
    }
  }

  /** UTF-16 text of any scalar sequence, with either mark, becomes its exact UTF-8 encoding. */
  lemma Utf16BecomesUtf8(text: seq<Scalar>, bigEndian: bool, charset: string)
    ensures var mark := if bigEndian then BOM_BE else BOM_LE;
            Normalized(mark + BytesFromUnits(Units(text), bigEndian), charset) == Encode(text)
  {
    hide Encode, DecodeUnits, Units, BytesFromUnits, UnitsFromBytes, Convert;
    var mark := if bigEndian then BOM_BE else BOM_LE;
    var body := BytesFromUnits(Units(text), bigEndian);
    assert (mark + body)[2..] == body && mark <= mark + body;
    assert bigEndian || (mark + body)[0] == 0xFF;
    UnitBytesRoundTrip(Units(text), bigEndian);
    UnitsRoundTrip(text);
  }

  /**
   * The output is valid UTF-8 for every input, except that with charset utf-8
   * and no UTF-16 mark it is valid exactly when the input behind the mark is.
   */
  lemma OutputIsValid(data: seq<byte>, charset: string)
    ensures HasUtf16Mark(data) || CharsetName(charset) != Utf8 ==> Valid(Normalized(data, charset))
    ensures !HasUtf16Mark(data) && CharsetName(charset) == Utf8 ==>
              (Valid(Normalized(data, charset)) <==> Valid(StripMark(data)))
  {
    hide Valid, Encode, DecodeUnits, UnitsFromBytes, RunesOfBytes, CharsetName;
    EncodedIsValid(DecodeUnits(UnitsFromBytes(if |data| >= 2 then data[2..] else [], true)));
    EncodedIsValid(DecodeUnits(UnitsFromBytes(if |data| >= 2 then data[2..] else [], false)));
    EncodedIsValid(RunesOfBytes(StripMark(data)));
  }

  /** No byte string is lost by the Windows-1252 conversion: it can be inverted. */
  lemma Cp1252IsInvertible(data: seq<byte>)
    ensures var out := Encode(RunesOfBytes(data));
            Valid(out) && BytesOfRunes(Decode(out)) == Some(data)
  {
    hide Encode, Decode, RunesOfBytes, BytesOfRunes;
    EncodedIsValid(RunesOfBytes(data));
    BytesRoundTrip(data);
  }

  /** Unmarked UTF-8 text passes through auto mode untouched, and marked text loses only its mark. */
  lemma Utf8PassesThrough(text: seq<Scalar>, charset: string)
    requires CharsetName(charset) == Auto || CharsetName(charset) == Utf8
    ensures Normalized(BOM_UTF8 + Encode(text), charset) == Encode(text)
    ensures !(BOM_UTF8 <= Encode(text)) ==> Normalized(Encode(text), charset) == Encode(text)
  {
    EncodedIsValid(text);
    FirstOctet(Encode(text));
    hide Encode, CharsetName, Valid;
    var b := BOM_UTF8 + Encode(text);
    assert b[0] == 0xEF && b[3..] == Encode(text) && BOM_UTF8 <= b;
  }

  lemma FirstOctet(b: seq<byte>)
    requires Valid(b)
    ensures !HasUtf16Mark(b)
  {
    if b != [] {
      assert RuneLength(b) > 0;
      assert b[0] < 0xFE;
    }
  }
}
