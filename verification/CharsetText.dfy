/** What subtitle bytes become, character by character. */
module CharsetText {
  import opened Bytes
  import opened Utf
  import opened Charset

  /** Windows-1252 from 0x80 on; 81, 8D, 8F, 90 and 9D are control characters there. */
  const WINDOWS_1252: string :=
    "€\U{81}‚ƒ„…†‡ˆ‰Š‹Œ\U{8D}Ž\U{8F}\U{90}‘’“”•–—˜™š›œ\U{9D}žŸ"

  const SINGLE_BYTE_NAMES: seq<string> :=
    ["cp1252", "windows-1252", "win1252", "latin1", "latin-1", "iso8859-1", "iso-8859-1"]

  const UTF_8_NAMES: seq<string> := ["utf8", "utf-8"]

  /** The code point of a byte: itself, or the Windows-1252 character in the range that has its own. */
  function CodePoint(c: byte): int
    requires |WINDOWS_1252| == 32
  {
    if 0x80 <= c < 0xA0 then WINDOWS_1252[c - 0x80] as int else c
  }

  lemma TableIsWindows1252()
    ensures |WINDOWS_1252| == 32 && forall k :: 0 <= k < 32 ==> CP1252_HIGH[k] == WINDOWS_1252[k] as int
  {
    TableLow();
    TableHigh();
  }

  lemma TableLow()
    ensures |WINDOWS_1252| == 32 && forall k :: 0 <= k < 16 ==> CP1252_HIGH[k] == WINDOWS_1252[k] as int
  {
  }

  lemma TableHigh()
    ensures |WINDOWS_1252| == 32 && forall k :: 16 <= k < 32 ==> CP1252_HIGH[k] == WINDOWS_1252[k] as int
  {
  }

  /** Input without a UTF-16 mark: its text, with or without the three bytes of a UTF-8 mark before it. */
  predicate Unmarked(data: seq<byte>, text: seq<byte>) {
    && !([0xFE, 0xFF] <= data) && !([0xFF, 0xFE] <= data)
    && if [0xEF, 0xBB, 0xBF] <= data then data == [0xEF, 0xBB, 0xBF] + text else data == text
  }

  lemma TextIsStripped(data: seq<byte>, text: seq<byte>)
    requires Unmarked(data, text)
    ensures StripMark(data) == text && !HasUtf16Mark(data)
  {
  }

  lemma NamesAre(charset: string)
    ensures LowerAll(charset) in SINGLE_BYTE_NAMES <==> CharsetName(charset) in {Cp1252, Latin1}
    ensures LowerAll(charset) in UTF_8_NAMES <==> CharsetName(charset) == Utf8
  {
    hide LowerAll;
  }

  lemma {:induction false} RunesAre(b: seq<byte>, k: nat)
    requires k < |b|
    ensures RunesOfBytes(b)[k] == RuneOfByte(b[k])
  {
    hide RuneOfByte;
    if k > 0 {
      RunesAre(b[1..], k - 1);
    }
  }

  /**
   * Text that is to be read as Windows-1252, because the charset says so or because it is not UTF-8 and the charset
   * does not say, comes out as UTF-8 with one character for each byte, and the bytes can be had back.
   */
  lemma SingleByteText(data: seq<byte>, text: seq<byte>, charset: string)
    requires Unmarked(data, text)
    requires LowerAll(charset) in SINGLE_BYTE_NAMES || (LowerAll(charset) !in UTF_8_NAMES && !Valid(text))
    ensures var out := Normalized(data, charset);
            && Valid(out) && BytesOfRunes(Decode(out)) == Some(text)
            && |WINDOWS_1252| == 32 && |Decode(out)| == |text|
            && forall k :: 0 <= k < |text| ==> Decode(out)[k] == CodePoint(text[k])
  {
    hide Valid, Encode, Decode, BytesOfRunes, LowerAll, RunesOfBytes, StripMark, HasUtf16Mark, CharsetName, Unmarked;
    TextIsStripped(data, text);
    NamesAre(charset);
    EncodedIsValid(RunesOfBytes(text));
    BytesRoundTrip(text);
    TableIsWindows1252();
    assert Normalized(data, charset) == Encode(RunesOfBytes(text)) by {
      NormalizedIs(data, charset);
    }
    forall k | 0 <= k < |text|
      ensures RunesOfBytes(text)[k] == CodePoint(text[k])
    {
      RunesAre(text, k);
    }
  }

  lemma NormalizedIs(data: seq<byte>, charset: string)
    requires !HasUtf16Mark(data)
    ensures Normalized(data, charset) == Convert(StripMark(data), CharsetName(charset))
  {
    hide Convert, StripMark, CharsetName;
  }

  /** Text stays as it is when the charset says UTF-8, and when it is UTF-8 and the charset does not say. */
  lemma TextIsKept(data: seq<byte>, text: seq<byte>, charset: string)
    requires Unmarked(data, text)
    requires LowerAll(charset) in UTF_8_NAMES || (LowerAll(charset) !in SINGLE_BYTE_NAMES && Valid(text))
    ensures Normalized(data, charset) == text
  {
    hide Valid, Encode, LowerAll, RunesOfBytes, StripMark, HasUtf16Mark, CharsetName, Unmarked;
    TextIsStripped(data, text);
    NamesAre(charset);
    NormalizedIs(data, charset);
  }

  // UTF-16 that is not well-formed.

  lemma {:induction false} WellFormedFirst(text: seq<Scalar>, rest: seq<Unit>)
    ensures DecodeUnits(Units(text) + rest) == text + DecodeUnits(rest)
  {
    hide UnitsOf, FirstScalar;
    if text == [] {
      assert [] + rest == rest && [] + DecodeUnits(rest) == DecodeUnits(rest);
    } else {
      var tail := Units(text[1..]) + rest;
      assert Units(text) + rest == UnitsOf(text[0]) + tail;
      UnitsRead(text[0], tail);
      assert (UnitsOf(text[0]) + tail)[|UnitsOf(text[0])|..] == tail;
      WellFormedFirst(text[1..], rest);
    }
  }

  /** A surrogate that is not half of a pair becomes U+FFFD and costs nothing around it. */
  lemma StrayIsReplaced(text: seq<Scalar>, stray: Unit, rest: seq<Unit>)
    requires 0xD800 <= stray < 0xE000
    requires stray < 0xDC00 && rest != [] ==> !(0xDC00 <= rest[0] < 0xE000)
    ensures DecodeUnits(Units(text) + ([stray] + rest)) == text + ([0xFFFD] + DecodeUnits(rest))
  {
    WellFormedFirst(text, [stray] + rest);
    assert FirstScalar([stray] + rest) == (0xFFFD, 1) && ([stray] + rest)[1..] == rest;
  }

  /** Marked text with such a surrogate, and with half a unit at its end. */
  lemma Utf16IsRead(text: seq<Scalar>, stray: Unit, after: seq<Scalar>, half: seq<byte>, bigEndian: bool, charset: string)
    requires 0xD800 <= stray < 0xE000 && |half| <= 1
    requires stray < 0xDC00 && Units(after) != [] ==> !(0xDC00 <= Units(after)[0] < 0xE000)
    ensures var mark := if bigEndian then [0xFE, 0xFF] else [0xFF, 0xFE];
            var body := BytesFromUnits(Units(text) + ([stray] + Units(after)), bigEndian);
            Normalized(mark + (body + half), charset) == Encode(text + ([0xFFFD] + after))
  {
    hide Encode, DecodeUnits, Units, BytesFromUnits, UnitsFromBytes, Convert;
    var mark := if bigEndian then BOM_BE else BOM_LE;
    var units := Units(text) + ([stray] + Units(after));
    var body := BytesFromUnits(units, bigEndian);
    assert (mark + (body + half))[2..] == body + half && mark <= mark + (body + half);
    assert bigEndian || (mark + (body + half))[0] == 0xFF;
    UnitBytesRoundTrip(units, bigEndian);
    HalfIsDropped(body, half, bigEndian);
    StrayIsReplaced(text, stray, Units(after));
    UnitsRoundTrip(after);
  }

  lemma HalfIsDropped(body: seq<byte>, half: seq<byte>, bigEndian: bool)
    requires |body| % 2 == 0 && |half| <= 1
    ensures UnitsFromBytes(body + half, bigEndian) == UnitsFromBytes(body, bigEndian)
  {
    hide Word;
    var b := body + half;
    assert |b| / 2 == |body| / 2;
    forall i | 0 <= i < |body| / 2
      ensures UnitsFromBytes(b, bigEndian)[i] == UnitsFromBytes(body, bigEndian)[i]
    {
      assert b[2 * i] == body[2 * i] && b[2 * i + 1] == body[2 * i + 1];
    }
  }

  // Some characters, octet by octet.

  lemma KnownOctets()
    ensures EncodeRune('A' as int) == [0x41]
    ensures EncodeRune('é' as int) == [0xC3, 0xA9]
    ensures EncodeRune('€' as int) == [0xE2, 0x82, 0xAC]
    ensures EncodeRune('😀' as int) == [0xF0, 0x9F, 0x98, 0x80]
    ensures UnitsOf('€' as int) == [0x20AC] && UnitsOf('😀' as int) == [0xD83D, 0xDE00]
    ensures BytesOfUnit(0x20AC, true) == [0x20, 0xAC] && BytesOfUnit(0x20AC, false) == [0xAC, 0x20]
  {
  }

  /** Charset names are taken in any letter case. */
  lemma KnownNames()
    ensures LowerAll("UTF-8") in UTF_8_NAMES && LowerAll("Windows-1252") in SINGLE_BYTE_NAMES
    ensures LowerAll("ISO-8859-1") in SINGLE_BYTE_NAMES && LowerAll("Auto") !in UTF_8_NAMES + SINGLE_BYTE_NAMES
  {
    assert LowerAll("UTF-8") == "utf-8" && LowerAll("Windows-1252") == "windows-1252";
    assert LowerAll("ISO-8859-1") == "iso-8859-1" && LowerAll("Auto") == "auto";
  }

  /** The byte 0xE9 alone is not UTF-8; whatever the charset, unless it is UTF-8, it becomes é. */
  lemma EAcuteIsRead(charset: string)
    ensures Normalized([0xE9], charset) == if LowerAll(charset) in UTF_8_NAMES then [0xE9] else [0xC3, 0xA9]
  {
    KnownOctets();
    NamesAre(charset);
    NormalizedIs([0xE9], charset);
    hide CharsetName, LowerAll, EncodeRune;
    assert RuneLength([0xE9]) == 0;
    assert [0xE9][1..] == [];
    assert RunesOfBytes([0xE9]) == [0xE9] && [0xE9 as Scalar][1..] == [];
    assert Encode([0xE9]) == EncodeRune(0xE9) + [];
  }
}
