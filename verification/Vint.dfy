/** EBML variable-length integers (section 4 of RFC 8794). */
module Vints {
  import opened Bytes

  datatype Error = EndOfFile | UnexpectedEOF | InvalidVint | BadSize

  /** A decoded integer: raw keeps the length marker, value drops it. */
  datatype Vint = Vint(raw: nat, value: nat, length: nat, unknown: bool)

  /** Encoded length announced by a first byte: one more than its leading zero bits. */
  function LeadingLength(b: byte): (n: nat)
    requires b != 0
    ensures 1 <= n <= 8
  {
    if b >= 128 then 1 else if b >= 64 then 2 else if b >= 32 then 3 else if b >= 16 then 4
    else if b >= 8 then 5 else if b >= 4 then 6 else if b >= 2 then 7 else 8
  }

  /** The marker-bit search of the original: shift a one-bit mask right until it meets a set bit. */
  method VintLength(b: byte) returns (r: Result<nat, Error>)
    ensures b == 0 ==> r == Err(InvalidVint)
    ensures b != 0 ==> r == Ok(LeadingLength(b))
  {
    if b == 0 {
      return Err(InvalidVint);
    }
    var n, mask := 1, 0x80;
    while (b / mask) % 2 == 0
      invariant mask in {0x80, 0x40, 0x20, 0x10, 8, 4, 2, 1}
      invariant n == if mask == 0x80 then 1 else if mask == 0x40 then 2 else if mask == 0x20 then 3
                     else if mask == 0x10 then 4 else if mask == 8 then 5 else if mask == 4 then 6
                     else if mask == 2 then 7 else 8
      invariant b < 2 * mask
      decreases mask
    {
      mask := mask / 2;
      n := n + 1;
    }
    return Ok(n);
  }

  /** What parseVint decodes, including its redundant check that the marker bit is set. */
  function Parse(b: seq<byte>): Result<Vint, Error> {
    if b == [] then Err(UnexpectedEOF)
    else if b[0] == 0 then Err(InvalidVint)
    else
      var n := LeadingLength(b[0]);
      if |b| < n then Err(UnexpectedEOF)
      else
        var raw := BigEndian(b[..n]);
        if (raw / Pow128(n)) % 2 == 0 then Err(InvalidVint)
        else
          var value := raw - Pow128(n);
          if value < 0 then Err(InvalidVint) else Ok(Vint(raw, value, n, value == Pow128(n) - 1))
  }

  method ParseVint(b: seq<byte>) returns (r: Result<Vint, Error>)
    ensures r == Parse(b)
  {
    if |b| == 0 {
      return Err(UnexpectedEOF);
    }
    var first := VintLength(b[0]);
    if first.Err? {
      return Err(first.error);
    }
    var n := first.value;
    if |b| < n {
      return Err(UnexpectedEOF);
    }
    var raw: nat := 0;
    for i := 0 to n
      invariant raw == BigEndian(b[..i])
    {
      assert b[..i + 1][..i] == b[..i];
      raw := raw * 256 + b[i];
    }
    MarkerAlwaysSet(b);
    var marker := Pow128(n);
    var value := raw - marker;
    return Ok(Vint(raw, value, n, value == marker - 1));
  }

  /**
   * The marker bit is set in every complete encoding, so the check for it can
   * never fail: a first byte of zero is the only invalid integer.
   */
  lemma MarkerAlwaysSet(b: seq<byte>)
    requires b != [] && b[0] != 0 && LeadingLength(b[0]) <= |b|
    ensures var n := LeadingLength(b[0]);
            var raw := BigEndian(b[..n]);
            raw / Pow128(n) == 1 && Pow128(n) <= raw < 2 * Pow128(n)
            && Parse(b) == Ok(Vint(raw, raw - Pow128(n), n, raw == 2 * Pow128(n) - 1))
  {
    var n := LeadingLength(b[0]);
    var s := b[..n];
    BigEndianHead(s);
    BigEndianBound(s[1..]);
    MarkerBounds(b[0], n, BigEndian(s[1..]));
    QuotientOne(BigEndian(s), Pow128(n));
  }

  lemma QuotientOne(raw: nat, p: nat)
    requires 0 < p <= raw < 2 * p
    ensures raw / p == 1
  {
  }

  /** A first byte with LeadingLength n puts an n-byte number between 2^7n and 2^(7n+1). */
  lemma MarkerBounds(b: byte, n: nat, tail: nat)
    requires b != 0 && n == LeadingLength(b) && tail < Pow256(n - 1)
    ensures Pow128(n) <= b * Pow256(n - 1) + tail < 2 * Pow128(n)
  {
    PowTable();
    if n == 1 {
    } else if n == 2 {
    } else if n == 3 {
    } else if n == 4 {
    } else if n == 5 {
    } else if n == 6 {
    } else if n == 7 {
    } else {
      assert n == 8;
    }
  }

  lemma ParseFailsExactly(b: seq<byte>)
    ensures Parse(b).Err? <==> b == [] || b[0] == 0 || |b| < LeadingLength(b[0])
    ensures Parse(b).Ok? ==> Parse(b).value.value < Pow128(Parse(b).value.length) <= Pow128(8)
    ensures Parse(b).Ok? ==> 1 <= Parse(b).value.length <= 8 && Parse(b).value.length == LeadingLength(b[0])
  {
    if b != [] && b[0] != 0 && LeadingLength(b[0]) <= |b| {
      MarkerAlwaysSet(b);
      PowTable();
    }
  }

  /** The n-byte encoding of a value: marker bit, then 7n data bits. */
  function EncodeVint(value: nat, n: nat): (s: seq<byte>)
    requires 1 <= n <= 8 && value < Pow128(n)
    ensures |s| == n
  {
    ToBigEndian(Pow128(n) + value, n)
  }

  /** A marker at bit 7n of an n-byte number shows as LeadingLength n of its first byte. */
  lemma LeadingByte(b: byte, n: nat, tail: nat)
    requires 1 <= n <= 8 && tail < Pow256(n - 1)
    requires Pow128(n) <= b * Pow256(n - 1) + tail < 2 * Pow128(n)
    ensures b != 0 && LeadingLength(b) == n
  {
    PowTable();
    if n == 1 {
    } else if n == 2 {
    } else if n == 3 {
    } else if n == 4 {
    } else if n == 5 {
    } else if n == 6 {
    } else if n == 7 {
    } else {
      assert n == 8;
    }
  }

  lemma MarkerFits(n: nat)
    requires 1 <= n <= 8
    ensures 2 * Pow128(n) <= Pow256(n)
  {
    PowTable();
    assert n == 1 || n == 2 || n == 3 || n == 4 || n == 5 || n == 6 || n == 7 || n == 8;
  }

  lemma EncodedHead(value: nat, n: nat)
    requires 1 <= n <= 8 && value < Pow128(n)
    ensures BigEndian(EncodeVint(value, n)) == Pow128(n) + value
    ensures EncodeVint(value, n)[0] != 0 && LeadingLength(EncodeVint(value, n)[0]) == n
  {
    var s := EncodeVint(value, n);
    MarkerFits(n);
    BigEndianRoundTrip(Pow128(n) + value, n);
    BigEndianHead(s);
    BigEndianBound(s[1..]);
    LeadingByte(s[0], n, BigEndian(s[1..]));
  }

  /** Decoding undoes encoding at every length, whatever bytes follow. */
  lemma ParseEncoded(value: nat, n: nat, rest: seq<byte>)
    requires 1 <= n <= 8 && value < Pow128(n)
    ensures Parse(EncodeVint(value, n) + rest) == Ok(Vint(Pow128(n) + value, value, n, value == Pow128(n) - 1))
  {
    var s := EncodeVint(value, n);
    EncodedHead(value, n);
    var b := s + rest;
    assert b[..n] == s && b[0] == s[0];
    MarkerAlwaysSet(b);
  }

  /** Encoding undoes decoding: the bytes consumed are the encoding of what was read. */
  lemma EncodeParsed(b: seq<byte>)
    requires Parse(b).Ok?
    ensures var v := Parse(b).value;
            1 <= v.length <= |b| && v.length <= 8 && v.value < Pow128(v.length)
            && EncodeVint(v.value, v.length) == b[..v.length]
  {
    ParseFailsExactly(b);
    MarkerAlwaysSet(b);
    ToBigEndianRoundTrip(b[..LeadingLength(b[0])]);
  }

  /** Fewest bytes whose data bits hold v without being the reserved all-ones pattern. */
  function ShortestLength(v: nat, n: nat := 1): (r: nat)
    requires 1 <= n <= 8 && v < Pow128(8) - 1
    ensures n <= r <= 8 && v < Pow128(r) - 1
    ensures forall k :: n <= k < r ==> Pow128(k) - 1 <= v
    decreases 8 - n
  {
    if n == 8 || v < Pow128(n) - 1 then n else ShortestLength(v, n + 1)
  }

  /**
   * parseVint inverts the shortest size encoding of every value below 2^56 - 1,
   * never mistakes it for the unknown size, and no shorter field could carry it.
   */
  lemma ParseInvertsShortestSize(v: nat, rest: seq<byte>)
    requires v < Pow128(8) - 1
    ensures var n := ShortestLength(v);
            Parse(EncodeVint(v, n) + rest) == Ok(Vint(Pow128(n) + v, v, n, false))
            && forall k :: 1 <= k < n ==> v >= Pow128(k) - 1
  {
    ParseEncoded(v, ShortestLength(v), rest);
  }
}
