/** The name of a cached thumbnail. */
module ThumbName {
  import opened Decimal

  /** %d of any integer. */
  function Signed(i: int): string {
    if i < 0 then "-" + Dec(-i) else Dec(i)
  }

  /** The video's path enters through its hash; size, file size and modification second are written out. */
  function Name(hash: string, size: int, srcSize: int, mod: int): string {
    hash + "-" + Signed(size) + "-" + Signed(srcSize) + "-" + Signed(mod) + ".jpg"
  }

  function Leading(s: string): string {
    if s == "" || !IsDigit(s[0]) then "" else [s[0]] + Leading(s[1..])
  }

  lemma {:induction false} LeadingIs(digits: string, rest: string)
    requires (forall c :: c in digits ==> IsDigit(c)) && rest != "" && !IsDigit(rest[0])
    ensures Leading(digits + rest) == digits
  {
    if digits == "" {
      assert digits + rest == rest;
    } else {
      assert (digits + rest)[1..] == digits[1..] + rest;
      assert forall c :: c in digits[1..] ==> c in digits;
      LeadingIs(digits[1..], rest);
    }
  }

  lemma DecSplits(n: nat, m: nat, x: string, y: string)
    requires x != "" && y != "" && !IsDigit(x[0]) && !IsDigit(y[0]) && Dec(n) + x == Dec(m) + y
    ensures n == m && x == y
  {
    LeadingIs(Dec(n), x);
    LeadingIs(Dec(m), y);
    DecReads(n);
    DecReads(m);
    assert x == (Dec(n) + x)[|Dec(n)|..] && y == (Dec(m) + y)[|Dec(m)|..];
  }

  lemma Head(a: int, x: string)
    requires x != ""
    ensures (Signed(a) + x)[0] == '-' <==> a < 0
    ensures a < 0 ==> (Signed(a) + x)[1..] == Dec(-a) + x
  {
    assert a >= 0 ==> Dec(a)[0] in Dec(a);
  }

  /** A number can be told from what follows it. */
  lemma SignedSplits(a: int, b: int, x: string, y: string)
    requires x != "" && y != "" && !IsDigit(x[0]) && !IsDigit(y[0]) && Signed(a) + x == Signed(b) + y
    ensures a == b && x == y
  {
    hide Dec;
    Head(a, x);
    Head(b, y);
    if a < 0 {
      DecSplits(-a, -b, x, y);
    } else {
      DecSplits(a, b, x, y);
    }
  }

  lemma NameNests(h: string, size: int, srcSize: int, mod: int)
    ensures Name(h, size, srcSize, mod) == h + ("-" + (Signed(size) + ("-" + (Signed(srcSize) + ("-" + (Signed(mod) + ".jpg"))))))
  {
    hide Signed;
  }

  /** Two videos, or two states of one video, never share a cached thumbnail unless their path hashes collide. */
  lemma NamesAreDistinct(h: string, size: int, srcSize: int, mod: int, h': string, size': int, srcSize': int, mod': int)
    requires |h| == |h'| && Name(h, size, srcSize, mod) == Name(h', size', srcSize', mod')
    ensures h == h' && size == size' && srcSize == srcSize' && mod == mod'
  {
    hide Signed, Name;
    NameNests(h, size, srcSize, mod);
    NameNests(h', size', srcSize', mod');
    var t, t' := Signed(mod) + ".jpg", Signed(mod') + ".jpg";
    var u, u' := Signed(srcSize) + ("-" + t), Signed(srcSize') + ("-" + t');
    var v, v' := Signed(size) + ("-" + u), Signed(size') + ("-" + u');
    Cut(h, "-" + v, h', "-" + v');
    Field(size, size', u, u', v, v');
    Field(srcSize, srcSize', t, t', u, u');
    Cut("-", t, "-", t');
    SignedSplits(mod, mod', ".jpg", ".jpg");
  }

  lemma Field(a: int, b: int, rest: string, rest': string, s: string, s': string)
    requires s == Signed(a) + ("-" + rest) && s' == Signed(b) + ("-" + rest') && "-" + s == "-" + s'
    ensures a == b && "-" + rest == "-" + rest'
  {
    hide Signed;
    Cut("-", s, "-", s');
    SignedSplits(a, b, "-" + rest, "-" + rest');
  }

  lemma Cut(a: string, x: string, b: string, y: string)
    requires |a| == |b| && a + x == b + y
    ensures a == b && x == y
  {
    assert a == (a + x)[..|a|] && b == (b + y)[..|b|] && x == (a + x)[|a|..] && y == (b + y)[|b|..];
  }
}
