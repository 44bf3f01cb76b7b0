/**
 * Decimal numbers as strconv and fmt write and read them. Identifiers, sizes, clock
 * fields and the parts of a cache name are written with Dec or Padded; Undec reads
 * them back. Writing and reading are inverse, leading zeros included, and what is
 * written consists of digits only, so it can be told from what follows it.
 */
module Decimal {
  import opened Bytes

  function Digit(d: nat): char
    requires d < 10
  {
    '0' + d as char
  }

  predicate IsDigit(c: char) {
    '0' <= c <= '9'
  }

  /** %d of a non-negative number. */
  function Dec(n: nat): (s: string)
    ensures s != "" && forall c :: c in s ==> IsDigit(c)
  {
    if n < 10 then [Digit(n)] else Dec(n / 10) + [Digit(n % 10)]
  }

  function Undec(s: string): Option<nat> {
    if s == "" then None
    else if !IsDigit(s[|s| - 1]) then None
    else
      var d := (s[|s| - 1] - '0') as nat;
      if |s| == 1 then Some(d)
      else match Undec(s[..|s| - 1]) case None => None case Some(v) => Some(v * 10 + d)
  }

  lemma {:induction false} DecReads(n: nat)
    ensures Undec(Dec(n)) == Some(n)
  {
    if n >= 10 {
      DecReads(n / 10);
      assert Dec(n)[..|Dec(n)| - 1] == Dec(n / 10);
    }
  }

  /** %0wd: at least w digits. */
  function Padded(n: nat, w: nat): (s: string)
    ensures s != "" && |s| >= w && forall c :: c in s ==> IsDigit(c)
  {
    if |Dec(n)| >= w then Dec(n) else Zeros(w - |Dec(n)|) + Dec(n)
  }

  function Zeros(k: nat): (s: string)
    ensures |s| == k && (forall i :: 0 <= i < k ==> s[i] == '0') && forall c :: c in s ==> IsDigit(c)
  {
    if k == 0 then "" else "0" + Zeros(k - 1)
  }

  lemma {:induction false} LeadingZeros(k: nat, s: string)
    requires s != ""
    ensures Undec(Zeros(k) + s) == Undec(s)
    decreases |s|, k
  {
    var t := Zeros(k) + s;
    assert t[|t| - 1] == s[|s| - 1];
    if |s| > 1 {
      LeadingZeros(k, s[..|s| - 1]);
      assert t[..|t| - 1] == Zeros(k) + s[..|s| - 1];
    } else if k > 0 {
      AllZeros(k);
      assert t[..|t| - 1] == Zeros(k);
    } else {
      assert t == s;
    }
  }

  lemma {:induction false} AllZeros(k: nat)
    requires k > 0
    ensures Undec(Zeros(k)) == Some(0)
  {
    if k > 1 {
      AllZeros(k - 1);
      assert Zeros(k)[..k - 1] == Zeros(k - 1);
    }
  }

  lemma PaddedReads(n: nat, w: nat)
    ensures Undec(Padded(n, w)) == Some(n)
  {
    DecReads(n);
    if |Dec(n)| < w {
      LeadingZeros(w - |Dec(n)|, Dec(n));
    }
  }

  lemma TwoDigits(n: nat)
    requires n < 100
    ensures |Padded(n, 2)| == 2
  {
    if n >= 10 {
      assert |Dec(n / 10)| == 1;
    }
  }

  lemma ThreeDigits(n: nat)
    requires n < 1000
    ensures |Padded(n, 3)| == 3
  {
    if n >= 100 {
      assert |Dec(n / 100)| == 1;
      assert |Dec(n / 10)| == |Dec(n / 10 / 10)| + 1;
      assert n / 10 / 10 == n / 100;
    } else if n >= 10 {
      assert |Dec(n / 10)| == 1;
    }
  }

  /** The part of s before the first c, and the part after it. */
  function CutAt(s: string, c: char): Option<(string, string)> {
    if s == "" then None
    else if s[0] == c then Some(("", s[1..]))
    else match CutAt(s[1..], c) case None => None case Some((a, b)) => Some(([s[0]] + a, b))
  }

  lemma {:induction false} CutReads(a: string, c: char, b: string)
    requires c !in a
    ensures CutAt(a + ([c] + b), c) == Some((a, b))
  {
    var s := a + ([c] + b);
    if a == "" {
      assert s == [c] + b && s[1..] == b;
    } else {
      assert s[1..] == a[1..] + ([c] + b) && s[0] == a[0];
      CutReads(a[1..], c, b);
      assert [a[0]] + a[1..] == a;
    }
  }
}
