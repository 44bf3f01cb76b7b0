/** Strict orders on strings and sorted sequences, and the stable insertion sort the rankings use. */
module Ordering {
  /** Byte-wise string order; on UTF-8 text it is the order of code points. */
  predicate Before(a: string, b: string) {
    b != "" && (a == "" || a[0] < b[0] || (a[0] == b[0] && Before(a[1..], b[1..])))
  }

  lemma {:induction false} BeforeTrichotomy(a: string, b: string)
    ensures a == b || Before(a, b) || Before(b, a)
    ensures !(Before(a, b) && Before(b, a)) && !Before(a, a)
  {
    if a != "" && b != "" && a[0] == b[0] {
      BeforeTrichotomy(a[1..], b[1..]);
      assert a == [a[0]] + a[1..] && b == [b[0]] + b[1..];
    }
    if a != "" {
      BeforeIrreflexive(a);
    }
  }

  lemma {:induction false} BeforeIrreflexive(a: string)
    ensures !Before(a, a)
  {
    if a != "" {
      BeforeIrreflexive(a[1..]);
    }
  }

  /** One string comes before another when it is a proper prefix of it, or has the smaller character where they first differ. */
  lemma {:induction false} BeforeMeans(a: string, b: string)
    ensures Before(a, b) <==> a < b || exists k :: 0 <= k < |a| && k < |b| && a[..k] == b[..k] && a[k] < b[k]
  {
    if a != "" && b != "" && a[0] == b[0] {
      BeforeMeans(a[1..], b[1..]);
      assert a == [a[0]] + a[1..] && b == [b[0]] + b[1..];
      if k :| 0 <= k < |a| - 1 && k < |b| - 1 && a[1..][..k] == b[1..][..k] && a[1..][k] < b[1..][k] {
        assert a[..k + 1] == [a[0]] + a[1..][..k] && b[..k + 1] == [b[0]] + b[1..][..k] && a[k + 1] < b[k + 1];
      }
      if k :| 0 <= k < |a| && k < |b| && a[..k] == b[..k] && a[k] < b[k] {
        assert k > 0 && a[1..][..k - 1] == a[..k][1..] && b[1..][..k - 1] == b[..k][1..] && a[1..][k - 1] < b[1..][k - 1];
      }
    }
  }

  lemma {:induction false} BeforeTransitive(a: string, b: string, c: string)
    requires Before(a, b) && Before(b, c)
    ensures Before(a, c)
  {
    if a != "" && a[0] == b[0] && b[0] == c[0] {
      BeforeTransitive(a[1..], b[1..], c[1..]);
    }
  }

  /** Case-insensitive order under a folding, ties broken by the strings themselves. */
  predicate LessFold(lower: string -> string, a: string, b: string) {
    if lower(a) != lower(b) then Before(lower(a), lower(b)) else Before(a, b)
  }

  lemma LessFoldTotal(lower: string -> string, a: string, b: string)
    ensures a == b || LessFold(lower, a, b) || LessFold(lower, b, a)
    ensures !(LessFold(lower, a, b) && LessFold(lower, b, a)) && !LessFold(lower, a, a)
  {
    hide Before;
    BeforeTrichotomy(a, b);
    BeforeIrreflexive(a);
    BeforeTrichotomy(lower(a), lower(b));
  }

  lemma LessFoldTransitive(lower: string -> string, a: string, b: string, c: string)
    requires LessFold(lower, a, b) && LessFold(lower, b, c)
    ensures LessFold(lower, a, c)
  {
    hide Before;
    BeforeTrichotomy(lower(a), lower(b));
    if Before(lower(a), lower(b)) && Before(lower(b), lower(c)) {
      BeforeTransitive(lower(a), lower(b), lower(c));
    }
    if Before(a, b) && Before(b, c) {
      BeforeTransitive(a, b, c);
    }
    BeforeIrreflexive(lower(a));
  }

  /** Where a stable insertion puts x in a sorted sequence: after everything it is not less than. */
  function Position<T>(s: seq<T>, x: T, less: (T, T) -> bool): (p: nat)
    ensures p <= |s|
  {
    if s == [] then 0
    else if less(x, s[|s| - 1]) then Position(s[..|s| - 1], x, less)
    else |s|
  }

  function Insert<T>(s: seq<T>, x: T, less: (T, T) -> bool): (r: seq<T>)
    ensures |r| == |s| + 1
  {
    s[..Position(s, x, less)] + [x] + s[Position(s, x, less)..]
  }

  /** The stable sort of a sequence. */
  function StableSort<T>(s: seq<T>, less: (T, T) -> bool): (r: seq<T>)
    ensures |r| == |s|
  {
    if s == [] then [] else Insert(StableSort(s[..|s| - 1], less), s[|s| - 1], less)
  }

  /** One insertion, in place: shift the larger elements up, then put a[i] down. */
  method InsertInPlace<T>(a: array<T>, i: nat, less: (T, T) -> bool)
    requires i < a.Length
    modifies a
    ensures a[..i + 1] == Insert(old(a[..i]), old(a[i]), less) && a[i + 1..] == old(a[i + 1..])
  {
    hide Position, Insert;
    ghost var sorted, rest := a[..i], a[i + 1..];
    var x := a[i];
    var j := i;
    assert sorted[..j] == sorted;
    while j > 0 && less(x, a[j - 1])
      invariant 0 <= j <= i
      invariant forall k :: 0 <= k < j ==> a[k] == sorted[k]
      invariant forall k :: j <= k < i ==> a[k + 1] == sorted[k]
      invariant a[i + 1..] == rest
      invariant Position(sorted[..j], x, less) == Position(sorted, x, less)
    {
      assert sorted[..j][..j - 1] == sorted[..j - 1] && sorted[..j][j - 1] == a[j - 1];
      PositionStep(sorted[..j], x, less);
      a[j] := a[j - 1];
      j := j - 1;
    }
    a[j] := x;
    assert j > 0 ==> sorted[j - 1] == a[j - 1];
    Stops(sorted, j, x, less);
    Shifted(a[..i + 1], sorted, j, x);
  }

  lemma Shifted<T>(r: seq<T>, s: seq<T>, j: nat, x: T)
    requires j <= |s| && |r| == |s| + 1 && r[j] == x
    requires forall k :: 0 <= k < j ==> r[k] == s[k]
    requires forall k :: j <= k < |s| ==> r[k + 1] == s[k]
    ensures r == s[..j] + [x] + s[j..]
  {
    forall k | 0 <= k < |r|
      ensures r[k] == (s[..j] + [x] + s[j..])[k]
    {
      if k > j {
        assert r[k - 1 + 1] == s[k - 1];
      }
    }
  }

  lemma PositionStep<T>(s: seq<T>, x: T, less: (T, T) -> bool)
    requires s != [] && less(x, s[|s| - 1])
    ensures Position(s, x, less) == Position(s[..|s| - 1], x, less)
  {
  }

  /** sort.SliceStable, in place. */
  method SortStable<T>(a: array<T>, less: (T, T) -> bool)
    modifies a
    ensures a[..] == StableSort(old(a[..]), less)
  {
    hide Insert;
    ghost var was := a[..];
    for i := 0 to a.Length
      invariant a[..i] == StableSort(was[..i], less) && a[i..] == was[i..]
    {
      assert a[i] == was[i..][0] && a[i + 1..] == was[i..][1..];
      InsertInPlace(a, i, less);
      assert was[..i + 1][..i] == was[..i] && was[..i + 1][i] == was[i];
    }
    assert was[..|was|] == was && a[..] == a[..a.Length];
  }

  lemma Stops<T>(s: seq<T>, j: nat, x: T, less: (T, T) -> bool)
    requires j <= |s| && Position(s[..j], x, less) == Position(s, x, less)
    requires j == 0 || !less(x, s[j - 1])
    ensures Position(s, x, less) == j && Insert(s, x, less) == s[..j] + [x] + s[j..]
  {
  }

  lemma {:induction false} InsertKeeps<T>(s: seq<T>, x: T, less: (T, T) -> bool)
    ensures multiset(Insert(s, x, less)) == multiset(s) + multiset{x}
  {
    var p := Position(s, x, less);
    assert s == s[..p] + s[p..];
  }

  /** Sorting loses and duplicates nothing. */
  lemma {:induction false} SortKeeps<T>(s: seq<T>, less: (T, T) -> bool)
    ensures multiset(StableSort(s, less)) == multiset(s)
  {
    if s != [] {
      SortKeeps(s[..|s| - 1], less);
      InsertKeeps(StableSort(s[..|s| - 1], less), s[|s| - 1], less);
      assert s == s[..|s| - 1] + [s[|s| - 1]];
    }
  }

  /** No element is less than one before it. */
  ghost predicate Sorted<T>(s: seq<T>, less: (T, T) -> bool) {
    forall i, j :: 0 <= i < j < |s| ==> !less(s[j], s[i])
  }

  /** What sorting relies on: a strict weak order. */
  ghost predicate StrictWeak<T(!new)>(less: (T, T) -> bool) {
    && (forall x :: !less(x, x))
    && (forall x, y, z :: less(x, y) && less(y, z) ==> less(x, z))
    && (forall x, y, z :: !less(x, y) && !less(y, z) ==> !less(x, z))
  }

  /** The same on the elements of one sequence. */
  ghost predicate StrictWeakOn<T>(s: seq<T>, less: (T, T) -> bool) {
    && (forall x :: x in s ==> !less(x, x))
    && (forall x, y, z :: x in s && y in s && z in s && less(x, y) && less(y, z) ==> less(x, z))
    && (forall x, y, z :: x in s && y in s && z in s && !less(x, y) && !less(y, z) ==> !less(x, z))
  }

  lemma WeakAnywhere<T(!new)>(s: seq<T>, less: (T, T) -> bool)
    requires StrictWeak(less)
    ensures StrictWeakOn(s, less)
  {
  }

  lemma WeakOnFewer<T>(s: seq<T>, t: seq<T>, less: (T, T) -> bool)
    requires StrictWeakOn(s, less) && forall e :: e in t ==> e in s
    ensures StrictWeakOn(t, less)
  {
  }

  lemma NotLessChains<T>(s: seq<T>, x: T, y: T, z: T, less: (T, T) -> bool)
    requires StrictWeakOn(s, less) && x in s && y in s && z in s && !less(x, y) && !less(y, z)
    ensures !less(x, z)
  {
  }

  lemma {:induction false} PositionSplits<T>(s: seq<T>, x: T, less: (T, T) -> bool)
    requires Sorted(s, less) && StrictWeakOn(s + [x], less)
    ensures var p := Position(s, x, less);
            && (forall i :: 0 <= i < p ==> !less(x, s[i])) && (forall i :: p <= i < |s| ==> less(x, s[i]))
  {
    if s != [] {
      var init, all := s[..|s| - 1], s + [x];
      assert all[|s|] == x && forall i :: 0 <= i < |s| ==> all[i] == s[i];
      hide StrictWeakOn;
      if less(x, s[|s| - 1]) {
        WeakOnFewer(all, init + [x], less);
        PositionSplits(init, x, less);
      } else {
        forall i | 0 <= i < |s|
          ensures !less(x, s[i])
        {
          if i < |s| - 1 {
            NotLessChains(all, x, s[|s| - 1], s[i], less);
          }
        }
      }
    }
  }

  lemma InsertSorted<T>(s: seq<T>, x: T, less: (T, T) -> bool)
    requires Sorted(s, less) && StrictWeakOn(s + [x], less)
    ensures Sorted(Insert(s, x, less), less)
  {
    var p, r := Position(s, x, less), Insert(s, x, less);
    PositionSplits(s, x, less);
    assert (s + [x])[|s|] == x && forall i :: 0 <= i < |s| ==> (s + [x])[i] == s[i];
    forall i, j | 0 <= i < j < |r|
      ensures !less(r[j], r[i])
    {
      var a := if i < p then i else i - 1;
      var b := if j < p then j else j - 1;
      if i == p {
        assert r[j] == s[b] && less(x, s[b]);
      } else if j == p {
        assert r[i] == s[a];
      } else {
        assert r[i] == s[a] && r[j] == s[b];
      }
    }
  }

  lemma {:induction false} SortSorts<T>(s: seq<T>, less: (T, T) -> bool)
    requires StrictWeakOn(s, less)
    ensures Sorted(StableSort(s, less), less)
  {
    if s != [] {
      var m := StableSort(s[..|s| - 1], less);
      SortSorts(s[..|s| - 1], less);
      SortKeeps(s[..|s| - 1], less);
      forall y | y in m + [s[|s| - 1]]
        ensures y in s
      {
        assert y in m ==> y in multiset(m);
      }
      InsertSorted(StableSort(s[..|s| - 1], less), s[|s| - 1], less);
    }
  }

  // Stability.

  /** The elements that are tied with x, in order. */
  function TiedWith<T>(s: seq<T>, x: T, less: (T, T) -> bool): seq<T> {
    if s == [] then []
    else
      var e := s[|s| - 1];
      TiedWith(s[..|s| - 1], x, less) + if less(e, x) || less(x, e) then [] else [e]
  }

  lemma {:induction false} TiedAppend<T>(a: seq<T>, b: seq<T>, x: T, less: (T, T) -> bool)
    ensures TiedWith(a + b, x, less) == TiedWith(a, x, less) + TiedWith(b, x, less)
  {
    if b == [] {
      assert a + b == a;
    } else {
      assert (a + b)[..|a + b| - 1] == a + b[..|b| - 1];
      TiedAppend(a, b[..|b| - 1], x, less);
    }
  }

  lemma {:induction false} NoneTied<T>(s: seq<T>, x: T, less: (T, T) -> bool)
    requires forall e :: e in s ==> less(e, x) || less(x, e)
    ensures TiedWith(s, x, less) == []
  {
    if s != [] {
      assert s[|s| - 1] in s;
      NoneTied(s[..|s| - 1], x, less);
    }
  }

  lemma OneTied<T>(y: T, x: T, less: (T, T) -> bool)
    ensures TiedWith([y], x, less) == if less(y, x) || less(x, y) then [] else [y]
  {
    assert [y][..0] == [];
  }

  lemma AfterPosition<T>(s: seq<T>, y: T, x: T, less: (T, T) -> bool, i: nat)
    requires Sorted(s, less) && StrictWeakOn(s + [y] + [x], less) && !less(y, x)
    requires Position(s, y, less) <= i < |s|
    ensures less(x, s[i])
  {
    var all := s + [y] + [x];
    assert all[|s|] == y && all[|s| + 1] == x && all[i] == s[i];
    assert forall e :: e in s + [y] ==> e in all;
    WeakOnFewer(all, s + [y], less);
    hide StrictWeakOn, Position, Sorted;
    PositionSplits(s, y, less);
    if !less(x, s[i]) {
      NotLessChains(all, y, x, s[i], less);
    }
  }

  /** An insertion puts an element behind all that are tied with it. */
  lemma InsertTied<T>(s: seq<T>, y: T, x: T, less: (T, T) -> bool)
    requires Sorted(s, less) && StrictWeakOn(s + [y] + [x], less)
    ensures TiedWith(Insert(s, y, less), x, less) == TiedWith(s, x, less) + TiedWith([y], x, less)
  {
    hide TiedWith, Position, StrictWeakOn, Sorted;
    var p := Position(s, y, less);
    assert s == s[..p] + s[p..];
    TiedAppend(s[..p], s[p..], x, less);
    TiedAppend(s[..p] + [y], s[p..], x, less);
    TiedAppend(s[..p], [y], x, less);
    OneTied(y, x, less);
    if !less(y, x) {
      forall e | e in s[p..]
        ensures less(x, e)
      {
        var i :| p <= i < |s| && s[i] == e;
        AfterPosition(s, y, x, less, i);
      }
      NoneTied(s[p..], x, less);
    }
  }

  /** Sorting keeps tied elements in the order they were in. */
  lemma {:induction false} SortIsStable<T>(s: seq<T>, x: T, less: (T, T) -> bool)
    requires StrictWeakOn(s + [x], less)
    ensures TiedWith(StableSort(s, less), x, less) == TiedWith(s, x, less)
  {
    hide Insert;
    if s != [] {
      var init, y := s[..|s| - 1], s[|s| - 1];
      var m := StableSort(init, less);
      assert s == init + [y];
      assert forall e :: e in init + [x] ==> e in s + [x];
      SortIsStable(init, x, less);
      SortSorts(init, less);
      SortKeeps(init, less);
      forall e | e in m + [y] + [x]
        ensures e in s + [x]
      {
        assert e in m ==> e in multiset(m);
      }
      InsertTied(m, y, x, less);
      TiedAppend(init, [y], x, less);
    }
  }

  lemma HeadComesFirst<T>(s: seq<T>, x: T, less: (T, T) -> bool)
    requires Sorted(s, less) && x in s
    ensures x == s[0] || !less(x, s[0])
  {
    var i :| 0 <= i < |s| && s[i] == x;
  }

  /** On elements that are never tied, there is only one sorted arrangement. */
  lemma {:induction false} SortedIsUnique<T>(s: seq<T>, t: seq<T>, less: (T, T) -> bool)
    requires Sorted(s, less) && Sorted(t, less) && multiset(s) == multiset(t)
    requires forall x, y :: x in s && y in s && x != y ==> less(x, y) || less(y, x)
    ensures s == t
    decreases |s|
  {
    assert |multiset(s)| == |s| && |multiset(t)| == |t|;
    if s != [] {
      assert s[0] in multiset(s) && t[0] in multiset(t);
      HeadComesFirst(s, t[0], less);
      HeadComesFirst(t, s[0], less);
      assert s[0] == t[0];
      Behead(s);
      Behead(t);
      SortedTail(s, less);
      SortedTail(t, less);
      SortedIsUnique(s[1..], t[1..], less);
    }
  }

  lemma SortedTail<T>(s: seq<T>, less: (T, T) -> bool)
    requires s != [] && Sorted(s, less)
    ensures Sorted(s[1..], less) && forall x :: x in s[1..] ==> x in s
  {
  }

  lemma Behead<T>(s: seq<T>)
    requires s != []
    ensures s == [s[0]] + s[1..] && multiset(s[1..]) == multiset(s) - multiset{s[0]}
  {
    assert s == [s[0]] + s[1..];
  }

  function Map<A, B>(s: seq<A>, f: A -> B): (r: seq<B>)
    ensures |r| == |s| && forall i :: 0 <= i < |s| ==> r[i] == f(s[i])
  {
    seq(|s|, i requires 0 <= i < |s| => f(s[i]))
  }

  /** Two orders that agree on the elements of s through f. */
  ghost predicate Agree<A, B>(s: seq<A>, f: A -> B, la: (A, A) -> bool, lb: (B, B) -> bool) {
    forall x, y :: x in s && y in s ==> lb(f(x), f(y)) == la(x, y)
  }

  /** Sorting moves elements by their place in the order only: it commutes with a map that keeps the order. */
  lemma {:induction false} SortCommutesWithMap<A, B>(s: seq<A>, f: A -> B, la: (A, A) -> bool, lb: (B, B) -> bool)
    requires Agree(s, f, la, lb)
    ensures StableSort(Map(s, f), lb) == Map(StableSort(s, la), f)
  {
    hide Position, Insert;
    if s != [] {
      var a, x := s[..|s| - 1], s[|s| - 1];
      var m := StableSort(a, la);
      SortCommutesWithMap(a, f, la, lb);
      SortKeeps(a, la);
      forall y | y in m
        ensures y in a
      {
        assert y in multiset(m);
      }
      InsertCommutesWithMap(m, x, f, la, lb);
      assert Map(s, f)[..|s| - 1] == Map(a, f);
    }
  }

  lemma InsertCommutesWithMap<A, B>(s: seq<A>, x: A, f: A -> B, la: (A, A) -> bool, lb: (B, B) -> bool)
    requires Agree(s + [x], f, la, lb)
    ensures Insert(Map(s, f), f(x), lb) == Map(Insert(s, x, la), f)
  {
    PositionCommutesWithMap(s, x, f, la, lb);
  }

  lemma {:induction false} PositionCommutesWithMap<A, B>(s: seq<A>, x: A, f: A -> B, la: (A, A) -> bool, lb: (B, B) -> bool)
    requires Agree(s + [x], f, la, lb)
    ensures Position(Map(s, f), f(x), lb) == Position(s, x, la)
  {
    if s != [] {
      var a := s[..|s| - 1];
      assert x in s + [x] && s[|s| - 1] in s + [x];
      assert Agree(a + [x], f, la, lb) by {
        forall y | y in a + [x]
          ensures y in s + [x]
        {
        }
      }
      PositionCommutesWithMap(a, x, f, la, lb);
      assert Map(s, f)[..|s| - 1] == Map(a, f);
    }
  }
}
