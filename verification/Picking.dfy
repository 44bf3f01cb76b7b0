/** What a list yields when each element may yield a value: which comes first and which comes last. */
module Picking {
  import opened Bytes

  function Picked<T, R>(s: seq<T>, f: T -> Option<R>): seq<R> {
    if s == [] then [] else (if f(s[0]).Some? then [f(s[0]).value] else []) + Picked(s[1..], f)
  }

  /** The last element that yields anything yields v. */
  ghost predicate LastYields<T, R>(s: seq<T>, f: T -> Option<R>, v: R) {
    exists i :: 0 <= i < |s| && f(s[i]) == Some(v) && forall j :: i < j < |s| ==> f(s[j]) == None
  }

  ghost predicate NoneYields<T, R>(s: seq<T>, f: T -> Option<R>) {
    forall i :: 0 <= i < |s| ==> f(s[i]) == None
  }

  lemma PickedCons<T, R>(s: seq<T>, f: T -> Option<R>)
    requires s != []
    ensures Picked(s, f) == (if f(s[0]).Some? then [f(s[0]).value] else []) + Picked(s[1..], f)
  {
  }

  lemma PickedNil<T, R>(f: T -> Option<R>)
    ensures Picked([], f) == []
  {
  }

  lemma {:induction false} PickedAppend<T, R>(a: seq<T>, b: seq<T>, f: T -> Option<R>)
    ensures Picked(a + b, f) == Picked(a, f) + Picked(b, f)
  {
    hide Picked;
    if a == [] {
      PickedNil(f);
      assert a + b == b;
    } else {
      assert (a + b)[0] == a[0] && (a + b)[1..] == a[1..] + b;
      PickedAppend(a[1..], b, f);
      PickedCons(a, f);
      PickedCons(a + b, f);
    }
  }

  lemma {:induction false} NothingPicked<T, R>(s: seq<T>, f: T -> Option<R>)
    ensures NoneYields(s, f) <==> Picked(s, f) == []
  {
    if s != [] {
      NothingPicked(s[1..], f);
      assert forall j :: 0 <= j < |s| - 1 ==> s[1..][j] == s[j + 1];
      assert forall j :: 0 < j < |s| ==> s[j] == s[1..][j - 1];
    }
  }

  lemma {:induction false} LastIsPicked<T, R>(s: seq<T>, f: T -> Option<R>, v: R)
    requires LastYields(s, f, v)
    ensures Picked(s, f) != [] && Picked(s, f)[|Picked(s, f)| - 1] == v
  {
    var rest := s[1..];
    assert forall j :: 0 <= j < |rest| ==> rest[j] == s[j + 1];
    var i :| 0 <= i < |s| && f(s[i]) == Some(v) && forall j :: i < j < |s| ==> f(s[j]) == None;
    if i == 0 {
      NothingPicked(rest, f);
    } else {
      assert f(rest[i - 1]) == Some(v);
      LastIsPicked(rest, f, v);
    }
  }

  lemma {:induction false} PickedIsLast<T, R>(s: seq<T>, f: T -> Option<R>, v: R)
    requires Picked(s, f) != [] && Picked(s, f)[|Picked(s, f)| - 1] == v
    ensures LastYields(s, f, v)
  {
    var rest := s[1..];
    assert forall j :: 0 < j < |s| ==> s[j] == rest[j - 1];
    NothingPicked(rest, f);
    if Picked(rest, f) != [] {
      PickedIsLast(rest, f, v);
      var i :| 0 <= i < |rest| && f(rest[i]) == Some(v) && forall j :: i < j < |rest| ==> f(rest[j]) == None;
      assert f(s[i + 1]) == Some(v);
    } else {
      assert f(s[0]) == Some(v);
    }
  }

  lemma LastPicked<T, R>(s: seq<T>, f: T -> Option<R>, v: R)
    ensures LastYields(s, f, v) <==> Picked(s, f) != [] && Picked(s, f)[|Picked(s, f)| - 1] == v
  {
    hide LastYields, Picked;
    if LastYields(s, f, v) {
      LastIsPicked(s, f, v);
    }
    if Picked(s, f) != [] && Picked(s, f)[|Picked(s, f)| - 1] == v {
      PickedIsLast(s, f, v);
    }
  }

  /** The first element that yields anything yields what is picked first. */
  lemma {:induction false} FirstPicked<T, R>(s: seq<T>, f: T -> Option<R>, k: nat)
    requires k < |s| && f(s[k]).Some? && forall j :: 0 <= j < k ==> f(s[j]) == None
    ensures Picked(s, f) != [] && Picked(s, f)[0] == f(s[k]).value
    decreases k
  {
    if k > 0 {
      assert forall j :: 0 <= j < |s| - 1 ==> s[1..][j] == s[j + 1];
      FirstPicked(s[1..], f, k - 1);
    }
  }

  lemma PickedTakeOut<T, R>(s: seq<T>, i: nat, f: T -> Option<R>)
    requires i < |s|
    ensures multiset(Picked(s, f)) == multiset(Picked([s[i]], f)) + multiset(Picked(s[..i] + s[i + 1..], f))
    ensures multiset(s[..i] + s[i + 1..]) == multiset(s) - multiset{s[i]}
  {
    hide Picked;
    var pre, post := s[..i], s[i + 1..];
    assert s == pre + ([s[i]] + post);
    PickedAppend(pre, [s[i]] + post, f);
    PickedAppend([s[i]], post, f);
    PickedAppend(pre, post, f);
  }

  /** Reordering a list reorders what it yields. */
  lemma {:induction false} PickedUnordered<T, R>(a: seq<T>, b: seq<T>, f: T -> Option<R>)
    requires multiset(a) == multiset(b)
    ensures multiset(Picked(a, f)) == multiset(Picked(b, f))
    decreases |a|
  {
    hide Picked;
    assert |multiset(a)| == |a| && |multiset(b)| == |b|;
    if a == [] {
      assert a == b;
    } else {
      assert a[0] in multiset(a);
      var i :| 0 <= i < |b| && b[i] == a[0];
      PickedTakeOut(a, 0, f);
      PickedTakeOut(b, i, f);
      PickedUnordered(a[..0] + a[1..], b[..i] + b[i + 1..], f);
    }
  }
}
