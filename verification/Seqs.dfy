/** Sequences: repetition, insertion and removal. */
module Seqs {

  ghost predicate Distinct<T>(s: seq<T>) {
    forall i, j | 0 <= i < j < |s| :: s[i] != s[j]
  }

  function InsertAt<T>(s: seq<T>, i: nat, x: T): (out: seq<T>)
    requires i <= |s|
    ensures |out| == |s| + 1
    ensures forall j | 0 <= j < |out| :: out[j] == if j < i then s[j] else if j == i then x else s[j - 1]
  {
    s[..i] + [x] + s[i..]
  }

  function RemoveAt<T>(s: seq<T>, k: nat): (out: seq<T>)
    requires k < |s|
    ensures |out| == |s| - 1
    ensures forall j | 0 <= j < |out| :: out[j] == s[if j < k then j else j + 1]
  {
    s[..k] + s[k + 1..]
  }

  lemma RemovedDistinct<T>(s: seq<T>, k: nat)
    requires Distinct(s) && k < |s|
    ensures Distinct(RemoveAt(s, k))
  {
    hide RemoveAt;
  }

  // ----- one member taken out, and what follows one member ---------------

  ghost function Without<T>(s: seq<T>, x: T): seq<T> {
    if s == [] then [] else (if s[0] == x then [] else [s[0]]) + Without(s[1..], x)
  }

  ghost function Following<T>(s: seq<T>, x: T): seq<T> {
    if s == [] then [] else if s[0] == x then s[1..] else Following(s[1..], x)
  }

  lemma {:induction false} WithoutConcat<T>(a: seq<T>, b: seq<T>, x: T)
    ensures Without(a + b, x) == Without(a, x) + Without(b, x)
  {
    if a == [] {
      assert a + b == b;
    } else {
      assert (a + b)[1..] == a[1..] + b;
      WithoutConcat(a[1..], b, x);
    }
  }

  lemma {:induction false} WithoutAbsent<T>(s: seq<T>, x: T)
    requires x !in s
    ensures Without(s, x) == s
  {
    if s != [] {
      WithoutAbsent(s[1..], x);
    }
  }

  /** Taking the member between `a` and `b` out. */
  lemma WithoutMiddle<T>(a: seq<T>, x: T, b: seq<T>)
    requires x !in a && x !in b
    ensures Without(a + [x] + b, x) == a + b
  {
    WithoutConcat(a + [x], b, x);
    WithoutConcat(a, [x], x);
    WithoutAbsent(a, x);
    WithoutAbsent(b, x);
    assert [x][1..] == [] && Without([x], x) == [];
    assert a + [] == a;
  }

  lemma {:induction false} FollowingMiddle<T>(a: seq<T>, x: T, b: seq<T>)
    requires x !in a
    ensures Following(a + [x] + b, x) == b
  {
    if a == [] {
      assert (a + [x] + b)[1..] == b;
    } else {
      assert (a + [x] + b)[1..] == a[1..] + [x] + b;
      FollowingMiddle(a[1..], x, b);
    }
  }

  lemma {:induction false} FollowingAmong<T>(s: seq<T>, x: T)
    ensures |Following(s, x)| <= |s| && (x in s ==> |Following(s, x)| < |s|)
    ensures forall y | y in Following(s, x) :: y in s
    ensures Distinct(s) ==> x !in Following(s, x)
  {
    if s != [] && s[0] != x {
      FollowingAmong(s[1..], x);
    }
  }

  /** What follows a member that follows `x` follows `x`. */
  lemma {:induction false} FollowingLess<T>(s: seq<T>, x: T, y: T)
    requires Distinct(s) && y in Following(s, x)
    ensures |Following(s, y)| < |Following(s, x)|
    ensures forall z | z in Following(s, y) :: z in Following(s, x)
  {
    var t := s[1..];
    FollowingAmong(t, x);
    FollowingAmong(t, y);
    assert y in t && y != s[0] && Distinct(t);
    assert Following(s, y) == Following(t, y);
    if s[0] != x {
      hide Distinct;
      FollowingLess(t, x, y);
    }
  }

  /** Taking `x` out does not change what follows a member behind it. */
  lemma {:induction false} FollowingWithout<T>(s: seq<T>, x: T, y: T)
    requires Distinct(s) && y in Following(s, x)
    ensures Following(Without(s, x), y) == Following(s, y)
  {
    var t := s[1..];
    FollowingAmong(t, x);
    assert y in t && y != s[0] && Distinct(t);
    assert Following(s, y) == Following(t, y);
    if s[0] == x {
      assert x !in t;
      WithoutAbsent(t, x);
      assert [] + t == t && Without(s, x) == t;
    } else {
      var w := Without(t, x);
      assert Without(s, x) == [s[0]] + w && ([s[0]] + w)[1..] == w;
      assert Following([s[0]] + w, y) == Following(w, y);
      hide *;
      FollowingWithout(t, x, y);
    }
  }

  lemma DistinctConcat<T>(a: seq<T>, b: seq<T>)
    requires Distinct(a) && Distinct(b) && forall x | x in a :: x !in b
    ensures Distinct(a + b)
  {
    forall i, j | 0 <= i < j < |a + b| ensures (a + b)[i] != (a + b)[j] {
      if i < |a| <= j {
        assert a[i] in a && b[j - |a|] in b;
      }
    }
  }
}
