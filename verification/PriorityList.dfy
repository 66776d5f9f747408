/** Lists without repetition, kept in falling order of a priority. */
module PriorityList {
  import opened Seqs

  /** `s` lists each member of `keys` once. */
  ghost predicate Lists<T>(s: seq<T>, keys: set<T>) {
    && (forall i, j | 0 <= i < j < |s| :: s[i] != s[j])
    && (forall x | x in s :: x in keys)
    && (forall x | x in keys :: x in s)
  }

  ghost predicate Ordered<T>(p: map<T, nat>, a: T, b: T) {
    a in p && b in p && p[a] >= p[b]
  }

  ghost predicate Falling<T>(s: seq<T>, p: map<T, nat>) {
    forall i, j | 0 <= i < j < |s| :: Ordered(p, s[i], s[j])
  }

  /** Falling, except that `m` may belong earlier. */
  ghost predicate FallingButEarlier<T>(s: seq<T>, p: map<T, nat>, m: T) {
    forall i, j | 0 <= i < j < |s| && s[j] != m :: Ordered(p, s[i], s[j])
  }

  /** Falling, except that `m` may belong later. */
  ghost predicate FallingButLater<T>(s: seq<T>, p: map<T, nat>, m: T) {
    forall i, j | 0 <= i < j < |s| && s[i] != m :: Ordered(p, s[i], s[j])
  }

  lemma WithoutLists<T>(s: seq<T>, k: nat, keys: set<T>)
    requires Lists(s, keys) && k < |s|
    ensures Lists(RemoveAt(s, k), keys - {s[k]})
  {
    var out := RemoveAt(s, k);
    forall x | x in keys - {s[k]} ensures x in out {
      var j :| 0 <= j < |s| && s[j] == x;
      assert x == out[if j < k then j else j - 1];
    }
  }

  lemma WithLists<T>(s: seq<T>, i: nat, m: T, keys: set<T>)
    requires Lists(s, keys - {m}) && m in keys && i <= |s|
    ensures Lists(InsertAt(s, i, m), keys)
  {
    var out := InsertAt(s, i, m);
    assert out[i] == m;
    forall x | x in out ensures x in keys {
      var j :| 0 <= j < |out| && out[j] == x;
      assert j == i || x in s;
    }
    forall x | x in keys && x != m ensures x in out {
      assert x in keys - {m};
      var j :| 0 <= j < |s| && s[j] == x;
      assert x == out[if j < i then j else j + 1];
    }
  }

  lemma WithoutFalling<T>(s: seq<T>, k: nat, p: map<T, nat>)
    requires Lists(s, p.Keys) && k < |s| && (FallingButEarlier(s, p, s[k]) || FallingButLater(s, p, s[k]))
    ensures Falling(RemoveAt(s, k), p)
  {}

  lemma WithFalling<T>(s: seq<T>, i: nat, m: T, p: map<T, nat>)
    requires Falling(s, p) && i <= |s|
    requires i > 0 ==> Ordered(p, s[i - 1], m)
    requires i < |s| ==> Ordered(p, m, s[i])
    ensures Falling(InsertAt(s, i, m), p)
  {
    var out := InsertAt(s, i, m);
    forall j | 0 <= j < i ensures Ordered(p, s[j], m) {
      assert j < i - 1 ==> Ordered(p, s[j], s[i - 1]);
    }
    forall j | i <= j < |s| ensures Ordered(p, m, s[j]) {
      assert i < j ==> Ordered(p, s[i], s[j]);
    }
  }

  /** Taking the member at `k` out and putting it back where `i` is among the others. */
  lemma Reinserted<T>(s: seq<T>, p: map<T, nat>, k: nat, i: nat)
    requires Lists(s, p.Keys) && k < |s| && i < |s| && (FallingButEarlier(s, p, s[k]) || FallingButLater(s, p, s[k]))
    requires i > 0 ==> Ordered(p, RemoveAt(s, k)[i - 1], s[k])
    requires i < |s| - 1 ==> Ordered(p, s[k], RemoveAt(s, k)[i])
    ensures var out := InsertAt(RemoveAt(s, k), i, s[k]); Lists(out, p.Keys) && Falling(out, p)
  {
    WithoutLists(s, k, p.Keys);
    WithoutFalling(s, k, p);
    assert s[k] in p.Keys;
    hide Lists, Falling;
    WithLists(RemoveAt(s, k), i, s[k], p.Keys);
    WithFalling(RemoveAt(s, k), i, s[k], p);
  }

  lemma EarlierSlices<T>(s: seq<T>, i: nat, k: nat)
    requires i <= k < |s|
    ensures s[..i] + [s[k]] + s[i..k] + s[k + 1..] == InsertAt(RemoveAt(s, k), i, s[k])
  {
    var r := RemoveAt(s, k);
    assert r[..i] == s[..i];
    assert r[i..] == s[i..k] + s[k + 1..];
  }

  lemma LaterSlices<T>(s: seq<T>, k: nat, i: nat)
    requires k < i <= |s|
    ensures s[..k] + s[k + 1..i] + [s[k]] + s[i..] == InsertAt(RemoveAt(s, k), i - 1, s[k])
  {
    var r := RemoveAt(s, k);
    assert r[..i - 1] == s[..k] + s[k + 1..i];
    assert r[i - 1..] == s[i..];
  }

  lemma Neighbours<T>(s: seq<T>, p: map<T, nat>, k: nat)
    requires Lists(s, p.Keys) && k < |s|
    ensures FallingButEarlier(s, p, s[k]) && k < |s| - 1 ==> Ordered(p, s[k], s[k + 1])
    ensures FallingButLater(s, p, s[k]) && k > 0 ==> Ordered(p, s[k - 1], s[k])
  {}

  /** The member at `k` moves to `i`, which is not after `k`. */
  lemma MovedEarlier<T>(s: seq<T>, p: map<T, nat>, i: nat, k: nat)
    requires Lists(s, p.Keys) && i <= k < |s| && FallingButEarlier(s, p, s[k])
    requires i > 0 ==> Ordered(p, s[i - 1], s[k])
    requires i < k ==> Ordered(p, s[k], s[i])
    ensures var out := s[..i] + [s[k]] + s[i..k] + s[k + 1..]; Lists(out, p.Keys) && Falling(out, p)
  {
    hide *;
    Neighbours(s, p, k);
    Reinserted(s, p, k, i);
    EarlierSlices(s, i, k);
  }

  /** The member at `k` moves just before what is at `i`, which is after `k`. */
  lemma MovedLater<T>(s: seq<T>, p: map<T, nat>, k: nat, i: nat)
    requires Lists(s, p.Keys) && k < i <= |s| && FallingButLater(s, p, s[k])
    requires i > k + 1 ==> Ordered(p, s[i - 1], s[k])
    requires i < |s| ==> Ordered(p, s[k], s[i])
    ensures var out := s[..k] + s[k + 1..i] + [s[k]] + s[i..]; Lists(out, p.Keys) && Falling(out, p)
  {
    hide *;
    Neighbours(s, p, k);
    assert i > 1 ==> RemoveAt(s, k)[i - 2] == s[if i == k + 1 then k - 1 else i - 1];
    Reinserted(s, p, k, i - 1);
    LaterSlices(s, k, i);
  }

  /** An order when the priority of `m` becomes `v`. */
  lemma Repriced<T>(s: seq<T>, p: map<T, nat>, m: T, v: nat)
    requires Falling(s, p) && m in p
    ensures v == p[m] ==> Falling(s, p[m := v])
    ensures v >= p[m] ==> FallingButEarlier(s, p[m := v], m)
    ensures v <= p[m] ==> FallingButLater(s, p[m := v], m)
  {
    forall i, j | 0 <= i < j < |s| ensures Ordered(p, s[i], s[j]) {}
  }

  lemma AppendedLists<T>(s: seq<T>, keys: set<T>, m: T)
    requires Lists(s, keys) && m !in keys
    ensures Lists(s + [m], keys + {m})
  {
    assert (s + [m])[|s|] == m;
  }

  /** Appending a new member of the lowest priority. */
  lemma Appended<T>(s: seq<T>, p: map<T, nat>, m: T)
    requires Lists(s, p.Keys) && m !in p
    ensures Lists(s + [m], p.Keys + {m})
    ensures Falling(s, p) ==> Falling(s + [m], p[m := 0])
  {
    AppendedLists(s, p.Keys, m);
    var out := s + [m];
    if Falling(s, p) {
      forall i, j | 0 <= i < j < |out| ensures Ordered(p[m := 0], out[i], out[j]) {
        assert out[i] in s;
        assert j < |s| ==> Ordered(p, s[i], s[j]);
      }
    }
  }

  lemma Dropped<T>(s: seq<T>, p: map<T, nat>, k: nat)
    requires Lists(s, p.Keys) && k < |s|
    ensures Lists(s[..k] + s[k + 1..], p.Keys - {s[k]})
    ensures FallingButLater(s, p, s[k]) ==> Falling(s[..k] + s[k + 1..], p - {s[k]})
  {
    WithoutLists(s, k, p.Keys);
    if FallingButLater(s, p, s[k]) {
      var out := RemoveAt(s, k);
      WithoutFalling(s, k, p);
      forall i, j | 0 <= i < j < |out| ensures Ordered(p - {s[k]}, out[i], out[j]) {
        assert Ordered(p, out[i], out[j]);
      }
    }
  }
}
