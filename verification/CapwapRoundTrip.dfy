/** The splitter of CAPWAP and the reassembly queue undo each other, in whatever
 * order and however often the pieces arrive.
 */
module CapwapRoundTrip {
  import opened Seqs
  import opened MachineInts
  import opened Capwap

  datatype Result<+T> = Ok(value: T) | Failed

  // ---------------------------------------------------------------------
  // The splitter

  /** A piece of `payload` that a receiver can place. */
  ghost predicate IsPiece(f: Frag, payload: seq<Byte>) {
    && f.data != []
    && f.End() <= |payload|
    && f.data == payload[f.offset..f.End()]
    && f.offset % 8 == 0
    && f.offset < 65536
  }

  /** Where piece `i` starts, or where all pieces end. */
  function Start(ps: seq<Frag>, i: nat): nat
    requires i <= |ps|
  {
    if i < |ps| then ps[i].offset else if i == 0 then 0 else ps[i - 1].End()
  }

  /** `ps` cuts a front part of `payload` into adjacent pieces. */
  ghost predicate IsCut(ps: seq<Frag>, payload: seq<Byte>) {
    && Start(ps, 0) == 0
    && (forall i | 0 <= i < |ps| :: IsPiece(ps[i], payload) && ps[i].End() == Start(ps, i + 1))
  }

  /** `ps` cuts all of `payload`, and the last piece says so. */
  ghost predicate IsFragmentation(ps: seq<Frag>, payload: seq<Byte>) {
    && |ps| > 0
    && IsCut(ps, payload)
    && Start(ps, |ps|) == |payload|
    && (forall i | 0 <= i < |ps| :: ps[i].last <==> i == |ps| - 1)
  }

  /** The size of the next piece, of whole 8-byte chunks unless it is the last. */
  function FragSize(remaining: nat, room: nat): (n: nat)
    requires remaining > 0 && room >= 8
    ensures 0 < n <= remaining && n <= room
    ensures n < remaining ==> n % 8 == 0 && n + 8 > room
  {
    var n := if remaining < room then remaining else room;
    if remaining > n then n / 8 * 8 else n
  }

  /** fragment(): `hlen` bytes of headers go before each piece. */
  method Fragment(payload: seq<Byte>, hlen: nat, maxFrameLen: nat) returns (r: Result<seq<Frag>>)
    ensures r.Failed? <==> hlen + 8 > maxFrameLen
    ensures r.Ok? && payload == [] ==> r.value == []
    ensures r.Ok? && payload != [] && |payload| <= MAX_PAYLOAD ==> IsFragmentation(r.value, payload)
    ensures r.Ok? ==> forall i | 0 <= i < |r.value| :: hlen + |r.value[i].data| <= maxFrameLen
  {
    hide IsCut, Start, FragSize, IsPiece, Sent;
    CutStarts(payload);
    if hlen + 8 > maxFrameLen {
      return Failed;
    }
    var remaining: nat, offset: nat := |payload|, 0;
    var ps: seq<Frag> := [];
    while remaining > 0
      invariant offset + remaining == |payload|
      invariant remaining > 0 ==> offset % 8 == 0
      invariant |payload| <= MAX_PAYLOAD ==> IsCut(ps, payload) && Start(ps, |ps|) == offset
      invariant forall i | 0 <= i < |ps| :: ps[i].last <==> i == |ps| - 1 && remaining == 0
      invariant forall i | 0 <= i < |ps| :: hlen + |ps[i].data| <= maxFrameLen
      invariant offset == 0 ==> ps == []
    {
      var fragSize := FragSize(remaining, maxFrameLen - hlen);
      var f := Sent(payload, offset, fragSize, remaining <= fragSize);
      NextChunk(offset, fragSize, remaining);
      if |payload| <= MAX_PAYLOAD {
        PieceOf(payload, offset, fragSize, remaining <= fragSize);
        CutExtends(ps, payload, f);
      }
      ps := ps + [f];
      offset := offset + fragSize;
      remaining := remaining - fragSize;
    }
    return Ok(ps);
  }

  /** The fragment sent for a part of the payload; the offset goes into a 16-bit field. */
  function Sent(payload: seq<Byte>, offset: nat, size: nat, last: bool): (f: Frag)
    requires offset + size <= |payload|
    ensures |f.data| == size && f.last == last
  {
    Frag(offset % 65536, payload[offset..offset + size], last)
  }

  lemma NextChunk(offset: nat, size: nat, remaining: nat)
    requires offset % 8 == 0 && (size < remaining ==> size % 8 == 0)
    ensures size < remaining ==> (offset + size) % 8 == 0
  {}

  lemma PieceOf(payload: seq<Byte>, offset: nat, size: nat, last: bool)
    requires offset % 8 == 0 && 0 < size && offset + size <= |payload| <= MAX_PAYLOAD
    ensures var f := Sent(payload, offset, size, last);
            IsPiece(f, payload) && f.offset == offset && f.End() == offset + size
  {}

  lemma CutStarts(payload: seq<Byte>)
    ensures IsCut([], payload) && Start([], 0) == 0
  {}

  lemma CutExtends(ps: seq<Frag>, payload: seq<Byte>, f: Frag)
    requires IsCut(ps, payload) && IsPiece(f, payload) && f.offset == Start(ps, |ps|)
    ensures IsCut(ps + [f], payload) && Start(ps + [f], |ps| + 1) == f.End()
  {
    var out := ps + [f];
    forall i | 0 <= i < |out| ensures IsPiece(out[i], payload) && out[i].End() == Start(out, i + 1) {
      assert i < |ps| ==> out[i] == ps[i];
    }
  }

  // ---------------------------------------------------------------------
  // The pieces that have arrived

  /** The pieces of `ps` from `lo` to `hi` whose number is in `s`. */
  function Select(ps: seq<Frag>, s: set<nat>, lo: nat, hi: nat): seq<Frag>
    requires lo <= hi <= |ps|
    decreases hi - lo
  {
    if lo == hi then [] else (if lo in s then [ps[lo]] else []) + Select(ps, s, lo + 1, hi)
  }

  lemma {:induction false} SelectSplits(ps: seq<Frag>, s: set<nat>, lo: nat, mid: nat, hi: nat)
    requires lo <= mid <= hi <= |ps|
    ensures Select(ps, s, lo, hi) == Select(ps, s, lo, mid) + Select(ps, s, mid, hi)
    decreases mid - lo
  {
    if lo < mid {
      SelectSplits(ps, s, lo + 1, mid, hi);
    }
  }

  lemma {:induction false} SelectOther(ps: seq<Frag>, s: set<nat>, i: nat, lo: nat, hi: nat)
    requires lo <= hi <= |ps| && !(lo <= i < hi)
    ensures Select(ps, s + {i}, lo, hi) == Select(ps, s, lo, hi)
    decreases hi - lo
  {
    if lo < hi {
      SelectOther(ps, s, i, lo + 1, hi);
    }
  }

  lemma SelectHead(ps: seq<Frag>, s: set<nat>, i: nat)
    requires i < |ps|
    ensures Select(ps, s, i, |ps|) == (if i in s then [ps[i]] else []) + Select(ps, s, i + 1, |ps|)
  {}

  /** A new arrival goes between the earlier and the later pieces. */
  lemma SelectInserts(ps: seq<Frag>, s: set<nat>, i: nat)
    requires i < |ps| && i !in s
    ensures var a, b := Select(ps, s, 0, i), Select(ps, s, i + 1, |ps|);
            Select(ps, s, 0, |ps|) == a + b && Select(ps, s + {i}, 0, |ps|) == a + [ps[i]] + b
  {
    hide Select;
    SelectSplits(ps, s, 0, i, |ps|);
    SelectSplits(ps, s + {i}, 0, i, |ps|);
    SelectOther(ps, s, i, 0, i);
    SelectOther(ps, s, i, i + 1, |ps|);
    SelectHead(ps, s, i);
    SelectHead(ps, s + {i}, i);
    var a, b := Select(ps, s, 0, i), Select(ps, s, i + 1, |ps|);
    assert a + ([] + b) == a + b;
    assert a + ([ps[i]] + b) == a + [ps[i]] + b;
  }

  lemma PieceAt(ps: seq<Frag>, payload: seq<Byte>, i: nat)
    requires IsCut(ps, payload) && i < |ps|
    ensures ps[i].data != [] && ps[i].End() <= |payload| && ps[i].data == payload[ps[i].offset..ps[i].End()]
    ensures ps[i].offset == Start(ps, i) && ps[i].End() == Start(ps, i + 1)
  {
    assert IsPiece(ps[i], payload);
  }

  lemma {:induction false} StartsRise(ps: seq<Frag>, payload: seq<Byte>, i: nat, j: nat)
    requires IsCut(ps, payload) && i <= j <= |ps|
    ensures Start(ps, i) <= Start(ps, j)
    ensures i < j ==> ps[i].End() <= Start(ps, j)
    decreases j
  {
    hide IsCut, Start;
    if i < j {
      StartsRise(ps, payload, i, j - 1);
      PieceAt(ps, payload, i);
      PieceAt(ps, payload, j - 1);
    }
  }

  /** A selected piece is one of the range. */
  lemma {:induction false} SelectedAt(ps: seq<Frag>, s: set<nat>, lo: nat, hi: nat, f: Frag) returns (k: nat)
    requires lo <= hi <= |ps| && f in Select(ps, s, lo, hi)
    ensures lo <= k < hi && k in s && ps[k] == f
    decreases hi - lo
  {
    if lo in s && f == ps[lo] {
      k := lo;
    } else {
      k := SelectedAt(ps, s, lo + 1, hi, f);
    }
  }

  /** Selected pieces lie where their range lies. */
  lemma SelectWithin(ps: seq<Frag>, payload: seq<Byte>, s: set<nat>, lo: nat, hi: nat)
    requires IsCut(ps, payload) && lo <= hi <= |ps|
    ensures forall f | f in Select(ps, s, lo, hi) :: Start(ps, lo) <= f.offset && f.End() <= Start(ps, hi)
    ensures Start(ps, lo) <= Start(ps, hi)
  {
    hide IsCut, Start, Select;
    StartsRise(ps, payload, lo, hi);
    forall f | f in Select(ps, s, lo, hi) ensures Start(ps, lo) <= f.offset && f.End() <= Start(ps, hi) {
      var k := SelectedAt(ps, s, lo, hi, f);
      PieceAt(ps, payload, k);
      StartsRise(ps, payload, lo, k);
      StartsRise(ps, payload, k, hi);
    }
  }

  /** Selected pieces lie where their range lies; their length is that of the range exactly when all are there. */
  lemma {:induction false} SelectFills(ps: seq<Frag>, payload: seq<Byte>, s: set<nat>, lo: nat, hi: nat)
    requires IsCut(ps, payload) && lo <= hi <= |ps|
    ensures forall f | f in Select(ps, s, lo, hi) :: Start(ps, lo) <= f.offset && f.End() <= Start(ps, hi)
    ensures SumLen(Select(ps, s, lo, hi)) <= Start(ps, hi) - Start(ps, lo)
    ensures SumLen(Select(ps, s, lo, hi)) == Start(ps, hi) - Start(ps, lo) <==> forall k | lo <= k < hi :: k in s
    decreases hi - lo
  {
    hide IsCut, Start, Select, SumLen;
    SelectWithin(ps, payload, s, lo, hi);
    SelectSum(ps, payload, s, lo, hi);
    hide *;
    CoversAll(s, lo, hi);
  }

  ghost predicate Covers(s: set<nat>, lo: nat, hi: nat) {
    forall k | lo <= k < hi :: k in s
  }

  lemma CoversAll(s: set<nat>, lo: nat, hi: nat)
    ensures Covers(s, lo, hi) <==> forall k | lo <= k < hi :: k in s
  {}

  lemma CoversHead(s: set<nat>, lo: nat, hi: nat)
    requires lo <= hi
    ensures lo == hi ==> Covers(s, lo, hi)
    ensures lo < hi ==> (Covers(s, lo, hi) <==> lo in s && Covers(s, lo + 1, hi))
  {}

  lemma {:induction false} SelectSum(ps: seq<Frag>, payload: seq<Byte>, s: set<nat>, lo: nat, hi: nat)
    requires IsCut(ps, payload) && lo <= hi <= |ps|
    ensures SumLen(Select(ps, s, lo, hi)) <= Start(ps, hi) - Start(ps, lo)
    ensures SumLen(Select(ps, s, lo, hi)) == Start(ps, hi) - Start(ps, lo) <==> Covers(s, lo, hi)
    decreases hi - lo
  {
    hide IsCut, Start, SumLen, Covers;
    CoversHead(s, lo, hi);
    if lo == hi {
      assert SumLen(Select(ps, s, lo, hi)) == 0 by {
        SumLenNone();
      }
    } else {
      SelectSum(ps, payload, s, lo + 1, hi);
      PieceAt(ps, payload, lo);
      var first := if lo in s then [ps[lo]] else [];
      assert Select(ps, s, lo, hi) == first + Select(ps, s, lo + 1, hi);
      hide Select;
      SumLenConcat(first, Select(ps, s, lo + 1, hi));
      SumLenOne(ps[lo]);
    }
  }

  lemma SumLenNone()
    ensures SumLen([]) == 0
  {}

  lemma SumLenOne(f: Frag)
    ensures SumLen([f]) == |f.data| && SumLen([]) == 0
  {
    assert [f][1..] == [];
  }

  lemma {:induction false} SelectJoins(ps: seq<Frag>, payload: seq<Byte>, s: set<nat>, lo: nat, hi: nat)
    requires IsCut(ps, payload) && lo <= hi <= |ps| && forall k | lo <= k < hi :: k in s
    ensures Start(ps, lo) <= Start(ps, hi)
    ensures lo < hi ==> Start(ps, hi) <= |payload|
    ensures lo < hi ==> Concat(Select(ps, s, lo, hi)) == payload[Start(ps, lo)..Start(ps, hi)]
    decreases hi - lo
  {
    hide IsCut, Start;
    StartsRise(ps, payload, lo, hi);
    if lo < hi {
      PieceAt(ps, payload, lo);
      PieceAt(ps, payload, hi - 1);
      SelectJoins(ps, payload, s, lo + 1, hi);
      var rest := Select(ps, s, lo + 1, hi);
      assert Select(ps, s, lo, hi) == [ps[lo]] + rest;
      assert ([ps[lo]] + rest)[1..] == rest;
      assert Concat([ps[lo]] + rest) == ps[lo].data + Concat(rest);
      SlicesJoin(payload, Start(ps, lo), Start(ps, lo + 1), Start(ps, hi));
    }
  }

  lemma SlicesJoin(s: seq<Byte>, a: nat, b: nat, c: nat)
    requires a <= b <= c <= |s|
    ensures s[a..b] + s[b..c] == s[a..c]
  {}

  /** The end of the last of the first `n` pieces that has arrived. */
  function MaxEnd(ps: seq<Frag>, s: set<nat>, n: nat): nat
    requires n <= |ps|
  {
    if n == 0 then 0 else if n - 1 in s then ps[n - 1].End() else MaxEnd(ps, s, n - 1)
  }

  lemma {:induction false} MaxEndBounds(ps: seq<Frag>, payload: seq<Byte>, s: set<nat>, n: nat)
    requires IsCut(ps, payload) && n <= |ps|
    ensures MaxEnd(ps, s, n) <= Start(ps, n)
    ensures forall k | 0 <= k < n && k in s :: ps[k].End() <= MaxEnd(ps, s, n)
  {
    hide IsCut, Start;
    if n > 0 {
      StartsRise(ps, payload, n - 1, n);
      MaxEndBounds(ps, payload, s, n - 1);
      forall k | 0 <= k < n && k in s ensures ps[k].End() <= MaxEnd(ps, s, n) {
        if k < n - 1 {
          StartsRise(ps, payload, k, n - 1);
          PieceAt(ps, payload, n - 1);
        }
      }
      PieceAt(ps, payload, n - 1);
    }
  }

  lemma {:induction false} MaxEndAdds(ps: seq<Frag>, payload: seq<Byte>, s: set<nat>, i: nat, n: nat)
    requires IsCut(ps, payload) && n <= |ps| && i < |ps|
    ensures i >= n ==> MaxEnd(ps, s + {i}, n) == MaxEnd(ps, s, n)
    ensures i < n ==> MaxEnd(ps, s + {i}, n) == if ps[i].End() > MaxEnd(ps, s, n) then ps[i].End() else MaxEnd(ps, s, n)
  {
    hide IsCut, Start;
    if n > 0 {
      MaxEndAdds(ps, payload, s, i, n - 1);
      MaxEndBounds(ps, payload, s, n - 1);
      PieceAt(ps, payload, n - 1);
      if i < n - 1 {
        StartsRise(ps, payload, i, n - 1);
      }
    }
  }

  /** The queue once exactly the pieces numbered in `s` have arrived. */
  function QueueOf(ps: seq<Frag>, s: set<nat>): Queue {
    var fs := Select(ps, s, 0, |ps|);
    Queue(fs, MaxEnd(ps, s, |ps|), SumLen(fs), 0 in s, |ps| - 1 in s, false)
  }

  lemma PositionSplits(a: seq<Frag>, b: seq<Frag>, offset: nat)
    requires forall f | f in a :: f.offset < offset
    requires b != [] ==> b[0].offset >= offset
    ensures Position(a + b, offset) == |a|
  {
    assert forall j | 0 <= j < |a| :: (a + b)[j] in a;
    assert b != [] ==> (a + b)[|a|] == b[0];
  }

  /** A piece that is queued overlaps itself. */
  lemma RepeatOverlaps(ps: seq<Frag>, payload: seq<Byte>, s: set<nat>, i: nat, q: Queue)
    requires IsFragmentation(ps, payload) && i < |ps| && i in s && q.fragments == Select(ps, s, 0, |ps|)
    ensures Overlaps(q, ps[i])
  {
    Aligned(ps, payload, i);
    var a, b := Select(ps, s, 0, i), Select(ps, s, i + 1, |ps|);
    SelectSplits(ps, s, 0, i, |ps|);
    SelectHead(ps, s, i);
    EarlierPieces(ps, payload, s, i);
    PositionSplits(a, [ps[i]] + b, ps[i].offset);
    assert q.fragments == a + ([ps[i]] + b);
    hide Select, Position;
  }

  /** A piece that comes again is turned away and changes nothing. */
  lemma RepeatRejected(ps: seq<Frag>, payload: seq<Byte>, s: set<nat>, i: nat)
    requires IsFragmentation(ps, payload) && i < |ps| && i in s
    ensures Enqueue(QueueOf(ps, s), ps[i]) == (QueueOf(ps, s), Rejected)
  {
    if i < |ps| - 1 {
      Aligned(ps, payload, i);
      MaxEndBounds(ps, payload, s, |ps|);
      RepeatOverlaps(ps, payload, s, i, QueueOf(ps, s));
    }
  }

  lemma Aligned(ps: seq<Frag>, payload: seq<Byte>, i: nat)
    requires IsFragmentation(ps, payload) && i < |ps|
    ensures i < |ps| - 1 ==> ps[i].End() % 8 == 0
    ensures ps[i].data != [] && ps[i].End() <= |payload|
    ensures ps[i].offset == 0 <==> i == 0
  {
    assert IsPiece(ps[i], payload);
    if i < |ps| - 1 {
      assert IsPiece(ps[i + 1], payload);
    }
    if i > 0 {
      StartsRise(ps, payload, 0, i);
      assert IsPiece(ps[0], payload);
    }
  }

  /** The pieces before piece `i` end before it starts. */
  lemma EarlierPieces(ps: seq<Frag>, payload: seq<Byte>, s: set<nat>, i: nat)
    requires IsCut(ps, payload) && i < |ps|
    ensures forall f | f in Select(ps, s, 0, i) :: f.offset < ps[i].offset && f.End() <= ps[i].offset
    ensures forall f | f in Select(ps, s, i + 1, |ps|) :: ps[i].End() <= f.offset
  {
    SelectFills(ps, payload, s, 0, i);
    SelectFills(ps, payload, s, i + 1, |ps|);
    PieceAt(ps, payload, i);
    NonEmpty(ps, payload, s, 0, i);
  }

  lemma NonEmpty(ps: seq<Frag>, payload: seq<Byte>, s: set<nat>, lo: nat, hi: nat)
    requires IsCut(ps, payload) && lo <= hi <= |ps|
    ensures forall f | f in Select(ps, s, lo, hi) :: f.data != []
  {
    hide IsCut, Select;
    forall f | f in Select(ps, s, lo, hi) ensures f.data != [] {
      var k := SelectedAt(ps, s, lo, hi, f);
      PieceAt(ps, payload, k);
    }
  }

  /** A new piece passes the checks on its flags. */
  lemma NewHeaderOk(ps: seq<Frag>, payload: seq<Byte>, s: set<nat>, i: nat)
    requires IsFragmentation(ps, payload) && i < |ps| && i !in s
    ensures HeaderOk(QueueOf(ps, s), ps[i])
    ensures Noted(QueueOf(ps, s), ps[i]) ==
            QueueOf(ps, s).(len := MaxEnd(ps, s + {i}, |ps|), lastIn := |ps| - 1 in s + {i})
  {
    Aligned(ps, payload, i);
    MaxEndBounds(ps, payload, s, |ps|);
    MaxEndAdds(ps, payload, s, i, |ps|);
    LastKnown(ps, payload, s);
    hide Select, SumLen, MaxEnd, IsCut;
  }

  /** A new piece is linked in its place. */
  lemma NewLinked(ps: seq<Frag>, payload: seq<Byte>, s: set<nat>, i: nat, q: Queue)
    requires IsFragmentation(ps, payload) && i < |ps| && i !in s
    requires q.fragments == Select(ps, s, 0, |ps|)
    ensures !Overlaps(q, ps[i])
    ensures var fs := Select(ps, s + {i}, 0, |ps|);
            && Linked(q, ps[i]).fragments == fs
            && (q.meat == SumLen(q.fragments) ==> Linked(q, ps[i]).meat == SumLen(fs))
  {
    SelectInserts(ps, s, i);
    EarlierPieces(ps, payload, s, i);
    hide Select, SumLen, IsFragmentation, Overlaps, Linked;
    LinksBetween(q, Select(ps, s, 0, i), Select(ps, s, i + 1, |ps|), ps[i]);
  }

  lemma LinksBetween(q: Queue, a: seq<Frag>, b: seq<Frag>, f: Frag)
    requires q.fragments == a + b
    requires forall x | x in a :: x.offset < f.offset && x.End() <= f.offset
    requires forall x | x in b :: f.End() <= x.offset
    ensures !Overlaps(q, f)
    ensures Linked(q, f).fragments == a + [f] + b
    ensures Linked(q, f).meat == q.meat + SumLen(a + [f] + b) - SumLen(q.fragments)
  {
    hide Position, SumLen, InsertAt;
    assert b != [] ==> b[0] in b;
    PositionSplits(a, b, f.offset);
    LinkedSum(a + b, |a|, f);
    InsertsBetween(a, b, f);
    assert b != [] ==> (a + b)[|a|] == b[0];
    assert a != [] ==> (a + b)[|a| - 1] == a[|a| - 1] && a[|a| - 1] in a;
  }

  lemma InsertsBetween(a: seq<Frag>, b: seq<Frag>, f: Frag)
    ensures InsertAt(a + b, |a|, f) == a + [f] + b
  {}

  lemma LastKnown(ps: seq<Frag>, payload: seq<Byte>, s: set<nat>)
    requires IsFragmentation(ps, payload)
    ensures |ps| - 1 in s ==> MaxEnd(ps, s, |ps|) == |payload|
  {}

  /** The queue is ready exactly when every piece is there, and then holds the payload. */
  lemma ReadyWhenAll(ps: seq<Frag>, payload: seq<Byte>, s: set<nat>)
    requires IsFragmentation(ps, payload)
    ensures Ready(QueueOf(ps, s)) <==> forall k | 0 <= k < |ps| :: k in s
    ensures Ready(QueueOf(ps, s)) ==> QueueOf(ps, s).len == |payload| && Concat(QueueOf(ps, s).fragments) == payload
  {
    SelectFills(ps, payload, s, 0, |ps|);
    LastKnown(ps, payload, s);
    if forall k | 0 <= k < |ps| :: k in s {
      SelectJoins(ps, payload, s, 0, |ps|);
      assert payload[0..|payload|] == payload;
    }
  }

  /** The arrival of one piece, when those in `s` have arrived before. */
  lemma Arrival(ps: seq<Frag>, payload: seq<Byte>, s: set<nat>, i: nat)
    requires IsFragmentation(ps, payload) && i < |ps|
    ensures var (q, out) := Enqueue(QueueOf(ps, s), ps[i]);
            && (i in s ==> q == QueueOf(ps, s) && out == Rejected)
            && (i !in s && !All(ps, s + {i}) ==> q == QueueOf(ps, s + {i}) && out == Queued)
            && (i !in s && All(ps, s + {i}) ==> q.complete && out == Whole(payload))
  {
    hide QueueOf, IsFragmentation, Enqueue, HeaderOk, Overlaps, Noted, Linked, Ready, Concat;
    if i in s {
      RepeatRejected(ps, payload, s, i);
    } else {
      NewPiece(ps, payload, s, i);
      EnqueueLinks(QueueOf(ps, s), ps[i]);
      ReadyWhenAll(ps, payload, s + {i});
    }
  }

  lemma NewPiece(ps: seq<Frag>, payload: seq<Byte>, s: set<nat>, i: nat)
    requires IsFragmentation(ps, payload) && i < |ps| && i !in s
    ensures var q := QueueOf(ps, s);
            && HeaderOk(q, ps[i]) && !Overlaps(Noted(q, ps[i]), ps[i])
            && Linked(Noted(q, ps[i]), ps[i]) == QueueOf(ps, s + {i})
  {
    NewHeaderOk(ps, payload, s, i);
    NewLinked(ps, payload, s, i, Noted(QueueOf(ps, s), ps[i]));
    Aligned(ps, payload, i);
    hide Select, SumLen, MaxEnd, IsFragmentation, HeaderOk, Overlaps, Noted;
  }

  lemma EnqueueLinks(q: Queue, f: Frag)
    requires HeaderOk(q, f) && !Overlaps(Noted(q, f), f)
    ensures var next := Linked(Noted(q, f), f);
            && (!Ready(next) ==> Enqueue(q, f) == (next, Queued))
            && (Ready(next) ==>
                  && Enqueue(q, f).0.complete
                  && Enqueue(q, f).1 == if next.len > MAX_PAYLOAD then TooLong else Reassembled(Concat(next.fragments)))
  {
    hide HeaderOk, Overlaps, Noted, Linked, Ready, Concat;
  }

  ghost predicate All(ps: seq<Frag>, s: set<nat>) {
    forall k | 0 <= k < |ps| :: k in s
  }

  /** What a complete packet gives: its payload, unless that is too long. */
  function Whole(payload: seq<Byte>): Outcome {
    if |payload| > MAX_PAYLOAD then TooLong else Reassembled(payload)
  }

  // ---------------------------------------------------------------------
  // Whole runs

  /** The low bits of the offset field are not part of the offset. */
  function Arrive(q: Queue, f: Frag): (Queue, Outcome) {
    Enqueue(q, f.(offset := f.offset / 8 * 8))
  }

  /** The queue that is found for a fragment: a complete one is no longer found, so a new one is made. */
  function Open(q: Queue): Queue {
    if q.complete then EMPTY else q
  }

  /** defrag(). */
  function Defrag(q: Queue, f: Frag): (Queue, Outcome) {
    Arrive(Open(q), f)
  }

  function DefragAll(q: Queue, fs: seq<Frag>): Queue
    decreases fs
  {
    if fs == [] then q else DefragAll(Defrag(q, fs[0]).0, fs[1..])
  }

  ghost predicate InChunks(fs: seq<Frag>) {
    forall i | 0 <= i < |fs| :: fs[i].offset % 8 == 0 && (fs[i].last || fs[i].End() % 8 == 0)
  }

  /** Whatever fragments come, the pieces held start at whole chunks of 8 bytes, and end there unless marked last. */
  lemma {:induction false} ReachableAligned(q: Queue, fs: seq<Frag>)
    requires InChunks(q.fragments)
    ensures InChunks(DefragAll(q, fs).fragments)
    decreases fs
  {
    if fs != [] {
      ArriveInChunks(Open(q), fs[0]);
      hide Arrive, InChunks;
      ReachableAligned(Defrag(q, fs[0]).0, fs[1..]);
    }
  }

  lemma ArriveInChunks(q: Queue, f: Frag)
    requires InChunks(q.fragments)
    ensures InChunks(Arrive(q, f).0.fragments)
  {
    var x := f.(offset := f.offset / 8 * 8);
    var p := Position(q.fragments, x.offset);
    InsertAligned(q.fragments, p, x);
    assert x.offset % 8 == 0;
    hide Position, Concat, Overlaps, Ready, InChunks, InsertAt;
  }

  lemma InsertAligned(fs: seq<Frag>, p: nat, x: Frag)
    requires InChunks(fs) && p <= |fs|
    ensures x.offset % 8 == 0 && (x.last || x.End() % 8 == 0) ==> InChunks(InsertAt(fs, p, x))
  {}

  /** The queue after the pieces with the given numbers arrived in that order. */
  function After(ps: seq<Frag>, arrivals: seq<nat>): Queue
    requires forall k | 0 <= k < |arrivals| :: arrivals[k] < |ps|
  {
    if arrivals == [] then EMPTY
    else
      var n := |arrivals| - 1;
      Defrag(After(ps, arrivals[..n]), ps[arrivals[n]]).0
  }

  ghost function Arrived(arrivals: seq<nat>): set<nat> {
    set i | i in arrivals
  }

  /** The pieces that have arrived since all of them had last come together. */
  ghost function Since(ps: seq<Frag>, arrivals: seq<nat>): set<nat> {
    if arrivals == [] then {}
    else
      var n := |arrivals| - 1;
      var s := Since(ps, arrivals[..n]) + {arrivals[n]};
      if All(ps, s) then {} else s
  }

  /** Until all pieces have come together for the first time, these are all that have arrived. */
  lemma {:induction false} SinceStart(ps: seq<Frag>, arrivals: seq<nat>)
    requires !All(ps, Arrived(arrivals))
    ensures Since(ps, arrivals) == Arrived(arrivals)
    decreases |arrivals|
  {
    if arrivals != [] {
      OneMoreArrived(arrivals);
      SinceStart(ps, arrivals[..|arrivals| - 1]);
    }
  }

  lemma NothingArrived(ps: seq<Frag>, payload: seq<Byte>)
    requires IsFragmentation(ps, payload)
    ensures QueueOf(ps, {}) == EMPTY && !All(ps, {})
  {
    NoneSelected(ps, 0);
    NoneEnds(ps, |ps|);
  }

  lemma {:induction false} NoneSelected(ps: seq<Frag>, lo: nat)
    requires lo <= |ps|
    ensures Select(ps, {}, lo, |ps|) == []
    decreases |ps| - lo
  {
    if lo < |ps| {
      NoneSelected(ps, lo + 1);
    }
  }

  lemma {:induction false} NoneEnds(ps: seq<Frag>, n: nat)
    requires n <= |ps|
    ensures MaxEnd(ps, {}, n) == 0
  {
    if n > 0 {
      NoneEnds(ps, n - 1);
    }
  }

  /** Whatever arrived before, in whatever order and with whatever repeats, and
   * however often all pieces have come together already: the next piece is turned
   * away exactly when it is a repeat since then, and the payload comes out byte for
   * byte exactly when it is the last one missing. */
  lemma {:induction false} RoundTrip(ps: seq<Frag>, payload: seq<Byte>, arrivals: seq<nat>, i: nat)
    requires IsFragmentation(ps, payload) && i < |ps|
    requires forall k | 0 <= k < |arrivals| :: arrivals[k] < |ps|
    ensures var s := Since(ps, arrivals);
            && Open(After(ps, arrivals)) == QueueOf(ps, s)
            && Defrag(After(ps, arrivals), ps[i]).1 ==
                 if i in s then Rejected
                 else if All(ps, s + {i}) then Whole(payload)
                 else Queued
    decreases |arrivals|
  {
    hide QueueOf, IsFragmentation, Enqueue, Arrive;
    NothingArrived(ps, payload);
    if arrivals != [] {
      var n := |arrivals| - 1;
      var s, last := Since(ps, arrivals[..n]), arrivals[n];
      RoundTrip(ps, payload, arrivals[..n], last);
      Placed(ps, payload, last);
      NeverAll(ps, payload, arrivals[..n]);
      Arrival(ps, payload, s, last);
      QueueOpen(ps, s);
      QueueOpen(ps, s + {last});
      assert last in s ==> s + {last} == s;
    }
    Placed(ps, payload, i);
    Arrival(ps, payload, Since(ps, arrivals), i);
  }

  lemma NeverAll(ps: seq<Frag>, payload: seq<Byte>, arrivals: seq<nat>)
    requires IsFragmentation(ps, payload)
    ensures !All(ps, Since(ps, arrivals))
  {
    var none: set<nat> := {};
    assert 0 !in none && !All(ps, none);
  }

  lemma QueueOpen(ps: seq<Frag>, s: set<nat>)
    ensures !QueueOf(ps, s).complete
  {}

  lemma OneMoreArrived(arrivals: seq<nat>)
    requires arrivals != []
    ensures var n := |arrivals| - 1; Arrived(arrivals) == Arrived(arrivals[..n]) + {arrivals[n]}
  {
    var n := |arrivals| - 1;
    assert arrivals == arrivals[..n] + [arrivals[n]];
  }

  /** The offset of a piece survives the masking of its field. */
  lemma Placed(ps: seq<Frag>, payload: seq<Byte>, i: nat)
    requires IsFragmentation(ps, payload) && i < |ps|
    ensures forall q :: Arrive(q, ps[i]) == Enqueue(q, ps[i])
  {
    assert IsPiece(ps[i], payload);
    assert ps[i].(offset := ps[i].offset / 8 * 8) == ps[i];
  }
}
