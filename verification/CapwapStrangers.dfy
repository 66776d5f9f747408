/** A fragment that is none of the pieces of a packet, but has its ID, comes in
 * between them and is rejected.
 *
 * frag_queue notes the length and the LASTFRAG flag of a fragment before it looks
 * for overlaps, so a rejected fragment can still leave a trace.
 */
module CapwapStrangers {
  import opened Options
  import opened Seqs
  import opened MachineInts
  import opened Capwap
  import opened CapwapRoundTrip

  predicate IsPacket(out: Outcome) {
    out.Reassembled? || out.TooLong?
  }

  /** The first packet that the pieces with the given numbers complete, if any. */
  function FirstPacket(q: Queue, ps: seq<Frag>, arrivals: seq<nat>): Option<Outcome>
    requires forall k | 0 <= k < |arrivals| :: arrivals[k] < |ps|
    decreases arrivals
  {
    if arrivals == [] then None
    else
      var (next, out) := Defrag(q, ps[arrivals[0]]);
      if IsPacket(out) then Some(out) else FirstPacket(next, ps, arrivals[1..])
  }

  /** A piece is offered to a queue that is not complete as it is. */
  lemma Offered(ps: seq<Frag>, payload: seq<Byte>, q: Queue, i: nat)
    requires IsFragmentation(ps, payload) && i < |ps| && !q.complete
    ensures Defrag(q, ps[i]) == Enqueue(q, ps[i])
  {
    hide IsFragmentation, Enqueue, Arrive;
    Placed(ps, payload, i);
  }

  lemma FirstStep(ps: seq<Frag>, payload: seq<Byte>, q: Queue, arrivals: seq<nat>)
    requires (forall k | 0 <= k < |arrivals| :: arrivals[k] < |ps|) && arrivals != []
    requires IsFragmentation(ps, payload) && !q.complete
    ensures var (next, out) := Enqueue(q, ps[arrivals[0]]);
            FirstPacket(q, ps, arrivals) == if IsPacket(out) then Some(out) else FirstPacket(next, ps, arrivals[1..])
  {
    hide IsFragmentation, Enqueue, Defrag, IsPacket;
    Offered(ps, payload, q, arrivals[0]);
  }

  lemma NoneFirst(q: Queue, ps: seq<Frag>)
    ensures FirstPacket(q, ps, []) == None
  {}

  lemma FirstArrived(s: set<nat>, arrivals: seq<nat>)
    ensures arrivals == [] ==> s + Arrived(arrivals) == s
    ensures arrivals != [] ==> s + Arrived(arrivals) == s + {arrivals[0]} + Arrived(arrivals[1..])
    ensures arrivals != [] && arrivals[0] in s ==> s + {arrivals[0]} == s
  {
    assert arrivals != [] ==> arrivals == [arrivals[0]] + arrivals[1..];
  }

  /** Linking a new piece gives the queue of the larger set, whatever the length and the LASTFRAG flag. */
  lemma LinkedQueue(ps: seq<Frag>, payload: seq<Byte>, s: set<nat>, q: Queue, i: nat)
    requires IsFragmentation(ps, payload) && i < |ps| && i !in s
    requires q == QueueOf(ps, s).(len := q.len, lastIn := q.lastIn)
    ensures !Overlaps(q, ps[i])
    ensures Linked(q, ps[i]) == QueueOf(ps, s + {i}).(len := q.len, lastIn := q.lastIn)
  {
    Aligned(ps, payload, i);
    NewLinked(ps, payload, s, i, q);
    hide Select, SumLen, MaxEnd, IsFragmentation, Overlaps;
  }

  // ---------------------------------------------------------------------
  // Strangers that do no harm

  /** The queue of the pieces in `s`, but that its length may be ahead of theirs. */
  ghost predicate Like(q: Queue, ps: seq<Frag>, payload: seq<Byte>, s: set<nat>) {
    q == QueueOf(ps, s).(len := q.len) && MaxEnd(ps, s, |ps|) <= q.len <= |payload|
  }

  lemma LikeItself(ps: seq<Frag>, payload: seq<Byte>, s: set<nat>)
    requires IsFragmentation(ps, payload)
    ensures Like(QueueOf(ps, s), ps, payload, s)
  {
    MaxEndBounds(ps, payload, s, |ps|);
  }

  lemma LikeReady(ps: seq<Frag>, payload: seq<Byte>, s: set<nat>, q: Queue)
    requires IsFragmentation(ps, payload) && Like(q, ps, payload, s)
    ensures Ready(q) <==> All(ps, s)
    ensures Ready(q) ==> q.len == |payload| && Concat(q.fragments) == payload
  {
    hide Select, SumLen, MaxEnd, Concat, IsCut;
    ReadyWhenAll(ps, payload, s);
    LastKnown(ps, payload, s);
  }

  lemma LikeHeader(ps: seq<Frag>, payload: seq<Byte>, s: set<nat>, q: Queue, i: nat)
    requires IsFragmentation(ps, payload) && Like(q, ps, payload, s) && i < |ps| && i !in s
    ensures HeaderOk(q, ps[i])
    ensures var n := Noted(q, ps[i]);
            n == q.(len := n.len, lastIn := |ps| - 1 in s + {i}) && MaxEnd(ps, s + {i}, |ps|) <= n.len <= |payload|
  {
    Aligned(ps, payload, i);
    LastKnown(ps, payload, s);
    MaxEndAdds(ps, payload, s, i, |ps|);
    PieceAt(ps, payload, |ps| - 1);
    hide Select, SumLen, MaxEnd, IsCut;
  }

  /** A new piece is linked, and leaves the queue like that of the larger set. */
  lemma LikeNewPiece(ps: seq<Frag>, payload: seq<Byte>, s: set<nat>, q: Queue, i: nat)
    requires IsFragmentation(ps, payload) && Like(q, ps, payload, s) && i < |ps| && i !in s
    ensures HeaderOk(q, ps[i]) && !Overlaps(Noted(q, ps[i]), ps[i])
    ensures Like(Linked(Noted(q, ps[i]), ps[i]), ps, payload, s + {i})
  {
    LikeHeader(ps, payload, s, q, i);
    LinkedQueue(ps, payload, s, Noted(q, ps[i]), i);
    hide Select, SumLen, MaxEnd, IsFragmentation, HeaderOk, Overlaps, Noted, Linked;
  }

  lemma LikeRepeat(ps: seq<Frag>, payload: seq<Byte>, s: set<nat>, q: Queue, i: nat)
    requires IsFragmentation(ps, payload) && Like(q, ps, payload, s) && i < |ps| && i in s
    ensures Enqueue(q, ps[i]) == (q, Rejected)
  {
    Aligned(ps, payload, i);
    MaxEndBounds(ps, payload, s, |ps|);
    RepeatOverlaps(ps, payload, s, i, q);
    hide Select, SumLen, MaxEnd, IsCut, Overlaps;
  }

  lemma LikeArrival(ps: seq<Frag>, payload: seq<Byte>, s: set<nat>, q: Queue, i: nat)
    requires IsFragmentation(ps, payload) && Like(q, ps, payload, s) && i < |ps|
    ensures var (next, out) := Enqueue(q, ps[i]);
            && (i in s ==> next == q && out == Rejected)
            && (i !in s && !All(ps, s + {i}) ==> Like(next, ps, payload, s + {i}) && out == Queued)
            && (i !in s && All(ps, s + {i}) ==> next.complete && out == Whole(payload))
  {
    hide Like, IsFragmentation, Enqueue, HeaderOk, Overlaps, Noted, Linked, Ready, Concat;
    if i in s {
      LikeRepeat(ps, payload, s, q, i);
    } else {
      LikeNewPiece(ps, payload, s, q, i);
      EnqueueLinks(q, ps[i]);
      LikeReady(ps, payload, s + {i}, Linked(Noted(q, ps[i]), ps[i]));
    }
  }

  /** The pieces still missing deliver the payload, in whatever order and with whatever repeats. */
  lemma {:induction false} LikeDelivers(ps: seq<Frag>, payload: seq<Byte>, s: set<nat>, q: Queue, arrivals: seq<nat>)
    requires IsFragmentation(ps, payload) && Like(q, ps, payload, s) && !All(ps, s)
    requires (forall k | 0 <= k < |arrivals| :: arrivals[k] < |ps|) && All(ps, s + Arrived(arrivals))
    ensures FirstPacket(q, ps, arrivals) == Some(Whole(payload))
    decreases arrivals
  {
    assert !q.complete;
    hide Like, IsFragmentation, Enqueue, FirstPacket, All, Arrived;
    FirstArrived(s, arrivals);
    if arrivals != [] {
      var i := arrivals[0];
      FirstStep(ps, payload, q, arrivals);
      LikeArrival(ps, payload, s, q, i);
      if i in s || !All(ps, s + {i}) {
        LikeDelivers(ps, payload, s + {i}, Enqueue(q, ps[i]).0, arrivals[1..]);
      }
    }
  }

  // ---------------------------------------------------------------------
  // Strangers that do harm

  /** The last piece is missing and can no longer come in. */
  ghost predicate Spoiled(q: Queue, ps: seq<Frag>, payload: seq<Byte>, s: set<nat>) {
    && !q.complete && |ps| - 1 !in s
    && q.fragments == Select(ps, s, 0, |ps|) && q.meat == SumLen(q.fragments)
    && (q.lastIn || q.len > |payload|)
  }

  lemma {:induction false} ConcatLength(fs: seq<Frag>)
    ensures |Concat(fs)| == SumLen(fs)
  {
    if fs != [] {
      ConcatLength(fs[1..]);
    }
  }

  /** Without the last piece there is less than the payload, and no more than a packet may hold. */
  lemma LessThanAll(ps: seq<Frag>, payload: seq<Byte>, s: set<nat>)
    requires IsFragmentation(ps, payload) && |ps| - 1 !in s
    ensures SumLen(Select(ps, s, 0, |ps|)) < |payload| && SumLen(Select(ps, s, 0, |ps|)) <= MAX_PAYLOAD
  {
    var n := |ps| - 1;
    SelectFills(ps, payload, s, 0, n);
    SelectSplits(ps, s, 0, n, |ps|);
    SelectHead(ps, s, n);
    assert Select(ps, s, 0, |ps|) == Select(ps, s, 0, n);
    assert IsPiece(ps[n], payload);
  }

  lemma SpoiledLast(ps: seq<Frag>, payload: seq<Byte>, s: set<nat>, q: Queue)
    requires IsFragmentation(ps, payload) && Spoiled(q, ps, payload, s)
    ensures Enqueue(q, ps[|ps| - 1]) == (q, Rejected)
  {
    PieceAt(ps, payload, |ps| - 1);
    hide Select, SumLen, IsCut;
  }

  lemma SpoiledRepeat(ps: seq<Frag>, payload: seq<Byte>, s: set<nat>, q: Queue, i: nat)
    requires IsFragmentation(ps, payload) && Spoiled(q, ps, payload, s) && i < |ps| - 1 && i in s
    ensures Enqueue(q, ps[i]) == (q, Rejected)
  {
    Aligned(ps, payload, i);
    RepeatOverlaps(ps, payload, s, i, q);
    hide Select, SumLen, IsCut, Overlaps;
  }

  /** A new piece is turned away, or linked in its place. */
  lemma SpoiledNew(ps: seq<Frag>, payload: seq<Byte>, s: set<nat>, q: Queue, i: nat)
    requires IsFragmentation(ps, payload) && Spoiled(q, ps, payload, s) && i < |ps| - 1 && i !in s && HeaderOk(q, ps[i])
    ensures Noted(q, ps[i]) == q && !Overlaps(q, ps[i])
    ensures Spoiled(Linked(q, ps[i]), ps, payload, s + {i})
  {
    Aligned(ps, payload, i);
    NewLinked(ps, payload, s, i, q);
    hide Select, SumLen, IsCut, Overlaps;
  }

  /** A piece leaves the last one out, or completes a packet that is not the payload. */
  lemma SpoiledArrival(ps: seq<Frag>, payload: seq<Byte>, s: set<nat>, q: Queue, i: nat) returns (t: set<nat>)
    requires IsFragmentation(ps, payload) && Spoiled(q, ps, payload, s) && i < |ps|
    ensures var (next, out) := Enqueue(q, ps[i]);
            if IsPacket(out) then out != Whole(payload) else Spoiled(next, ps, payload, t)
  {
    hide IsFragmentation, Enqueue, Overlaps, Noted, Linked, Select, SumLen, Concat;
    t := s;
    if i == |ps| - 1 {
      SpoiledLast(ps, payload, s, q);
    } else if i in s {
      SpoiledRepeat(ps, payload, s, q, i);
    } else if HeaderOk(q, ps[i]) {
      t := s + {i};
      SpoiledNew(ps, payload, s, q, i);
      EnqueueLinks(q, ps[i]);
      LessThanAll(ps, payload, t);
      ConcatLength(Select(ps, t, 0, |ps|));
    } else {
      HeaderRejects(q, ps[i]);
    }
  }

  lemma HeaderRejects(q: Queue, f: Frag)
    requires !HeaderOk(q, f)
    ensures Enqueue(q, f) == (q, Rejected)
  {}

  lemma {:induction false} SpoiledNotFirst(
      ps: seq<Frag>, payload: seq<Byte>, s: set<nat>, q: Queue, arrivals: seq<nat>)
    requires IsFragmentation(ps, payload) && Spoiled(q, ps, payload, s)
    requires forall k | 0 <= k < |arrivals| :: arrivals[k] < |ps|
    ensures FirstPacket(q, ps, arrivals) != Some(Whole(payload))
    decreases arrivals
  {
    assert !q.complete;
    hide Spoiled, IsFragmentation, Enqueue, FirstPacket;
    NoneFirst(q, ps);
    if arrivals != [] {
      FirstStep(ps, payload, q, arrivals);
      var t := SpoiledArrival(ps, payload, s, q, arrivals[0]);
      if !IsPacket(Enqueue(q, ps[arrivals[0]]).1) {
        SpoiledNotFirst(ps, payload, t, Enqueue(q, ps[arrivals[0]]).0, arrivals[1..]);
      }
    }
  }

  // ---------------------------------------------------------------------
  // What a stranger does

  /** A stranger is turned away on its flags, or claims no more than the packet has and not its end. */
  ghost predicate Harmless(q: Queue, f: Frag, payload: seq<Byte>) {
    !HeaderOk(q, f) || (!f.last && f.End() <= |payload|)
  }

  lemma StrangerLeaves(ps: seq<Frag>, payload: seq<Byte>, s: set<nat>, q: Queue, f: Frag)
    requires IsFragmentation(ps, payload) && Like(q, ps, payload, s) && Enqueue(q, f).1 == Rejected
    ensures var next := Enqueue(q, f).0;
            if Harmless(q, f, payload) then Like(next, ps, payload, s) else Spoiled(next, ps, payload, s)
  {
    hide Select, SumLen, MaxEnd, Overlaps;
    LastKnown(ps, payload, s);
  }

  /** After a rejected stranger the first packet that the pieces still missing
   * complete, in whatever order and with whatever repeats, is the payload if and
   * only if the stranger was harmless.  There may have been other, harmless ones
   * before it. */
  lemma StrangerHarm(ps: seq<Frag>, payload: seq<Byte>, s: set<nat>, q: Queue, f: Frag, arrivals: seq<nat>)
    requires IsFragmentation(ps, payload) && Like(q, ps, payload, s) && !All(ps, s) && Enqueue(q, f).1 == Rejected
    requires (forall k | 0 <= k < |arrivals| :: arrivals[k] < |ps|) && All(ps, s + Arrived(arrivals))
    ensures FirstPacket(Enqueue(q, f).0, ps, arrivals) == Some(Whole(payload)) <==> Harmless(q, f, payload)
  {
    hide Like, Spoiled, Harmless, IsFragmentation, Enqueue, FirstPacket;
    StrangerLeaves(ps, payload, s, q, f);
    if Harmless(q, f, payload) {
      LikeDelivers(ps, payload, s, Enqueue(q, f).0, arrivals);
    } else {
      SpoiledNotFirst(ps, payload, s, Enqueue(q, f).0, arrivals);
    }
  }

  // ---------------------------------------------------------------------
  // Packets cut short

  /** The queue takes the end of the first `m` pieces for the end of the packet. */
  ghost predicate CutAt(q: Queue, ps: seq<Frag>, s: set<nat>, m: nat) {
    && 0 < m < |ps| && (forall k | k in s && k < |ps| :: k < m)
    && q == QueueOf(ps, s).(len := Start(ps, m), lastIn := true)
  }

  ghost predicate Front(s: set<nat>, m: nat) {
    forall k | 0 <= k < m :: k in s
  }

  /** The pieces in the queue make up the first `m` exactly when all of these are there. */
  lemma CutReady(ps: seq<Frag>, payload: seq<Byte>, s: set<nat>, q: Queue, m: nat)
    requires IsFragmentation(ps, payload) && CutAt(q, ps, s, m)
    ensures Ready(q) <==> Front(s, m)
    ensures Start(ps, m) <= |payload| && q.len == Start(ps, m) <= MAX_PAYLOAD
    ensures Front(s, m) ==> Concat(q.fragments) == payload[..Start(ps, m)]
  {
    NoneFrom(ps, s, m);
    SelectSplits(ps, s, 0, m, |ps|);
    assert Select(ps, s, 0, |ps|) == Select(ps, s, 0, m);
    SelectFills(ps, payload, s, 0, m);
    assert IsPiece(ps[m], payload);
    if Front(s, m) {
      SelectJoins(ps, payload, s, 0, m);
    }
  }

  lemma {:induction false} NoneFrom(ps: seq<Frag>, s: set<nat>, m: nat)
    requires m <= |ps| && forall k | k in s && k < |ps| :: k < m
    ensures Select(ps, s, m, |ps|) == []
    decreases |ps| - m
  {
    if m < |ps| {
      NoneFrom(ps, s, m + 1);
    }
  }

  lemma CutNewPiece(ps: seq<Frag>, payload: seq<Byte>, s: set<nat>, q: Queue, m: nat, i: nat)
    requires IsFragmentation(ps, payload) && CutAt(q, ps, s, m) && i < m && i !in s
    ensures HeaderOk(q, ps[i]) && !Overlaps(Noted(q, ps[i]), ps[i])
    ensures CutAt(Linked(Noted(q, ps[i]), ps[i]), ps, s + {i}, m)
  {
    CutHeader(ps, payload, s, q, m, i);
    LinkedQueue(ps, payload, s, q, i);
    hide QueueOf, Start, IsFragmentation, HeaderOk, Overlaps, Noted, Linked;
  }

  lemma CutHeader(ps: seq<Frag>, payload: seq<Byte>, s: set<nat>, q: Queue, m: nat, i: nat)
    requires IsFragmentation(ps, payload) && CutAt(q, ps, s, m) && i < m
    ensures HeaderOk(q, ps[i]) && Noted(q, ps[i]) == q
  {
    Aligned(ps, payload, i);
    StartsRise(ps, payload, i, m);
    hide Select, SumLen, MaxEnd, Start, IsCut;
  }

  /** A piece that is there already, or lies behind the cut, is turned away. */
  lemma CutRejects(ps: seq<Frag>, payload: seq<Byte>, s: set<nat>, q: Queue, m: nat, i: nat)
    requires IsFragmentation(ps, payload) && CutAt(q, ps, s, m) && i < |ps| && (i in s || i >= m)
    ensures Enqueue(q, ps[i]) == (q, Rejected)
  {
    Aligned(ps, payload, i);
    PieceAt(ps, payload, i);
    if i >= m {
      StartsRise(ps, payload, m, i);
    } else {
      StartsRise(ps, payload, i, m);
      RepeatOverlaps(ps, payload, s, i, q);
    }
    hide Select, SumLen, MaxEnd, IsCut, Overlaps;
  }

  lemma CutArrival(ps: seq<Frag>, payload: seq<Byte>, s: set<nat>, q: Queue, m: nat, i: nat)
    requires IsFragmentation(ps, payload) && CutAt(q, ps, s, m) && i < |ps|
    ensures Start(ps, m) <= |payload|
    ensures var (next, out) := Enqueue(q, ps[i]);
            if i in s || i >= m then next == q && out == Rejected
            else if !Front(s + {i}, m) then CutAt(next, ps, s + {i}, m) && out == Queued
            else next.complete && out == Reassembled(payload[..Start(ps, m)])
  {
    hide CutAt, IsFragmentation, Enqueue, HeaderOk, Overlaps, Noted, Linked, Ready, Concat, Start;
    CutReady(ps, payload, s, q, m);
    if i in s || i >= m {
      CutRejects(ps, payload, s, q, m, i);
    } else {
      CutNewPiece(ps, payload, s, q, m, i);
      EnqueueLinks(q, ps[i]);
      CutReady(ps, payload, s + {i}, Linked(Noted(q, ps[i]), ps[i]), m);
    }
  }

  /** The pieces before the cut, some of which are missing, deliver the front of the payload as a packet. */
  lemma {:induction false} CutDelivers(
      ps: seq<Frag>, payload: seq<Byte>, s: set<nat>, q: Queue, m: nat, arrivals: seq<nat>)
    requires IsFragmentation(ps, payload) && CutAt(q, ps, s, m) && !Front(s, m)
    requires (forall k | 0 <= k < |arrivals| :: arrivals[k] < |ps|) && Front(s + Arrived(arrivals), m)
    ensures Start(ps, m) <= |payload| && FirstPacket(q, ps, arrivals) == Some(Reassembled(payload[..Start(ps, m)]))
    decreases arrivals
  {
    assert !q.complete;
    hide CutAt, IsFragmentation, Enqueue, FirstPacket, Start, Arrived;
    CutReady(ps, payload, s, q, m);
    FirstArrived(s, arrivals);
    if arrivals != [] {
      var i := arrivals[0];
      FirstStep(ps, payload, q, arrivals);
      CutArrival(ps, payload, s, q, m, i);
      if i in s {
        CutDelivers(ps, payload, s, q, m, arrivals[1..]);
      } else if i >= m {
        StillFront(s, i, Arrived(arrivals[1..]), m);
        CutDelivers(ps, payload, s, q, m, arrivals[1..]);
      } else if !Front(s + {i}, m) {
        CutDelivers(ps, payload, s + {i}, Enqueue(q, ps[i]).0, m, arrivals[1..]);
      }
    }
  }

  lemma StillFront(s: set<nat>, i: nat, t: set<nat>, m: nat)
    requires Front(s + {i} + t, m) && i >= m
    ensures Front(s + t, m)
  {
    forall k | 0 <= k < m ensures k in s + t {
      assert k in s + {i} + t;
    }
  }

  /** A rejected stranger that claims the end of the packet where some piece ends
   * cuts it short: once the pieces up to there are in, they come out as the first packet. */
  lemma StrangerCuts(ps: seq<Frag>, payload: seq<Byte>, s: set<nat>, q: Queue, f: Frag, m: nat, arrivals: seq<nat>)
    requires IsFragmentation(ps, payload) && Like(q, ps, payload, s) && Enqueue(q, f).1 == Rejected
    requires HeaderOk(q, f) && f.last && 0 < m < |ps| && f.End() == Start(ps, m) && !Front(s, m)
    requires (forall k | 0 <= k < |arrivals| :: arrivals[k] < |ps|) && Front(s + Arrived(arrivals), m)
    ensures f.End() <= |payload|
    ensures FirstPacket(Enqueue(q, f).0, ps, arrivals) == Some(Reassembled(payload[..f.End()]))
  {
    MaxEndBounds(ps, payload, s, |ps|);
    forall k | k in s && k < |ps| ensures k < m {
      PieceAt(ps, payload, k);
      if m <= k {
        StartsRise(ps, payload, m, k);
      }
    }
    hide Select, SumLen, MaxEnd, Start, IsCut, Overlaps, FirstPacket;
    CutDelivers(ps, payload, s, Enqueue(q, f).0, m, arrivals);
  }

  // ---------------------------------------------------------------------
  // Packets that never complete

  /** The length on record is that of no front of the pieces of which one is missing. */
  ghost predicate NoFront(len: nat, ps: seq<Frag>, s: set<nat>) {
    && (forall k | k in s && k < |ps| :: ps[k].End() <= len)
    && (forall m | 0 < m < |ps| && Start(ps, m) == len :: Front(s, m))
  }

  ghost predicate Stuck(q: Queue, ps: seq<Frag>, payload: seq<Byte>, s: set<nat>) {
    Spoiled(q, ps, payload, s) && (q.lastIn ==> NoFront(q.len, ps, s))
  }

  /** One more than the largest number of a piece in `s`. */
  lemma {:induction false} Top(s: set<nat>, n: nat) returns (m: nat)
    ensures m <= n && (forall k | k in s && k < n :: k < m) && (m > 0 ==> m - 1 in s)
  {
    if n == 0 || n - 1 in s {
      m := n;
    } else {
      m := Top(s, n - 1);
    }
  }

  /** Pieces that have the length on record are a front, and all of them are there. */
  lemma FillsFront(ps: seq<Frag>, payload: seq<Byte>, s: set<nat>, len: nat) returns (m: nat)
    requires IsFragmentation(ps, payload) && |ps| - 1 !in s && len > 0
    requires (forall k | k in s && k < |ps| :: ps[k].End() <= len) && SumLen(Select(ps, s, 0, |ps|)) == len
    ensures 0 < m < |ps| && Start(ps, m) == len && forall k | k in s && k < |ps| :: k < m
  {
    m := Top(s, |ps|);
    NoneFrom(ps, s, m);
    SelectSplits(ps, s, 0, m, |ps|);
    assert Select(ps, s, 0, |ps|) == Select(ps, s, 0, m);
    SelectFills(ps, payload, s, 0, m);
    if m > 0 {
      PieceAt(ps, payload, m - 1);
    }
  }

  /** A missing piece that fits does not make up the length. */
  lemma NeverFills(ps: seq<Frag>, payload: seq<Byte>, s: set<nat>, len: nat, i: nat)
    requires IsFragmentation(ps, payload) && NoFront(len, ps, s) && |ps| - 1 !in s
    requires i < |ps| - 1 && i !in s && 0 < ps[i].End() <= len
    ensures NoFront(len, ps, s + {i}) && SumLen(Select(ps, s + {i}, 0, |ps|)) != len
  {
    hide Select, SumLen, IsFragmentation, Start;
    var t := s + {i};
    assert i in t;
    if SumLen(Select(ps, t, 0, |ps|)) == len {
      var m := FillsFront(ps, payload, t, len);
      assert false;
    }
  }

  lemma StuckNew(ps: seq<Frag>, payload: seq<Byte>, s: set<nat>, q: Queue, i: nat)
    requires IsFragmentation(ps, payload) && Stuck(q, ps, payload, s) && i < |ps| - 1 && i !in s && HeaderOk(q, ps[i])
    ensures Stuck(Linked(q, ps[i]), ps, payload, s + {i}) && !Ready(Linked(q, ps[i]))
  {
    SpoiledNew(ps, payload, s, q, i);
    SpoiledHas(q, ps, payload, s);
    SpoiledHas(Linked(q, ps[i]), ps, payload, s + {i});
    Aligned(ps, payload, i);
    hide Select, SumLen, IsFragmentation, Spoiled, NoFront, InsertAt, Position;
    if q.lastIn {
      NeverFills(ps, payload, s, q.len, i);
    }
  }

  lemma SpoiledHas(q: Queue, ps: seq<Frag>, payload: seq<Byte>, s: set<nat>)
    requires Spoiled(q, ps, payload, s)
    ensures |ps| - 1 !in s && q.meat == SumLen(Select(ps, s, 0, |ps|))
  {}

  lemma StuckArrival(ps: seq<Frag>, payload: seq<Byte>, s: set<nat>, q: Queue, i: nat) returns (t: set<nat>)
    requires IsFragmentation(ps, payload) && Stuck(q, ps, payload, s) && i < |ps|
    ensures Stuck(Enqueue(q, ps[i]).0, ps, payload, t)
    ensures Enqueue(q, ps[i]).1 == Rejected || Enqueue(q, ps[i]).1 == Queued
  {
    hide IsFragmentation, Enqueue, Overlaps, Noted, Linked, Ready, Spoiled, NoFront;
    t := s;
    if i == |ps| - 1 {
      SpoiledLast(ps, payload, s, q);
    } else if i in s {
      SpoiledRepeat(ps, payload, s, q, i);
    } else if HeaderOk(q, ps[i]) {
      t := s + {i};
      SpoiledNew(ps, payload, s, q, i);
      StuckNew(ps, payload, s, q, i);
      EnqueueLinks(q, ps[i]);
    } else {
      HeaderRejects(q, ps[i]);
    }
  }

  lemma {:induction false} StuckNeverCompletes(
      ps: seq<Frag>, payload: seq<Byte>, s: set<nat>, q: Queue, arrivals: seq<nat>)
    requires IsFragmentation(ps, payload) && Stuck(q, ps, payload, s)
    requires forall k | 0 <= k < |arrivals| :: arrivals[k] < |ps|
    ensures FirstPacket(q, ps, arrivals) == None
    decreases arrivals
  {
    assert !q.complete;
    hide Stuck, IsFragmentation, Enqueue, FirstPacket;
    NoneFirst(q, ps);
    if arrivals != [] {
      FirstStep(ps, payload, q, arrivals);
      var t := StuckArrival(ps, payload, s, q, arrivals[0]);
      StuckNeverCompletes(ps, payload, t, Enqueue(q, ps[arrivals[0]]).0, arrivals[1..]);
    }
  }

  /** The stranger claims the end of the packet where a front of the pieces ends of which one is missing. */
  ghost predicate Cuts(ps: seq<Frag>, s: set<nat>, f: Frag) {
    f.last && exists m | 0 < m < |ps| :: Start(ps, m) == f.End() && !Front(s, m)
  }

  /** All that the pieces still missing can do after a rejected stranger, in
   * whatever order and with whatever repeats. */
  lemma AfterStranger(ps: seq<Frag>, payload: seq<Byte>, s: set<nat>, q: Queue, f: Frag, arrivals: seq<nat>)
    requires IsFragmentation(ps, payload) && Like(q, ps, payload, s) && !All(ps, s) && Enqueue(q, f).1 == Rejected
    requires (forall k | 0 <= k < |arrivals| :: arrivals[k] < |ps|) && All(ps, s + Arrived(arrivals))
    ensures !Harmless(q, f, payload) && Cuts(ps, s, f) ==> f.End() < |payload|
    ensures FirstPacket(Enqueue(q, f).0, ps, arrivals) ==
              if Harmless(q, f, payload) then Some(Whole(payload))
              else if Cuts(ps, s, f) then Some(Reassembled(payload[..f.End()]))
              else None
  {
    if Harmless(q, f, payload) {
      StrangerHarm(ps, payload, s, q, f, arrivals);
    } else if Cuts(ps, s, f) {
      hide Enqueue, FirstPacket, Like, HeaderOk;
      var m :| 0 < m < |ps| && Start(ps, m) == f.End() && !Front(s, m);
      PieceAt(ps, payload, m);
      StrangerCuts(ps, payload, s, q, f, m, arrivals);
    } else {
      HarmSticks(ps, payload, s, q, f);
      hide IsFragmentation, Enqueue, FirstPacket, Stuck;
      StuckNeverCompletes(ps, payload, s, Enqueue(q, f).0, arrivals);
    }
  }

  lemma HarmSticks(ps: seq<Frag>, payload: seq<Byte>, s: set<nat>, q: Queue, f: Frag)
    requires IsFragmentation(ps, payload) && Like(q, ps, payload, s) && Enqueue(q, f).1 == Rejected
    requires !Harmless(q, f, payload) && !Cuts(ps, s, f)
    ensures Stuck(Enqueue(q, f).0, ps, payload, s)
  {
    StrangerLeaves(ps, payload, s, q, f);
    MaxEndBounds(ps, payload, s, |ps|);
    LastKnown(ps, payload, s);
    hide Select, SumLen, MaxEnd, Start, IsCut, Overlaps, Spoiled, Front;
  }
}
