/** CAPWAP fragmentation and reassembly (ovs/datapath/vport-capwap.c), as in
 * section 3.4 of RFC 5415.
 */
module Capwap {
  import opened Seqs
  import opened MachineInts

  const MAX_PAYLOAD := 65535

  /** A fragment: a piece of payload, where it starts, and the LASTFRAG flag. */
  datatype Frag = Frag(offset: nat, data: seq<Byte>, last: bool)
  {
    function End(): nat { offset + |data| }
  }

  /** What becomes of a fragment: frag_queue frees it, keeps it, or completes the packet. */
  datatype Outcome = Rejected | Queued | Reassembled(payload: seq<Byte>) | TooLong

  /** struct inet_frag_queue. */
  datatype Queue = Queue(fragments: seq<Frag>, len: nat, meat: nat, firstIn: bool, lastIn: bool, complete: bool)

  const EMPTY := Queue([], 0, 0, false, false, false)

  function SumLen(fs: seq<Frag>): nat {
    if fs == [] then 0 else |fs[0].data| + SumLen(fs[1..])
  }

  function Concat(fs: seq<Frag>): seq<Byte> {
    if fs == [] then [] else fs[0].data + Concat(fs[1..])
  }

  /** Where a fragment that starts at `offset` belongs. */
  function Position(fs: seq<Frag>, offset: nat): (p: nat)
    ensures p <= |fs|
    ensures forall j | 0 <= j < p :: fs[j].offset < offset
    ensures p < |fs| ==> fs[p].offset >= offset
  {
    if fs == [] || fs[0].offset >= offset then 0 else 1 + Position(fs[1..], offset)
  }

  /** The checks of flags, alignment and total length. */
  predicate HeaderOk(q: Queue, f: Frag) {
    && !q.complete
    && f.data != []
    && (f.last ==> f.End() >= q.len && !q.lastIn)
    && (!f.last ==> f.End() % 8 == 0 && (f.End() > q.len ==> !q.lastIn))
  }

  /** The queue once the flags and the total length are recorded. */
  function Noted(q: Queue, f: Frag): Queue {
    q.(len := if f.last || f.End() > q.len then f.End() else q.len, lastIn := q.lastIn || f.last)
  }

  /** Does `f` overlap one of its neighbours-to-be? */
  predicate Overlaps(q: Queue, f: Frag) {
    var p := Position(q.fragments, f.offset);
    || (p > 0 && q.fragments[p - 1].End() > f.offset)
    || (p < |q.fragments| && f.End() > q.fragments[p].offset)
  }

  function Linked(q: Queue, f: Frag): Queue {
    var p := Position(q.fragments, f.offset);
    q.(fragments := InsertAt(q.fragments, p, f),
       meat := q.meat + |f.data|,
       firstIn := q.firstIn || f.offset == 0)
  }

  predicate Ready(q: Queue) {
    q.firstIn && q.lastIn && q.meat == q.len
  }

  /** frag_queue, on values. */
  function Enqueue(q: Queue, f: Frag): (Queue, Outcome) {
    if !HeaderOk(q, f) then (q, Rejected)
    else if Overlaps(Noted(q, f), f) then (Noted(q, f), Rejected)
    else
      var next := Linked(Noted(q, f), f);
      if !Ready(next) then (next, Queued)
      else if next.len > MAX_PAYLOAD then (next.(complete := true), TooLong)
      else (next.(complete := true, fragments := []), Reassembled(Concat(next.fragments)))
  }

  class FragQueue {
    var fragments: seq<Frag>
    var len: nat
    var meat: nat
    var firstIn: bool
    var lastIn: bool
    var complete: bool

    function Value(): Queue
      reads this
    {
      Queue(fragments, len, meat, firstIn, lastIn, complete)
    }

    constructor ()
      ensures Value() == EMPTY
    {
      fragments, len, meat, firstIn, lastIn, complete := [], 0, 0, false, false, false;
    }

    method FindPosition(offset: nat) returns (p: nat)
      ensures p == Position(fragments, offset)
    {
      p := 0;
      while p < |fragments| && fragments[p].offset < offset
        invariant 0 <= p <= |fragments|
        invariant Position(fragments, offset) == p + Position(fragments[p..], offset)
      {
        p := p + 1;
      }
    }

    /** The first half of frag_queue: the flags and the total length. */
    method NoteHeader(f: Frag) returns (ok: bool)
      modifies this
      ensures ok == HeaderOk(old(Value()), f)
      ensures Value() == if ok then Noted(old(Value()), f) else old(Value())
    {
      if complete || f.data == [] {
        return false;
      }
      var end := f.offset + |f.data|;
      if f.last {
        if end < len || lastIn {
          return false;
        }
        lastIn := true;
        len := end;
      } else {
        if end % 8 != 0 {
          return false;
        }
        if end > len {
          if lastIn {
            return false;
          }
          len := end;
        }
      }
      return true;
    }

    /** frag_queue. */
    method Add(f: Frag) returns (out: Outcome)
      modifies this
      ensures (Value(), out) == Enqueue(old(Value()), f)
    {
      hide Position, HeaderOk, Noted, InsertAt, Concat;
      var ok := NoteHeader(f);
      if !ok {
        return Rejected;
      }
      var p := FindPosition(f.offset);
      if p > 0 && fragments[p - 1].offset + |fragments[p - 1].data| > f.offset {
        return Rejected;
      }
      if p < |fragments| && f.offset + |f.data| > fragments[p].offset {
        return Rejected;
      }
      fragments := InsertAt(fragments, p, f);
      meat := meat + |f.data|;
      if f.offset == 0 {
        firstIn := true;
      }
      if firstIn && lastIn && meat == len {
        out := Reassemble();
      } else {
        out := Queued;
      }
    }

    /** frag_reasm. */
    method Reassemble() returns (out: Outcome)
      modifies this`complete, this`fragments
      ensures complete
      ensures len > MAX_PAYLOAD ==> out == TooLong && fragments == old(fragments)
      ensures len <= MAX_PAYLOAD ==> out == Reassembled(Concat(old(fragments))) && fragments == []
    {
      complete := true;
      if len > MAX_PAYLOAD {
        return TooLong;
      }
      var payload := [];
      var i := 0;
      while i < |fragments|
        invariant 0 <= i <= |fragments|
        invariant payload + Concat(fragments[i..]) == Concat(fragments)
      {
        payload := payload + fragments[i].data;
        i := i + 1;
      }
      fragments := [];
      return Reassembled(payload);
    }
  }

  // ---------------------------------------------------------------------
  // Any fragments at all

  /** The pieces are not empty, in order and do not overlap. */
  ghost predicate Apart(fs: seq<Frag>) {
    && (forall i | 0 <= i < |fs| :: fs[i].data != [])
    && (forall i, j | 0 <= i < j < |fs| :: fs[i].End() <= fs[j].offset)
  }

  /** What every queue that is not complete keeps. */
  ghost predicate Sound(q: Queue) {
    && Apart(q.fragments)
    && (forall i | 0 <= i < |q.fragments| :: q.fragments[i].End() <= q.len)
    && q.meat == SumLen(q.fragments)
    && (q.firstIn <==> |q.fragments| > 0 && q.fragments[0].offset == 0)
  }

  /** The pieces cover [start, end) without a gap. */
  ghost predicate Tiles(fs: seq<Frag>, start: nat, end: nat) {
    if fs == [] then start == end
    else fs[0].offset == start && Tiles(fs[1..], fs[0].End(), end)
  }

  lemma {:induction false} SumLenConcat(a: seq<Frag>, b: seq<Frag>)
    ensures SumLen(a + b) == SumLen(a) + SumLen(b)
  {
    if a == [] {
      assert a + b == b;
    } else {
      assert (a + b)[1..] == a[1..] + b;
      SumLenConcat(a[1..], b);
    }
  }

  /** Pieces apart within [start, end) have at most its length, and exactly that when they tile it. */
  lemma {:induction false} TilesByLength(fs: seq<Frag>, start: nat, end: nat)
    requires Apart(fs) && start <= end && forall i | 0 <= i < |fs| :: start <= fs[i].offset && fs[i].End() <= end
    ensures SumLen(fs) <= end - start
    ensures SumLen(fs) == end - start <==> Tiles(fs, start, end)
  {
    if fs != [] {
      TilesByLength(fs[1..], fs[0].End(), end);
    }
  }

  /** frag_queue keeps the queue sound whatever arrives. */
  lemma EnqueueSound(q: Queue, f: Frag)
    requires q.complete || Sound(q)
    ensures var q' := Enqueue(q, f).0; q'.complete || Sound(q')
  {
    if HeaderOk(q, f) {
      NotedSound(q, f);
      if !Overlaps(Noted(q, f), f) {
        LinkedSound(Noted(q, f), f);
      }
    }
  }

  lemma NotedSound(q: Queue, f: Frag)
    requires Sound(q) && HeaderOk(q, f)
    ensures Sound(Noted(q, f)) && f.End() <= Noted(q, f).len
  {}

  lemma LinkedSound(q: Queue, f: Frag)
    requires Sound(q) && f.data != [] && f.End() <= q.len && !Overlaps(q, f)
    ensures Sound(Linked(q, f))
  {
    var p := Position(q.fragments, f.offset);
    LinkedApart(q.fragments, p, f);
    LinkedSum(q.fragments, p, f);
    hide Apart, SumLen, Position;
  }

  lemma LinkedSum(fs: seq<Frag>, p: nat, f: Frag)
    requires p <= |fs|
    ensures SumLen(InsertAt(fs, p, f)) == SumLen(fs) + |f.data|
  {
    assert fs == fs[..p] + fs[p..];
    SumLenConcat(fs[..p], fs[p..]);
    SumLenConcat(fs[..p], [f]);
    SumLenConcat(fs[..p] + [f], fs[p..]);
  }

  lemma LinkedApart(fs: seq<Frag>, p: nat, f: Frag)
    requires Apart(fs) && p <= |fs| && f.data != []
    requires p > 0 ==> fs[p - 1].End() <= f.offset
    requires p < |fs| ==> f.End() <= fs[p].offset
    ensures Apart(InsertAt(fs, p, f))
  {
    var out := InsertAt(fs, p, f);
    forall j | 0 <= j < p ensures fs[j].End() <= f.offset {
      assert j < p - 1 ==> fs[j].End() <= fs[p - 1].offset;
    }
    forall j | p <= j < |fs| ensures f.End() <= fs[j].offset {
      assert p < j ==> fs[p].End() <= fs[j].offset;
    }
    hide InsertAt;
  }

  /** Reassembly is triggered exactly when, with the accepted fragment, the last
   * fragment is known and the pieces tile [0, len). */
  lemma TriggeredByTiling(q: Queue, f: Frag)
    requires Sound(q) && HeaderOk(q, f) && !Overlaps(Noted(q, f), f)
    ensures var next := Linked(Noted(q, f), f);
            && (Enqueue(q, f).1 != Queued <==> next.lastIn && Tiles(next.fragments, 0, next.len))
            && (Enqueue(q, f).1 == TooLong <==> Enqueue(q, f).1 != Queued && next.len > 65535)
  {
    var next := Linked(Noted(q, f), f);
    NotedSound(q, f);
    LinkedSound(Noted(q, f), f);
    TilesByLength(next.fragments, 0, next.len);
    assert next.fragments != [];
  }

  /** Data that begin at `start` hold the bytes of `x` in their place. */
  ghost predicate HoldsAt(data: seq<Byte>, start: nat, x: Frag) {
    start <= x.offset && x.End() - start <= |data| && data[x.offset - start..x.End() - start] == x.data
  }

  lemma HoldsAfter(a: seq<Byte>, b: seq<Byte>, start: nat, x: Frag)
    requires HoldsAt(b, start + |a|, x)
    ensures HoldsAt(a + b, start, x)
  {
    assert (a + b)[x.offset - start..x.End() - start] == b[x.offset - start - |a|..x.End() - start - |a|];
  }

  lemma HoldsFirst(x: Frag, b: seq<Byte>)
    ensures HoldsAt(x.data + b, x.offset, x)
  {
    assert (x.data + b)[0..|x.data|] == x.data;
  }

  /** Pieces that tile [start, end) join to data that hold each of them. */
  lemma {:induction false} TilesConcat(fs: seq<Frag>, start: nat, end: nat)
    requires Tiles(fs, start, end)
    ensures start <= end && |Concat(fs)| == end - start
    ensures forall i | 0 <= i < |fs| :: HoldsAt(Concat(fs), start, fs[i])
  {
    if fs != [] {
      var first, rest := fs[0], fs[1..];
      TilesConcat(rest, first.End(), end);
      assert Concat(fs) == first.data + Concat(rest) && first.offset == start;
      hide Concat, Tiles, HoldsAt;
      forall i | 0 <= i < |fs| ensures HoldsAt(Concat(fs), start, fs[i]) {
        if i == 0 {
          HoldsFirst(first, Concat(rest));
        } else {
          assert fs[i] == rest[i - 1];
          HoldsAfter(first.data, Concat(rest), start, rest[i - 1]);
        }
      }
    }
  }

  /** Whatever fragments came, a reassembled packet has the recorded length and
   * holds the bytes of every piece in their place. */
  lemma ReassembledHolds(q: Queue, f: Frag)
    requires Sound(q) && Enqueue(q, f).1.Reassembled?
    ensures var p, next := Enqueue(q, f).1.payload, Linked(Noted(q, f), f);
            && |p| == next.len && f in next.fragments
            && (forall x | x in q.fragments :: x in next.fragments)
            && (forall i | 0 <= i < |next.fragments| :: HoldsAt(p, 0, next.fragments[i]))
  {
    hide Position, Tiles, Concat, SumLen, Sound, InsertAt, HeaderOk, Overlaps, HoldsAt;
    var next := Linked(Noted(q, f), f);
    Inserts(q.fragments, Position(q.fragments, f.offset), f);
    TriggeredByTiling(q, f);
    TilesConcat(next.fragments, 0, next.len);
  }

  lemma Inserts(fs: seq<Frag>, p: nat, f: Frag)
    requires p <= |fs|
    ensures f in InsertAt(fs, p, f) && forall x | x in fs :: x in InsertAt(fs, p, f)
  {
    var out := InsertAt(fs, p, f);
    assert out[p] == f;
    forall x | x in fs ensures x in out {
      var i :| 0 <= i < |fs| && fs[i] == x;
      assert out[if i < p then i else i + 1] == x;
    }
  }

  function EnqueueAll(q: Queue, fs: seq<Frag>): Queue
    decreases fs
  {
    if fs == [] then q else EnqueueAll(Enqueue(q, fs[0]).0, fs[1..])
  }

  /** Every queue reached from the empty one is complete or sound. */
  lemma {:induction false} ReachableSound(q: Queue, fs: seq<Frag>)
    requires q.complete || Sound(q)
    ensures var q' := EnqueueAll(q, fs); q'.complete || Sound(q')
    decreases fs
  {
    if fs != [] {
      EnqueueSound(q, fs[0]);
      ReachableSound(Enqueue(q, fs[0]).0, fs[1..]);
    }
  }

  /** A fragment is accepted exactly if it has data, is aligned or marked last, agrees with what is known of the
   * end of the packet, and shares no byte with any piece held: looking at its two neighbours suffices. */
  lemma AcceptedExactly(q: Queue, f: Frag)
    requires Sound(q) && !q.complete
    ensures Enqueue(q, f).1 != Rejected <==>
            && f.data != []
            && (if f.last then !q.lastIn && q.len <= f.End()
                else f.End() % 8 == 0 && (q.lastIn ==> f.End() <= q.len))
            && forall i | 0 <= i < |q.fragments| ::
                 q.fragments[i].End() <= f.offset || f.End() <= q.fragments[i].offset
  {
    hide SumLen, Overlaps, Linked, Ready, Concat;
    if f.data != [] {
      OverlapsSome(Noted(q, f), f);
    }
  }

  lemma OverlapsSome(q: Queue, f: Frag)
    requires Apart(q.fragments) && f.data != []
    ensures !Overlaps(q, f) <==>
            forall i | 0 <= i < |q.fragments| ::
              q.fragments[i].End() <= f.offset || f.End() <= q.fragments[i].offset
  {
    hide Apart;
    NeighboursSuffice(q.fragments, Position(q.fragments, f.offset), f);
  }

  lemma NeighboursSuffice(fs: seq<Frag>, p: nat, f: Frag)
    requires Apart(fs) && f.data != [] && p <= |fs|
    requires (forall j | 0 <= j < p :: fs[j].offset < f.offset) && (p < |fs| ==> fs[p].offset >= f.offset)
    ensures (p == 0 || fs[p - 1].End() <= f.offset) && (p == |fs| || f.End() <= fs[p].offset) <==>
            forall i | 0 <= i < |fs| :: fs[i].End() <= f.offset || f.End() <= fs[i].offset
  {
    if (p == 0 || fs[p - 1].End() <= f.offset) && (p == |fs| || f.End() <= fs[p].offset) {
      forall i | 0 <= i < |fs| ensures fs[i].End() <= f.offset || f.End() <= fs[i].offset {
        assert i < p - 1 ==> fs[i].End() <= fs[p - 1].offset;
        assert i > p ==> fs[p].End() <= fs[i].offset;
      }
    }
  }

  /** A rejected fragment leaves the queue as it was exactly when it is turned
   * away on its flags, or has nothing to add to the length and the flags. */
  lemma RejectedUnchanged(q: Queue, f: Frag)
    requires Enqueue(q, f).1 == Rejected
    ensures Enqueue(q, f).0 == q <==> !HeaderOk(q, f) || (!f.last && f.End() <= q.len)
  {}

  /** A rejected fragment after which the last piece is turned away. */
  lemma RejectedBlocks()
    ensures var a, b, c := Frag(0, [0, 0, 0, 0, 0, 0, 0, 0], false), Frag(0, [1, 1, 1, 1, 1, 1, 1, 1, 1], true),
                           Frag(8, [0], true);
            && Enqueue(EnqueueAll(EMPTY, [a]), b).1 == Rejected
            && Enqueue(EnqueueAll(EMPTY, [a]), c).1 == Reassembled(a.data + c.data)
            && Enqueue(EnqueueAll(EMPTY, [a, b]), c).1 == Rejected
  {
    var a, b, c := Frag(0, [0, 0, 0, 0, 0, 0, 0, 0], false), Frag(0, [1, 1, 1, 1, 1, 1, 1, 1, 1], true),
                   Frag(8, [0], true);
    var q1 := Queue([a], 8, 8, true, false, false);
    assert Linked(Noted(EMPTY, a), a) == q1;
    assert Enqueue(EMPTY, a) == (q1, Queued);
    assert EnqueueAll(EMPTY, [a]) == q1;
    assert Position([a], 0) == 0;
    assert Enqueue(q1, b) == (q1.(len := 9, lastIn := true), Rejected);
    assert [a, b][1..] == [b];
    assert EnqueueAll(EMPTY, [a, b]) == EnqueueAll(q1, [b]) == q1.(len := 9, lastIn := true);
    assert Position([a], 8) == 1;
    TwoJoined(a, c);
  }

  /** A rejected fragment after which two pieces of three are taken for the packet. */
  lemma RejectedCuts()
    ensures var a, b, f := Frag(0, [0, 0, 0, 0, 0, 0, 0, 0], false), Frag(8, [1, 1, 1, 1, 1, 1, 1, 1], false),
                           Frag(8, [2, 2, 2, 2, 2, 2, 2, 2], true);
            && Enqueue(EnqueueAll(EMPTY, [b]), f).1 == Rejected
            && Enqueue(EnqueueAll(EMPTY, [b]), a).1 == Queued
            && Enqueue(EnqueueAll(EMPTY, [b, f]), a).1 == Reassembled(a.data + b.data)
  {
    var a, b, f := Frag(0, [0, 0, 0, 0, 0, 0, 0, 0], false), Frag(8, [1, 1, 1, 1, 1, 1, 1, 1], false),
                   Frag(8, [2, 2, 2, 2, 2, 2, 2, 2], true);
    var q1 := Queue([b], 16, 8, false, false, false);
    assert Linked(Noted(EMPTY, b), b) == q1;
    assert Enqueue(EMPTY, b) == (q1, Queued);
    assert EnqueueAll(EMPTY, [b]) == q1;
    assert Position([b], 8) == 0 && Position([b], 0) == 0;
    assert Enqueue(q1, f) == (q1.(lastIn := true), Rejected);
    assert [b, f][1..] == [f];
    assert EnqueueAll(EMPTY, [b, f]) == EnqueueAll(q1, [f]) == q1.(lastIn := true);
    assert InsertAt([b], 0, a) == [a, b];
    TwoJoined(a, b);
  }

  lemma TwoJoined(a: Frag, b: Frag)
    ensures InsertAt([a], 1, b) == [a, b] && Concat([a, b]) == a.data + b.data
  {
    assert [a, b][1..] == [b] && [b][1..] == [];
    assert Concat([b]) == b.data;
  }
}
