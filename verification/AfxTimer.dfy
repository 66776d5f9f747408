/** The timers of the event loop (lib/afx/afx_evtlp.c).
 *
 * Starting, stopping and expiry are separate operations that each keep the
 * invariant, so it holds in every interleaving of them, also of those that the
 * callbacks of expired timers start and stop.  Only RunTimers looks at the loop as
 * a whole, and for callbacks that leave the timers alone.
 */
module AfxTimer {
  import opened Seqs
  import opened AfxTime
  import opened AfxList

  /** A callback was called at `at` for a timer due at `deadline`, in microseconds. */
  datatype Firing = Firing(deadline: int, at: int)

  /** Deadlines do not fall along the list. */
  ghost predicate Sorted(s: seq<Node>)
    reads s
  {
    forall i, j | 0 < i < j < |s| :: Micros(s[i].end) <= Micros(s[j].end)
  }

  ghost predicate AllNormal(s: seq<Node>)
    reads s
  {
    forall i | 0 < i < |s| :: Normal(s[i].end)
  }

  /** The k-th deadline, in microseconds, of a timer of `timeout` milliseconds. */
  function Deadline(started: int, timeout: nat, k: nat): int {
    if k == 0 then started else Deadline(started, timeout, k - 1) + timeout * 1000
  }

  lemma FirstDeadline(started: int, timeout: nat)
    ensures Deadline(started, timeout, 1) == started + timeout * 1000
  {
    assert Deadline(started, timeout, 0) == started;
  }

  /** Deadlines do not drift. */
  lemma {:induction false} DeadlineExact(started: int, timeout: nat, k: nat)
    ensures Deadline(started, timeout, k) == started + k * (timeout * 1000)
  {
    if k > 0 {
      DeadlineExact(started, timeout, k - 1);
    }
  }

  /** A running timer is due one period after its last deadline, the first one being when it was started. */
  ghost predicate OnSchedule(t: Node)
    reads t
  {
    Normal(t.end) && Micros(t.end) == Deadline(t.started, t.timeout, t.fired + 1)
  }

  ghost predicate Scheduled(timers: set<Node>)
    reads timers
  {
    forall t | t in timers && t.isOn :: OnSchedule(t)
  }

  ghost predicate NoneBefore(timers: set<Node>, deadline: int)
    reads timers
  {
    forall t | t in timers && t.isOn :: deadline <= Micros(t.end)
  }

  ghost predicate SomeDue(timers: set<Node>, now: int)
    reads timers
  {
    exists t :: t in timers && t.isOn && Micros(t.end) <= now
  }

  /** No firing was early, and deadlines never fell. */
  ghost predicate Punctual(log: seq<Firing>, clock: int) {
    && (forall k | 0 <= k < |log| :: log[k].deadline <= log[k].at <= clock)
    && (forall j, k | 0 <= j < k < |log| :: log[j].deadline <= log[k].deadline)
  }

  lemma StillPunctual(log: seq<Firing>, f: Firing, clock: int)
    requires Punctual(log, clock) && f.deadline <= f.at <= clock
    requires log != [] ==> log[|log| - 1].deadline <= f.deadline
    ensures Punctual(log + [f], clock)
  {}

  /** The timers that are on. */
  ghost function On(timers: set<Node>): set<Node>
    reads timers
  {
    set t | t in timers && t.isOn
  }

  /** Place `k` of the list is behind all timers due no later than `t`, and before all others. */
  ghost predicate Behind(s: seq<Node>, k: nat, t: Node)
    reads s`end, t`end
  {
    && 0 < k <= |s|
    && (forall j | 0 < j < k :: Micros(s[j].end) <= Micros(t.end))
    && (k < |s| ==> Micros(t.end) < Micros(s[k].end))
  }

  /** `t` went into the list behind all timers due no later. */
  ghost predicate Placed(before: seq<Node>, t: Node, after: seq<Node>)
    reads before`end, t`end
  {
    exists k :: Behind(before, k, t) && after == InsertAt(before, k, t)
  }

  /** After its sentinel, the list holds exactly the nodes in `on`. */
  ghost predicate Members(s: seq<Node>, on: set<Node>) {
    && |s| > 0 && s[0] !in on
    && (forall t | t in s :: t == s[0] || t in on)
    && (forall t | t in on :: t in s)
  }

  ghost predicate SameTimer(t: Node, end: Time, timeout: nat, isOn: bool, started: int, fired: nat)
    reads t
  {
    t.end == end && t.timeout == timeout && t.isOn == isOn && t.started == started && t.fired == fired
  }

  // ----- how many turns of the timer loop are to come ----------------------

  /** How many of the deadlines `end`, `end + period`, ... are due by `now`; without a period, none is counted. */
  function DueTurns(end: int, period: nat, now: int): nat
    decreases if end > now then 0 else now - end + 1
  {
    if end > now || period == 0 then 0 else 1 + DueTurns(end + period, period, now)
  }

  ghost function Counts(ts: seq<Node>, now: int): (c: seq<nat>)
    reads ts
    ensures |c| == |ts|
    ensures forall i | 0 <= i < |ts| :: c[i] == DueTurns(Micros(ts[i].end), ts[i].timeout * 1000, now)
  {
    if ts == [] then [] else [DueTurns(Micros(ts[0].end), ts[0].timeout * 1000, now)] + Counts(ts[1..], now)
  }

  function Sum(s: seq<nat>): nat {
    if s == [] then 0 else s[0] + Sum(s[1..])
  }

  lemma {:induction false} SumLess(s: seq<nat>, k: nat)
    requires k < |s| && s[k] > 0
    ensures Sum(s[k := s[k] - 1]) + 1 == Sum(s)
  {
    var t := s[k := s[k] - 1];
    if k == 0 {
      assert t[1..] == s[1..];
    } else {
      assert t[1..] == s[1..][k - 1 := s[k] - 1];
      SumLess(s[1..], k - 1);
    }
  }

  lemma {:induction false} SumZero(s: seq<nat>)
    requires forall i | 0 <= i < |s| :: s[i] == 0
    ensures Sum(s) == 0
  {
    if s != [] {
      SumZero(s[1..]);
    }
  }

  /** Some timer with timeout 0 is due. */
  ghost predicate ZeroDue(timers: set<Node>, now: int)
    reads timers
  {
    exists t :: t in timers && t.isOn && t.timeout == 0 && Micros(t.end) <= now
  }

  /** `ts` lists the timers that are on. */
  ghost predicate Listing(ts: seq<Node>, timers: set<Node>)
    reads timers
  {
    Distinct(ts) && (forall t | t in ts :: t in timers && t.isOn) && (forall t | t in timers && t.isOn :: t in ts)
  }

  lemma OneDone(end: int, period: nat, now: int)
    requires end <= now && period > 0
    ensures DueTurns(end, period, now) == DueTurns(end + period, period, now) + 1
  {}

  lemma NoneDue(ts: seq<Node>, timers: set<Node>, now: int)
    requires Listing(ts, timers) && !SomeDue(timers, now)
    ensures Sum(Counts(ts, now)) == 0 && !ZeroDue(timers, now)
  {
    forall i | 0 <= i < |ts| ensures Counts(ts, now)[i] == 0 {
      assert ts[i] in ts;
    }
    hide Counts;
    SumZero(Counts(ts, now));
  }

  class EventLoop {
    const head: Node               // the sentinel of 'timer_list'
    ghost var timers: set<Node>    // all timers created
    ghost var chain: seq<Node>     // the sentinel and the timers that are on
    ghost var clock: int           // the latest time seen
    ghost var log: seq<Firing>

    ghost predicate Known()
      reads this, timers
    {
      && head !in timers
      && Members(chain, On(timers)) && chain[0] == head
      && (forall t | t in chain :: t == head || t in timers)
    }

    ghost predicate Valid()
      reads this, head, timers
    {
      && Known()
      && Chained(chain) && Sorted(chain) && Scheduled(timers)
      && Punctual(log, clock)
      && (log != [] ==> NoneBefore(timers, log[|log| - 1].deadline))
    }

    constructor (now: int)
      ensures Valid() && timers == {} && log == [] && clock == now && fresh(head)
    {
      var h := new Node();
      h.prev := h;
      head := h;
      timers, chain, clock, log := {}, [h], now, [];
    }

    /** afx_timer_create. */
    method Create() returns (t: Node)
      requires Valid()
      modifies this`timers
      ensures Valid() && fresh(t) && timers == old(timers) + {t} && !t.isOn
    {
      hide Chained, Sorted, Members, Deadline;
      t := new Node();
      timers := timers + {t};
      assert On(timers) == old(On(timers));
    }

    /** afx_timer_start, at time `now`. */
    method Start(t: Node, timeout: nat, now: Time) returns (rc: int)
      requires Valid() && t in timers && Normal(now) && clock <= Micros(now)
      modifies this`chain, this`clock, timers, head
      ensures Valid() && clock == Micros(now) && log == old(log)
      ensures rc == if old(t.isOn) then -1 else 0
      ensures rc == 0 ==> t.isOn && t.started == Micros(now) && t.fired == 0 && t.timeout == timeout
      ensures rc == 0 ==> Placed(old(chain), t, chain)
      ensures rc == -1 ==> chain == old(chain) && t.end == old(t.end) && t.timeout == old(t.timeout)
      ensures forall x | x in timers && x != t ::
                SameTimer(x, old(x.end), old(x.timeout), old(x.isOn), old(x.started), old(x.fired))
    {
      hide Chained, Sorted, Deadline, Placed;
      if t.isOn {
        clock := Micros(now);
        return -1;
      }
      ChainNormal();
      Engage(t, AddTimeout(now, timeout), timeout, now);
      FirstDeadline(Micros(now), timeout);
      clock := Micros(now);
      rc := 0;
    }

    /** Sets a timer up and puts it on the list. */
    method Engage(t: Node, end: Time, timeout: nat, ghost now: Time)
      requires Known() && Chained(chain) && Sorted(chain) && AllNormal(chain)
      requires t in timers && t !in chain && |chain| > 0 && Normal(end)
      modifies this`chain, timers`next, timers`prev, head`next, head`prev
      modifies t`end, t`timeout, t`isOn, t`started, t`fired
      ensures Known() && Chained(chain) && Sorted(chain)
      ensures SameTimer(t, end, timeout, true, Micros(now), 0)
      ensures Placed(old(chain), t, chain)
    {
      hide Chained, Sorted, InsertAt, Members, Behind, Placed;
      SetTimer(t, end, timeout, now);
      ghost var k := Insert(t);
      SwitchOn(t);
      BehindIs(old(chain), k, t);
      Inserted(old(chain), k, t, old(On(timers)));
      assert On(timers) == old(On(timers)) + {t};
      Within(chain, On(timers), timers);
    }

    method SetTimer(t: Node, end: Time, timeout: nat, ghost now: Time)
      requires Chained(chain) && Sorted(chain) && AllNormal(chain) && t !in chain
      modifies t`end, t`timeout, t`started, t`fired
      ensures SameTimer(t, end, timeout, old(t.isOn), Micros(now), 0)
      ensures Chained(chain) && Sorted(chain) && AllNormal(chain)
    {
      hide Chained, Sorted, AllNormal;
      t.end, t.timeout := end, timeout;
      t.started, t.fired := Micros(now), 0;
    }

    method SwitchOn(t: Node)
      requires Chained(chain) && Sorted(chain)
      modifies t`isOn
      ensures t.isOn && Chained(chain) && Sorted(chain)
    {
      hide Chained, Sorted;
      t.isOn := true;
      StillChained(chain);
      StillSorted(chain);
    }

    /** afx_timer_stop. */
    method Stop(t: Node) returns (rc: int)
      requires Valid() && t in timers
      modifies this`chain, timers`next, timers`prev, head`next, head`prev, t`isOn
      ensures Valid() && !t.isOn
      ensures rc == if old(t.isOn) then 0 else -1
      ensures rc == 0 ==> exists k | 0 < k < |old(chain)| :: old(chain)[k] == t && chain == RemoveAt(old(chain), k)
      ensures rc == -1 ==> chain == old(chain)
    {
      hide Chained, Sorted, Deadline, Members;
      if !t.isOn {
        return -1;
      }
      ghost var k := PlaceOf(chain, On(timers), t);
      ChainNormal();
      RemovedSorted(chain, k);
      Disengage(t, k);
      rc := 0;
    }

    method Disengage(t: Node, ghost k: nat)
      requires Known() && Chained(chain) && t in timers && t.isOn && 0 < k < |chain| && chain[k] == t
      requires Sorted(RemoveAt(chain, k)) && AllNormal(RemoveAt(chain, k))
      modifies this`chain, timers`next, timers`prev, head`next, head`prev, t`isOn
      ensures Known() && Chained(chain) && Sorted(chain) && !t.isOn
      ensures chain == RemoveAt(old(chain), k)
    {
      hide Chained, Sorted, RemoveAt, Members;
      Distinctness(chain);
      Detach(t, k);
      SwitchOff(t);
      Removed(old(chain), k, old(On(timers)));
      assert On(timers) == old(On(timers)) - {t};
      Within(chain, On(timers), timers);
    }

    method SwitchOff(t: Node)
      requires Chained(chain) && Sorted(chain)
      modifies t`isOn
      ensures !t.isOn && Chained(chain) && Sorted(chain)
    {
      hide Chained, Sorted;
      t.isOn := false;
      StillChained(chain);
      StillSorted(chain);
    }

    /** Takes a node off the list. */
    method Detach(t: Node, ghost k: nat)
      requires Chained(chain) && 0 < k < |chain| && chain[k] == t && chain[0] == head
      requires Sorted(RemoveAt(chain, k)) && AllNormal(RemoveAt(chain, k))
      modifies this`chain, chain`next, chain`prev
      ensures chain == RemoveAt(old(chain), k)
      ensures Chained(chain) && Sorted(chain) && AllNormal(chain)
    {
      hide Chained, Sorted, RemoveAt;
      ghost var rest := RemoveAt(chain, k);
      Delete(chain, k, head, t);
      chain := rest;
      StillSorted(rest);
    }

    /** One turn of the timer loop of afx_event_loop_run, at time `now`: the timer whose callback is called,
     * or null and the timeout for poll(). */
    method Expire(now: Time) returns (t: Node?, timeout: int)
      requires Valid() && Normal(now) && clock <= Micros(now)
      modifies this`chain, this`clock, this`log, timers, head
      ensures Valid() && clock == Micros(now)
      // A callback is called exactly if some timer is due; it is the one due first.
      ensures t != null <==> old(SomeDue(timers, Micros(now)))
      ensures t != null ==> t in timers && t.isOn && log == old(log) + [Firing(old(Micros(t.end)), Micros(now))]
      ensures t != null ==> t.fired == old(t.fired) + 1 && t.started == old(t.started) && t.timeout == old(t.timeout)
      ensures t != null ==> old(Micros(t.end)) == Deadline(t.started, t.timeout, t.fired)
      ensures t != null ==> old(NoneBefore(timers, Micros(t.end)))
      ensures t != null ==>
                && |old(chain)| > 1 && old(chain)[1] == t
                && Placed(RemoveAt(old(chain), 1), t, chain)
      ensures t == null ==> log == old(log) && chain == old(chain)
      // poll() neither oversleeps a deadline nor returns a whole millisecond early.
      ensures t == null ==> (timeout == -1 <==> On(timers) == {})
      ensures t == null && timeout != -1 ==> NoneBefore(timers, Micros(now) + timeout * 1000)
      ensures t == null && timeout != -1 ==> SomeDue(timers, Micros(now) + timeout * 1000 + 999)
      ensures forall x | x in timers && x != t ::
                SameTimer(x, old(x.end), old(x.timeout), old(x.isOn), old(x.started), old(x.fired))
      ensures On(timers) == old(On(timers))
    {
      hide Chained, Sorted, Deadline, Members, Placed, RemoveAt;
      t, timeout := null, -1;
      clock := Micros(now);
      var first := First();
      if first == null {
        return;
      }
      FirstIsEarliest();
      if Compare(first.end, now) > 0 {
        timeout := PollTimeout(first.end, now);
        return;
      }
      t := first;
      Fire(t, now);
    }

    /** The timer loop of afx_event_loop_run while the clock reads `now`, for at most `limit` turns, if no callback
     * starts or stops a timer: `done` says that it has reached poll().  It does exactly if no timer that is due has
     * timeout 0. */
    method RunTimers(now: Time, limit: nat) returns (fired: nat, done: bool)
      requires Valid() && Normal(now) && clock <= Micros(now)
      modifies this`chain, this`clock, this`log, timers, head
      ensures Valid() && fired <= limit && |log| == |old(log)| + fired
      ensures done ==> !SomeDue(timers, Micros(now))
      ensures old(ZeroDue(timers, Micros(now))) ==> fired == limit && !done
      ensures !old(ZeroDue(timers, Micros(now))) ==>
                var total := old(Sum(Counts(chain[1..], Micros(now))));
                fired == (if limit < total then limit else total) && (done <==> limit > total)
    {
      hide Valid, Counts, Sum, ZeroDue, SomeDue, Listing;
      ListsOn();
      ghost var ts := chain[1..];
      fired, done := 0, false;
      while fired < limit
        invariant Valid() && timers == old(timers) && clock <= Micros(now) && Listing(ts, timers)
        invariant fired <= limit && |log| == |old(log)| + fired
        invariant ZeroDue(timers, Micros(now)) == old(ZeroDue(timers, Micros(now)))
        invariant !ZeroDue(timers, Micros(now)) ==>
                    Sum(Counts(ts, Micros(now))) + fired == old(Sum(Counts(chain[1..], Micros(now))))
      {
        var t := Turn(now, ts);
        if t == null {
          done := true;
          return;
        }
        fired := fired + 1;
      }
    }

    /** A timer started with timeout 0, which no callback stops, keeps the loop from poll() for ever. */
    method StartAtZero(t: Node, now: Time, limit: nat) returns (fired: nat, done: bool)
      requires Valid() && t in timers && !t.isOn && Normal(now) && clock <= Micros(now)
      modifies this`chain, this`clock, this`log, timers, head
      ensures Valid() && fired == limit && !done
    {
      hide Valid, ZeroDue, Counts, Sum, SameTimer, Placed;
      var rc := Start(t, 0, now);
      DueAtOnce(t);
      fired, done := RunTimers(now, limit);
    }

    lemma DueAtOnce(t: Node)
      requires Valid() && t in timers && t.isOn && t.timeout == 0 && t.fired == 0
      ensures ZeroDue(timers, t.started)
    {
      hide Known, Chained, Sorted;
      assert OnSchedule(t);
      FirstDeadline(t.started, 0);
    }

    /** One turn, and what it leaves to do. */
    method Turn(now: Time, ghost ts: seq<Node>) returns (t: Node?)
      requires Valid() && Normal(now) && clock <= Micros(now) && Listing(ts, timers)
      modifies this`chain, this`clock, this`log, timers, head
      ensures Valid() && clock == Micros(now) && Listing(ts, timers)
      ensures |log| == |old(log)| + if t == null then 0 else 1
      ensures ZeroDue(timers, Micros(now)) == old(ZeroDue(timers, Micros(now)))
      ensures t == null ==> !SomeDue(timers, Micros(now)) && Sum(Counts(ts, Micros(now))) == 0
      ensures t == null ==> !ZeroDue(timers, Micros(now))
      ensures !ZeroDue(timers, Micros(now)) ==>
                Sum(Counts(ts, Micros(now))) + (if t == null then 0 else 1) == old(Sum(Counts(ts, Micros(now))))
    {
      hide Valid, Deadline, Sum, DueTurns, Placed, Counts;
      ghost var before := Counts(ts, Micros(now));
      var timeout;
      t, timeout := Expire(now);
      assert forall x | x in timers :: (x.isOn <==> x in On(timers)) && (old(x.isOn) <==> x in old(On(timers)));
      if t == null {
        NoneDue(ts, timers, Micros(now));
        assert Counts(ts, Micros(now)) == before;
      } else {
        NextEnd(t);
        assert t in ts;
        ghost var k :| 0 <= k < |ts| && ts[k] == t;
        if t.timeout > 0 {
          OneDone(old(Micros(t.end)), t.timeout * 1000, Micros(now));
          assert Counts(ts, Micros(now)) == before[k := before[k] - 1];
          SumLess(before, k);
        }
      }
    }

    lemma NextEnd(t: Node)
      requires Valid() && t in timers && t.isOn
      ensures Micros(t.end) == Deadline(t.started, t.timeout, t.fired) + t.timeout * 1000
    {
      hide Known, Chained, Sorted;
      assert OnSchedule(t);
    }

    lemma ListsOn()
      requires Valid()
      ensures |chain| > 0 && Listing(chain[1..], timers)
    {
      Distinctness(chain);
      hide Chained, Sorted;
      assert forall t | t in chain[1..] :: t in chain && t != chain[0];
      assert forall t | t in timers && t.isOn :: t in On(timers);
      forall t | t in timers && t.isOn ensures t in chain[1..] {
        var k := PlaceOf(chain, On(timers), t);
        assert chain[1..][k - 1] == t;
      }
    }

    /** The first node of the list, or null. */
    method First() returns (node: Node?)
      requires Known() && Chained(chain)
      ensures node == if |chain| > 1 then chain[1] else null
      ensures node == null <==> On(timers) == {}
      ensures node == null ==> forall x | x in timers :: !x.isOn
      ensures node != null ==> node in timers && node.isOn
    {
      node := head.next;
      assert chain[0].next == if 1 < |chain| then chain[1] else null;
      assert forall x | x in timers && x.isOn :: x in On(timers);
      assert |chain| > 1 ==> chain[1] in chain;
    }

    lemma FirstIsEarliest()
      requires Known() && Chained(chain) && Sorted(chain) && |chain| > 1
      ensures NoneBefore(timers, Micros(chain[1].end))
    {
      forall x | x in timers && x.isOn ensures Micros(chain[1].end) <= Micros(x.end) {
        var k := PlaceOf(chain, On(timers), x);
      }
    }

    method Fire(t: Node, ghost now: Time)
      requires Valid() && |chain| > 1 && chain[1] == t && t in timers && t.isOn
      requires Micros(t.end) <= Micros(now) == clock
      requires NoneBefore(timers, Micros(t.end))
      modifies this`chain, this`log, timers`next, timers`prev, head`next, head`prev, t`end, t`fired
      ensures Valid() && log == old(log) + [Firing(old(Micros(t.end)), Micros(now))]
      ensures t.fired == old(t.fired) + 1 && old(Micros(t.end)) == Deadline(t.started, t.timeout, t.fired)
      ensures Placed(RemoveAt(old(chain), 1), t, chain)
    {
      hide Chained, Sorted, Members, Deadline, Punctual, Placed, RemoveAt;
      assert OnSchedule(t);
      ChainNormal();
      StillPunctual(log, Firing(Micros(t.end), Micros(now)), clock);
      Reschedule(t);
      NextDeadline(t.started, t.timeout, t.fired);
      log := log + [Firing(old(Micros(t.end)), Micros(now))];
    }

    method Reschedule(t: Node)
      requires Known() && Chained(chain) && Sorted(chain) && AllNormal(chain)
      requires |chain| > 1 && chain[1] == t && t in timers && t.isOn && Normal(t.end)
      modifies this`chain, timers`next, timers`prev, head`next, head`prev, t`end, t`fired
      ensures Known() && Chained(chain) && Sorted(chain)
      ensures Normal(t.end) && Micros(t.end) == old(Micros(t.end)) + t.timeout * 1000 && t.fired == old(t.fired) + 1
      ensures Placed(RemoveAt(old(chain), 1), t, chain)
    {
      hide Chained, Sorted, RemoveAt, InsertAt, Members, Behind, Placed;
      Distinctness(chain);
      Advance(t);
      Detach(t, 1);
      ghost var k := Insert(t);
      BehindIs(RemoveAt(old(chain), 1), k, t);
      Removed(old(chain), 1, old(On(timers)));
      Inserted(RemoveAt(old(chain), 1), k, t, old(On(timers)) - {t});
      assert On(timers) == old(On(timers)) - {t} + {t};
      Within(chain, On(timers), timers);
    }

    method Advance(t: Node)
      requires Chained(chain) && Sorted(chain) && AllNormal(chain)
      requires |chain| > 1 && chain[1] == t && Normal(t.end)
      modifies t`end, t`fired
      ensures Chained(chain) && Sorted(RemoveAt(chain, 1)) && AllNormal(RemoveAt(chain, 1))
      ensures t.fired == old(t.fired) + 1
      ensures Normal(t.end) && Micros(t.end) == old(Micros(t.end)) + t.timeout * 1000
    {
      hide Chained, Sorted;
      Distinctness(chain);
      RemovedSorted(chain, 1);
      t.end := AddTimeout(t.end, t.timeout);
      t.fired := t.fired + 1;
      StillChained(chain);
      StillSorted(RemoveAt(chain, 1));
    }

    lemma ChainNormal()
      requires Known() && Chained(chain) && Scheduled(timers)
      ensures AllNormal(chain)
    {
      forall i | 0 < i < |chain| ensures Normal(chain[i].end) {
        assert chain[i] in chain;
        assert OnSchedule(chain[i]);
      }
    }

    /** afx_timer_insert: behind all timers that are due no later. */
    method Insert(t: Node) returns (ghost k: nat)
      requires |chain| > 0 && chain[0] == head && Chained(chain) && Sorted(chain) && AllNormal(chain)
      requires t !in chain && Normal(t.end)
      modifies this`chain, chain`next, chain`prev, t`next, t`prev
      ensures Behind(old(chain), k, t) && chain == InsertAt(old(chain), k, t)
      ensures Chained(chain) && Sorted(chain)
    {
      hide Chained, Sorted, InsertAt;
      var node;
      node, k := FindLater(t);
      label placed:
      ghost var s := chain;
      InsertedSorted(s, k, t);
      if node != null {
        InsertBefore(s, k, node, t);
      } else {
        InsertTail(s, head, t);
        AppendIsInsert(s, t);
      }
      chain := InsertAt(s, k, t);
      StillSorted@placed(chain);
    }

    /** The first timer due after `t`, or null. */
    method FindLater(t: Node) returns (node: Node?, ghost k: nat)
      requires |chain| > 0 && chain[0] == head && Chained(chain) && Sorted(chain) && AllNormal(chain) && Normal(t.end)
      ensures Behind(chain, k, t) && node == if k < |chain| then chain[k] else null
    {
      node := head.next;
      assert chain[0].next == if 1 < |chain| then chain[1] else null;
      k := 1;
      while node != null && Compare(node.end, t.end) <= 0
        invariant 0 < k <= |chain| && node == if k < |chain| then chain[k] else null
        invariant forall j | 0 < j < k :: Micros(chain[j].end) <= Micros(t.end)
        decreases |chain| - k
      {
        assert chain[k].next == if k + 1 < |chain| then chain[k + 1] else null;
        node := node.next;
        k := k + 1;
      }
    }
  }

  lemma BehindIs(s: seq<Node>, k: nat, t: Node)
    requires Behind(s, k, t)
    ensures 0 < k <= |s| && Placed(s, t, InsertAt(s, k, t))
  {}

  lemma AppendIsInsert(s: seq<Node>, t: Node)
    ensures s + [t] == InsertAt(s, |s|, t)
  {}

  lemma Within(s: seq<Node>, on: set<Node>, timers: set<Node>)
    requires Members(s, on) && on <= timers
    ensures forall t | t in s :: t == s[0] || t in timers
  {}

  lemma Inserted(s: seq<Node>, k: nat, t: Node, on: set<Node>)
    requires 0 < k <= |s| && t !in s && Members(s, on)
    ensures Members(InsertAt(s, k, t), on + {t}) && InsertAt(s, k, t)[0] == s[0]
  {
    var out := InsertAt(s, k, t);
    assert out[k] == t;
    forall x | x in s ensures x in out {
      var i :| 0 <= i < |s| && s[i] == x;
      assert out[if i < k then i else i + 1] == x;
    }
    forall x | x in out ensures x == s[0] || x in on + {t} {
      var i :| 0 <= i < |out| && out[i] == x;
      assert i != k ==> x in s;
    }
  }

  lemma PlaceOf(s: seq<Node>, on: set<Node>, t: Node) returns (k: nat)
    requires Members(s, on) && t in on
    ensures 0 < k < |s| && s[k] == t
  {
    k :| k < |s| && s[k] == t;
  }

  lemma Distinctness(s: seq<Node>)
    requires Chained(s)
    ensures Distinct(s)
  {}

  lemma Removed(s: seq<Node>, k: nat, on: set<Node>)
    requires 0 < k < |s| && Distinct(s) && Members(s, on)
    ensures Members(RemoveAt(s, k), on - {s[k]}) && RemoveAt(s, k)[0] == s[0] && s[k] !in RemoveAt(s, k)
  {
    var out := RemoveAt(s, k);
    forall x | x in on - {s[k]} ensures x in out {
      var i :| 0 <= i < |s| && s[i] == x;
      assert out[if i < k then i else i - 1] == x;
    }
  }

  lemma RemovedSorted(s: seq<Node>, k: nat)
    requires Sorted(s) && AllNormal(s) && 0 < k < |s|
    ensures Sorted(RemoveAt(s, k)) && AllNormal(RemoveAt(s, k))
  {}

  lemma NextDeadline(started: int, timeout: nat, k: nat)
    ensures Deadline(started, timeout, k + 1) == Deadline(started, timeout, k) + timeout * 1000
  {}

  /** The links depend on the pointers only. */
  twostate lemma StillChained(s: seq<Node>)
    requires old(Chained(s)) && forall i | 0 <= i < |s| :: s[i].next == old(s[i].next) && s[i].prev == old(s[i].prev)
    ensures Chained(s)
  {}

  /** The order depends on the deadlines only. */
  twostate lemma StillSorted(s: seq<Node>)
    requires old(Sorted(s)) && forall i | 0 < i < |s| :: s[i].end == old(s[i].end)
    ensures Sorted(s)
  {}

  lemma InsertedSorted(s: seq<Node>, k: nat, t: Node)
    requires Sorted(s) && t !in s && Behind(s, k, t)
    ensures Sorted(InsertAt(s, k, t))
  {
    assert forall j | k <= j < |s| :: Micros(t.end) <= Micros(s[j].end);
  }
}
