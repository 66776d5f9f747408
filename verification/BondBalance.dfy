/** The rebalancing of a bond (bond_rebalance in ovs/lib/bond.c). */
module BondBalance {
  import opened Options
  import opened Seqs
  import opened PriorityList
  import opened BondLoads

  /** struct bond_slave; no pending timer is `None`. */
  datatype Slave = Slave(enabled: bool, mayEnable: bool, delayExpires: Option<int>, txBytes: nat, entries: seq<nat>)

  type Slaves = map<SlaveId, Slave>

  ghost function Loads(slaves: Slaves): (p: map<SlaveId, nat>)
    ensures p.Keys == slaves.Keys
  {
    map s | s in slaves :: slaves[s].txBytes
  }

  ghost function EnabledIds(slaves: Slaves): set<SlaveId> {
    set s | s in slaves && slaves[s].enabled
  }

  /** Only the rebalancing fields differ. */
  ghost predicate SameSlaves(a: Slaves, b: Slaves) {
    a.Keys == b.Keys && forall s | s in a :: SameLink(a[s], b[s])
  }

  ghost predicate SameLink(a: Slave, b: Slave) {
    a.enabled == b.enabled && a.mayEnable == b.mayEnable && a.delayExpires == b.delayExpires
  }

  // ---------------------------------------------------------------------
  // The list of slaves by load

  /** `i` is the place of `slave` in `bals`: before the first slave with less load. */
  ghost predicate FitsAt(bals: seq<SlaveId>, i: nat, slave: SlaveId, slaves: Slaves) {
    && slave in slaves && (forall s | s in bals :: s in slaves)
    && i <= |bals|
    && (forall j | 0 <= j < i :: slaves[slave].txBytes <= slaves[bals[j]].txBytes)
    && (i < |bals| ==> slaves[slave].txBytes > slaves[bals[i]].txBytes)
  }

  /** insert_bal: before the first slave with less load. */
  method InsertBal(bals: seq<SlaveId>, slave: SlaveId, slaves: Slaves) returns (out: seq<SlaveId>, ghost i: nat)
    requires slave in slaves && forall s | s in bals :: s in slaves
    ensures FitsAt(bals, i, slave, slaves) && out == InsertAt(bals, i, slave)
  {
    var k := 0;
    while k < |bals| && slaves[slave].txBytes <= slaves[bals[k]].txBytes
      invariant 0 <= k <= |bals|
      invariant forall j | 0 <= j < k :: slaves[slave].txBytes <= slaves[bals[j]].txBytes
    {
      k := k + 1;
    }
    return InsertAt(bals, k, slave), k;
  }

  /** The enabled slaves in order of falling load. */
  method SortSlaves(order: seq<SlaveId>, slaves: Slaves) returns (bals: seq<SlaveId>)
    requires Lists(order, slaves.Keys)
    ensures Lists(bals, EnabledIds(slaves)) && Falling(bals, Loads(slaves))
  {
    hide Falling;
    bals := [];
    EmptyFalling(Loads(slaves));
    for i := 0 to |order|
      invariant Lists(bals, EnabledAmong(order[..i], slaves)) && Falling(bals, Loads(slaves))
    {
      assert order[..i + 1] == order[..i] + [order[i]];
      if slaves[order[i]].enabled {
        ghost var at;
        ghost var was := bals;
        bals, at := InsertBal(bals, order[i], slaves);
        InsertedInOrder(was, order[i], slaves, at);
        assert EnabledAmong(order[..i + 1], slaves) - {order[i]} == EnabledAmong(order[..i], slaves) by {
          hide *;
          assert order[i] !in order[..i];
        }
        WithLists(was, at, order[i], EnabledAmong(order[..i + 1], slaves));
      } else {
        assert EnabledAmong(order[..i + 1], slaves) == EnabledAmong(order[..i], slaves);
      }
    }
    assert order[..|order|] == order;
    assert EnabledAmong(order, slaves) == EnabledIds(slaves);
  }

  ghost function EnabledAmong(order: seq<SlaveId>, slaves: Slaves): set<SlaveId> {
    set s | s in order && s in slaves && slaves[s].enabled
  }

  lemma EmptyFalling(p: map<SlaveId, nat>)
    ensures Falling([], p)
  {}

  /** Where insert_bal puts a slave, the order holds. */
  lemma InsertedInOrder(bals: seq<SlaveId>, slave: SlaveId, slaves: Slaves, i: nat)
    requires FitsAt(bals, i, slave, slaves) && Falling(bals, Loads(slaves))
    ensures Falling(InsertAt(bals, i, slave), Loads(slaves))
  {
    WithFalling(bals, i, slave, Loads(slaves));
  }

  /** reinsert_bal. */
  method ReinsertBal(bals: seq<SlaveId>, slave: SlaveId, slaves: Slaves)
      returns (out: seq<SlaveId>, ghost k: nat, ghost i: nat)
    requires slave in bals && slave in slaves && forall s | s in bals :: s in slaves
    ensures k < |bals| && bals[k] == slave && FitsAt(RemoveAt(bals, k), i, slave, slaves)
    ensures out == InsertAt(RemoveAt(bals, k), i, slave)
  {
    var n :| 0 <= n < |bals| && bals[n] == slave;
    k := n;
    forall s | s in RemoveAt(bals, n) ensures s in bals {}
    out, i := InsertBal(RemoveAt(bals, n), slave, slaves);
  }

  /** Among the slaves other than the last one of `bals`, inserting `slave` into
   * `bals` finds the same place as inserting it without the last one. */
  lemma InsertPastStray(mid: seq<SlaveId>, stray: SlaveId, slave: SlaveId, i: nat, k: nat)
    requires i <= |mid| + 1 && k < |mid| + 2 && stray != slave && stray !in mid
    requires InsertAt(mid + [stray], i, slave)[k] == stray
    ensures RemoveAt(InsertAt(mid + [stray], i, slave), k) == InsertAt(mid, if i <= |mid| then i else |mid|, slave)
  {
    var l := InsertAt(mid + [stray], i, slave);
    assert forall j | 0 <= j < |mid| :: mid[j] in mid;
    assert k == if i <= |mid| then |mid| + 1 else |mid|;
  }

  /** Both slaves of a shift end up in order, although `to` is out of order
   * while `from` is put back. */
  lemma Resorted(bals: seq<SlaveId>, before: Slaves, slaves: Slaves, once: seq<SlaveId>, i: nat, k: nat, i2: nat)
    requires |bals| >= 2 && Distinct(bals) && Falling(bals, Loads(before))
    requires SameLoadsBut(before, slaves, bals[0], bals[|bals| - 1])
    requires FitsAt(RemoveAt(bals, 0), i, bals[0], slaves) && once == InsertAt(RemoveAt(bals, 0), i, bals[0])
    requires k < |bals| && once[k] == bals[|bals| - 1] && FitsAt(RemoveAt(once, k), i2, bals[|bals| - 1], slaves)
    ensures Falling(InsertAt(RemoveAt(once, k), i2, bals[|bals| - 1]), Loads(slaves))
  {
    var from, to, mid := bals[0], bals[|bals| - 1], bals[1..|bals| - 1];
    MiddleFalling(bals, before, slaves);
    Ends(bals);
    hide *;
    InsertPastStray(mid, to, from, i, k);
    var at := if i <= |mid| then i else |mid|;
    FitsWithoutLast(mid, to, i, from, slaves);
    InsertedInOrder(mid, from, slaves, at);
    InsertedInOrder(InsertAt(mid, at, from), to, slaves, i2);
  }

  lemma Ends(bals: seq<SlaveId>)
    requires |bals| >= 2 && Distinct(bals)
    ensures var to, mid := bals[|bals| - 1], bals[1..|bals| - 1];
            RemoveAt(bals, 0) == mid + [to] && to !in mid && to != bals[0]
  {}

  ghost predicate SameLoadsBut(before: Slaves, slaves: Slaves, a: SlaveId, b: SlaveId) {
    before.Keys == slaves.Keys && forall s | s in slaves && s != a && s != b :: slaves[s].txBytes == before[s].txBytes
  }

  lemma MiddleFalling(bals: seq<SlaveId>, before: Slaves, slaves: Slaves)
    requires |bals| >= 2 && Distinct(bals) && Falling(bals, Loads(before))
    requires SameLoadsBut(before, slaves, bals[0], bals[|bals| - 1])
    ensures Falling(bals[1..|bals| - 1], Loads(slaves))
  {
    var mid := bals[1..|bals| - 1];
    forall x, y | 0 <= x < y < |mid| ensures Ordered(Loads(slaves), mid[x], mid[y]) {
      assert Ordered(Loads(before), bals[x + 1], bals[y + 1]);
    }
  }

  lemma FitsWithoutLast(mid: seq<SlaveId>, stray: SlaveId, i: nat, slave: SlaveId, slaves: Slaves)
    requires FitsAt(mid + [stray], i, slave, slaves)
    ensures FitsAt(mid, if i <= |mid| then i else |mid|, slave, slaves)
  {
    assert forall j | 0 <= j < |mid| :: mid[j] == (mid + [stray])[j] && mid[j] in mid + [stray];
  }

  // ---------------------------------------------------------------------
  // The choice of a bucket to move

  function Abs(x: real): real { if x < 0.0 then -x else x }

  /** Would moving `delta` bytes bring the two loads noticeably closer? */
  predicate WorthMoving(fromBytes: nat, toBytes: nat, delta: nat)
    requires delta <= fromBytes
  {
    toBytes == 0 ||
    var oldRatio := fromBytes as real / toBytes as real;
    var newRatio := (fromBytes - delta) as real / (toBytes + delta) as real;
    oldRatio - newRatio > 0.1 && Abs(newRatio - 1.0) < Abs(oldRatio - 1.0)
  }

  /** choose_entry_to_migrate. */
  method ChooseEntryToMigrate(from: Slave, toBytes: nat, hash: seq<Entry>) returns (k: int)
    requires Entries(from, hash)
    ensures Picked(from, toBytes, hash, k)
  {
    if |from.entries| < 2 {
      return -1;
    }
    k := 0;
    while k < |from.entries|
      invariant 0 <= k <= |from.entries|
      invariant forall j | 0 <= j < k :: !WorthMoving(from.txBytes, toBytes, hash[from.entries[j]].txBytes)
    {
      if WorthMoving(from.txBytes, toBytes, hash[from.entries[k]].txBytes) {
        return;
      }
      k := k + 1;
    }
    k := -1;
  }

  // ---------------------------------------------------------------------
  // Shifting load

  /** Each slave's count is the sum over the buckets assigned to it. */
  ghost predicate Booked(slaves: Slaves, hash: seq<Entry>) {
    forall s | s in slaves :: slaves[s].txBytes == Load(hash, s)
  }

  /** The buckets a slave may still give away are its own, and have not moved. */
  ghost predicate Movable(slaves: Slaves, hash: seq<Entry>, moved: set<nat>) {
    forall s | s in slaves :: MovableFrom(slaves[s].entries, s, hash, moved)
  }

  ghost predicate MovableFrom(entries: seq<nat>, s: SlaveId, hash: seq<Entry>, moved: set<nat>) {
    && Distinct(entries)
    && (forall i | 0 <= i < |entries| ::
          entries[i] < |hash| && hash[entries[i]].slave == Some(s) && entries[i] !in moved)
  }

  /** From `was` to `hash` only the buckets in `moved` changed hands, between enabled slaves. */
  ghost predicate OnlyMoved(was: seq<Entry>, hash: seq<Entry>, slaves: Slaves, moved: set<nat>) {
    && |hash| == |was|
    && (forall b | b in moved :: b < |was|)
    && (forall b | 0 <= b < |was| :: hash[b].txBytes == was[b].txBytes)
    && (forall b | 0 <= b < |was| && b !in moved :: hash[b] == was[b])
    && (forall b | b in moved ::
          && hash[b] != was[b]
          && was[b].slave.Some? && was[b].slave.value in EnabledIds(slaves)
          && hash[b].slave.Some? && hash[b].slave.value in EnabledIds(slaves))
  }

  /** The slaves after bond_shift_load has moved bucket `e` and its list entry `k` is gone. */
  function Shift(slaves: Slaves, from: SlaveId, to: SlaveId, delta: nat, k: nat): Slaves
    requires from in slaves && to in slaves && delta <= slaves[from].txBytes && k < |slaves[from].entries|
  {
    slaves[from := slaves[from].(txBytes := slaves[from].txBytes - delta, entries := RemoveAt(slaves[from].entries, k))]
          [to := slaves[to].(txBytes := slaves[to].txBytes + delta)]
  }

  lemma ShiftsTwo(slaves: Slaves, from: SlaveId, to: SlaveId, delta: nat, k: nat)
    requires from in slaves && to in slaves && delta <= slaves[from].txBytes && k < |slaves[from].entries|
    ensures SameLoadsBut(slaves, Shift(slaves, from, to, delta, k), from, to)
  {}

  lemma ShiftBooked(slaves: Slaves, hash: seq<Entry>, from: SlaveId, to: SlaveId, k: nat)
    requires Booked(slaves, hash) && from in slaves && to in slaves && from != to && k < |slaves[from].entries|
    requires slaves[from].entries[k] < |hash| && hash[slaves[from].entries[k]].slave == Some(from)
    ensures var b := slaves[from].entries[k];
            && hash[b].txBytes <= slaves[from].txBytes
            && Booked(Shift(slaves, from, to, hash[b].txBytes, k), hash[b := Entry(Some(to), hash[b].txBytes)])
  {
    var b := slaves[from].entries[k];
    forall s ensures Load(hash[b := Entry(Some(to), hash[b].txBytes)], s) ==
                     Load(hash, s) - Share(hash[b], s) + Share(Entry(Some(to), hash[b].txBytes), s) &&
                     Share(hash[b], s) <= Load(hash, s)
    {
      LoadAfterChange(hash, b, Entry(Some(to), hash[b].txBytes), s);
    }
    hide Load;
  }

  lemma ShiftMovable(slaves: Slaves, hash: seq<Entry>, moved: set<nat>, from: SlaveId, to: SlaveId, delta: nat, k: nat)
    requires Movable(slaves, hash, moved) && from in slaves && to in slaves && from != to
    requires k < |slaves[from].entries| && delta <= slaves[from].txBytes
    ensures var b := slaves[from].entries[k];
            && b < |hash| && b !in moved && hash[b].slave == Some(from)
            && Movable(Shift(slaves, from, to, delta, k), hash[b := Entry(Some(to), hash[b].txBytes)], moved + {b})
  {
    var b := slaves[from].entries[k];
    assert MovableFrom(slaves[from].entries, from, hash, moved);
    TakenFrom(slaves[from].entries, from, hash, moved, k, Entry(Some(to), hash[b].txBytes));
    forall s | s in slaves && s != from
      ensures MovableFrom(slaves[s].entries, s, hash[b := Entry(Some(to), hash[b].txBytes)], moved + {b})
    {
      LeftOthers(slaves[s].entries, s, hash, moved, b, Entry(Some(to), hash[b].txBytes));
    }
    hide MovableFrom;
  }

  lemma TakenFrom(entries: seq<nat>, s: SlaveId, hash: seq<Entry>, moved: set<nat>, k: nat, e: Entry)
    requires MovableFrom(entries, s, hash, moved) && k < |entries|
    ensures MovableFrom(RemoveAt(entries, k), s, hash[entries[k] := e], moved + {entries[k]})
  {
    RemovedDistinct(entries, k);
    assert forall i | 0 <= i < |entries| && i != k :: entries[i] != entries[k];
    hide Distinct;
  }

  lemma LeftOthers(entries: seq<nat>, s: SlaveId, hash: seq<Entry>, moved: set<nat>, b: nat, e: Entry)
    requires MovableFrom(entries, s, hash, moved) && b < |hash| && hash[b].slave != Some(s)
    ensures MovableFrom(entries, s, hash[b := e], moved + {b})
  {
    hide Distinct;
  }

  lemma ShiftOnlyMoved(was: seq<Entry>, hash: seq<Entry>, slaves: Slaves, moved: set<nat>, b: nat, to: SlaveId)
    requires OnlyMoved(was, hash, slaves, moved) && b < |hash| && b !in moved
    requires hash[b].slave.Some? && hash[b].slave.value in EnabledIds(slaves) && to in EnabledIds(slaves)
    requires hash[b].slave.value != to
    ensures OnlyMoved(was, hash[b := Entry(Some(to), hash[b].txBytes)], slaves, moved + {b})
  {}

  lemma ReenabledOnlyMoved(was: seq<Entry>, hash: seq<Entry>, before: Slaves, slaves: Slaves, moved: set<nat>)
    requires OnlyMoved(was, hash, before, moved) && SameSlaves(before, slaves)
    ensures OnlyMoved(was, hash, slaves, moved) && EnabledIds(slaves) == EnabledIds(before)
  {
    assert EnabledIds(slaves) == EnabledIds(before);
  }

  /** What a turn of the loop starts from. */
  datatype Round = Round(bals: seq<SlaveId>, slaves: Slaves, hash: seq<Entry>)

  /** What holds at the head of the loop: the list is sorted, and the slaves' sums are those of their buckets. */
  ghost predicate Balanced(r: Round, was: seq<Entry>) {
    && Booked(r.slaves, r.hash) && Total(r.hash) == Total(was)
    && Distinct(r.bals) && (forall s | s in r.bals :: s in EnabledIds(r.slaves)) && Falling(r.bals, Loads(r.slaves))
    && (r.bals != [] ==> r.bals[0] in r.slaves && r.bals[|r.bals| - 1] in r.slaves)
  }

  predicate Overloaded(fromBytes: nat, toBytes: nat) {
    fromBytes - toBytes >= toBytes / 32 && fromBytes - toBytes >= 100000
  }

  ghost predicate Listed(r: Round) {
    && |r.bals| >= 2 && r.bals[0] in r.slaves && r.bals[|r.bals| - 1] in r.slaves
    && Entries(r.slaves[r.bals[0]], r.hash)
  }

  ghost predicate Entries(from: Slave, hash: seq<Entry>) {
    forall j | 0 <= j < |from.entries| :: from.entries[j] < |hash| && hash[from.entries[j]].txBytes <= from.txBytes
  }

  /** `k` is the first listed bucket worth moving, or -1. */
  ghost predicate Picked(from: Slave, toBytes: nat, hash: seq<Entry>, k: int)
    requires Entries(from, hash)
  {
    && -1 <= k < |from.entries|
    && (|from.entries| < 2 ==> k == -1)
    && (k >= 0 ==> WorthMoving(from.txBytes, toBytes, hash[from.entries[k]].txBytes))
    && (|from.entries| >= 2 ==>
          forall j | 0 <= j < (if k >= 0 then k else |from.entries|) ::
            !WorthMoving(from.txBytes, toBytes, hash[from.entries[j]].txBytes))
  }

  /** From the most loaded slave to the least loaded one goes the first bucket worth moving; without one, the
   * former is not looked at again. */
  ghost predicate Turn(r: Round, n: Round) {
    && Listed(r)
    && var from, to := r.bals[0], r.bals[|r.bals| - 1];
    && Overloaded(r.slaves[from].txBytes, r.slaves[to].txBytes)
    && exists k :: Picked(r.slaves[from], r.slaves[to].txBytes, r.hash, k) && Turned(r, k, n)
  }

  ghost predicate Turned(r: Round, k: int, n: Round)
    requires Listed(r) && k < |r.slaves[r.bals[0]].entries|
  {
    if k < 0 then n == r.(bals := r.bals[1..])
    else
      var from, to := r.bals[0], r.bals[|r.bals| - 1];
      var b := r.slaves[from].entries[k];
      && n.slaves == Shift(r.slaves, from, to, r.hash[b].txBytes, k)
      && n.hash == r.hash[b := Entry(Some(to), r.hash[b].txBytes)]
      && |n.bals| == |r.bals| && (forall s | s in n.bals :: s in r.bals)
  }

  ghost predicate Halted(r: Round) {
    |r.bals| >= 2 ==>
      && r.bals[0] in r.slaves && r.bals[|r.bals| - 1] in r.slaves
      && !Overloaded(r.slaves[r.bals[0]].txBytes, r.slaves[r.bals[|r.bals| - 1]].txBytes)
  }

  ghost predicate TurnAt(run: seq<Round>, i: nat)
    requires 0 < i < |run|
  {
    Turn(run[i - 1], run[i])
  }

  /** Turn by turn. */
  ghost predicate IsRun(run: seq<Round>, was: seq<Entry>) {
    && run != []
    && (forall i | 0 <= i < |run| :: Balanced(run[i], was))
    && (forall i | 0 < i < |run| :: TurnAt(run, i))
  }

  /** A turn changes the assignment of bucket `b`. */
  ghost predicate Changes(r: Round, n: Round, b: nat) {
    b < |r.hash| && b < |n.hash| && r.hash[b] != n.hash[b]
  }

  ghost predicate ChangesAt(run: seq<Round>, i: nat, b: nat) {
    0 < i < |run| && Changes(run[i - 1], run[i], b)
  }

  /** No bucket moves twice. */
  ghost predicate EachOnce(run: seq<Round>) {
    forall b, i, j | ChangesAt(run, i, b) && ChangesAt(run, j, b) :: i == j
  }

  /** The buckets that some turn moved are in `moved`. */
  ghost predicate Noted(run: seq<Round>, moved: set<nat>) {
    forall b, i | ChangesAt(run, i, b) :: b in moved
  }

  lemma OnceStarts(r: Round)
    ensures EachOnce([r]) && Noted([r], {})
  {}

  lemma OnceExtends(run: seq<Round>, r: Round, before: set<nat>, moved: set<nat>)
    requires run != [] && EachOnce(run) && Noted(run, before) && before <= moved
    requires forall b | Changes(run[|run| - 1], r, b) :: b !in before && b in moved
    ensures EachOnce(run + [r]) && Noted(run + [r], moved)
  {
    var out := run + [r];
    forall b: nat, i: nat | ChangesAt(out, i, b)
      ensures if i < |run| then ChangesAt(run, i, b) else b !in before && b in moved
    {
      hide Changes;
      if i < |run| {
        assert out[i - 1] == run[i - 1] && out[i] == run[i];
      }
    }
    hide ChangesAt;
  }

  /** The turns that moved a bucket. */
  ghost function Moves(run: seq<Round>): nat {
    if |run| < 2 then 0
    else Moves(run[..|run| - 1]) + if run[|run| - 1].hash != run[|run| - 2].hash then 1 else 0
  }

  lemma RunStarts(r: Round, was: seq<Entry>)
    requires Balanced(r, was)
    ensures IsRun([r], was) && Moves([r]) == 0
  {}

  lemma RunExtends(run: seq<Round>, r: Round, was: seq<Entry>)
    requires IsRun(run, was) && Balanced(r, was) && Turn(run[|run| - 1], r)
    ensures IsRun(run + [r], was)
    ensures Moves(run + [r]) == Moves(run) + if r.hash != run[|run| - 1].hash then 1 else 0
  {
    MovesExtends(run, r);
    hide *;
    RoundsExtend(run, r, was);
    TurnsExtend(run, r, was);
    RunOf(run + [r], was);
  }

  lemma RunOf(run: seq<Round>, was: seq<Entry>)
    requires run != [] && forall i | 0 <= i < |run| :: Balanced(run[i], was)
    requires forall i | 0 < i < |run| :: TurnAt(run, i)
    ensures IsRun(run, was)
  {
    hide Balanced, TurnAt;
  }

  lemma RoundsExtend(run: seq<Round>, r: Round, was: seq<Entry>)
    requires IsRun(run, was) && Balanced(r, was)
    ensures forall i | 0 <= i < |run + [r]| :: Balanced((run + [r])[i], was)
  {
    hide Balanced, TurnAt;
  }

  lemma TurnsExtend(run: seq<Round>, r: Round, was: seq<Entry>)
    requires IsRun(run, was) && Turn(run[|run| - 1], r)
    ensures forall i | 0 < i < |run + [r]| :: TurnAt(run + [r], i)
  {
    hide Balanced, Turn, TurnAt;
    forall i | 0 < i < |run + [r]| ensures TurnAt(run + [r], i) {
      TurnExtends(run, r, i);
    }
  }

  lemma TurnExtends(run: seq<Round>, r: Round, i: nat)
    requires run != [] && 0 < i <= |run|
    requires if i < |run| then TurnAt(run, i) else Turn(run[|run| - 1], r)
    ensures TurnAt(run + [r], i)
  {
    hide Turn;
  }

  lemma MovesExtends(run: seq<Round>, r: Round)
    requires run != []
    ensures Moves(run + [r]) == Moves(run) + if r.hash != run[|run| - 1].hash then 1 else 0
  {
    assert (run + [r])[..|run|] == run;
  }

  lemma Turns(r: Round, k: int, n: Round)
    requires Listed(r)
    requires var from, to := r.bals[0], r.bals[|r.bals| - 1];
             && Overloaded(r.slaves[from].txBytes, r.slaves[to].txBytes)
             && Picked(r.slaves[from], r.slaves[to].txBytes, r.hash, k)
    requires Turned(r, k, n)
    ensures Turn(r, n)
  {}

  /** The loop of bond_rebalance that shifts load from the most to the least loaded slave. */
  method ShiftLoads(list: seq<SlaveId>, slaves0: Slaves, was: seq<Entry>)
      returns (slaves: Slaves, hash: seq<Entry>, ghost moved: set<nat>, ghost run: seq<Round>)
    requires Booked(slaves0, was) && Movable(slaves0, was, {})
    requires Lists(list, EnabledIds(slaves0)) && Falling(list, Loads(slaves0))
    ensures SameSlaves(slaves0, slaves) && Booked(slaves, hash)
    ensures OnlyMoved(was, hash, slaves, moved) && Total(hash) == Total(was)
    ensures IsRun(run, was) && run[0] == Round(list, slaves0, was)
    ensures EachOnce(run) && Noted(run, moved) && Moves(run) == |moved|
    ensures var end := run[|run| - 1]; Halted(end) && end.slaves == slaves && end.hash == hash
  {
    hide Booked, Movable, OnlyMoved, Falling, Total, IsRun, Turn, Lists, Moves, EachOnce, Noted;
    var bals := list;
    slaves, hash, moved := slaves0, was, {};
    NothingMoved(was, slaves0);
    ListsDistinct(list, EnabledIds(slaves0));
    EndsListed(bals, slaves);
    run := [Round(bals, slaves, hash)];
    RunStarts(run[0], was);
    OnceStarts(run[0]);
    while |bals| >= 2 && Overloaded(slaves[bals[0]].txBytes, slaves[bals[|bals| - 1]].txBytes)
      invariant SameSlaves(slaves0, slaves) && Movable(slaves, hash, moved)
      invariant OnlyMoved(was, hash, slaves, moved) && Moves(run) == |moved| <= |was|
      invariant run != [] && run[0] == Round(list, slaves0, was) && run[|run| - 1] == Round(bals, slaves, hash)
      invariant IsRun(run, was) && Balanced(Round(bals, slaves, hash), was)
      invariant EachOnce(run) && Noted(run, moved)
      decreases |bals| + |was| - |moved|
    {
      ghost var before := moved;
      bals, slaves, hash, moved := TakeTurn(bals, slaves, hash, moved, was);
      OnceExtends(run, Round(bals, slaves, hash), before, moved);
      RunExtends(run, Round(bals, slaves, hash), was);
      run := run + [Round(bals, slaves, hash)];
    }
  }

  /** The body of the loop. */
  method TakeTurn(bals0: seq<SlaveId>, slaves0: Slaves, hash0: seq<Entry>, ghost moved0: set<nat>,
                  ghost was: seq<Entry>)
      returns (bals: seq<SlaveId>, slaves: Slaves, hash: seq<Entry>, ghost moved: set<nat>)
    requires |bals0| >= 2 && Movable(slaves0, hash0, moved0)
    requires OnlyMoved(was, hash0, slaves0, moved0) && |moved0| <= |was|
    requires Balanced(Round(bals0, slaves0, hash0), was)
    requires Overloaded(slaves0[bals0[0]].txBytes, slaves0[bals0[|bals0| - 1]].txBytes)
    ensures SameSlaves(slaves0, slaves) && Movable(slaves, hash, moved) && OnlyMoved(was, hash, slaves, moved)
    ensures |moved| <= |was| && |moved| == |moved0| + (if hash != hash0 then 1 else 0) && moved0 <= moved
    ensures forall b | Changes(Round(bals0, slaves0, hash0), Round(bals, slaves, hash), b) :: b !in moved0 && b in moved
    ensures |bals| - |moved| < |bals0| - |moved0|
    ensures Turn(Round(bals0, slaves0, hash0), Round(bals, slaves, hash)) && Balanced(Round(bals, slaves, hash), was)
  {
    hide Booked, Movable, OnlyMoved, Falling, Total, WorthMoving, Picked, Shift;
    var from, to := bals0[0], bals0[|bals0| - 1];
    FallingEnds(bals0, Loads(slaves0));
    EntryWithinLoad(slaves0, hash0, moved0, from);
    var k := ChooseEntryToMigrate(slaves0[from], slaves0[to].txBytes, hash0);
    if k >= 0 {
      bals, slaves, hash, moved := MoveEntry(bals0, slaves0, hash0, moved0, was, k);
    } else {
      bals, slaves, hash, moved := bals0[1..], slaves0, hash0, moved0;
      EndsListed(bals, slaves);
    }
    Turns(Round(bals0, slaves0, hash0), k, Round(bals, slaves, hash));
  }

  /** bond_shift_load for the entry at `k`, and the re-sorting after it. */
  method MoveEntry(bals0: seq<SlaveId>, slaves0: Slaves, hash0: seq<Entry>, ghost moved0: set<nat>,
                   ghost was: seq<Entry>, k: nat)
      returns (bals: seq<SlaveId>, slaves: Slaves, hash: seq<Entry>, ghost moved: set<nat>)
    requires Movable(slaves0, hash0, moved0) && OnlyMoved(was, hash0, slaves0, moved0)
    requires Balanced(Round(bals0, slaves0, hash0), was) && Listed(Round(bals0, slaves0, hash0))
    requires k < |slaves0[bals0[0]].entries|
    ensures SameSlaves(slaves0, slaves) && Movable(slaves, hash, moved) && OnlyMoved(was, hash, slaves, moved)
    ensures |moved| == |moved0| + 1 <= |was| && hash != hash0 && moved0 <= moved
    ensures forall b | Changes(Round(bals0, slaves0, hash0), Round(bals, slaves, hash), b) :: b !in moved0 && b in moved
    ensures Turned(Round(bals0, slaves0, hash0), k, Round(bals, slaves, hash))
    ensures Balanced(Round(bals, slaves, hash), was)
  {
    hide Booked, Movable, OnlyMoved, Falling, Total, Shift, SameLink, Loads;
    var from, to := bals0[0], bals0[|bals0| - 1];
    var b := slaves0[from].entries[k];
    ShiftKeeps(was, slaves0, hash0, moved0, from, to, k);
    slaves := Shift(slaves0, from, to, hash0[b].txBytes, k);
    hash := hash0[b := Entry(Some(to), hash0[b].txBytes)];
    moved := moved0 + {b};
    ShiftsTwo(slaves0, from, to, hash0[b].txBytes, k);
    assert hash[b] != hash0[b];
    bals := ResortBoth(bals0, slaves0, slaves);
    hide Turned, Changes, SameSlaves, EnabledIds, Entries;
    EndsListed(bals, slaves);
    OneChanges(Round(bals0, slaves0, hash0), Round(bals, slaves, hash), b);
    MovedTurns(Round(bals0, slaves0, hash0), k, bals);
  }

  lemma OneChanges(r: Round, n: Round, b: nat)
    requires b < |r.hash| && |n.hash| == |r.hash| && n.hash == r.hash[b := n.hash[b]]
    ensures forall c | Changes(r, n, c) :: c == b
  {}

  lemma MovedTurns(r: Round, k: nat, bals: seq<SlaveId>)
    requires Listed(r) && k < |r.slaves[r.bals[0]].entries|
    requires |bals| == |r.bals| && forall s | s in bals :: s in r.bals
    ensures var from, to, b := r.bals[0], r.bals[|r.bals| - 1], r.slaves[r.bals[0]].entries[k];
            Turned(r, k, Round(bals, Shift(r.slaves, from, to, r.hash[b].txBytes, k),
                               r.hash[b := Entry(Some(to), r.hash[b].txBytes)]))
  {}

  lemma EndsListed(bals: seq<SlaveId>, slaves: Slaves)
    requires forall s | s in bals :: s in EnabledIds(slaves)
    ensures bals != [] ==> bals[0] in slaves && bals[|bals| - 1] in slaves
  {
    assert bals != [] ==> bals[0] in bals && bals[|bals| - 1] in bals;
  }

  lemma ListsDistinct(list: seq<SlaveId>, ids: set<SlaveId>)
    requires Lists(list, ids)
    ensures Distinct(list) && forall s | s in list :: s in ids
  {}

  lemma NothingMoved(was: seq<Entry>, slaves: Slaves)
    ensures OnlyMoved(was, was, slaves, {})
  {}

  lemma FallingEnds(bals: seq<SlaveId>, p: map<SlaveId, nat>)
    requires |bals| >= 2 && Falling(bals, p)
    ensures Ordered(p, bals[0], bals[|bals| - 1]) && Falling(bals[1..], p)
  {}

  lemma EntryWithinLoad(slaves: Slaves, hash: seq<Entry>, moved: set<nat>, s: SlaveId)
    requires Booked(slaves, hash) && Movable(slaves, hash, moved) && s in slaves
    ensures forall j | 0 <= j < |slaves[s].entries| ::
              slaves[s].entries[j] < |hash| && hash[slaves[s].entries[j]].txBytes <= slaves[s].txBytes
  {
    forall j | 0 <= j < |slaves[s].entries|
      ensures slaves[s].entries[j] < |hash| && hash[slaves[s].entries[j]].txBytes <= slaves[s].txBytes
    {
      var b := slaves[s].entries[j];
      LoadAfterChange(hash, b, hash[b], s);
    }
  }

  /** What the loop keeps, across one shift. */
  lemma ShiftKeeps(was: seq<Entry>, slaves: Slaves, hash: seq<Entry>, moved: set<nat>, from: SlaveId, to: SlaveId,
                   k: nat)
    requires Booked(slaves, hash) && Movable(slaves, hash, moved) && OnlyMoved(was, hash, slaves, moved)
    requires from in EnabledIds(slaves) && to in EnabledIds(slaves) && from != to && k < |slaves[from].entries|
    ensures var b := slaves[from].entries[k];
            && b < |hash| && b !in moved && |moved + {b}| <= |was| && hash[b].slave == Some(from)
            && hash[b].txBytes <= slaves[from].txBytes
            && var after := Shift(slaves, from, to, hash[b].txBytes, k);
            && var now := hash[b := Entry(Some(to), hash[b].txBytes)];
            && SameSlaves(slaves, after) && EnabledIds(after) == EnabledIds(slaves)
            && Booked(after, now) && Movable(after, now, moved + {b})
            && OnlyMoved(was, now, after, moved + {b}) && Total(now) == Total(hash)
  {
    var b := slaves[from].entries[k];
    assert b < |hash| && hash[b].slave == Some(from);
    ShiftBooked(slaves, hash, from, to, k);
    ShiftMovable(slaves, hash, moved, from, to, hash[b].txBytes, k);
    var after, now := Shift(slaves, from, to, hash[b].txBytes, k), hash[b := Entry(Some(to), hash[b].txBytes)];
    ShiftOnlyMoved(was, hash, slaves, moved, b, to);
    assert SameSlaves(slaves, after);
    ReenabledOnlyMoved(was, now, slaves, after, moved + {b});
    TotalAfterMove(hash, b, Entry(Some(to), hash[b].txBytes));
    BoundedCard(moved + {b}, |was|);
  }

  lemma {:induction false} BoundedCard(s: set<nat>, n: nat)
    requires forall b | b in s :: b < n
    ensures |s| <= n
  {
    if n > 0 {
      BoundedCard(s - {n - 1}, n - 1);
    } else {
      assert s == {};
    }
  }

  /** The two calls of reinsert_bal after a shift. */
  method ResortBoth(bals: seq<SlaveId>, ghost before: Slaves, slaves: Slaves) returns (out: seq<SlaveId>)
    requires |bals| >= 2 && Distinct(bals) && Falling(bals, Loads(before)) && forall s | s in bals :: s in slaves
    requires SameLoadsBut(before, slaves, bals[0], bals[|bals| - 1])
    ensures |out| == |bals| && Distinct(out) && (forall s | s in out :: s in bals) && Falling(out, Loads(slaves))
  {
    var from, to := bals[0], bals[|bals| - 1];
    var once;
    ghost var k, i, k2, i2;
    once, k, i := ReinsertBal(bals, from, slaves);
    ReinsertedDistinct(bals, k, i, once);
    assert k == 0;
    out, k2, i2 := ReinsertBal(once, to, slaves);
    ReinsertedDistinct(once, k2, i2, out);
    hide *;
    Resorted(bals, before, slaves, once, i, k2, i2);
  }

  lemma ReinsertedDistinct(bals: seq<SlaveId>, k: nat, i: nat, out: seq<SlaveId>)
    requires Distinct(bals) && k < |bals| && i < |bals| && out == InsertAt(RemoveAt(bals, k), i, bals[k])
    ensures Distinct(out) && |out| == |bals| && forall s :: s in out <==> s in bals
  {
    var keys := set s | s in bals;
    WithoutLists(bals, k, keys);
    WithLists(RemoveAt(bals, k), i, bals[k], keys);
  }

  // ---------------------------------------------------------------------
  // The whole of bond_rebalance

  /** Every bucket is unassigned or assigned to a registered slave. */
  ghost predicate Assigned(hash: seq<Entry>, slaves: Slaves) {
    forall b | 0 <= b < |hash| && hash[b].slave.Some? :: hash[b].slave.value in slaves
  }

  /** The first loops: each slave's sum of bytes and list of buckets, from the buckets. */
  method Tally(order: seq<SlaveId>, slaves0: Slaves, hash: seq<Entry>) returns (slaves: Slaves)
    requires Lists(order, slaves0.Keys) && Assigned(hash, slaves0)
    ensures SameSlaves(slaves0, slaves) && Booked(slaves, hash) && Movable(slaves, hash, {})
    ensures Tallied(slaves, hash, |hash|)
  {
    hide TalliedFor, Booked, Movable, Lists;
    slaves := ClearSums(order, slaves0);
    TallyStarts(slaves, hash);
    for b := 0 to |hash|
      invariant SameSlaves(slaves0, slaves)
      invariant Tallied(slaves, hash, b)
    {
      forall s | s in slaves {
        TallyStep(slaves[s], hash, b, s);
      }
      var e := hash[b];
      if e.slave.Some? && e.txBytes > 0 {
        var x := slaves[e.slave.value];
        slaves := slaves[e.slave.value := x.(txBytes := x.txBytes + e.txBytes, entries := x.entries + [b])];
      }
    }
    TallyDone(slaves, hash);
  }

  method ClearSums(order: seq<SlaveId>, slaves0: Slaves) returns (slaves: Slaves)
    requires Lists(order, slaves0.Keys)
    ensures SameSlaves(slaves0, slaves) && forall s | s in slaves :: slaves[s].txBytes == 0 && slaves[s].entries == []
  {
    slaves := slaves0;
    for i := 0 to |order|
      invariant SameSlaves(slaves0, slaves)
      invariant forall s | s in order[..i] :: s in slaves && slaves[s].txBytes == 0 && slaves[s].entries == []
    {
      slaves := slaves[order[i] := slaves[order[i]].(txBytes := 0, entries := [])];
    }
    assert order[..|order|] == order;
  }

  /** The sum and list of slave `s` over the first `n` buckets. */
  ghost predicate TalliedFor(x: Slave, hash: seq<Entry>, n: nat, s: SlaveId)
    requires n <= |hash|
  {
    && x.txBytes == Load(hash[..n], s)
    && (forall i, j | 0 <= i < j < |x.entries| :: x.entries[i] < x.entries[j])
    && (forall i | 0 <= i < |x.entries| :: x.entries[i] < n && Share(hash[x.entries[i]], s) > 0)
    && (forall b | 0 <= b < n && Share(hash[b], s) > 0 :: b in x.entries)
  }

  ghost predicate Tallied(slaves: Slaves, hash: seq<Entry>, n: nat)
    requires n <= |hash|
  {
    forall s | s in slaves :: TalliedFor(slaves[s], hash, n, s)
  }

  lemma TallyStep(x: Slave, hash: seq<Entry>, b: nat, s: SlaveId)
    requires b < |hash| && TalliedFor(x, hash, b, s)
    ensures var more := x.(txBytes := x.txBytes + hash[b].txBytes, entries := x.entries + [b]);
            TalliedFor(if Share(hash[b], s) > 0 then more else x, hash, b + 1, s)
  {
    assert hash[..b + 1][..b] == hash[..b];
    assert (x.entries + [b])[|x.entries|] == b;
  }

  lemma TallyDone(slaves: Slaves, hash: seq<Entry>)
    requires Tallied(slaves, hash, |hash|)
    ensures Booked(slaves, hash) && Movable(slaves, hash, {})
  {
    assert hash[..|hash|] == hash;
    forall s | s in slaves ensures TalliedFor(slaves[s], hash, |hash|, s) {}
  }

  lemma TallyStarts(slaves: Slaves, hash: seq<Entry>)
    requires forall s | s in slaves :: slaves[s].txBytes == 0 && slaves[s].entries == []
    ensures Tallied(slaves, hash, 0)
  {}

  /** The last loop: loads decay, and a bucket without load loses its slave. */
  method Decay(hash: seq<Entry>) returns (out: seq<Entry>)
    ensures |out| == |hash| && forall b | 0 <= b < |hash| ::
              out[b] == Entry(if hash[b].txBytes / 2 == 0 then None else hash[b].slave, hash[b].txBytes / 2)
  {
    out := hash;
    for i := 0 to |hash|
      invariant |out| == |hash|
      invariant forall b | i <= b < |hash| :: out[b] == hash[b]
      invariant forall b | 0 <= b < i ::
                  out[b] == Entry(if hash[b].txBytes / 2 == 0 then None else hash[b].slave, hash[b].txBytes / 2)
    {
      var bytes := out[i].txBytes / 2;
      out := out[i := Entry(if bytes == 0 then None else out[i].slave, bytes)];
    }
  }

  /** bond_rebalance, once it has decided to run.  `shifted` is the assignment of
   * the buckets before the decay. */
  method Rebalance(order: seq<SlaveId>, slaves0: Slaves, was: seq<Entry>)
      returns (slaves: Slaves, hash: seq<Entry>,
               ghost shifted: seq<Entry>, ghost moved: set<nat>, ghost run: seq<Round>)
    requires Lists(order, slaves0.Keys) && Assigned(was, slaves0)
    ensures SameSlaves(slaves0, slaves) && Assigned(hash, slaves)
    ensures Booked(slaves, shifted) && OnlyMoved(was, shifted, slaves, moved) && Total(shifted) == Total(was)
    ensures EachOnce(run) && Noted(run, moved) && Moves(run) == |moved|
    ensures IsRun(run, was) && Halted(run[|run| - 1])
    ensures run[|run| - 1].slaves == slaves && run[|run| - 1].hash == shifted
    ensures run[0].hash == was && Lists(run[0].bals, EnabledIds(slaves0)) && Tallied(run[0].slaves, was, |was|)
    ensures |hash| == |was| && forall b | 0 <= b < |was| ::
              hash[b] == Entry(if was[b].txBytes / 2 == 0 then None else shifted[b].slave, was[b].txBytes / 2)
  {
    hide Booked, Movable, Falling, Total, Load, IsRun, Halted, Tallied, Lists, Moves, EachOnce, Noted;
    slaves := Tally(order, slaves0, was);
    assert EnabledIds(slaves) == EnabledIds(slaves0);
    var bals := SortSlaves(order, slaves);
    slaves, hash, moved, run := ShiftLoads(bals, slaves, was);
    shifted := hash;
    hash := Decay(hash);
  }
}
