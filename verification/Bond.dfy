/** A bond (ovs/lib/bond.c): its slaves, its active slave and its hash buckets. */
module Bond {
  import opened Options
  import opened Seqs
  import opened PriorityList
  import opened BondLoads
  import opened BondBalance
  import opened BondLink

  datatype Mode = ActiveBackup | Slb | Tcp
  datatype Lacp = Negotiated | Configured | Disabled

  const BOND_MASK := 0xff

  /** The active slave is enabled, and there is one if any slave is enabled. */
  ghost predicate Settled(slaves: Slaves, active: Option<SlaveId>) {
    match active
    case Some(a) => a in slaves && slaves[a].enabled
    case None => forall s | s in slaves :: !slaves[s].enabled
  }

  /** Nothing changed, or no slave was enabled and the one due first was enabled early. */
  ghost predicate Activated(before: Slaves, after: Slaves, active: Option<SlaveId>) {
    || after == before
    || (&& active.Some? && active.value in before && Candidate(before[active.value])
        && (forall s | s in before ::
              && !before[s].enabled
              && (Candidate(before[s]) ==> before[active.value].delayExpires.value <= before[s].delayExpires.value))
        && after == before[active.value := before[active.value].(enabled := true, delayExpires := None)])
  }

  /** The settings that decide how long a link must last. */
  datatype View = View(lacp: bool, updelay: nat, downdelay: nat)
  {
    /** What an update of slave `x` sees. */
    function See(x: Slave, carrier: bool, now: int): Update {
      Update(now, carrier, x.mayEnable, lacp, updelay, downdelay)
    }
  }

  /** All slaves after one update each. */
  ghost function Updated(slaves: Slaves, view: View, carrier: map<SlaveId, bool>, now: int): (out: Slaves)
    requires slaves.Keys <= carrier.Keys
    ensures out.Keys == slaves.Keys
  {
    map s | s in slaves :: LinkStatus(slaves[s], view.See(slaves[s], carrier[s], now))
  }

  class Bond {
    var slaves: Slaves
    var order: seq<SlaveId>          // the iteration order of the hash map 'slaves'
    var balance: Mode
    var activeSlave: Option<SlaveId>
    var updelay: nat
    var downdelay: nat
    var lacpStatus: Lacp
    var bondRevalidate: bool
    var hash: Option<seq<Entry>>     // BOND_MASK + 1 buckets, absent in active-backup mode
    var rebalanceInterval: nat
    var nextRebalance: int
    var sendLearningPackets: bool

    /** What every operation keeps. */
    ghost predicate Valid()
      reads this
    {
      && Lists(order, slaves.Keys)
      && (activeSlave.Some? ==> activeSlave.value in slaves)
      && (hash.Some? <==> balance != ActiveBackup)
      && (hash.Some? ==> |hash.value| == BOND_MASK + 1 && Assigned(hash.value, slaves))
    }

    constructor (balance: Mode, interval: nat, updelay: nat, downdelay: nat, now: int)
      ensures Valid() && slaves == map[] && activeSlave == None && this.balance == balance
      ensures this.updelay == updelay && this.downdelay == downdelay && lacpStatus == Disabled && !bondRevalidate
      ensures rebalanceInterval == interval && (balance != ActiveBackup ==> nextRebalance == now + interval)
      ensures Settled(slaves, activeSlave) && (hash.Some? ==> hash == Some(EmptyBuckets()))
    {
      this.slaves, this.order, this.activeSlave := map[], [], None;
      this.balance, this.rebalanceInterval := balance, interval;
      this.updelay, this.downdelay, this.lacpStatus := updelay, downdelay, Disabled;
      this.bondRevalidate, this.sendLearningPackets := false, false;
      this.nextRebalance := if balance == ActiveBackup then 0 else now + interval;
      this.hash := if balance == ActiveBackup then None else Some(EmptyBuckets());
    }

    /** bond_entry_reset. */
    method EntryReset(now: int)
      modifies this`hash, this`nextRebalance
      ensures hash == if balance == ActiveBackup then None else Some(EmptyBuckets())
      ensures nextRebalance == if balance == ActiveBackup then old(nextRebalance) else now + rebalanceInterval
    {
      if balance != ActiveBackup {
        hash := Some(EmptyBuckets());
        nextRebalance := now + rebalanceInterval;
      } else {
        hash := None;
      }
    }

    /** bond_slave_register; the new slave follows its carrier at once. */
    method Register(id: SlaveId, carrier: bool)
      requires Valid()
      modifies this`slaves, this`order, this`bondRevalidate
      ensures Valid()
      ensures slaves == if id in old(slaves) then old(slaves)
                        else old(slaves)[id := Slave(carrier, false, None, 0, [])]
      ensures bondRevalidate == (old(bondRevalidate) || id !in old(slaves))
    {
      if id !in slaves {
        hide Lists;
        AppendedLists(order, slaves.Keys, id);
        slaves := slaves[id := Slave(carrier, false, None, 0, [])];
        order := order + [id];
        bondRevalidate := true;
        assert slaves.Keys == old(slaves.Keys) + {id};
      }
    }

    /** bond_choose_slave: an enabled slave, or else the one to be enabled next. */
    method ChooseSlave() returns (best: Option<SlaveId>)
      requires Lists(order, slaves.Keys)
      ensures best.Some? ==> best.value in slaves
      ensures (exists s :: s in slaves && slaves[s].enabled) ==> best.Some? && slaves[best.value].enabled
      ensures best.Some? && !slaves[best.value].enabled ==>
                && slaves[best.value].delayExpires.Some? && slaves[best.value].mayEnable
                && forall s | s in slaves && slaves[s].delayExpires.Some? && slaves[s].mayEnable ::
                  slaves[best.value].delayExpires.value <= slaves[s].delayExpires.value
      ensures best.None? ==> forall s | s in slaves :: !(slaves[s].delayExpires.Some? && slaves[s].mayEnable)
    {
      for i := 0 to |order|
        invariant forall j | 0 <= j < i :: !slaves[order[j]].enabled
      {
        if slaves[order[i]].enabled {
          return Some(order[i]);
        }
      }
      best := None;
      for i := 0 to |order|
        invariant best.Some? ==> best.value in slaves && Candidate(slaves[best.value])
        invariant forall j | 0 <= j < i && Candidate(slaves[order[j]]) ::
                    best.Some? && slaves[best.value].delayExpires.value <= slaves[order[j]].delayExpires.value
      {
        var x := slaves[order[i]];
        if Candidate(x) && (best.None? || x.delayExpires.value < slaves[best.value].delayExpires.value) {
          best := Some(order[i]);
        }
      }
    }

    /** bond_choose_active_slave: with no slave enabled, the one due next is enabled early. */
    method ChooseActiveSlave()
      requires Lists(order, slaves.Keys)
      modifies this`slaves, this`activeSlave, this`sendLearningPackets
      ensures slaves.Keys == old(slaves.Keys) && Settled(slaves, activeSlave)
      ensures Activated(old(slaves), slaves, activeSlave)
      ensures activeSlave.None? ==> forall s | s in slaves :: !Candidate(old(slaves)[s])
    {
      activeSlave := ChooseSlave();
      if activeSlave.Some? {
        var a := activeSlave.value;
        if !slaves[a].enabled {
          slaves := slaves[a := slaves[a].(enabled := true, delayExpires := None)];
        }
        sendLearningPackets := true;
      }
    }

    /** bond_slave_unregister. */
    method Unregister(id: SlaveId)
      requires Valid()
      modifies this`slaves, this`order, this`hash, this`activeSlave, this`sendLearningPackets
      ensures Valid() && slaves.Keys == old(slaves.Keys) - {id}
      ensures old(Settled(slaves, activeSlave)) ==> Settled(slaves, activeSlave)
      ensures old(activeSlave) != Some(id) ==> activeSlave == old(activeSlave) && slaves == old(slaves) - {id}
      ensures old(activeSlave) == Some(id) ==>
                Settled(slaves, activeSlave) && Activated(old(slaves) - {id}, slaves, activeSlave)
      ensures hash.Some? ==> forall b | 0 <= b <= BOND_MASK ::
                hash.value[b] == if old(hash).value[b].slave == Some(id) && id in old(slaves)
                                 then old(hash).value[b].(slave := None) else old(hash).value[b]
    {
      hide Lists, Activated;
      if id !in slaves {
        return;
      }
      if hash.Some? {
        var out := Forget(hash.value, id);
        hash := Some(out);
      }
      RemoveSlave(id);
      if activeSlave == Some(id) {
        ChooseActiveSlave();
        sendLearningPackets := true;
      }
    }

    method RemoveSlave(id: SlaveId)
      requires Lists(order, slaves.Keys) && id in slaves
      modifies this`slaves, this`order
      ensures slaves == old(slaves) - {id} && Lists(order, slaves.Keys)
    {
      var k :| 0 <= k < |order| && order[k] == id;
      hide Lists;
      WithoutLists(order, k, slaves.Keys);
      order := RemoveAt(order, k);
      slaves := slaves - {id};
      assert slaves.Keys == old(slaves.Keys) - {id};
    }

    /** bond_slave_set_may_enable. */
    method SetMayEnable(id: SlaveId, mayEnable: bool)
      requires Valid() && id in slaves
      modifies this`slaves
      ensures Valid() && slaves == old(slaves)[id := old(slaves)[id].(mayEnable := mayEnable)]
    {
      slaves := slaves[id := slaves[id].(mayEnable := mayEnable)];
      assert slaves.Keys == old(slaves.Keys);
    }

    /** bond_link_status_update. */
    method LinkStatusUpdate(id: SlaveId, carrier: bool, now: int)
      requires id in slaves
      modifies this`slaves
      ensures slaves == old(slaves)[id := LinkStatus(old(slaves)[id], Settings().See(old(slaves)[id], carrier, now))]
      ensures lacpStatus != Disabled && old(slaves)[id].delayExpires.None? ==>
                slaves[id].enabled == (carrier && slaves[id].mayEnable)
    {
      var x := slaves[id];
      var up := carrier && x.mayEnable;
      if (up == x.enabled) != x.delayExpires.None? {
        if up == x.enabled {
          x := x.(delayExpires := None);
        } else {
          var delay := if lacpStatus != Disabled then 0 else if up then updelay else downdelay;
          x := x.(delayExpires := Some(now + delay));
        }
      }
      if x.delayExpires.Some? && now >= x.delayExpires.value {
        x := x.(enabled := up, delayExpires := None);
      }
      slaves := slaves[id := x];
    }

    function Settings(): View
      reads this`lacpStatus, this`updelay, this`downdelay
    {
      View(lacpStatus != Disabled, updelay, downdelay)
    }

    /** The first loop of bond_run. */
    method UpdateLinks(carrier: map<SlaveId, bool>, now: int)
      requires Lists(order, slaves.Keys) && slaves.Keys <= carrier.Keys
      modifies this`slaves
      ensures slaves == Updated(old(slaves), Settings(), carrier, now)
    {
      hide LinkStatus;
      for i := 0 to |order|
        invariant slaves.Keys == old(slaves.Keys)
        invariant forall j | 0 <= j < i :: slaves[order[j]] == Updated(old(slaves), Settings(), carrier, now)[order[j]]
        invariant forall j | i <= j < |order| :: slaves[order[j]] == old(slaves)[order[j]]
      {
        LinkStatusUpdate(order[i], carrier[order[i]], now);
      }
    }

    /** bond_run. */
    method Run(lacp: Lacp, carrier: map<SlaveId, bool>, now: int)
      requires Valid() && slaves.Keys <= carrier.Keys
      modifies this
      ensures Valid() && Settled(slaves, activeSlave)
      ensures lacpStatus == lacp && !bondRevalidate
      ensures balance == old(balance) && rebalanceInterval == old(rebalanceInterval)
      ensures updelay == old(updelay) && downdelay == old(downdelay)
      ensures Activated(Updated(old(slaves), Settings(), carrier, now), slaves, activeSlave)
      ensures activeSlave.None? ==> forall s | s in slaves :: !(carrier[s] && slaves[s].mayEnable)
      ensures hash == if old(bondRevalidate) || lacp != old(lacpStatus)
                      then (if balance == ActiveBackup then None else Some(EmptyBuckets())) else old(hash)
      ensures nextRebalance == if (old(bondRevalidate) || lacp != old(lacpStatus)) && balance != ActiveBackup
                               then now + rebalanceInterval else old(nextRebalance)
    {
      hide LinkStatus, Lists, Updated, Activated, Candidate, Settled;
      if lacpStatus != lacp {
        lacpStatus := lacp;
        bondRevalidate := true;
      }
      RunLinks(carrier, now);
      Revalidate(now);
    }

    /** The part of bond_run that concerns the links. */
    method RunLinks(carrier: map<SlaveId, bool>, now: int)
      requires Lists(order, slaves.Keys) && slaves.Keys <= carrier.Keys
      requires activeSlave.Some? ==> activeSlave.value in slaves
      modifies this`slaves, this`activeSlave, this`sendLearningPackets
      ensures slaves.Keys == old(slaves.Keys) && Settled(slaves, activeSlave)
      ensures activeSlave.Some? ==> activeSlave.value in slaves
      ensures Activated(Updated(old(slaves), Settings(), carrier, now), slaves, activeSlave)
      ensures activeSlave.None? ==> forall s | s in slaves :: !(carrier[s] && slaves[s].mayEnable)
    {
      hide LinkStatus, Lists, Updated, Activated, Candidate, Settled;
      UpdateLinks(carrier, now);
      EnsureActive();
      if activeSlave.None? {
        NoneUp(old(slaves), Settings(), carrier, now, slaves);
      }
    }

    /** Replaces an active slave that is missing or disabled. */
    method EnsureActive()
      requires Lists(order, slaves.Keys) && (activeSlave.Some? ==> activeSlave.value in slaves)
      modifies this`slaves, this`activeSlave, this`sendLearningPackets
      ensures slaves.Keys == old(slaves.Keys) && Settled(slaves, activeSlave)
      ensures Activated(old(slaves), slaves, activeSlave) && (activeSlave.Some? ==> activeSlave.value in slaves)
      ensures activeSlave.None? ==> forall s | s in slaves :: !Candidate(old(slaves)[s])
    {
      hide Lists, Activated;
      NothingActivated(slaves, activeSlave);
      if activeSlave.None? || !slaves[activeSlave.value].enabled {
        ChooseActiveSlave();
      }
    }

    /** Empties the buckets if something made their assignment obsolete. */
    method Revalidate(now: int)
      modifies this`hash, this`nextRebalance, this`bondRevalidate
      ensures !bondRevalidate
      ensures hash == if !old(bondRevalidate) then old(hash)
                      else if balance == ActiveBackup then None else Some(EmptyBuckets())
      ensures nextRebalance == if old(bondRevalidate) && balance != ActiveBackup then now + rebalanceInterval
                               else old(nextRebalance)
    {
      if bondRevalidate {
        bondRevalidate := false;
        EntryReset(now);
      }
    }

    /** Does the LACP state let the balancing mode send at all? */
    predicate Usable()
      reads this
    {
      lacpStatus != Configured && (balance == Tcp ==> lacpStatus == Negotiated)
    }

    /** choose_output_slave, for a flow that hashes to `bucket`; `pick` is the random choice of a slave. */
    method ChooseOutputSlave(bucket: nat, pick: nat) returns (r: Option<SlaveId>)
      requires Valid() && bucket <= BOND_MASK
      requires Usable() && balance != ActiveBackup ==> pick < |order|
      modifies this`hash
      ensures Valid()
      ensures lacpStatus == Configured || (balance == Tcp && lacpStatus != Negotiated) ==>
                r == None && hash == old(hash)
      ensures Usable() && balance == ActiveBackup ==> r == activeSlave
      ensures Settled(slaves, activeSlave) && Usable() ==>
                match r
                case Some(s) => s in slaves && slaves[s].enabled
                case None => forall s | s in slaves :: !slaves[s].enabled
      ensures hash.Some? ==> forall b | 0 <= b <= BOND_MASK ::
                && hash.value[b].txBytes == old(hash).value[b].txBytes
                && (b != bucket ==> hash.value[b] == old(hash).value[b])
      ensures Usable() && balance != ActiveBackup ==>
                && hash.value[bucket].slave == r
                && var e := old(hash).value[bucket];
                   if e.slave.Some? && slaves[e.slave.value].enabled then hash == old(hash)
                   else r == if slaves[order[pick]].enabled then Some(order[pick]) else activeSlave
    {
      if lacpStatus == Configured {
        return None;
      }
      if balance == ActiveBackup {
        return activeSlave;
      }
      if balance == Tcp && lacpStatus != Negotiated {
        return None;
      }
      var e := hash.value[bucket];
      if e.slave.None? || !slaves[e.slave.value].enabled {
        assert order[pick] in order;
        e := e.(slave := Some(order[pick]));
        if !slaves[order[pick]].enabled {
          e := e.(slave := activeSlave);
        }
        hash := Some(hash.value[bucket := e]);
      }
      return e.slave;
    }

    /** bond_account. */
    method Account(bucket: nat, bytes: nat)
      requires Valid() && bucket <= BOND_MASK
      modifies this`hash
      ensures Valid()
      ensures hash == if rebalanceInterval != 0 && balance != ActiveBackup
                      then var h := old(hash).value; Some(h[bucket := h[bucket].(txBytes := h[bucket].txBytes + bytes)])
                      else old(hash)
    {
      if rebalanceInterval != 0 && balance != ActiveBackup {
        var e := hash.value[bucket];
        hash := Some(hash.value[bucket := e.(txBytes := e.txBytes + bytes)]);
      }
    }

    /** bond_rebalance. */
    method Rebalance(now: int) returns (ghost shifted: seq<Entry>, ghost moved: set<nat>, ghost run: seq<Round>)
      requires Valid()
      modifies this`slaves, this`hash, this`nextRebalance
      ensures Valid() && SameSlaves(old(slaves), slaves)
      ensures old(Settled(slaves, activeSlave)) ==> Settled(slaves, activeSlave)
      ensures rebalanceInterval == 0 || balance == ActiveBackup || now < old(nextRebalance) ==>
                slaves == old(slaves) && hash == old(hash) && nextRebalance == old(nextRebalance)
      ensures !(rebalanceInterval == 0 || balance == ActiveBackup || now < old(nextRebalance)) ==>
                && nextRebalance == now + rebalanceInterval
                && Booked(slaves, shifted) && OnlyMoved(old(hash).value, shifted, slaves, moved)
                && IsRun(run, old(hash).value) && Halted(run[|run| - 1])
                && EachOnce(run) && Noted(run, moved) && Moves(run) == |moved|
                && run[|run| - 1].slaves == slaves && run[|run| - 1].hash == shifted
                && run[0].hash == old(hash).value && Lists(run[0].bals, EnabledIds(old(slaves)))
                && forall b | 0 <= b <= BOND_MASK ::
                     hash.value[b].txBytes == shifted[b].txBytes / 2 &&
                     hash.value[b].slave == if hash.value[b].txBytes == 0 then None else shifted[b].slave
    {
      hide IsRun, Halted, Booked, Lists, Moves, EachOnce, Noted, Tallied, Load, Total;
      if rebalanceInterval == 0 || balance == ActiveBackup || now < nextRebalance {
        return [], {}, [];
      }
      nextRebalance := now + rebalanceInterval;
      var after, buckets;
      after, buckets, shifted, moved, run := BondBalance.Rebalance(order, slaves, hash.value);
      slaves, hash := after, Some(buckets);
    }
  }

  /** Both wait, and `x` no longer than `y`. */
  ghost predicate Earlier(x: Slave, y: Slave) {
    x.delayExpires.Some? && y.delayExpires.Some? && x.delayExpires.value <= y.delayExpires.value
  }

  /** What bond_run does to one slave: an update, and an early enabling at most if no slave is
   * enabled after the updates and it is the first to come up of those with a carrier that may. */
  lemma RunActs(before: Slaves, view: View, carrier: map<SlaveId, bool>, now: int, after: Slaves,
                active: Option<SlaveId>, s: SlaveId)
    requires before.Keys <= carrier.Keys && Activated(Updated(before, view, carrier, now), after, active) && s in before
    ensures s in after
    ensures var u := view.See(before[s], carrier[s], now);
            || after[s] == AfterEvents(before[s], [Seen(u)])
            || (&& after[s] == AfterEvents(before[s], [Seen(u), EnabledEarly]) && active == Some(s)
                && carrier[s] && before[s].mayEnable
                && forall x | x in before ::
                     var y := Updated(before, view, carrier, now)[x];
                     && !y.enabled
                     && (carrier[x] && before[x].mayEnable ==> Earlier(LinkStatus(before[s], u), y)))
  {
    var u := view.See(before[s], carrier[s], now);
    forall x | x in before
      ensures var y, v := Updated(before, view, carrier, now)[x], view.See(before[x], carrier[x], now);
              && y.mayEnable == before[x].mayEnable && (y.delayExpires.None? <==> y.enabled == v.Up())
    {
      NoTimerWhenAgreeing(before[x], view.See(before[x], carrier[x], now));
    }
    hide LinkStatus;
    assert [Seen(u)][..0] == [] && [Seen(u), EnabledEarly][..1] == [Seen(u)];
    assert AfterEvents(before[s], [Seen(u)]) == LinkStatus(before[s], u);
  }

  /** Without an active slave none has its carrier and may be enabled: it would be enabled, or on its way up. */
  lemma NoneUp(before: Slaves, view: View, carrier: map<SlaveId, bool>, now: int, after: Slaves)
    requires before.Keys <= carrier.Keys && Activated(Updated(before, view, carrier, now), after, None)
    requires Settled(after, None)
    requires forall s | s in before :: !Candidate(Updated(before, view, carrier, now)[s])
    ensures forall s | s in after :: s in carrier && !(carrier[s] && after[s].mayEnable)
  {
    forall s | s in after ensures s in carrier && !(carrier[s] && after[s].mayEnable) {
      NoTimerWhenAgreeing(before[s], view.See(before[s], carrier[s], now));
    }
  }

  lemma NothingActivated(slaves: Slaves, active: Option<SlaveId>)
    ensures Activated(slaves, slaves, active)
  {}

  /** A disabled slave that is on its way up. */
  predicate Candidate(x: Slave) {
    x.delayExpires.Some? && x.mayEnable
  }

  function EmptyBuckets(): (h: seq<Entry>)
    ensures |h| == 256 && forall b | 0 <= b <= BOND_MASK :: h[b] == Entry(None, 0)
  {
    seq(BOND_MASK + 1, i => Entry(None, 0))
  }

  /** The buckets without the assignments to slave `id`. */
  method Forget(hash: seq<Entry>, id: SlaveId) returns (out: seq<Entry>)
    ensures |out| == |hash|
    ensures forall b | 0 <= b < |hash| ::
              out[b] == if hash[b].slave == Some(id) then hash[b].(slave := None) else hash[b]
  {
    out := hash;
    for i := 0 to |hash|
      invariant |out| == |hash|
      invariant forall b | i <= b < |hash| :: out[b] == hash[b]
      invariant forall b | 0 <= b < i ::
                  out[b] == if hash[b].slave == Some(id) then hash[b].(slave := None) else hash[b]
    {
      if out[i].slave == Some(id) {
        out := out[i := out[i].(slave := None)];
      }
    }
  }
}
